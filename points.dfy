/**
 * What the write path decides for each incoming sample, and the per-database buckets of points
 * that a batch of samples produces.
 */
module Points {
  import opened Wrappers
  import opened Floats
  import opened Labels
  import opened Adapter

  /** A remote-write sample: its labels (with the metric name), value and timestamp in ms. */
  datatype Sample = Sample(metric: LabelSet, value: Float64, timestamp: int)

  /** The classifier's answer for a metric name; a measurement of "" means unclassified. */
  datatype Classification = Classification(measurement: string, field: string)

  datatype FieldValue = StringField(text: string) | FloatField(number: Float64)

  /** A point handed to the InfluxDB client. */
  datatype Point = Point(measurement: string, tags: LabelSet, fields: map<string, FieldValue>, time: int)

  datatype IgnoreReason = NonFinite | Unclassified | NoTags

  datatype Decision = Ignore(reason: IgnoreReason) | Emit(database: string, point: Point)

  /** One batched write: the database, retention policy, precision and points. */
  datatype BatchPoints = BatchPoints(database: string, retentionPolicy: string, precision: string, points: seq<Point>)

  datatype WriteError = PointError | BatchError

  /** The tag/field split of the measurement's spec; two empty maps for an unknown measurement. */
  function SplitFor(ms: map<string, Measurement>, measurementName: string, labels: LabelSet): (LabelSet, LabelSet) {
    if measurementName in ms then
      var m := ms[measurementName];
      Partition(labels, m.tags, m.dropLabels)
    else
      (map[], map[])
  }

  /** The field that receives the sample value. */
  function FieldKey(field: string): string {
    if field == "" then "value" else field
  }

  /** What happens to one sample, with the three reasons to ignore it tested in the source's order. */
  function Decide(ms: map<string, Measurement>, classify: string -> Classification, s: Sample): (r: Decision)
    ensures r == Ignore(NonFinite) <==> !s.value.IsFinite()
    ensures r == Ignore(Unclassified) <==>
      s.value.IsFinite() && classify(MetricName(s.metric)).measurement == ""
    ensures r == Ignore(NoTags) <==>
      s.value.IsFinite() && classify(MetricName(s.metric)).measurement != "" &&
      SplitFor(ms, classify(MetricName(s.metric)).measurement, s.metric).0 == map[]
  {
    if !s.value.IsFinite() then Ignore(NonFinite)
    else
      var c := classify(MetricName(s.metric));
      if c.measurement == "" then Ignore(Unclassified)
      else
        var split := SplitFor(ms, c.measurement, s.metric);
        if |split.0| == 0 then Ignore(NoTags)
        else
          var labelFields := map l | l in split.1 :: StringField(split.1[l]);
          var fields := labelFields[FieldKey(c.field) := FloatField(s.value)];
          Emit(ms[c.measurement].database, Point(c.measurement, split.0, fields, s.timestamp))
  }

  /** The point of an emitted sample: its tags, its label fields and the value under its field key. */
  lemma EmittedPoint(ms: map<string, Measurement>, classify: string -> Classification, s: Sample)
    requires Decide(ms, classify, s).Emit?
    ensures var r := Decide(ms, classify, s);
      var c := classify(MetricName(s.metric));
      // the bucket lookup of the source never meets a missing measurement
      && c.measurement in ms
      && r.database == ms[c.measurement].database
      && r.point.measurement == c.measurement
      && r.point.time == s.timestamp
      && r.point.tags != map[]
      // the tags are exactly the labels the spec names as tags
      && r.point.tags == Partition(s.metric, ms[c.measurement].tags, ms[c.measurement].dropLabels).0
      && FieldKey(c.field) in r.point.fields
      && r.point.fields[FieldKey(c.field)] == FloatField(s.value)
      // every other field is a label that is neither a tag nor dropped, and every such label is a field
      && (forall l :: l != FieldKey(c.field) ==>
            (l in r.point.fields <==>
               l in Partition(s.metric, ms[c.measurement].tags, ms[c.measurement].dropLabels).1) &&
            (l in r.point.fields ==> l in s.metric && r.point.fields[l] == StringField(s.metric[l])))
  {
    var c := classify(MetricName(s.metric));
    var split := SplitFor(ms, c.measurement, s.metric);
    assert c.measurement in ms;
  }

  /** The (database, point) pairs emitted by `samples`, in sample order. */
  function Emitted(ms: map<string, Measurement>, classify: string -> Classification, samples: seq<Sample>)
    : seq<(string, Point)>
  {
    if samples == [] then []
    else
      var prev := Emitted(ms, classify, samples[..|samples| - 1]);
      match Decide(ms, classify, samples[|samples| - 1])
      case Emit(db, p) => prev + [(db, p)]
      case Ignore(_) => prev
  }

  /** The number of ignored samples. */
  function IgnoredCount(ms: map<string, Measurement>, classify: string -> Classification, samples: seq<Sample>): nat {
    if samples == [] then 0
    else
      IgnoredCount(ms, classify, samples[..|samples| - 1]) +
      (if Decide(ms, classify, samples[|samples| - 1]).Ignore? then 1 else 0)
  }

  /** The `points` map of `Write`: each emitted point appended to its database's bucket. */
  function Buckets(ms: map<string, Measurement>, classify: string -> Classification, samples: seq<Sample>)
    : map<string, seq<Point>>
  {
    if samples == [] then map[]
    else
      var prev := Buckets(ms, classify, samples[..|samples| - 1]);
      match Decide(ms, classify, samples[|samples| - 1])
      case Emit(db, p) => prev[db := (if db in prev then prev[db] else []) + [p]]
      case Ignore(_) => prev
  }

  /** The points of `emitted` that go to `db`, in order. */
  function PointsFor(emitted: seq<(string, Point)>, db: string): seq<Point> {
    if emitted == [] then []
    else
      PointsFor(emitted[..|emitted| - 1], db) +
      (if emitted[|emitted| - 1].0 == db then [emitted[|emitted| - 1].1] else [])
  }

  /** The databases that `emitted` names. */
  function Databases(emitted: seq<(string, Point)>): set<string> {
    set e | e in emitted :: e.0
  }

  /** A sample whose point the InfluxDB client refuses to build. */
  predicate BadPoint(ms: map<string, Measurement>, classify: string -> Classification, pointOk: Point -> bool, s: Sample) {
    Decide(ms, classify, s).Emit? && !pointOk(Decide(ms, classify, s).point)
  }

  /** The index of the first element of `xs` that satisfies `p`. */
  function FirstWhere<T>(xs: seq<T>, p: T -> bool): (r: Option<nat>)
    ensures r.Some? ==> r.value < |xs| && p(xs[r.value]) && forall j :: 0 <= j < r.value ==> !p(xs[j])
    ensures r.None? ==> forall j :: 0 <= j < |xs| ==> !p(xs[j])
  {
    if xs == [] then None
    else if p(xs[0]) then Some(0)
    else match FirstWhere(xs[1..], p)
      case Some(i) => Some(i + 1)
      case None => None
  }

  lemma FirstWhereAt<T>(xs: seq<T>, p: T -> bool, i: nat)
    requires i < |xs| && p(xs[i]) && FirstWhere(xs[..i], p).None?
    ensures FirstWhere(xs, p) == Some(i)
  {
    assert forall j :: 0 <= j < i ==> xs[..i][j] == xs[j];
  }

  lemma FirstWhereExtends<T>(xs: seq<T>, p: T -> bool, i: nat)
    requires i < |xs| && !p(xs[i]) && FirstWhere(xs[..i], p).None?
    ensures FirstWhere(xs[..i + 1], p).None?
  {
    assert forall j :: 0 <= j < i ==> xs[..i][j] == xs[j] == xs[..i + 1][j];
  }

  function BadPointTest(ms: map<string, Measurement>, classify: string -> Classification, pointOk: Point -> bool)
    : Sample -> bool
  {
    s => BadPoint(ms, classify, pointOk, s)
  }

  /** The first sample whose point cannot be built, where `Write` stops. */
  function FirstBadPoint(ms: map<string, Measurement>, classify: string -> Classification, pointOk: Point -> bool,
                         samples: seq<Sample>): (r: Option<nat>)
    ensures r.Some? ==>
      r.value < |samples| && BadPoint(ms, classify, pointOk, samples[r.value]) &&
      forall j :: 0 <= j < r.value ==> !BadPoint(ms, classify, pointOk, samples[j])
    ensures r.None? ==> forall j :: 0 <= j < |samples| ==> !BadPoint(ms, classify, pointOk, samples[j])
  {
    FirstWhere(samples, BadPointTest(ms, classify, pointOk))
  }

  /** The first sample whose point fails is where `Write` stops. */
  lemma FirstBadPointAt(ms: map<string, Measurement>, classify: string -> Classification, pointOk: Point -> bool,
                        samples: seq<Sample>, i: nat)
    requires i < |samples| && BadPoint(ms, classify, pointOk, samples[i])
    requires FirstBadPoint(ms, classify, pointOk, samples[..i]).None?
    ensures FirstBadPoint(ms, classify, pointOk, samples) == Some(i)
  {
    FirstWhereAt(samples, BadPointTest(ms, classify, pointOk), i);
  }

  /** A good sample after good ones leaves no bad point so far. */
  lemma NoBadPointExtends(ms: map<string, Measurement>, classify: string -> Classification, pointOk: Point -> bool,
                          samples: seq<Sample>, i: nat)
    requires i < |samples| && !BadPoint(ms, classify, pointOk, samples[i])
    requires FirstBadPoint(ms, classify, pointOk, samples[..i]).None?
    ensures FirstBadPoint(ms, classify, pointOk, samples[..i + 1]).None?
  {
    FirstWhereExtends(samples, BadPointTest(ms, classify, pointOk), i);
  }

  /** What one more sample adds to the ignored count and to the buckets. */
  lemma SampleStep(ms: map<string, Measurement>, classify: string -> Classification, samples: seq<Sample>, i: nat)
    requires i < |samples|
    ensures IgnoredCount(ms, classify, samples[..i + 1]) ==
      IgnoredCount(ms, classify, samples[..i]) + if Decide(ms, classify, samples[i]).Ignore? then 1 else 0
    ensures var prev := Buckets(ms, classify, samples[..i]);
      Buckets(ms, classify, samples[..i + 1]) ==
        match Decide(ms, classify, samples[i])
        case Emit(db, p) => prev[db := (if db in prev then prev[db] else []) + [p]]
        case Ignore(_) => prev
  {
    assert samples[..i + 1][..i] == samples[..i];
  }

  /** Every sample is either ignored once or emits exactly one point. */
  lemma {:induction false} EachSampleCountedOnce(ms: map<string, Measurement>, classify: string -> Classification,
                                                 samples: seq<Sample>)
    ensures |Emitted(ms, classify, samples)| + IgnoredCount(ms, classify, samples) == |samples|
  {
    if samples != [] {
      EachSampleCountedOnce(ms, classify, samples[..|samples| - 1]);
    }
  }

  /** One bucket per database that some emitted point goes to. */
  lemma {:induction false} BucketKeys(ms: map<string, Measurement>, classify: string -> Classification,
                                      samples: seq<Sample>)
    ensures Buckets(ms, classify, samples).Keys == Databases(Emitted(ms, classify, samples))
  {
    if samples != [] {
      var init := samples[..|samples| - 1];
      BucketKeys(ms, classify, init);
      var d := Decide(ms, classify, samples[|samples| - 1]);
      if d.Emit? {
        var prev := Emitted(ms, classify, init);
        assert Databases(prev + [(d.database, d.point)]) == Databases(prev) + {d.database};
      }
    }
  }

  /** Each bucket holds exactly the points emitted for its database, in sample order. */
  lemma {:induction false} BucketsGroupEmitted(ms: map<string, Measurement>, classify: string -> Classification,
                                               samples: seq<Sample>, db: string)
    requires db in Buckets(ms, classify, samples)
    ensures Buckets(ms, classify, samples)[db] == PointsFor(Emitted(ms, classify, samples), db)
  {
    var init := samples[..|samples| - 1];
    var prevB := Buckets(ms, classify, init);
    var prev := Emitted(ms, classify, init);
    var d := Decide(ms, classify, samples[|samples| - 1]);
    if d.Ignore? {
      BucketsGroupEmitted(ms, classify, init, db);
    } else {
      var e := prev + [(d.database, d.point)];
      assert e[..|e| - 1] == prev;
      if db in prevB {
        BucketsGroupEmitted(ms, classify, init, db);
      } else {
        assert db == d.database;
        BucketKeys(ms, classify, init);
        PointsForAbsent(prev, db);
      }
    }
  }

  lemma {:induction false} PointsForAbsent(emitted: seq<(string, Point)>, db: string)
    requires db !in Databases(emitted)
    ensures PointsFor(emitted, db) == []
  {
    if emitted != [] {
      assert emitted[|emitted| - 1] in emitted;
      assert Databases(emitted[..|emitted| - 1]) <= Databases(emitted) by {
        forall x | x in emitted[..|emitted| - 1] ensures x in emitted { }
      }
      PointsForAbsent(emitted[..|emitted| - 1], db);
    }
  }
}
