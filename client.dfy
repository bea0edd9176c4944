/**
 * The adapter's InfluxDB client: the measurement index built from configuration, the write
 * path with its three counters, and the query text for a read.
 */
module Client {
  import opened Wrappers
  import opened Strings
  import opened Floats
  import opened Config
  import opened Labels
  import opened Adapter
  import opened Points
  import opened QueryBuilder

  /** Each written batch is for a distinct bucket, carries that bucket's points, and was accepted. */
  ghost predicate SentBatches(sent: seq<BatchPoints>, buckets: map<string, seq<Point>>, retentionPolicy: string,
                              batchOk: string -> bool) {
    && (forall k :: 0 <= k < |sent| ==>
          sent[k].database in buckets && batchOk(sent[k].database) &&
          sent[k] == BatchPoints(sent[k].database, retentionPolicy, "ms", buckets[sent[k].database]))
    && (forall k, l :: 0 <= k < l < |sent| ==> sent[k].database != sent[l].database)
  }

  function DatabasesOf(sent: seq<BatchPoints>): set<string> {
    set b | b in sent :: b.database
  }

  class Client {
    const database: string
    const retentionPolicy: string
    var ignoredSamples: nat
    var receiveSamples: nat
    var sendSamples: nat
    const adapter: AdapterManager
    var databases: map<string, DatabasesManager>
    /** Every batch handed to the InfluxDB client, in order; its write errors are only logged. */
    var written: seq<BatchPoints>

    /** The client with its index built from `conf`; the HTTP client is not modelled. */
    constructor(database: string, retentionPolicy: string, conf: Config)
      ensures this.database == database && this.retentionPolicy == retentionPolicy
      ensures ignoredSamples == 0 && receiveSamples == 0 && sendSamples == 0 && written == []
      ensures forall k :: k in adapter.measurements <==> IsRegistered(conf, k)
      ensures forall k :: k in adapter.measurements ==>
        adapter.measurements[k] == ExpectedMeasurement(conf, database, k)
      ensures IndexSound(databases, adapter.measurements)
      ensures forall n :: n in adapter.measurements ==>
        Covers(databases, n, adapter.measurements[n], MetricKeys(n, adapter.measurements[n].fields))
    {
      var am := CreateAdapterManager(database, conf);
      this.database := database;
      this.retentionPolicy := retentionPolicy;
      ignoredSamples, receiveSamples, sendSamples := 0, 0, 0;
      adapter := am;
      databases := map[];
      written := [];
      new;
      CreateDatabasesManager();
    }

    /**
     * The measurement specs: first the whitelist (a repeated name keeps its first entry), then
     * every named configuration entry, which replaces whatever was there.
     */
    static method CreateAdapterManager(database: string, conf: Config) returns (r: AdapterManager)
      ensures forall k :: k in r.measurements <==> IsRegistered(conf, k)
      ensures forall k :: k in r.measurements ==> r.measurements[k] == ExpectedMeasurement(conf, database, k)
    {
      var gc := conf.globalConfig;
      var whitelist := gc.measurementsWhitelist;
      var ms: map<string, Measurement> := map[];
      var i := 0;
      while i < |whitelist|
        invariant 0 <= i <= |whitelist|
        invariant forall k :: k in ms <==> k in whitelist[..i]
        invariant forall k :: k in ms ==> ms[k] == FromWhitelist(k, gc.tagsWhitelist, database)
      {
        assert whitelist[..i + 1] == whitelist[..i] + [whitelist[i]];
        var meas := whitelist[i];
        if meas in ms {
          i := i + 1;
          continue;
        }
        var measurementOne := NewWhitelisted(meas, gc.tagsWhitelist, database);
        ms := ms[meas := measurementOne];
        i := i + 1;
      }
      assert whitelist[..i] == whitelist;
      WhitelistOnly(gc, database);
      var configs := conf.measurementsConfig;
      assert configs[..0] == [];
      var j := 0;
      while j < |configs|
        invariant 0 <= j <= |configs|
        invariant forall k :: k in ms <==> IsRegistered(Config(gc, configs[..j]), k)
        invariant forall k :: k in ms ==> ms[k] == ExpectedMeasurement(Config(gc, configs[..j]), database, k)
      {
        ConfigEntryStep(gc, configs, j, database);
        var measConf := configs[j];
        if measConf.name == "" {
          j := j + 1;
          continue;
        }
        var measurementOne := NewConfigured(measConf, gc.tagsWhitelist, database);
        ms := ms[measConf.name := measurementOne];
        j := j + 1;
      }
      assert configs[..j] == configs;
      r := AdapterManager(ms);
    }

    /** The spec of a whitelisted name: the global tags, no fields, the default database. */
    static method NewWhitelisted(name: string, tagsWhitelist: seq<string>, database: string) returns (m: Measurement)
      ensures m == FromWhitelist(name, tagsWhitelist, database)
    {
      var tags := AddAll({}, tagsWhitelist);
      m := Measurement(name, tags, {}, {}, database);
    }

    /** The spec of a configuration entry; an empty database means the default one. */
    static method NewConfigured(mc: MeasurementConfig, tagsWhitelist: seq<string>, database: string) returns (m: Measurement)
      ensures m == FromConfig(mc, tagsWhitelist, database)
    {
      var db := mc.database;
      if db == "" {
        db := database;
      }
      var tags := AddAll({}, tagsWhitelist);
      tags := AddAll(tags, mc.tags);
      var fields := AddAll({}, mc.fields);
      var dropLabels := AddAll({}, mc.dropLabels);
      m := Measurement(mc.name, tags, fields, dropLabels, db);
    }

    /** Adds every element of `xs` to the set `s`. */
    static method AddAll(s: set<string>, xs: seq<string>) returns (r: set<string>)
      ensures r == s + Elems(xs)
    {
      r := s;
      var i := 0;
      while i < |xs|
        invariant 0 <= i <= |xs|
        invariant r == s + Elems(xs[..i])
      {
        assert Elems(xs[..i + 1]) == Elems(xs[..i]) + {xs[i]} by {
          assert xs[..i + 1] == xs[..i] + [xs[i]];
        }
        r := r + {xs[i]};
        i := i + 1;
      }
      assert xs[..i] == xs;
    }

    /**
     * The per-database index: a measurement without fields answers to its own name, one with
     * fields to `name_field` for each field. Nothing registered is ever replaced.
     */
    method CreateDatabasesManager()
      modifies this`databases
      ensures IndexSound(databases, adapter.measurements)
      ensures forall n :: n in adapter.measurements ==>
        Covers(databases, n, adapter.measurements[n], MetricKeys(n, adapter.measurements[n].fields))
    {
      var ms := adapter.measurements;
      var dbs: map<string, DatabasesManager> := map[];
      var rest := ms.Keys;
      while rest != {}
        invariant rest <= ms.Keys
        invariant IndexSound(dbs, ms)
        invariant forall n :: n in ms.Keys - rest ==> Covers(dbs, n, ms[n], MetricKeys(n, ms[n].fields))
        decreases rest
      {
        var name :| name in rest;
        dbs := RegisterMeasurement(dbs, ms, name);
        rest := rest - {name};
      }
      databases := dbs;
    }

    /** The body of the loop of `CreateDatabasesManager`: every metric name of one measurement registered. */
    static method RegisterMeasurement(dbs: map<string, DatabasesManager>, ms: map<string, Measurement>, name: string)
      returns (r: map<string, DatabasesManager>)
      requires IndexSound(dbs, ms) && name in ms
      ensures IndexSound(r, ms)
      ensures Covers(r, name, ms[name], MetricKeys(name, ms[name].fields))
      ensures forall db, n, k :: HasRoute(dbs, db, n, k) ==> HasRoute(r, db, n, k)
      ensures Extends(dbs, r)
    {
      r := dbs;
      var measure := ms[name];
      if |measure.fields| == 0 {
        RegisterKeepsSound(r, ms, name, name);
        RegisterExtends(dbs, r, name, measure, name);
        r := Register(r, name, measure, name);
      }
      r := RegisterFields(r, ms, name);
    }

    /** The inner loop of `CreateDatabasesManager`: `name_field` registered for every field of `name`. */
    static method RegisterFields(dbs: map<string, DatabasesManager>, ms: map<string, Measurement>, name: string)
      returns (r: map<string, DatabasesManager>)
      requires IndexSound(dbs, ms) && name in ms
      ensures IndexSound(r, ms)
      ensures forall f :: f in ms[name].fields ==> HasRoute(r, ms[name].database, name, name + "_" + f)
      ensures forall db, n, k :: HasRoute(dbs, db, n, k) ==> HasRoute(r, db, n, k)
      ensures Extends(dbs, r)
    {
      r := dbs;
      var measure := ms[name];
      var fs := measure.fields;
      while fs != {}
        invariant fs <= measure.fields
        invariant IndexSound(r, ms)
        invariant forall db, n, k :: HasRoute(dbs, db, n, k) ==> HasRoute(r, db, n, k)
        invariant Extends(dbs, r)
        invariant forall f :: f in measure.fields - fs ==> HasRoute(r, measure.database, name, name + "_" + f)
        decreases fs
      {
        var field :| field in fs;
        RegisterFieldStep(r, ms, name, measure.fields - fs, field);
        RegisterExtends(dbs, r, name, measure, name + "_" + field);
        r := Register(r, name, measure, name + "_" + field);
        fs := fs - {field};
      }
      assert measure.fields - fs == measure.fields;
    }

    /** The tag/field split a sample of `measurementName` gets. */
    method TagsOrFieldFromMetric(m: LabelSet, measurementName: string) returns (tags: LabelSet, fields: LabelSet)
      ensures measurementName !in adapter.measurements ==> tags == map[] && fields == map[]
      ensures measurementName in adapter.measurements ==>
        (tags, fields) ==
          Partition(m, adapter.measurements[measurementName].tags, adapter.measurements[measurementName].dropLabels)
    {
      tags, fields := map[], map[];
      if measurementName in adapter.measurements {
        var measurementObj := adapter.measurements[measurementName];
        var rest := m.Keys;
        while rest != {}
          invariant rest <= m.Keys
          invariant tags ==
            map l | l in m.Keys - rest && l != MetricNameLabel && l in measurementObj.tags :: m[l]
          invariant fields ==
            map l | l in m.Keys - rest && l != MetricNameLabel && l !in measurementObj.tags &&
                    l !in measurementObj.dropLabels :: m[l]
          decreases rest
        {
          var l :| l in rest;
          if l != MetricNameLabel {
            if l in measurementObj.tags {
              tags := tags[l := m[l]];
            } else if l !in measurementObj.dropLabels {
              fields := fields[l := m[l]];
            }
          }
          rest := rest - {l};
        }
        assert m.Keys - rest == m.Keys;
        assert tags == Partition(m, measurementObj.tags, measurementObj.dropLabels).0;
        assert fields == Partition(m, measurementObj.tags, measurementObj.dropLabels).1;
      }
    }

    /**
     * Writes `samples`: each is ignored or becomes one point in its database's bucket; then one
     * batch per bucket goes to the InfluxDB client. `classify` stands for the measurement lookup
     * of a metric name, `pointOk` and `batchOk` for whether the client library accepts a point
     * and a batch configuration.
     */
    method Write(samples: seq<Sample>, classify: string -> Classification, pointOk: Point -> bool,
                 batchOk: string -> bool) returns (err: Option<WriteError>)
      modifies this`ignoredSamples, this`receiveSamples, this`sendSamples, this`written
      ensures receiveSamples == old(receiveSamples) + |samples|
      ensures |written| >= old(|written|) && written[..old(|written|)] == old(written)
      ensures var bad := FirstBadPoint(adapter.measurements, classify, pointOk, samples);
        bad.Some? ==>
          err == Some(PointError) &&
          ignoredSamples == old(ignoredSamples) + IgnoredCount(adapter.measurements, classify, samples[..bad.value]) &&
          sendSamples == old(sendSamples) && written == old(written)
      ensures var buckets := Buckets(adapter.measurements, classify, samples);
        FirstBadPoint(adapter.measurements, classify, pointOk, samples).None? ==>
          && err != Some(PointError)
          && ignoredSamples == old(ignoredSamples) + IgnoredCount(adapter.measurements, classify, samples)
          && sendSamples == old(sendSamples) + |buckets|
          && SentBatches(written[old(|written|)..], buckets, retentionPolicy, batchOk)
          && (err == None ==> DatabasesOf(written[old(|written|)..]) == buckets.Keys)
          && (err == Some(BatchError) ==> exists db :: db in buckets && !batchOk(db))
    {
      receiveSamples := receiveSamples + |samples|;
      ghost var ms := adapter.measurements;
      var points, ok := CollectPoints(samples, classify, pointOk);
      if !ok {
        assert FirstBadPoint(ms, classify, pointOk, samples).Some?;
        return Some(PointError);
      }
      assert points == Buckets(ms, classify, samples);
      sendSamples := sendSamples + |points|;
      ghost var w := written;
      err := SendBatches(points, batchOk);
      assert w == old(written);
      assert SentBatches(written[|w|..], points, retentionPolicy, batchOk);
    }

    /** The first loop of `Write`: the buckets of points, stopping at a point that cannot be built. */
    method CollectPoints(samples: seq<Sample>, classify: string -> Classification, pointOk: Point -> bool)
      returns (points: map<string, seq<Point>>, ok: bool)
      modifies this`ignoredSamples
      ensures var bad := FirstBadPoint(adapter.measurements, classify, pointOk, samples);
        && (ok <==> bad.None?)
        && (bad.Some? ==>
              ignoredSamples == old(ignoredSamples) + IgnoredCount(adapter.measurements, classify, samples[..bad.value]))
        && (bad.None? ==>
              ignoredSamples == old(ignoredSamples) + IgnoredCount(adapter.measurements, classify, samples) &&
              points == Buckets(adapter.measurements, classify, samples))
    {
      var ms := adapter.measurements;
      points := map[];
      var i := 0;
      while i < |samples|
        invariant 0 <= i <= |samples|
        invariant FirstBadPoint(ms, classify, pointOk, samples[..i]).None?
        invariant points == Buckets(ms, classify, samples[..i])
        invariant ignoredSamples == old(ignoredSamples) + IgnoredCount(ms, classify, samples[..i])
      {
        SampleStep(ms, classify, samples, i);
        var d := DecideSample(samples[i], classify);
        if d.Ignore? {
          NoBadPointExtends(ms, classify, pointOk, samples, i);
          ignoredSamples := ignoredSamples + 1;
          i := i + 1;
          continue;
        }
        if !pointOk(d.point) {
          FirstBadPointAt(ms, classify, pointOk, samples, i);
          return points, false;
        }
        NoBadPointExtends(ms, classify, pointOk, samples, i);
        points := points[d.database := (if d.database in points then points[d.database] else []) + [d.point]];
        i := i + 1;
      }
      assert samples[..i] == samples;
      ok := true;
    }

    /** The second loop of `Write`: one batch per bucket, stopping at a batch configuration the client refuses. */
    method SendBatches(points: map<string, seq<Point>>, batchOk: string -> bool) returns (err: Option<WriteError>)
      modifies this`written
      ensures |written| >= old(|written|) && written[..old(|written|)] == old(written)
      ensures SentBatches(written[old(|written|)..], points, retentionPolicy, batchOk)
      ensures err == None || err == Some(BatchError)
      ensures err == None ==> DatabasesOf(written[old(|written|)..]) == points.Keys
      ensures err == Some(BatchError) ==> exists db :: db in points && !batchOk(db)
    {
      ghost var start := |written|;
      var rest := points.Keys;
      while rest != {}
        invariant rest <= points.Keys
        invariant |written| >= start && written[..start] == old(written)
        invariant SentBatches(written[start..], points, retentionPolicy, batchOk)
        invariant DatabasesOf(written[start..]) == points.Keys - rest
        decreases rest
      {
        var name :| name in rest;
        if !batchOk(name) {
          return Some(BatchError);
        }
        var bps := BatchPoints(name, retentionPolicy, "ms", points[name]);
        assert written[start..] + [bps] == (written + [bps])[start..];
        assert DatabasesOf(written[start..] + [bps]) == DatabasesOf(written[start..]) + {name};
        written := written + [bps];
        rest := rest - {name};
      }
      err := None;
    }

    /**
     * The checks `Write` makes on one sample, in the source's order: a finite value, a
     * measurement for its name, at least one tag; then its point and database.
     */
    method DecideSample(s: Sample, classify: string -> Classification) returns (d: Decision)
      ensures d == Decide(adapter.measurements, classify, s)
    {
      if !s.value.IsFinite() {
        return Ignore(NonFinite);
      }
      var c := classify(MetricName(s.metric));
      if c.measurement == "" {
        return Ignore(Unclassified);
      }
      var metricTags, metricFields := TagsOrFieldFromMetric(s.metric, c.measurement);
      if |metricTags| == 0 {
        return Ignore(NoTags);
      }
      var fields := map l | l in metricFields :: StringField(metricFields[l]);
      fields := fields[FieldKey(c.field) := FloatField(s.value)];
      var p := Point(c.measurement, metricTags, fields, s.timestamp);
      d := Emit(adapter.measurements[c.measurement].database, p);
    }

    /** The query text for `q`, or the error of its first unsupported matcher. */
    method BuildCommand(q: Query) returns (r: Result<string, QueryError>)
      ensures r == Translate(retentionPolicy, q)
    {
      var ms := q.matchers;
      var matchers: seq<string> := [];
      var from := AllMeasurements;
      var i := 0;
      while i < |ms|
        invariant 0 <= i <= |ms|
        invariant forall j :: 0 <= j < i ==> MatcherError(ms[j]).None?
        invariant from == FromClause(retentionPolicy, ms[..i])
        invariant matchers == Conditions(ms[..i])
      {
        var err, from', matchers' := AddMatcher(retentionPolicy, ms, i, from, matchers);
        if err.Some? {
          r := Failure(err.value);
          FirstErrorAt(ms, i);
          return;
        }
        from, matchers := from', matchers';
        i := i + 1;
      }
      assert ms[..i] == ms;
      matchers := matchers + TimeBounds(q);
      r := Success(Select(from, matchers));
    }

    /** One matcher of the loop in `BuildCommand`: its error, or the clauses once it is added. */
    static method AddMatcher(retentionPolicy: string, ms: seq<LabelMatcher>, i: nat, from: string, matchers: seq<string>)
      returns (err: Option<QueryError>, from': string, matchers': seq<string>)
      requires i < |ms|
      requires from == FromClause(retentionPolicy, ms[..i]) && matchers == Conditions(ms[..i])
      ensures err == MatcherError(ms[i])
      ensures err.None? ==> from' == FromClause(retentionPolicy, ms[..i + 1]) && matchers' == Conditions(ms[..i + 1])
    {
      ClauseStep(retentionPolicy, ms, i);
      var m := ms[i];
      from', matchers' := from, matchers;
      if m.name == MetricNameLabel {
        if m.mtype != EQ && m.mtype != RE {
          return Some(UnsupportedMetricNameMatcher), from', matchers';
        }
        return None, NameFrom(retentionPolicy, m), matchers;
      }
      if m.mtype.UnknownType? {
        return Some(UnknownMatchType(m.mtype)), from', matchers';
      }
      return None, from, matchers + [Condition(m)];
    }
  }
}
