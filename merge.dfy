/**
 * Reassembly of InfluxDB query results into Prometheus time series: series keys, label pairs,
 * decoding of result rows and the sorted merge with de-duplication.
 */
module Merge {
  import opened Wrappers
  import opened Strings
  import opened Floats
  import opened Labels

  /** A Prometheus sample: timestamp in ms and value. */
  datatype Sample = Sample(timestamp: int, value: Float64)

  datatype Label = Label(name: string, value: string)

  datatype TimeSeries = TimeSeries(labels: seq<Label>, samples: seq<Sample>)

  /**
   * A cell of a result row: a JSON number, with the outcomes of reading it as an int64 and as a
   * float64, or any other JSON value.
   */
  datatype JsonValue = JsonNumber(asInt64: Option<int>, asFloat64: Option<Float64>) | JsonOther

  type Tags = map<string, string>

  /** One series of a result: measurement name, tag set and rows of [timestamp, value]. */
  datatype Row = Row(name: string, tags: Tags, values: seq<seq<JsonValue>>)

  datatype InfluxResult = InfluxResult(series: seq<Row>)

  datatype SampleError = BadTupleLength | BadTimestamp | BadSampleValue | TimestampNotInt64 | ValueNotFloat64

  // ---------------------------------------------------------------------------------------------
  // concatLabels

  /** Stands for the byte 0xff, which never occurs in valid UTF-8 text. */
  const Separator: char := '\U{FF}'

  predicate NoSeparator(tags: Tags) {
    forall k :: k in tags ==> Separator !in k && Separator !in tags[k]
  }

  /** `order` lists every key of `keys` exactly once. */
  ghost predicate Enumerates(order: seq<string>, keys: set<string>) {
    (forall i, j :: 0 <= i < j < |order| ==> order[i] != order[j]) && Elems(order) == keys
  }

  function Pairs(order: seq<string>, tags: Tags): seq<string>
    requires forall i :: 0 <= i < |order| ==> order[i] in tags
  {
    if order == [] then []
    else
      var k := order[|order| - 1];
      Pairs(order[..|order| - 1], tags) + [k + [Separator] + tags[k]]
  }

  /** The key `concatLabels` gives `tags` when the map is enumerated in `order`. */
  function KeyString(order: seq<string>, tags: Tags): string
    requires forall i :: 0 <= i < |order| ==> order[i] in tags
  {
    Join(Pairs(order, tags), [Separator])
  }

  /** The series key: the name/value pairs in the map's (unspecified) iteration order. */
  method ConcatLabels(tags: Tags) returns (key: string, ghost order: seq<string>)
    ensures Enumerates(order, tags.Keys)
    ensures key == KeyString(order, tags)
    ensures key == "" <==> tags == map[]
  {
    var pairs: seq<string> := [];
    order := [];
    var rest := tags.Keys;
    while rest != {}
      invariant rest <= tags.Keys
      invariant forall i :: 0 <= i < |order| ==> order[i] in tags
      invariant Enumerates(order, tags.Keys - rest)
      invariant pairs == Pairs(order, tags)
      decreases rest
    {
      var k :| k in rest;
      assert order + [k] == (order + [k])[..|order|] + [k];
      assert Elems(order + [k]) == Elems(order) + {k};
      pairs := pairs + [k + [Separator] + tags[k]];
      order := order + [k];
      rest := rest - {k};
    }
    key := Join(pairs, [Separator]);
    assert tags.Keys - rest == tags.Keys;
    EmptyKey(order, tags);
  }

  /** Only the empty tag set has the empty key. */
  lemma EmptyKey(order: seq<string>, tags: Tags)
    requires forall i :: 0 <= i < |order| ==> order[i] in tags
    requires Enumerates(order, tags.Keys)
    ensures KeyString(order, tags) == "" <==> tags == map[]
  {
    if order != [] {
      KeyNonEmpty(order, tags);
      assert order[0] in tags;
    } else {
      assert tags.Keys == {};
    }
  }

  /** The keys and values of `tags` in `order`, one list element each. */
  function Flat(order: seq<string>, tags: Tags): seq<string>
    requires forall i :: 0 <= i < |order| ==> order[i] in tags
  {
    if order == [] then []
    else
      var k := order[|order| - 1];
      Flat(order[..|order| - 1], tags) + [k, tags[k]]
  }

  lemma {:induction false} FlatAt(order: seq<string>, tags: Tags)
    requires forall i :: 0 <= i < |order| ==> order[i] in tags
    ensures |Flat(order, tags)| == 2 * |order|
    ensures forall i :: 0 <= i < |order| ==>
      Flat(order, tags)[2 * i] == order[i] && Flat(order, tags)[2 * i + 1] == tags[order[i]]
  {
    if order != [] {
      FlatAt(order[..|order| - 1], tags);
    }
  }

  lemma {:induction false} JoinPairsFlat(order: seq<string>, tags: Tags)
    requires forall i :: 0 <= i < |order| ==> order[i] in tags
    ensures KeyString(order, tags) == Join(Flat(order, tags), [Separator])
  {
    if order != [] {
      var init := order[..|order| - 1];
      var k := order[|order| - 1];
      var p := Pairs(init, tags);
      var f := Flat(init, tags);
      var s := [Separator];
      JoinPairsFlat(init, tags);
      FlatAt(init, tags);
      JoinSnoc(p, k + s + tags[k], s);
      JoinSnoc(f + [k], tags[k], s);
      JoinSnoc(f, k, s);
      assert f + [k, tags[k]] == (f + [k]) + [tags[k]];
      assert |p| == |init| by { PairsLength(init, tags); }
    }
  }

  lemma {:induction false} PairsLength(order: seq<string>, tags: Tags)
    requires forall i :: 0 <= i < |order| ==> order[i] in tags
    ensures |Pairs(order, tags)| == |order|
  {
    if order != [] {
      PairsLength(order[..|order| - 1], tags);
    }
  }

  lemma KeyNonEmpty(order: seq<string>, tags: Tags)
    requires forall i :: 0 <= i < |order| ==> order[i] in tags
    requires order != []
    ensures KeyString(order, tags) != ""
  {
    JoinPairsFlat(order, tags);
    FlatAt(order, tags);
    var f := Flat(order, tags);
    assert Join(f, [Separator]) == f[0] + [Separator] + Join(f[1..], [Separator]);
  }

  /** Equal keys come from equal flattened lists, since no element holds the separator. */
  lemma FlatOfEqualKeys(o1: seq<string>, t1: Tags, o2: seq<string>, t2: Tags)
    requires forall i :: 0 <= i < |o1| ==> o1[i] in t1
    requires forall i :: 0 <= i < |o2| ==> o2[i] in t2
    requires o1 != [] && o2 != []
    requires NoSeparator(t1) && NoSeparator(t2)
    requires KeyString(o1, t1) == KeyString(o2, t2)
    ensures Flat(o1, t1) == Flat(o2, t2)
  {
    JoinPairsFlat(o1, t1);
    JoinPairsFlat(o2, t2);
    FlatAt(o1, t1);
    FlatAt(o2, t2);
    FlatNoSeparator(o1, t1);
    FlatNoSeparator(o2, t2);
    SplitJoin(Flat(o1, t1), Separator);
    SplitJoin(Flat(o2, t2), Separator);
  }

  lemma {:induction false} FlatNoSeparator(order: seq<string>, tags: Tags)
    requires forall i :: 0 <= i < |order| ==> order[i] in tags
    requires NoSeparator(tags)
    ensures forall i :: 0 <= i < |Flat(order, tags)| ==> Separator !in Flat(order, tags)[i]
  {
    if order != [] {
      FlatNoSeparator(order[..|order| - 1], tags);
    }
  }

  lemma FlatDetermines(o1: seq<string>, t1: Tags, o2: seq<string>, t2: Tags)
    requires Enumerates(o1, t1.Keys) && Enumerates(o2, t2.Keys)
    requires forall i :: 0 <= i < |o1| ==> o1[i] in t1
    requires forall i :: 0 <= i < |o2| ==> o2[i] in t2
    requires Flat(o1, t1) == Flat(o2, t2)
    ensures t1 == t2
  {
    FlatAt(o1, t1);
    FlatAt(o2, t2);
    var f := Flat(o1, t1);
    assert |o1| == |o2|;
    forall i | 0 <= i < |o1| ensures o1[i] == o2[i] && t1[o1[i]] == t2[o2[i]] {
      assert f[2 * i] == o1[i] == o2[i];
      assert f[2 * i + 1] == t1[o1[i]] == t2[o2[i]];
    }
    assert o1 == o2;
    forall k | k in t1 ensures k in t2 && t1[k] == t2[k] {
      assert k in Elems(o1);
      var i :| 0 <= i < |o1| && o1[i] == k;
    }
    assert t1.Keys == t2.Keys;
  }

  /** As long as no name or value contains the separator, the key determines the tag set. */
  lemma KeyIdentifiesTags(o1: seq<string>, t1: Tags, o2: seq<string>, t2: Tags)
    requires Enumerates(o1, t1.Keys) && Enumerates(o2, t2.Keys)
    requires NoSeparator(t1) && NoSeparator(t2)
    requires KeyString(o1, t1) == KeyString(o2, t2)
    ensures t1 == t2
  {
    assert forall i :: 0 <= i < |o1| ==> o1[i] in Elems(o1);
    assert forall i :: 0 <= i < |o2| ==> o2[i] in Elems(o2);
    if o1 == [] || o2 == [] {
      if o1 != [] {
        KeyNonEmpty(o1, t1);
      }
      if o2 != [] {
        KeyNonEmpty(o2, t2);
      }
      assert t1.Keys == {} && t2.Keys == {};
    } else {
      FlatOfEqualKeys(o1, t1, o2, t2);
      FlatDetermines(o1, t1, o2, t2);
    }
  }

  /** Two enumerations of one tag set can give two different keys. */
  lemma KeyDependsOnOrder()
    ensures var t := map["a" := "1", "b" := "2"];
      Enumerates(["a", "b"], t.Keys) && Enumerates(["b", "a"], t.Keys) &&
      KeyString(["a", "b"], t) != KeyString(["b", "a"], t)
  {
    var t := map["a" := "1", "b" := "2"];
    var s := [Separator];
    assert ["a", "b"][..1] == ["a"] && ["a"][..0] == [];
    assert ["b", "a"][..1] == ["b"] && ["b"][..0] == [];
    assert Pairs(["a", "b"], t) == ["a" + s + "1", "b" + s + "2"];
    assert Pairs(["b", "a"], t) == ["b" + s + "2", "a" + s + "1"];
    assert KeyString(["a", "b"], t)[0] == 'a';
    assert KeyString(["b", "a"], t)[0] == 'b';
    assert Elems(["a", "b"]) == {"a", "b"} == Elems(["b", "a"]);
  }

  // ---------------------------------------------------------------------------------------------
  // tagsToLabelPairs

  /**
   * The labels of a reassembled series: each non-empty tag once, in some order, and the
   * metric-name label last.
   */
  ghost predicate LabelPairsFor(pairs: seq<Label>, name: string, tags: Tags) {
    && |pairs| >= 1
    && pairs[|pairs| - 1] == Label(MetricNameLabel, name)
    && (forall i :: 0 <= i < |pairs| - 1 ==>
          pairs[i].name in tags && pairs[i].value == tags[pairs[i].name] && pairs[i].value != "")
    && (forall i, j :: 0 <= i < j < |pairs| - 1 ==> pairs[i].name != pairs[j].name)
    && (forall k :: k in tags && tags[k] != "" ==> k in Names(pairs[..|pairs| - 1]))
  }

  function Names(pairs: seq<Label>): set<string> {
    set p | p in pairs :: p.name
  }

  method TagsToLabelPairs(name: string, tags: Tags) returns (pairs: seq<Label>)
    ensures LabelPairsFor(pairs, name, tags)
  {
    pairs := [];
    var rest := tags.Keys;
    while rest != {}
      invariant rest <= tags.Keys
      invariant PairsSoFar(pairs, tags, tags.Keys - rest)
      decreases rest
    {
      var k :| k in rest;
      assert tags.Keys - (rest - {k}) == (tags.Keys - rest) + {k};
      PairsStep(pairs, tags, tags.Keys - rest, k);
      if tags[k] != "" {
        pairs := pairs + [Label(k, tags[k])];
      }
      rest := rest - {k};
    }
    assert tags.Keys - rest == tags.Keys;
    assert (pairs + [Label(MetricNameLabel, name)])[..|pairs|] == pairs;
    pairs := pairs + [Label(MetricNameLabel, name)];
  }

  /** The pairs made from the tags in `done`: each copied, distinct, and every non-empty one present. */
  ghost predicate PairsSoFar(pairs: seq<Label>, tags: Tags, done: set<string>) {
    && (forall i :: 0 <= i < |pairs| ==>
          pairs[i].name in done && pairs[i].name in tags && pairs[i].value == tags[pairs[i].name] &&
          pairs[i].value != "")
    && (forall i, j :: 0 <= i < j < |pairs| ==> pairs[i].name != pairs[j].name)
    && (forall k :: k in done && k in tags && tags[k] != "" ==> k in Names(pairs))
  }

  /** A tag not yet seen is appended when its value is not empty, and skipped otherwise. */
  lemma PairsStep(pairs: seq<Label>, tags: Tags, done: set<string>, k: string)
    requires PairsSoFar(pairs, tags, done) && k in tags && k !in done
    ensures tags[k] != "" ==> PairsSoFar(pairs + [Label(k, tags[k])], tags, done + {k})
    ensures tags[k] == "" ==> PairsSoFar(pairs, tags, done + {k})
  {
    if tags[k] != "" {
      assert Names(pairs + [Label(k, tags[k])]) == Names(pairs) + {k};
    }
  }

  // ---------------------------------------------------------------------------------------------
  // valuesToSamples

  /** One [timestamp, value] row, checked in the source's order. */
  function DecodeRow(row: seq<JsonValue>): (r: Result<Sample, SampleError>)
    // a row decodes exactly when it is a pair of an int64 timestamp and a float64 value
    ensures r.Success? <==>
      |row| == 2 && row[0].JsonNumber? && row[1].JsonNumber? &&
      row[0].asInt64.Some? && row[1].asFloat64.Some?
    ensures r.Success? ==> r.value.timestamp == row[0].asInt64.value && r.value.value == row[1].asFloat64.value
    // the shape is checked first, then the timestamp before the value
    ensures |row| != 2 ==> r == Failure(BadTupleLength)
    ensures |row| == 2 && !row[0].JsonNumber? ==> r == Failure(BadTimestamp)
    ensures |row| == 2 && row[0].JsonNumber? && row[0].asInt64.None? && row[1].JsonNumber? ==>
      r == Failure(TimestampNotInt64)
  {
    if |row| != 2 then Failure(BadTupleLength)
    else if !row[0].JsonNumber? then Failure(BadTimestamp)
    else if !row[1].JsonNumber? then Failure(BadSampleValue)
    else if row[0].asInt64.None? then Failure(TimestampNotInt64)
    else if row[1].asFloat64.None? then Failure(ValueNotFloat64)
    else Success(Sample(row[0].asInt64.value, row[1].asFloat64.value))
  }

  /** All rows decoded in order, or the error of the first row that does not decode. */
  function DecodeRows(rows: seq<seq<JsonValue>>): (r: Result<seq<Sample>, SampleError>)
    ensures r.Success? <==> forall i :: 0 <= i < |rows| ==> DecodeRow(rows[i]).Success?
    ensures r.Success? ==>
      |r.value| == |rows| && forall i :: 0 <= i < |rows| ==> DecodeRow(rows[i]) == Success(r.value[i])
    ensures r.Failure? ==> exists i :: 0 <= i < |rows| && DecodeRow(rows[i]) == Failure(r.error) &&
                                       forall j :: 0 <= j < i ==> DecodeRow(rows[j]).Success?
  {
    if rows == [] then Success([])
    else
      var init := rows[..|rows| - 1];
      assert forall i :: 0 <= i < |init| ==> init[i] == rows[i];
      match DecodeRows(init)
      case Failure(e) => Failure(e)
      case Success(ss) =>
        match DecodeRow(rows[|rows| - 1])
        case Failure(e) => Failure(e)
        case Success(s) => Success(ss + [s])
  }

  /** A row that is not a pair makes the whole decoding fail. */
  lemma BadLengthFails(rows: seq<seq<JsonValue>>, i: nat)
    requires i < |rows| && |rows[i]| != 2
    ensures DecodeRows(rows).Failure?
  {
    assert DecodeRow(rows[i]).Failure?;
  }

  method ValuesToSamples(values: seq<seq<JsonValue>>) returns (r: Result<seq<Sample>, SampleError>)
    ensures r == DecodeRows(values)
  {
    var samples: seq<Sample> := [];
    var i := 0;
    while i < |values|
      invariant 0 <= i <= |values|
      invariant DecodeRows(values[..i]) == Success(samples)
    {
      assert values[..i + 1][..i] == values[..i];
      var row := values[i];
      if |row| != 2 {
        r := Failure(BadTupleLength);
        DecodeStops(values, i + 1);
        return;
      }
      if !row[0].JsonNumber? {
        r := Failure(BadTimestamp);
        DecodeStops(values, i + 1);
        return;
      }
      if !row[1].JsonNumber? {
        r := Failure(BadSampleValue);
        DecodeStops(values, i + 1);
        return;
      }
      if row[0].asInt64.None? {
        r := Failure(TimestampNotInt64);
        DecodeStops(values, i + 1);
        return;
      }
      if row[1].asFloat64.None? {
        r := Failure(ValueNotFloat64);
        DecodeStops(values, i + 1);
        return;
      }
      samples := samples + [Sample(row[0].asInt64.value, row[1].asFloat64.value)];
      i := i + 1;
    }
    assert values[..i] == values;
    r := Success(samples);
  }

  /** Decoding stops at the first failing row: later rows do not matter. */
  lemma {:induction false} DecodeStops(rows: seq<seq<JsonValue>>, n: nat)
    requires n <= |rows| && DecodeRows(rows[..n]).Failure?
    ensures DecodeRows(rows) == DecodeRows(rows[..n])
  {
    if n < |rows| {
      assert rows[..|rows| - 1][..n] == rows[..n];
      DecodeStops(rows[..|rows| - 1], n);
    } else {
      assert rows[..n] == rows;
    }
  }

  // ---------------------------------------------------------------------------------------------
  // mergeSamples

  /** The two-pointer merge: the smaller timestamp first, and on equal timestamps `a`'s sample only. */
  function Merged(a: seq<Sample>, b: seq<Sample>): seq<Sample>
    decreases |a| + |b|
  {
    if a == [] then b
    else if b == [] then a
    else if a[0].timestamp < b[0].timestamp then [a[0]] + Merged(a[1..], b)
    else if a[0].timestamp > b[0].timestamp then [b[0]] + Merged(a, b[1..])
    else [a[0]] + Merged(a[1..], b[1..])
  }

  method MergeSamples(a: seq<Sample>, b: seq<Sample>) returns (result: seq<Sample>)
    ensures result == Merged(a, b)
  {
    result := [];
    var i, j := 0, 0;
    while i < |a| && j < |b|
      invariant 0 <= i <= |a| && 0 <= j <= |b|
      invariant result + Merged(a[i..], b[j..]) == Merged(a, b)
      decreases |a| - i + |b| - j
    {
      MergedStep(a, b, i, j);
      if a[i].timestamp < b[j].timestamp {
        AppendAssoc(result, [a[i]], Merged(a[i + 1..], b[j..]));
        result := result + [a[i]];
        i := i + 1;
      } else if a[i].timestamp > b[j].timestamp {
        AppendAssoc(result, [b[j]], Merged(a[i..], b[j + 1..]));
        result := result + [b[j]];
        j := j + 1;
      } else {
        AppendAssoc(result, [a[i]], Merged(a[i + 1..], b[j + 1..]));
        result := result + [a[i]];
        i, j := i + 1, j + 1;
      }
    }
    MergedRest(a, b, i, j);
    AppendAssoc(result, a[i..], b[j..]);
    result := result + a[i..];
    result := result + b[j..];
  }

  lemma AppendAssoc(x: seq<Sample>, y: seq<Sample>, z: seq<Sample>)
    ensures (x + y) + z == x + (y + z)
  {
  }

  /** One step of the two-pointer merge. */
  lemma MergedStep(a: seq<Sample>, b: seq<Sample>, i: nat, j: nat)
    requires i < |a| && j < |b|
    ensures Merged(a[i..], b[j..]) ==
      if a[i].timestamp < b[j].timestamp then [a[i]] + Merged(a[i + 1..], b[j..])
      else if a[i].timestamp > b[j].timestamp then [b[j]] + Merged(a[i..], b[j + 1..])
      else [a[i]] + Merged(a[i + 1..], b[j + 1..])
  {
    assert a[i..][1..] == a[i + 1..] && b[j..][1..] == b[j + 1..];
  }

  /** Once one input is used up, the merge is the rest of the other. */
  lemma MergedRest(a: seq<Sample>, b: seq<Sample>, i: nat, j: nat)
    requires i <= |a| && j <= |b| && (i == |a| || j == |b|)
    ensures Merged(a[i..], b[j..]) == a[i..] + b[j..]
  {
    if i == |a| {
      assert a[i..] == [];
    } else {
      assert b[j..] == [];
    }
  }

  function Times(s: seq<Sample>): set<int> {
    set x | x in s :: x.timestamp
  }

  ghost predicate StrictlySorted(s: seq<Sample>) {
    forall i, j :: 0 <= i < j < |s| ==> s[i].timestamp < s[j].timestamp
  }

  lemma TimesCons(x: Sample, s: seq<Sample>)
    ensures Times([x] + s) == {x.timestamp} + Times(s)
  {
    assert forall y :: y in [x] + s <==> y == x || y in s;
  }

  lemma TimesEmpty(s: seq<Sample>)
    requires s == []
    ensures Times(s) == {}
  {
  }

  /** The merge holds exactly the timestamps of both inputs. */
  lemma {:induction false} MergedTimes(a: seq<Sample>, b: seq<Sample>)
    ensures Times(Merged(a, b)) == Times(a) + Times(b)
    decreases |a| + |b|
  {
    if a == [] {
      TimesEmpty(a);
    } else if b == [] {
      TimesEmpty(b);
    } else {
      assert a == [a[0]] + a[1..] && b == [b[0]] + b[1..];
      TimesCons(a[0], a[1..]);
      TimesCons(b[0], b[1..]);
      if a[0].timestamp < b[0].timestamp {
        MergedTimes(a[1..], b);
        TimesCons(a[0], Merged(a[1..], b));
      } else if a[0].timestamp > b[0].timestamp {
        MergedTimes(a, b[1..]);
        TimesCons(b[0], Merged(a, b[1..]));
      } else {
        MergedTimes(a[1..], b[1..]);
        TimesCons(a[0], Merged(a[1..], b[1..]));
      }
    }
  }

  /** Every sample of `a` survives the merge. */
  lemma {:induction false} MergedKeepsFirst(a: seq<Sample>, b: seq<Sample>)
    ensures forall x :: x in a ==> x in Merged(a, b)
    decreases |a| + |b|
  {
    if a != [] && b != [] {
      assert forall x :: x in a ==> x == a[0] || x in a[1..];
      if a[0].timestamp < b[0].timestamp {
        MergedKeepsFirst(a[1..], b);
      } else if a[0].timestamp > b[0].timestamp {
        MergedKeepsFirst(a, b[1..]);
      } else {
        MergedKeepsFirst(a[1..], b[1..]);
      }
    }
  }

  /** A sample of `b` survives unless `a` has a sample with its timestamp. */
  lemma {:induction false} MergedKeepsUnshadowed(a: seq<Sample>, b: seq<Sample>)
    ensures forall x :: x in b && x.timestamp !in Times(a) ==> x in Merged(a, b)
    decreases |a| + |b|
  {
    if a != [] && b != [] {
      assert forall x :: x in b ==> x == b[0] || x in b[1..];
      assert a[0].timestamp in Times(a);
      assert Times(a[1..]) <= Times(a) by {
        forall x | x in a[1..] ensures x in a { }
      }
      if a[0].timestamp < b[0].timestamp {
        MergedKeepsUnshadowed(a[1..], b);
      } else if a[0].timestamp > b[0].timestamp {
        MergedKeepsUnshadowed(a, b[1..]);
      } else {
        MergedKeepsUnshadowed(a[1..], b[1..]);
      }
    }
  }

  /** Nothing but samples of the inputs appears in the merge. */
  lemma {:induction false} MergedFromInputs(a: seq<Sample>, b: seq<Sample>)
    ensures forall x :: x in Merged(a, b) ==> x in a || x in b
    decreases |a| + |b|
  {
    if a != [] && b != [] {
      if a[0].timestamp < b[0].timestamp {
        MergedFromInputs(a[1..], b);
        assert forall x :: x in a[1..] ==> x in a;
      } else if a[0].timestamp > b[0].timestamp {
        MergedFromInputs(a, b[1..]);
        assert forall x :: x in b[1..] ==> x in b;
      } else {
        MergedFromInputs(a[1..], b[1..]);
        assert forall x :: x in a[1..] ==> x in a;
        assert forall x :: x in b[1..] ==> x in b;
      }
    }
  }

  lemma SortedCons(x: Sample, s: seq<Sample>)
    requires StrictlySorted(s)
    requires forall t :: t in Times(s) ==> x.timestamp < t
    ensures StrictlySorted([x] + s)
  {
    forall i, j | 0 <= i < j < |[x] + s| ensures ([x] + s)[i].timestamp < ([x] + s)[j].timestamp {
      if i == 0 {
        assert ([x] + s)[j] == s[j - 1];
        assert s[j - 1].timestamp in Times(s);
      }
    }
  }

  /** The head of a strictly ascending sequence is below everything after it. */
  lemma SortedHead(a: seq<Sample>)
    requires StrictlySorted(a) && a != []
    ensures StrictlySorted(a[1..])
    ensures forall t :: t in Times(a[1..]) ==> a[0].timestamp < t
    ensures forall t :: t in Times(a) ==> a[0].timestamp <= t
  {
    forall t | t in Times(a[1..]) ensures a[0].timestamp < t {
      var x :| x in a[1..] && x.timestamp == t;
      var k :| 0 <= k < |a[1..]| && a[1..][k] == x;
      assert a[k + 1] == x;
    }
    forall t | t in Times(a) ensures a[0].timestamp <= t {
      var x :| x in a && x.timestamp == t;
      var k :| 0 <= k < |a| && a[k] == x;
    }
  }

  /** Strictly ascending inputs give a strictly ascending merge. */
  lemma {:induction false} MergedSorted(a: seq<Sample>, b: seq<Sample>)
    requires StrictlySorted(a) && StrictlySorted(b)
    ensures StrictlySorted(Merged(a, b))
    decreases |a| + |b|
  {
    if a != [] && b != [] {
      SortedHead(a);
      SortedHead(b);
      if a[0].timestamp < b[0].timestamp {
        MergedSorted(a[1..], b);
        MergedTimes(a[1..], b);
        SortedCons(a[0], Merged(a[1..], b));
      } else if a[0].timestamp > b[0].timestamp {
        MergedSorted(a, b[1..]);
        MergedTimes(a, b[1..]);
        SortedCons(b[0], Merged(a, b[1..]));
      } else {
        MergedSorted(a[1..], b[1..]);
        MergedTimes(a[1..], b[1..]);
        SortedCons(a[0], Merged(a[1..], b[1..]));
      }
    }
  }

  // ---------------------------------------------------------------------------------------------
  // mergeResult

  /** The series of all results, in order. */
  function Groups(results: seq<InfluxResult>): seq<Row> {
    if results == [] then []
    else Groups(results[..|results| - 1]) + results[|results| - 1].series
  }

  function SamplesOf(series: map<Tags, TimeSeries>): map<Tags, seq<Sample>> {
    map k | k in series :: series[k].samples
  }

  /** One series folded in: created empty when new, then merged with its decoded rows. */
  function MergeStep(m: map<Tags, seq<Sample>>, g: Row): (map<Tags, seq<Sample>>, Option<SampleError>) {
    var current := if g.tags in m then m[g.tags] else [];
    match DecodeRows(g.values)
    case Failure(e) => (m[g.tags := current], Some(e))
    case Success(ss) => (m[g.tags := Merged(current, ss)], None)
  }

  /** All series folded in order, stopping at the first one whose rows do not decode. */
  function MergeAll(m: map<Tags, seq<Sample>>, gs: seq<Row>): (map<Tags, seq<Sample>>, Option<SampleError>) {
    if gs == [] then (m, None)
    else
      var prev := MergeAll(m, gs[..|gs| - 1]);
      if prev.1.Some? then prev else MergeStep(prev.0, gs[|gs| - 1])
  }

  /** The name of the first series with tag set `k`. */
  function FirstName(gs: seq<Row>, k: Tags): Option<string> {
    if gs == [] then None
    else
      var prev := FirstName(gs[..|gs| - 1], k);
      if prev.Some? then prev
      else if gs[|gs| - 1].tags == k then Some(gs[|gs| - 1].name)
      else None
  }

  /** The labels of series already present are kept; a new one is labelled from its first series. */
  ghost predicate Labelled(series: map<Tags, TimeSeries>, out: map<Tags, TimeSeries>, gs: seq<Row>) {
    && (forall k :: k in series ==> k in out && out[k].labels == series[k].labels)
    && (forall k :: k in out && k !in series ==>
          FirstName(gs, k).Some? && LabelPairsFor(out[k].labels, FirstName(gs, k).value, k))
  }

  /** `Labelled`, and every series folded so far has its entry. */
  ghost predicate LabelsFixed(series: map<Tags, TimeSeries>, out: map<Tags, TimeSeries>, gs: seq<Row>) {
    && Labelled(series, out, gs)
    && (forall k :: FirstName(gs, k).Some? ==> k in out)
  }

  lemma LabelledExtends(series: map<Tags, TimeSeries>, out: map<Tags, TimeSeries>, xs: seq<Row>, ys: seq<Row>)
    requires Labelled(series, out, xs)
    ensures Labelled(series, out, xs + ys)
  {
    FirstNameExtends(xs, ys);
  }

  /**
   * Folds the series of `results` into `series`, one entry per tag set. On an error the series
   * folded before it stay merged, as in the source.
   */
  method MergeResult(series: map<Tags, TimeSeries>, results: seq<InfluxResult>)
    returns (out: map<Tags, TimeSeries>, err: Option<SampleError>)
    ensures (SamplesOf(out), err) == MergeAll(SamplesOf(series), Groups(results))
    ensures Labelled(series, out, Groups(results))
  {
    out, err := series, None;
    ghost var done: seq<Row> := [];
    var i := 0;
    while i < |results|
      invariant 0 <= i <= |results|
      invariant done == Groups(results[..i])
      invariant err == None
      invariant MergeAll(SamplesOf(series), done) == (SamplesOf(out), None)
      invariant LabelsFixed(series, out, done)
    {
      var rows := results[i].series;
      ghost var seen := done;
      var j := 0;
      while j < |rows|
        invariant 0 <= j <= |rows|
        invariant seen == done + rows[..j]
        invariant err == None
        invariant MergeAll(SamplesOf(series), seen) == (SamplesOf(out), None)
        invariant LabelsFixed(series, out, seen)
      {
        out, err := MergeSeries(series, out, seen, rows[j]);
        PrefixSnoc(done, rows, j);
        seen := seen + [rows[j]];
        if err.Some? {
          ErrorSettles(results, i, j, SamplesOf(series), seen);
          LabelledExtends(series, out, seen, results[i].series[j + 1..] + Groups(results[i + 1..]));
          return;
        }
        j := j + 1;
      }
      assert rows[..j] == rows;
      GroupsSnoc(results, i);
      done := seen;
      i := i + 1;
    }
    assert results[..i] == results;
  }

  /** The body of the fold: one series merged into its entry, which is created when new. */
  method MergeSeries(series: map<Tags, TimeSeries>, out: map<Tags, TimeSeries>, ghost before: seq<Row>, s: Row)
    returns (out': map<Tags, TimeSeries>, err: Option<SampleError>)
    requires MergeAll(SamplesOf(series), before) == (SamplesOf(out), None)
    requires LabelsFixed(series, out, before)
    ensures MergeAll(SamplesOf(series), before + [s]) == (SamplesOf(out'), err)
    ensures LabelsFixed(series, out', before + [s])
  {
    out' := EnsureEntry(series, out, before, s);
    ghost var entry := out';
    var samples := ValuesToSamples(s.values);
    if samples.Failure? {
      err := Some(samples.error);
    } else {
      var merged := MergeSamples(out'[s.tags].samples, samples.value);
      out' := out'[s.tags := out'[s.tags].(samples := merged)];
      err := None;
      LabelsKept(series, entry, out', before + [s]);
    }
    FoldStep(series, out, entry, before, s, out', err);
  }

  /** The fold after one more series, from the entry made for it and the decoding of its rows. */
  lemma FoldStep(series: map<Tags, TimeSeries>, out: map<Tags, TimeSeries>, entry: map<Tags, TimeSeries>,
                 before: seq<Row>, s: Row, out': map<Tags, TimeSeries>, err: Option<SampleError>)
    requires MergeAll(SamplesOf(series), before) == (SamplesOf(out), None)
    requires entry.Keys == out.Keys + {s.tags} && forall k :: k in out ==> entry[k] == out[k]
    requires s.tags !in out ==> entry[s.tags].samples == []
    requires DecodeRows(s.values).Failure? ==> out' == entry && err == Some(DecodeRows(s.values).error)
    requires DecodeRows(s.values).Success? ==>
      err == None &&
      out' == entry[s.tags := entry[s.tags].(samples := Merged(entry[s.tags].samples, DecodeRows(s.values).value))]
    ensures MergeAll(SamplesOf(series), before + [s]) == (SamplesOf(out'), err)
  {
    MergeAllSnoc(SamplesOf(series), before, s);
    var current := if s.tags in out then out[s.tags].samples else [];
    match DecodeRows(s.values)
    case Failure(_) => SamplesUpdate(out, out', s.tags, current);
    case Success(ss) => SamplesUpdate(out, out', s.tags, Merged(current, ss));
  }

  /** A series seen for the first time gets its entry, labelled from this series and without samples. */
  method EnsureEntry(series: map<Tags, TimeSeries>, out: map<Tags, TimeSeries>, ghost before: seq<Row>, s: Row)
    returns (out': map<Tags, TimeSeries>)
    requires LabelsFixed(series, out, before)
    ensures LabelsFixed(series, out', before + [s])
    ensures out'.Keys == out.Keys + {s.tags}
    ensures forall k :: k in out ==> out'[k] == out[k]
    ensures s.tags !in out ==> out'[s.tags].samples == []
  {
    out' := out;
    if s.tags !in out' {
      var labels := TagsToLabelPairs(s.name, s.tags);
      out' := out'[s.tags := TimeSeries(labels, [])];
    }
    LabelsStep(series, out, before, s, out');
  }

  lemma SamplesUpdate(out: map<Tags, TimeSeries>, out': map<Tags, TimeSeries>, k: Tags, ss: seq<Sample>)
    requires out'.Keys == out.Keys + {k}
    requires forall t :: t in out && t != k ==> out'[t].samples == out[t].samples
    requires out'[k].samples == ss
    ensures SamplesOf(out') == SamplesOf(out)[k := ss]
  {
  }

  lemma {:induction false} MergeAllSnoc(m: map<Tags, seq<Sample>>, gs: seq<Row>, g: Row)
    ensures MergeAll(m, gs + [g]) == if MergeAll(m, gs).1.Some? then MergeAll(m, gs) else MergeStep(MergeAll(m, gs).0, g)
  {
    assert (gs + [g])[..|gs|] == gs;
  }

  lemma {:induction false} FirstNameSnoc(gs: seq<Row>, g: Row)
    ensures forall k :: FirstName(gs + [g], k) == (if FirstName(gs, k).Some? then FirstName(gs, k) else if g.tags == k then Some(g.name) else None)
  {
    assert (gs + [g])[..|gs|] == gs;
  }

  lemma LabelsStep(series: map<Tags, TimeSeries>, out: map<Tags, TimeSeries>, before: seq<Row>, s: Row,
                   out': map<Tags, TimeSeries>)
    requires LabelsFixed(series, out, before)
    requires s.tags in out ==> out' == out
    requires s.tags !in out ==>
      (s.tags in out' && out'.Keys == out.Keys + {s.tags} &&
       (forall k :: k in out ==> out'[k] == out[k]) && LabelPairsFor(out'[s.tags].labels, s.name, s.tags) &&
       out'[s.tags].samples == [])
    ensures LabelsFixed(series, out', before + [s])
  {
    FirstNameSnoc(before, s);
  }

  lemma LabelsKept(series: map<Tags, TimeSeries>, out: map<Tags, TimeSeries>, out': map<Tags, TimeSeries>, gs: seq<Row>)
    requires LabelsFixed(series, out, gs)
    requires out'.Keys == out.Keys && forall k :: k in out ==> out'[k].labels == out[k].labels
    ensures LabelsFixed(series, out', gs)
  {
  }

  lemma {:induction false} GroupsAppend(xs: seq<InfluxResult>, ys: seq<InfluxResult>)
    ensures Groups(xs + ys) == Groups(xs) + Groups(ys)
  {
    if ys != [] {
      assert (xs + ys)[..|xs + ys| - 1] == xs + ys[..|ys| - 1];
      GroupsAppend(xs, ys[..|ys| - 1]);
    } else {
      assert xs + ys == xs;
    }
  }

  lemma PrefixSnoc(done: seq<Row>, rows: seq<Row>, j: nat)
    requires j < |rows|
    ensures (done + rows[..j]) + [rows[j]] == done + rows[..j + 1]
  {
    assert rows[..j + 1] == rows[..j] + [rows[j]];
  }

  lemma GroupsSnoc(results: seq<InfluxResult>, i: nat)
    requires i < |results|
    ensures Groups(results[..i + 1]) == Groups(results[..i]) + results[i].series
  {
    assert results[..i + 1][..i] == results[..i];
  }

  /** An error part-way through settles the whole fold, and the rest of the results stays unmerged. */
  lemma ErrorSettles(results: seq<InfluxResult>, i: nat, j: nat, m: map<Tags, seq<Sample>>, seen: seq<Row>)
    requires i < |results| && j < |results[i].series|
    requires seen == Groups(results[..i]) + results[i].series[..j + 1]
    requires MergeAll(m, seen).1.Some?
    ensures Groups(results) == seen + (results[i].series[j + 1..] + Groups(results[i + 1..]))
    ensures MergeAll(m, Groups(results)) == MergeAll(m, seen)
  {
    var rows := results[i].series;
    RowsAround(results, i, j);
    MergeAllStops(m, seen, rows[j + 1..] + Groups(results[i + 1..]));
  }

  lemma RowsAround(results: seq<InfluxResult>, i: nat, j: nat)
    requires i < |results| && j < |results[i].series|
    ensures var rows := results[i].series;
      Groups(results) == (Groups(results[..i]) + rows[..j + 1]) + (rows[j + 1..] + Groups(results[i + 1..]))
  {
    var rows := results[i].series;
    assert results == results[..i + 1] + results[i + 1..];
    GroupsAppend(results[..i + 1], results[i + 1..]);
    GroupsSnoc(results, i);
    assert rows == rows[..j + 1] + rows[j + 1..];
  }

  /** After an error nothing further is merged. */
  lemma {:induction false} MergeAllStops(m: map<Tags, seq<Sample>>, xs: seq<Row>, ys: seq<Row>)
    requires MergeAll(m, xs).1.Some?
    ensures MergeAll(m, xs + ys) == MergeAll(m, xs)
  {
    if ys == [] {
      assert xs + ys == xs;
    } else {
      assert (xs + ys)[..|xs + ys| - 1] == xs + ys[..|ys| - 1];
      MergeAllStops(m, xs, ys[..|ys| - 1]);
    }
  }

  lemma {:induction false} FirstNameExtends(xs: seq<Row>, ys: seq<Row>)
    ensures forall k :: FirstName(xs, k).Some? ==> FirstName(xs + ys, k) == FirstName(xs, k)
  {
    if ys == [] {
      assert xs + ys == xs;
    } else {
      assert (xs + ys)[..|xs + ys| - 1] == xs + ys[..|ys| - 1];
      FirstNameExtends(xs, ys[..|ys| - 1]);
    }
  }

  /** A tag set is a key of the fold's result exactly when it was a key before or occurs in a folded series. */
  lemma {:induction false} MergeAllKeys(m: map<Tags, seq<Sample>>, gs: seq<Row>, k: Tags)
    ensures MergeAll(m, gs).1.None? ==> (k in MergeAll(m, gs).0 <==> k in m || FirstName(gs, k).Some?)
  {
    if gs != [] {
      MergeAllKeys(m, gs[..|gs| - 1], k);
    }
  }

  /** Samples already held are never dropped by the fold. */
  lemma {:induction false} MergeAllKeeps(m: map<Tags, seq<Sample>>, gs: seq<Row>, k: Tags, x: Sample)
    requires k in m && x in m[k]
    ensures k in MergeAll(m, gs).0 && x in MergeAll(m, gs).0[k]
  {
    if gs != [] {
      var prev := MergeAll(m, gs[..|gs| - 1]);
      MergeAllKeeps(m, gs[..|gs| - 1], k, x);
      if prev.1.None? {
        var g := gs[|gs| - 1];
        if g.tags == k && DecodeRows(g.values).Success? {
          MergedKeepsFirst(prev.0[k], DecodeRows(g.values).value);
        }
      }
    }
  }

  ghost predicate RowsSorted(gs: seq<Row>) {
    forall i :: 0 <= i < |gs| && DecodeRows(gs[i].values).Success? ==> StrictlySorted(DecodeRows(gs[i].values).value)
  }

  /** Strictly ascending series and rows fold into strictly ascending series. */
  lemma {:induction false} MergeAllSorted(m: map<Tags, seq<Sample>>, gs: seq<Row>)
    requires forall k :: k in m ==> StrictlySorted(m[k])
    requires RowsSorted(gs)
    ensures forall k :: k in MergeAll(m, gs).0 ==> StrictlySorted(MergeAll(m, gs).0[k])
  {
    if gs != [] {
      var init := gs[..|gs| - 1];
      assert forall i :: 0 <= i < |init| ==> init[i] == gs[i];
      MergeAllSorted(m, init);
      var prev := MergeAll(m, init);
      var g := gs[|gs| - 1];
      if prev.1.None? && DecodeRows(g.values).Success? {
        var current := if g.tags in prev.0 then prev.0[g.tags] else [];
        MergedSorted(current, DecodeRows(g.values).value);
      }
    }
  }

  /** Two series with one tag set are coalesced into a single merged entry. */
  lemma SameTagsCoalesce(g1: Row, g2: Row)
    requires g1.tags == g2.tags
    requires DecodeRows(g1.values).Success? && DecodeRows(g2.values).Success?
    ensures MergeAll(map[], [g1, g2]) ==
      (map[g1.tags := Merged(DecodeRows(g1.values).value, DecodeRows(g2.values).value)], None)
  {
    var d1, d2 := DecodeRows(g1.values).value, DecodeRows(g2.values).value;
    assert [g1, g2][..1] == [g1] && [g1][..0] == [];
    assert Merged([], d1) == d1;
    assert MergeAll(map[], [g1]) == MergeStep(map[], g1) == (map[g1.tags := d1], None);
    assert MergeAll(map[], [g1, g2]) == MergeStep(map[g1.tags := d1], g2);
    assert MergeStep(map[g1.tags := d1], g2) == (map[g1.tags := d1][g1.tags := Merged(d1, d2)], None);
    assert map[g1.tags := d1][g1.tags := Merged(d1, d2)] == map[g1.tags := Merged(d1, d2)];
  }

  /** Merging [1, 3, 5] into [2, 3, 4] keeps one sample per timestamp, the first input's on a tie. */
  lemma MergeExample(v1: Float64, v3: Float64, v5: Float64, w2: Float64, w3: Float64, w4: Float64)
    ensures Merged([Sample(1, v1), Sample(3, v3), Sample(5, v5)], [Sample(2, w2), Sample(3, w3), Sample(4, w4)])
         == [Sample(1, v1), Sample(2, w2), Sample(3, v3), Sample(4, w4), Sample(5, v5)]
  {
    var a := [Sample(1, v1), Sample(3, v3), Sample(5, v5)];
    var b := [Sample(2, w2), Sample(3, w3), Sample(4, w4)];
    assert a[1..] == [Sample(3, v3), Sample(5, v5)] && a[2..] == [Sample(5, v5)];
    assert b[1..] == [Sample(3, w3), Sample(4, w4)] && b[2..] == [Sample(4, w4)];
    assert [Sample(4, w4)][1..] == [];
    assert Merged(a[2..], b[2..]) == [Sample(4, w4), Sample(5, v5)];
    assert Merged(a[1..], b[1..]) == [Sample(3, v3), Sample(4, w4), Sample(5, v5)];
    assert Merged(a[1..], b) == [Sample(2, w2), Sample(3, v3), Sample(4, w4), Sample(5, v5)];
  }
}
