/** The InfluxQL text that a remote-read query translates to, and the escaping it uses. */
module QueryBuilder {
  import opened Wrappers
  import opened Strings
  import opened Labels

  datatype MatchType = EQ | NEQ | RE | NRE | UnknownType(code: int)

  datatype LabelMatcher = LabelMatcher(mtype: MatchType, name: string, value: string)

  datatype Query = Query(startTimestampMs: int, endTimestampMs: int, matchers: seq<LabelMatcher>)

  datatype QueryError =
    | UnsupportedMetricNameMatcher   // a metric-name matcher other than EQ or RE
    | UnknownMatchType(mtype: MatchType)

  /** Every occurrence of `c` replaced by a backslash followed by `c`. */
  function EscapeChar(s: string, c: char): (r: string)
    ensures |r| == |s| + Count(s, c)
    ensures c != '\\' ==> forall i :: 0 <= i < |r| && r[i] == c ==> i > 0 && r[i - 1] == '\\'
  {
    if s == [] then []
    else
      var head := if s[0] == c then ['\\', c] else [s[0]];
      var tail := EscapeChar(s[1..], c);
      assert forall i :: |head| <= i < |head| + |tail| ==> (head + tail)[i] == tail[i - |head|];
      head + tail
  }

  /** Drops the backslash in front of each `c`: the inverse of `EscapeChar`. */
  function UnescapeChar(s: string, c: char): string
    decreases |s|
  {
    if s == [] then []
    else if |s| >= 2 && s[0] == '\\' && s[1] == c then [c] + UnescapeChar(s[2..], c)
    else [s[0]] + UnescapeChar(s[1..], c)
  }

  /** Escaping changes nothing but the inserted backslashes. */
  lemma {:induction false} UnescapeEscape(s: string, c: char)
    requires c != '\\'
    ensures UnescapeChar(EscapeChar(s, c), c) == s
  {
    if s != [] {
      UnescapeEscape(s[1..], c);
      var e := EscapeChar(s, c);
      if s[0] == c {
        assert e[2..] == EscapeChar(s[1..], c);
      } else {
        assert e[1..] == EscapeChar(s[1..], c);
      }
    }
  }

  function EscapeSingleQuotes(s: string): string {
    EscapeChar(s, '\'')
  }

  function EscapeSlashes(s: string): string {
    EscapeChar(s, '/')
  }

  /** The body of a `%q` string: backslash and double quote are escaped. */
  function QuoteBody(s: string): string {
    if s == [] then []
    else (if s[0] == '\\' || s[0] == '"' then ['\\', s[0]] else [s[0]]) + QuoteBody(s[1..])
  }

  /** Go's `%q` quoting of printable text: the escaped body between double quotes. */
  function Quote(s: string): string {
    "\"" + QuoteBody(s) + "\""
  }

  predicate IsNameMatcher(m: LabelMatcher) {
    m.name == MetricNameLabel
  }

  /** The error a matcher raises, if any. */
  function MatcherError(m: LabelMatcher): Option<QueryError> {
    if IsNameMatcher(m) then
      if m.mtype == EQ || m.mtype == RE then None else Some(UnsupportedMetricNameMatcher)
    else if m.mtype.UnknownType? then Some(UnknownMatchType(m.mtype))
    else None
  }

  /** The error of the first matcher that raises one. */
  function FirstError(ms: seq<LabelMatcher>): (r: Option<QueryError>)
    ensures r.None? <==> forall i :: 0 <= i < |ms| ==> MatcherError(ms[i]).None?
    ensures r.Some? ==> exists i :: 0 <= i < |ms| && r == MatcherError(ms[i]) &&
                                    forall j :: 0 <= j < i ==> MatcherError(ms[j]).None?
  {
    if ms == [] then None
    else if MatcherError(ms[0]).Some? then MatcherError(ms[0])
    else
      var r := FirstError(ms[1..]);
      assert forall i :: 1 <= i < |ms| ==> ms[i] == ms[1..][i - 1];
      r
  }

  /** The FROM clause a metric-name matcher selects. */
  function NameFrom(retentionPolicy: string, m: LabelMatcher): string {
    if m.mtype == EQ then "FROM " + Quote(retentionPolicy) + "." + Quote(m.value)
    else "FROM " + Quote(retentionPolicy) + "./^" + EscapeSlashes(m.value) + "$/"
  }

  const AllMeasurements: string := "FROM /.+/"

  /** The FROM clause of the last metric-name matcher, or all measurements when there is none. */
  function FromClause(retentionPolicy: string, ms: seq<LabelMatcher>): (r: string)
    ensures |r| > 5 && r[..5] == "FROM "
  {
    if ms == [] then AllMeasurements
    else if IsNameMatcher(ms[|ms| - 1]) then NameFrom(retentionPolicy, ms[|ms| - 1])
    else FromClause(retentionPolicy, ms[..|ms| - 1])
  }

  /** The WHERE condition an ordinary matcher becomes. */
  function Condition(m: LabelMatcher): string {
    match m.mtype
    case EQ => Quote(m.name) + " = '" + EscapeSingleQuotes(m.value) + "'"
    case NEQ => Quote(m.name) + " != '" + EscapeSingleQuotes(m.value) + "'"
    case RE => Quote(m.name) + " =~ /^" + EscapeSlashes(m.value) + "$/"
    case NRE => Quote(m.name) + " !~ /^" + EscapeSlashes(m.value) + "$/"
    case UnknownType(_) => ""
  }

  /** The conditions of the ordinary matchers, in matcher order. */
  function Conditions(ms: seq<LabelMatcher>): seq<string> {
    if ms == [] then []
    else
      Conditions(ms[..|ms| - 1]) +
      (if IsNameMatcher(ms[|ms| - 1]) then [] else [Condition(ms[|ms| - 1])])
  }

  function TimeBounds(q: Query): seq<string> {
    ["time >= " + DecimalString(q.startTimestampMs) + "ms", "time <= " + DecimalString(q.endTimestampMs) + "ms"]
  }

  function Select(from: string, conditions: seq<string>): string {
    "SELECT value " + from + " WHERE " + Join(conditions, " AND ") + " GROUP BY *"
  }

  /** The query text for `q`, or the error of its first unsupported matcher. */
  function Translate(retentionPolicy: string, q: Query): (r: Result<string, QueryError>)
    // the query fails exactly when some matcher is unsupported, with the first such error
    ensures r.Failure? <==> exists i :: 0 <= i < |q.matchers| && MatcherError(q.matchers[i]).Some?
    ensures r.Failure? ==>
      exists i :: 0 <= i < |q.matchers| && MatcherError(q.matchers[i]) == Some(r.error) &&
        forall j :: 0 <= j < i ==> MatcherError(q.matchers[j]).None?
    ensures r.Success? ==> |r.value| > 18 && r.value[..18] == "SELECT value FROM "
  {
    match FirstError(q.matchers)
    case Some(e) => Failure(e)
    case None => Success(Select(FromClause(retentionPolicy, q.matchers), Conditions(q.matchers) + TimeBounds(q)))
  }

  /** The error of a matcher after error-free ones is the first error. */
  lemma {:induction false} FirstErrorAt(ms: seq<LabelMatcher>, i: nat)
    requires i < |ms| && MatcherError(ms[i]).Some?
    requires forall j :: 0 <= j < i ==> MatcherError(ms[j]).None?
    ensures FirstError(ms) == MatcherError(ms[i])
  {
    if i > 0 {
      assert MatcherError(ms[0]).None?;
      assert forall j :: 0 <= j < i - 1 ==> ms[1..][j] == ms[j + 1];
      FirstErrorAt(ms[1..], i - 1);
    }
  }

  /** What one more matcher adds to the FROM clause and the conditions. */
  lemma ClauseStep(retentionPolicy: string, ms: seq<LabelMatcher>, i: nat)
    requires i < |ms|
    ensures FromClause(retentionPolicy, ms[..i + 1]) ==
      if IsNameMatcher(ms[i]) then NameFrom(retentionPolicy, ms[i]) else FromClause(retentionPolicy, ms[..i])
    ensures Conditions(ms[..i + 1]) ==
      Conditions(ms[..i]) + if IsNameMatcher(ms[i]) then [] else [Condition(ms[i])]
  {
    assert ms[..i + 1][..i] == ms[..i];
  }

  /** Without a metric-name matcher every measurement is selected. */
  lemma {:induction false} NoNameMatcherSelectsAll(retentionPolicy: string, ms: seq<LabelMatcher>)
    requires forall i :: 0 <= i < |ms| ==> !IsNameMatcher(ms[i])
    ensures FromClause(retentionPolicy, ms) == AllMeasurements
  {
    if ms != [] {
      NoNameMatcherSelectsAll(retentionPolicy, ms[..|ms| - 1]);
    }
  }

  /** One condition per ordinary matcher. */
  lemma {:induction false} ConditionPerMatcher(ms: seq<LabelMatcher>)
    ensures |Conditions(ms)| == |set i | 0 <= i < |ms| && !IsNameMatcher(ms[i])|
  {
    if ms != [] {
      var n := |ms| - 1;
      ConditionPerMatcher(ms[..n]);
      var prev := set i | 0 <= i < n && !IsNameMatcher(ms[..n][i]);
      var all := set i | 0 <= i < |ms| && !IsNameMatcher(ms[i]);
      assert prev == set i | 0 <= i < n && !IsNameMatcher(ms[i]);
      if IsNameMatcher(ms[n]) {
        assert all == prev;
      } else {
        assert all == prev + {n};
      }
    }
  }

  /** A successful translation always ends with the two time bounds. */
  lemma EndsWithTimeBounds(retentionPolicy: string, q: Query)
    requires Translate(retentionPolicy, q).Success?
    ensures var text := Translate(retentionPolicy, q).value;
      var tail := TimeBounds(q)[0] + " AND " + TimeBounds(q)[1] + " GROUP BY *";
      |tail| <= |text| && text[|text| - |tail|..] == tail
  {
    var tb := TimeBounds(q);
    assert tb == [tb[0], tb[1]];
    SelectEndsWith(FromClause(retentionPolicy, q.matchers), Conditions(q.matchers), tb[0], tb[1]);
  }

  lemma SelectEndsWith(from: string, cs: seq<string>, a: string, b: string)
    ensures var text := Select(from, cs + [a, b]);
      var tail := a + " AND " + b + " GROUP BY *";
      |tail| <= |text| && text[|text| - |tail|..] == tail
  {
    var head := "SELECT value " + from + " WHERE " + (if cs == [] then "" else Join(cs, " AND ") + " AND ");
    var tail := a + " AND " + b + " GROUP BY *";
    JoinEndsWithPair(cs, a, b, " AND ");
    assert Select(from, cs + [a, b]) == head + tail;
    EndsWith(head, tail);
  }

  lemma EndsWith(head: string, tail: string)
    ensures (head + tail)[|head + tail| - |tail|..] == tail
  {
  }

  lemma JoinEndsWithPair(xs: seq<string>, a: string, b: string, sep: string)
    ensures Join(xs + [a, b], sep) == (if xs == [] then "" else Join(xs, sep) + sep) + a + sep + b
  {
    JoinSnoc(xs + [a], b, sep);
    JoinSnoc(xs, a, sep);
    assert xs + [a, b] == (xs + [a]) + [b];
  }

  /** An equality matcher on the metric name alone selects exactly that measurement of the retention policy. */
  lemma EqualityOnMetricName(retentionPolicy: string, name: string, startMs: int, endMs: int)
    ensures var q := Query(startMs, endMs, [LabelMatcher(EQ, MetricNameLabel, name)]);
      Translate(retentionPolicy, q) ==
        Success(Select("FROM " + Quote(retentionPolicy) + "." + Quote(name), TimeBounds(q)))
  {
    var ms := [LabelMatcher(EQ, MetricNameLabel, name)];
    assert ms[..0] == [];
    assert FirstError(ms) == None;
    assert Conditions(ms) == [];
    var q := Query(startMs, endMs, ms);
    assert Conditions(ms) + TimeBounds(q) == TimeBounds(q);
    assert FromClause(retentionPolicy, ms) == NameFrom(retentionPolicy, ms[0]);
  }
}
