/** The process-wide tag whitelist and the legacy whitelist-only label split. */
module Tags {
  import opened Strings
  import opened Labels

  class TagsWhitelist {
    var whitelist: set<string>

    constructor ()
      ensures whitelist == {}
    {
      whitelist := {};
    }

    method UpdateTagsWhitelist(tagsList: seq<string>)
      modifies this
      ensures whitelist == old(whitelist) + Elems(tagsList)
    {
      var i := 0;
      while i < |tagsList|
        invariant 0 <= i <= |tagsList|
        invariant whitelist == old(whitelist) + Elems(tagsList[..i])
      {
        assert Elems(tagsList[..i + 1]) == Elems(tagsList[..i]) + {tagsList[i]} by {
          assert tagsList[..i + 1] == tagsList[..i] + [tagsList[i]];
        }
        whitelist := whitelist + {tagsList[i]};
        i := i + 1;
      }
      assert tagsList[..i] == tagsList;
    }

    /** Whitelisted labels become tags and every other label but the metric name a field. */
    method TagsOrFieldFromMetric(m: LabelSet) returns (tags: LabelSet, fields: LabelSet)
      ensures (tags, fields) == Partition(m, whitelist, {})
    {
      tags, fields := map[], map[];
      var rest := m.Keys;
      while rest != {}
        invariant rest <= m.Keys
        invariant tags == map l | l in m.Keys - rest && l != MetricNameLabel && l in whitelist :: m[l]
        invariant fields == map l | l in m.Keys - rest && l != MetricNameLabel && l !in whitelist :: m[l]
        decreases rest
      {
        var l :| l in rest;
        if l != MetricNameLabel {
          if l in whitelist {
            tags := tags[l := m[l]];
          } else {
            fields := fields[l := m[l]];
          }
        }
        rest := rest - {l};
      }
      assert m.Keys - rest == m.Keys;
      assert tags == Partition(m, whitelist, {}).0;
      assert fields == Partition(m, whitelist, {}).1;
    }
  }
}
