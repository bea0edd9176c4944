/** The process-wide measurement whitelist of the legacy prefix classification. */
module Measurements {
  import opened Strings

  /** A key of `keys` that is a prefix of `name` and at least as long as every other such key. */
  ghost predicate IsLongestPrefixKey(r: string, keys: set<string>, name: string) {
    (r == "" || (r in keys && HasPrefix(name, r))) &&
    (forall k :: k in keys && HasPrefix(name, k) ==> |k| <= |r|)
  }

  /** Two prefixes of one string with the same length are the same string. */
  lemma LongestPrefixUnique(r1: string, r2: string, keys: set<string>, name: string)
    requires IsLongestPrefixKey(r1, keys, name) && IsLongestPrefixKey(r2, keys, name)
    ensures r1 == r2
  {
    if r1 != "" && r2 != "" {
      assert |r1| <= |r2| && |r2| <= |r1|;
      assert r1 == name[..|r1|] == r2;
    }
  }

  class MeasurementsWhitelist {
    var keys: set<string>

    constructor ()
      ensures keys == {}
    {
      keys := {};
    }

    method UpdateMeasurementsWhitelist(whitelist: seq<string>)
      modifies this
      ensures keys == old(keys) + Elems(whitelist)
    {
      var i := 0;
      while i < |whitelist|
        invariant 0 <= i <= |whitelist|
        invariant keys == old(keys) + Elems(whitelist[..i])
      {
        assert Elems(whitelist[..i + 1]) == Elems(whitelist[..i]) + {whitelist[i]} by {
          assert whitelist[..i + 1] == whitelist[..i] + [whitelist[i]];
        }
        keys := keys + {whitelist[i]};
        i := i + 1;
      }
      assert whitelist[..i] == whitelist;
    }

    /** The longest whitelisted key that is a prefix of `name`, or "" when there is none. */
    method HasMeasurement(name: string) returns (r: string)
      ensures IsLongestPrefixKey(r, keys, name)
      ensures r == "" <==> forall k :: k in keys && HasPrefix(name, k) ==> k == ""
    {
      var depth := 0;
      r := "";
      var rest := keys;
      while rest != {}
        invariant rest <= keys
        invariant depth == |r|
        invariant r == "" || (r in keys && HasPrefix(name, r))
        invariant forall k :: k in keys - rest && HasPrefix(name, k) ==> |k| <= depth
        decreases rest
      {
        var key :| key in rest;
        if HasPrefix(name, key) && |key| > depth {
          depth := |key|;
          r := key;
        }
        rest := rest - {key};
      }
    }
  }
}
