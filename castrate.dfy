/** The legacy split of a metric name into a measurement name and a field name. */
module Castrate {
  import opened Strings

  /**
   * Scans from the last index down to index 1 for an underscore. The result is 0 when
   * there is none; index 0 itself is never examined.
   */
  method FindCutPoint(name: string) returns (point: nat)
    ensures point == 0 ==> forall j :: 1 <= j < |name| ==> name[j] != '_'
    ensures point != 0 ==> 1 <= point < |name| && name[point] == '_'
    ensures forall j :: point < j < |name| ==> name[j] != '_'
  {
    point := 0;
    var i := |name| - 1;
    while i > 0
      invariant -1 <= i < |name|
      invariant point == 0
      invariant forall j :: i < j < |name| ==> name[j] != '_'
    {
      if name[i] == '_' {
        point := i;
        break;
      }
      i := i - 1;
    }
  }

  /**
   * With the prefix `mea` the name splits right after it; otherwise at the last underscore
   * past index 0, or not at all.
   */
  method CastrateMetricName(mea: string, name: string) returns (measurement: string, field: string)
    ensures HasPrefix(name, mea) ==> measurement == mea && field == name[|mea|..]
    ensures !HasPrefix(name, mea) && (forall j :: 1 <= j < |name| ==> name[j] != '_') ==>
              measurement == name && field == ""
    ensures !HasPrefix(name, mea) && (exists j :: 1 <= j < |name| && name[j] == '_') ==>
              measurement != "" && measurement + "_" + field == name && '_' !in field
  {
    if HasPrefix(name, mea) {
      return mea, name[|mea|..];
    }
    if name == "" {
      return "", "";
    }
    if '_' in name {
      var point := FindCutPoint(name);
      if point <= 0 {
        return name, "";
      }
      measurement, field := name[..point], name[point + 1..];
      assert name == measurement + "_" + field;
      assert forall j :: 0 <= j < |field| ==> field[j] == name[point + 1 + j];
      return;
    }
    return name, "";
  }
}
