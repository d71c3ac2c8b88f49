/** Group lists as the database returns them: positive identifiers in strictly ascending order. */
module Groups {
  predicate Ascending(ids: seq<int>) {
    (forall i | 0 <= i < |ids| :: ids[i] > 0) && (forall i, j | 0 <= i < j < |ids| :: ids[i] < ids[j])
  }

  method CheckAscending(ids: seq<int>) returns (ok: bool)
    ensures ok <==> Ascending(ids)
  {
    var previous := 0;
    for i := 0 to |ids|
      invariant previous == if i == 0 then 0 else ids[i - 1]
      invariant previous >= 0
      invariant forall k | 0 <= k < i :: 0 < ids[k] <= previous
      invariant forall j, k | 0 <= j < k < i :: ids[j] < ids[k]
    {
      if ids[i] <= previous {
        assert i > 0 ==> ids[i] <= ids[i - 1];
        return false;
      }
      previous := ids[i];
    }
    return true;
  }
}
