/** Small vocabulary shared by the models: optional values, and the binary
    search for where a partitioned sequence stops passing a test. */
module Common {

  datatype Option<+T> = None | Some(value: T)

  /** The elements that satisfy the test all come first. */
  ghost predicate Partitioned<T>(s: seq<T>, test: T --> bool)
    requires forall x | x in s :: test.requires(x)
  {
    forall i, j | 0 <= i < j < |s| && test(s[j]) :: test(s[i])
  }

  /** Where the leading elements that satisfy the test end. */
  function PartitionPoint<T>(s: seq<T>, test: T --> bool): (k: nat)
    requires forall x | x in s :: test.requires(x)
    ensures k <= |s|
    ensures forall i | 0 <= i < k :: test(s[i])
    ensures k < |s| ==> !test(s[k])
  {
    if s == [] || !test(s[0]) then 0 else 1 + PartitionPoint(s[1..], test)
  }

  /** `slice::partition_point`: on a partitioned sequence, halving finds that place. */
  method BinarySearch<T>(s: seq<T>, test: T --> bool) returns (k: nat)
    requires (forall x | x in s :: test.requires(x)) && Partitioned(s, test)
    ensures k == PartitionPoint(s, test) && forall i | 0 <= i < |s| :: test(s[i]) <==> i < k
  {
    var lo, hi := 0, |s|;
    while lo < hi
      invariant 0 <= lo <= hi <= |s|
      invariant forall i | 0 <= i < lo :: test(s[i])
      invariant forall i | hi <= i < |s| :: !test(s[i])
    {
      var middle := lo + (hi - lo) / 2;
      if test(s[middle]) {
        lo := middle + 1;
      } else {
        hi := middle;
      }
    }
    k := lo;
    ghost var p := PartitionPoint(s, test);
    assert p < |s| ==> !test(s[p]);
    assert lo < |s| ==> !test(s[lo]);
  }
}
