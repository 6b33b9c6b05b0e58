/** Groups of equal values in a sorted list: both evaluators sweep one group at a time. */
module Groups {

  ghost predicate InOrder(high: bool, values: seq<real>) {
    forall i, j :: 0 <= i < j < |values| ==> if high then values[i] >= values[j] else values[i] <= values[j]
  }

  /** No tie crosses `k`. */
  ghost predicate Boundary(values: seq<real>, k: nat) {
    k <= |values| && forall i, j :: 0 <= i < k <= j < |values| ==> values[i] != values[j]
  }

  ghost predicate Tied(values: seq<real>, start: nat, end: nat) {
    start < end <= |values| && forall i :: start <= i < end ==> values[i] == values[start]
  }

  /** A group that starts at a boundary and cannot be extended ends at one. */
  lemma GroupEnds(high: bool, values: seq<real>, start: nat, end: nat)
    requires InOrder(high, values) && Boundary(values, start) && Tied(values, start, end)
    requires end < |values| ==> values[end] != values[start]
    ensures Boundary(values, end)
  {
  }

  /** No boundary lies inside a group. */
  lemma BoundaryAround(values: seq<real>, start: nat, end: nat, k: nat)
    requires Tied(values, start, end) && Boundary(values, k) && k <= end
    ensures k <= start || k == end
  {
    assert start <= k < end ==> values[start] == values[k];
  }
}
