/**
 * `list.sort((a, b) => b.id - a.id)`: the array is reordered in place so that
 * ids never increase from the front to the back.
 */
module SortById {
  import opened Todos

  /** Sorts `a` in place by non-increasing id (an insertion sort by adjacent swaps). */
  method SortByIdDescending(a: array<Todo>)
    modifies a
    ensures NonIncreasing(a[..])
    ensures multiset(a[..]) == multiset(old(a[..]))
  {
    var i := 0;
    while i < a.Length
      invariant 0 <= i <= a.Length
      invariant forall p, q :: 0 <= p < q < i ==> a[p].id >= a[q].id
      invariant multiset(a[..]) == multiset(old(a[..]))
    {
      InsertIntoPrefix(a, i);
      i := i + 1;
    }
  }

  /** Moves `a[i]` left past every entry with a smaller id, so that `a[..i + 1]` is ordered. */
  method InsertIntoPrefix(a: array<Todo>, i: int)
    requires 0 <= i < a.Length
    requires forall p, q :: 0 <= p < q < i ==> a[p].id >= a[q].id
    modifies a
    ensures forall p, q :: 0 <= p < q <= i ==> a[p].id >= a[q].id
    ensures multiset(a[..]) == multiset(old(a[..]))
  {
    var j := i;
    while j > 0 && a[j - 1].id < a[j].id
      invariant 0 <= j <= i
      invariant forall p, q :: 0 <= p < q <= i && p != j && q != j ==> a[p].id >= a[q].id
      invariant forall q :: j < q <= i ==> a[j].id > a[q].id
      invariant multiset(a[..]) == multiset(old(a[..]))
    {
      SwapWithPrevious(a, j);
      j := j - 1;
    }
  }

  /** Exchanges `a[j - 1]` and `a[j]`; the contents stay the same multiset. */
  method SwapWithPrevious(a: array<Todo>, j: int)
    requires 0 < j < a.Length
    modifies a
    ensures a[..] == old(a[..])[j - 1 := old(a[j])][j := old(a[j - 1])]
    ensures multiset(a[..]) == multiset(old(a[..]))
  {
    a[j - 1], a[j] := a[j], a[j - 1];
  }
}
