/**
 * The to-do record and the orderings of a to-do list by id that the screen
 * establishes when it loads and keeps afterwards.
 */
module Todos {

  /** One entry of the list: `{id, title, completed}`. */
  datatype Todo = Todo(id: int, title: string, completed: bool)

  /** Ids never increase from the head to the tail (what the load sort yields). */
  predicate NonIncreasing(s: seq<Todo>) {
    forall i, j :: 0 <= i < j < |s| ==> s[i].id >= s[j].id
  }

  /** Ids strictly decrease from the head to the tail: newest first, no id twice. */
  predicate StrictlyDescending(s: seq<Todo>) {
    forall i, j :: 0 <= i < j < |s| ==> s[i].id > s[j].id
  }

  /** No two positions of the list carry the same id. */
  predicate DistinctIds(s: seq<Todo>) {
    forall i, j :: 0 <= i < j < |s| ==> s[i].id != s[j].id
  }

  /** The largest id of a non-empty list, by a scan independent of the order. */
  function MaxId(s: seq<Todo>): (m: int)
    requires s != []
    ensures forall t :: t in s ==> t.id <= m
    ensures exists t :: t in s && t.id == m
  {
    if |s| == 1 then s[0].id
    else
      var rest := MaxId(s[1..]);
      assert forall t :: t in s ==> t == s[0] || t in s[1..];
      if s[0].id >= rest then s[0].id else rest
  }

  /** Strict descent is exactly non-increasing order together with distinct ids. */
  lemma StrictIffNonIncreasingAndDistinct(s: seq<Todo>)
    ensures StrictlyDescending(s) <==> NonIncreasing(s) && DistinctIds(s)
  {
  }

  /** In a non-increasing list the head carries the largest id. */
  lemma {:induction false} HeadIsMax(s: seq<Todo>)
    requires s != [] && NonIncreasing(s)
    ensures MaxId(s) == s[0].id
  {
    var m := MaxId(s);
    var t :| t in s && t.id == m;
    var k :| 0 <= k < |s| && s[k] == t;
    assert k == 0 || s[0].id >= s[k].id;
  }

  /** A value that occurs at two different positions occurs at least twice in the multiset. */
  lemma {:induction false} TwoPositionsCountTwice(s: seq<Todo>, i: int, j: int)
    requires 0 <= i < j < |s| && s[i] == s[j]
    ensures multiset(s)[s[i]] >= 2
  {
    assert s == s[..j] + s[j..];
    assert s[i] in s[..j];
    assert s[j] in s[j..];
    assert multiset(s) == multiset(s[..j]) + multiset(s[j..]);
  }

  /** A value that occurs at least twice in the multiset occupies two different positions. */
  lemma {:induction false} CountTwiceTwoPositions(s: seq<Todo>, x: Todo) returns (i: int, j: int)
    requires multiset(s)[x] >= 2
    ensures 0 <= i < j < |s| && s[i] == x && s[j] == x
  {
    assert x in multiset(s);
    i :| 0 <= i < |s| && s[i] == x;
    var rest := s[..i] + s[i + 1..];
    assert s == s[..i] + [s[i]] + s[i + 1..];
    assert multiset(s) == multiset(s[..i]) + multiset{x} + multiset(s[i + 1..]);
    assert multiset(rest)[x] >= 1;
    assert x in rest;
    var k :| 0 <= k < |rest| && rest[k] == x;
    if k < i {
      assert s[k] == x;
      j := i;
      i := k;
    } else {
      assert s[k + 1] == rest[k];
      j := k + 1;
    }
  }

  /** Two positions of a reordering of `t` that share an id give two positions of `t` that do. */
  lemma SharedIdInPermutation(s: seq<Todo>, t: seq<Todo>, i: int, j: int) returns (p: int, q: int)
    requires multiset(s) == multiset(t)
    requires 0 <= i < j < |s| && s[i].id == s[j].id
    ensures 0 <= p < q < |t| && t[p].id == t[q].id
  {
    if s[i] == s[j] {
      TwoPositionsCountTwice(s, i, j);
      p, q := CountTwiceTwoPositions(t, s[i]);
    } else {
      assert s[i] in multiset(t) && s[j] in multiset(t);
      var a :| 0 <= a < |t| && t[a] == s[i];
      var b :| 0 <= b < |t| && t[b] == s[j];
      if a < b { p, q := a, b; } else { p, q := b, a; }
    }
  }

  /** Reordering a list (same multiset of records) keeps its ids distinct. */
  lemma PermutationKeepsDistinctIds(s: seq<Todo>, t: seq<Todo>)
    requires multiset(s) == multiset(t) && DistinctIds(t)
    ensures DistinctIds(s)
  {
    forall i, j | 0 <= i < j < |s| ensures s[i].id != s[j].id {
      if s[i].id == s[j].id {
        var p, q := SharedIdInPermutation(s, t, i, j);
        assert false;
      }
    }
  }

  /**
   * A list sorted by non-increasing id that is a reordering of a list with
   * distinct ids is strictly descending: the load establishes strict descent
   * whenever the stored list (or the seed) has no id twice.
   */
  lemma SortedPermutationIsStrict(s: seq<Todo>, t: seq<Todo>)
    requires NonIncreasing(s) && multiset(s) == multiset(t) && DistinctIds(t)
    ensures StrictlyDescending(s)
  {
    PermutationKeepsDistinctIds(s, t);
    StrictIffNonIncreasingAndDistinct(s);
  }
}
