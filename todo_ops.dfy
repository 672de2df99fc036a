/**
 * The three list transforms of the to-do screen, as values: the prepend of
 * `addTodo`, the `map` of `toggleTodo` and the `filter` of `removeTodos`,
 * with the properties each keeps.
 */
module TodoOps {
  import opened Todos

  // ---------------------------------------------------------------- addTodo

  /**
   * The id `addTodo` gives a new entry: one more than the HEAD's id, or 1 on
   * an empty list. While ids never increase along the list it is larger than
   * every id present.
   */
  function NextId(s: seq<Todo>): (n: int)
    ensures NonIncreasing(s) ==> forall t :: t in s ==> t.id < n
  {
    if |s| > 0 then s[0].id + 1 else 1
  }

  /** The list after `addTodo` accepts `text`: a fresh, open entry titled with the untrimmed text, in front. */
  function Added(s: seq<Todo>, text: string): (r: seq<Todo>)
    ensures |r| == |s| + 1 && r[1..] == s
    ensures r[0].title == text && !r[0].completed
    ensures NonIncreasing(s) ==> forall t :: t in s ==> t.id < r[0].id
  {
    [Todo(NextId(s), text, false)] + s
  }

  /** The id handed out is the largest id present plus one, as long as ids never increase along the list. */
  lemma NextIdIsMaxPlusOne(s: seq<Todo>)
    requires s != [] && NonIncreasing(s)
    ensures NextId(s) == MaxId(s) + 1
  {
    HeadIsMax(s);
  }

  /** Prepending keeps ids non-increasing. */
  lemma AddedKeepsNonIncreasing(s: seq<Todo>, text: string)
    requires NonIncreasing(s)
    ensures NonIncreasing(Added(s, text))
  {
  }

  /** Prepending keeps ids strictly descending, hence distinct. */
  lemma AddedKeepsStrictlyDescending(s: seq<Todo>, text: string)
    requires StrictlyDescending(s)
    ensures StrictlyDescending(Added(s, text))
  {
  }

  // ------------------------------------------------------------- toggleTodo

  /** One step of the `map`: flip `completed` on a matching entry, keep any other. */
  function FlipIfMatch(t: Todo, id: int): Todo {
    if t.id == id then t.(completed := !t.completed) else t
  }

  /**
   * The list after `toggleTodo(id)`: same length, same order, same ids and
   * titles; `completed` changes exactly on the entries whose id is `id`.
   */
  function Toggle(s: seq<Todo>, id: int): (r: seq<Todo>)
    ensures |r| == |s|
    ensures forall i :: 0 <= i < |s| ==> r[i].id == s[i].id && r[i].title == s[i].title
    ensures forall i :: 0 <= i < |s| ==> (r[i].completed != s[i].completed <==> s[i].id == id)
  {
    if s == [] then [] else [FlipIfMatch(s[0], id)] + Toggle(s[1..], id)
  }

  /** Toggling the same id twice gives back the original list. */
  lemma ToggleTwice(s: seq<Todo>, id: int)
    ensures Toggle(Toggle(s, id), id) == s
  {
  }

  /** Toggling an id no entry carries changes nothing. */
  lemma ToggleAbsent(s: seq<Todo>, id: int)
    requires forall t :: t in s ==> t.id != id
    ensures Toggle(s, id) == s
  {
  }

  /** Toggling two ids in either order gives the same list. */
  lemma ToggleCommutes(s: seq<Todo>, a: int, b: int)
    ensures Toggle(Toggle(s, a), b) == Toggle(Toggle(s, b), a)
  {
  }

  /** Toggling keeps ids non-increasing and keeps them strictly descending. */
  lemma ToggleKeepsOrder(s: seq<Todo>, id: int)
    ensures NonIncreasing(s) ==> NonIncreasing(Toggle(s, id))
    ensures StrictlyDescending(s) ==> StrictlyDescending(Toggle(s, id))
  {
  }

  // ------------------------------------------------------------ removeTodos

  /**
   * The list after `removeTodos(id)`: it holds exactly the entries of `s`
   * whose id is not `id`, and none are added.
   */
  function Remove(s: seq<Todo>, id: int): (r: seq<Todo>)
    ensures |r| <= |s|
    ensures forall t :: t in r <==> t in s && t.id != id
  {
    if s == [] then []
    else
      var rest := Remove(s[1..], id);
      assert forall t :: t in s <==> t == s[0] || t in s[1..];
      if s[0].id != id then [s[0]] + rest else rest
  }

  /** The number of entries of `s` whose id is `id`. */
  function CountId(s: seq<Todo>, id: int): (n: nat)
    ensures n <= |s|
    ensures n == 0 <==> forall t :: t in s ==> t.id != id
  {
    if s == [] then 0 else (if s[0].id == id then 1 else 0) + CountId(s[1..], id)
  }

  /** `r` keeps some of the entries of `s`, in their relative order. */
  ghost predicate IsSubsequence(r: seq<Todo>, s: seq<Todo>)
    decreases |s|
  {
    r == [] || (s != [] && ((r[0] == s[0] && IsSubsequence(r[1..], s[1..])) || IsSubsequence(r, s[1..])))
  }

  /** Removal drops exactly the matching entries and keeps the others in order. */
  lemma {:induction false} RemoveIsOrderedFilter(s: seq<Todo>, id: int)
    ensures IsSubsequence(Remove(s, id), s)
    ensures |Remove(s, id)| == |s| - CountId(s, id)
  {
    if s != [] {
      RemoveIsOrderedFilter(s[1..], id);
      var r := Remove(s, id);
      if s[0].id != id {
        assert r[0] == s[0] && r[1..] == Remove(s[1..], id);
      }
    }
  }

  /** A subsequence that avoids `id` cannot be longer than the entries of `s` that avoid it. */
  lemma {:induction false} AvoidingSubsequenceLength(r: seq<Todo>, s: seq<Todo>, id: int)
    requires IsSubsequence(r, s)
    requires forall t :: t in r ==> t.id != id
    ensures |r| <= |s| - CountId(s, id)
    decreases |s|
  {
    if r != [] {
      if r[0] == s[0] && IsSubsequence(r[1..], s[1..]) {
        assert forall t :: t in r[1..] ==> t in r;
        AvoidingSubsequenceLength(r[1..], s[1..], id);
      } else {
        AvoidingSubsequenceLength(r, s[1..], id);
      }
    }
  }

  /**
   * Removal is the only ordered selection of `s` that avoids `id` and drops
   * no other entry: an independent description of what the `filter` returns.
   */
  lemma {:induction false} RemoveIsUnique(r: seq<Todo>, s: seq<Todo>, id: int)
    requires IsSubsequence(r, s)
    requires forall t :: t in r ==> t.id != id
    requires |r| == |s| - CountId(s, id)
    ensures r == Remove(s, id)
    decreases |s|
  {
    if s == [] {
    } else if s[0].id == id {
      assert r == [] || r[0] != s[0] by {
        if r != [] { assert r[0] in r; }
      }
      assert IsSubsequence(r, s[1..]);
      RemoveIsUnique(r, s[1..], id);
    } else if r != [] && r[0] == s[0] && IsSubsequence(r[1..], s[1..]) {
      assert forall t :: t in r[1..] ==> t in r;
      RemoveIsUnique(r[1..], s[1..], id);
      assert r == [r[0]] + r[1..];
    } else if r == [] {
      assert false;
    } else {
      AvoidingSubsequenceLength(r, s[1..], id);
      assert false;
    }
  }

  /** Removing the same id twice is the same as removing it once. */
  lemma RemoveIdempotent(s: seq<Todo>, id: int)
    ensures Remove(Remove(s, id), id) == Remove(s, id)
  {
    RemoveAbsent(Remove(s, id), id);
  }

  /** Removing an id no entry carries changes nothing. */
  lemma {:induction false} RemoveAbsent(s: seq<Todo>, id: int)
    requires forall t :: t in s ==> t.id != id
    ensures Remove(s, id) == s
  {
    if s != [] {
      assert forall t :: t in s[1..] ==> t in s;
      RemoveAbsent(s[1..], id);
    }
  }

  /**
   * Ids are not reserved: once the newest entry is removed, the next add
   * hands out its id again.
   */
  lemma AddThenRemoveReusesId(s: seq<Todo>, text: string)
    requires NonIncreasing(s)
    ensures var r := Added(s, text); Remove(r, r[0].id) == s && NextId(Remove(r, r[0].id)) == r[0].id
  {
    var r := Added(s, text);
    assert r[1..] == s;
    RemoveAbsent(s, NextId(s));
  }

  /** Removal keeps ids non-increasing. */
  lemma {:induction false} RemoveKeepsNonIncreasing(s: seq<Todo>, id: int)
    requires NonIncreasing(s)
    ensures NonIncreasing(Remove(s, id))
  {
    if s != [] {
      RemoveKeepsNonIncreasing(s[1..], id);
      var rest := Remove(s[1..], id);
      if s[0].id != id {
        forall t | t in rest ensures t.id <= s[0].id {
          var k :| 0 <= k < |s[1..]| && s[1..][k] == t;
          assert s[k + 1] == t;
        }
        PrependKeepsNonIncreasing(s[0], rest);
      }
    }
  }

  /** Removal keeps ids strictly descending. */
  lemma {:induction false} RemoveKeepsStrictlyDescending(s: seq<Todo>, id: int)
    requires StrictlyDescending(s)
    ensures StrictlyDescending(Remove(s, id))
  {
    if s != [] {
      RemoveKeepsStrictlyDescending(s[1..], id);
      var rest := Remove(s[1..], id);
      if s[0].id != id {
        forall t | t in rest ensures t.id < s[0].id {
          var k :| 0 <= k < |s[1..]| && s[1..][k] == t;
          assert s[k + 1] == t;
        }
        PrependKeepsStrictlyDescending(s[0], rest);
      }
    }
  }

  /** An entry whose id bounds every id of a non-increasing list can go in front of it. */
  lemma PrependKeepsNonIncreasing(h: Todo, s: seq<Todo>)
    requires NonIncreasing(s) && forall t :: t in s ==> t.id <= h.id
    ensures NonIncreasing([h] + s)
  {
  }

  /** An entry whose id exceeds every id of a strictly descending list can go in front of it. */
  lemma PrependKeepsStrictlyDescending(h: Todo, s: seq<Todo>)
    requires StrictlyDescending(s) && forall t :: t in s ==> t.id < h.id
    ensures StrictlyDescending([h] + s)
  {
  }
}
