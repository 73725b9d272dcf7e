/**
 * The archive of finished goals as the history page handles it: deleting
 * an entry keeps every other entry in order, and the page lists the
 * stored entries newest first.
 */
module HistoryArchive {
  import opened HabitGoal

  /** `a` is `b` with some entries dropped and the rest kept in order. */
  predicate IsSubsequence(a: seq<Goal>, b: seq<Goal>)
    decreases |b|
  {
    if |b| == 0 then |a| == 0
    else (|a| > 0 && a[0] == b[0] && IsSubsequence(a[1..], b[1..])) || IsSubsequence(a, b[1..])
  }

  /** Every entry whose id is not `id`, in stored order. */
  function RemoveById(list: seq<Goal>, id: string): (r: seq<Goal>)
    ensures |r| <= |list|
    ensures forall n | 0 <= n < |r| :: r[n].id != id
    decreases |list|
  {
    if |list| == 0 then []
    else if list[0].id == id then RemoveById(list[1..], id)
    else [list[0]] + RemoveById(list[1..], id)
  }

  /** Deletion drops every copy of the entries with that id and keeps every
      copy of all others. */
  lemma {:induction false} RemoveCounts(list: seq<Goal>, id: string, g: Goal)
    ensures multiset(RemoveById(list, id))[g] == if g.id == id then 0 else multiset(list)[g]
    decreases |list|
  {
    if |list| > 0 {
      RemoveCounts(list[1..], id, g);
      assert list == [list[0]] + list[1..];
    }
  }

  /** The entries kept are in their stored relative order. */
  lemma {:induction false} RemoveKeepsOrder(list: seq<Goal>, id: string)
    ensures IsSubsequence(RemoveById(list, id), list)
    decreases |list|
  {
    if |list| > 0 {
      var rest := RemoveById(list[1..], id);
      RemoveKeepsOrder(list[1..], id);
      if list[0].id != id {
        assert ([list[0]] + rest)[1..] == rest;
      }
    }
  }

  /** The order the history page shows: the stored list reversed. */
  function NewestFirst(list: seq<Goal>): (r: seq<Goal>)
    ensures |r| == |list|
    ensures forall n | 0 <= n < |list| :: r[n] == list[|list| - 1 - n]
    decreases |list|
  {
    if |list| == 0 then []
    else [list[|list| - 1]] + NewestFirst(list[..|list| - 1])
  }

  /** Deleting an id that no entry has changes nothing. */
  lemma {:induction false} RemoveAbsent(list: seq<Goal>, id: string)
    requires forall n | 0 <= n < |list| :: list[n].id != id
    ensures RemoveById(list, id) == list
    decreases |list|
  {
    if |list| > 0 {
      RemoveAbsent(list[1..], id);
      assert list == [list[0]] + list[1..];
    }
  }

  /** Deleting the same id twice is deleting it once. */
  lemma RemoveTwice(list: seq<Goal>, id: string)
    ensures RemoveById(RemoveById(list, id), id) == RemoveById(list, id)
  {
    RemoveAbsent(RemoveById(list, id), id);
  }

  /** Deletion works entry by entry, so it distributes over concatenation. */
  lemma {:induction false} RemoveOverConcat(a: seq<Goal>, b: seq<Goal>, id: string)
    ensures RemoveById(a + b, id) == RemoveById(a, id) + RemoveById(b, id)
    decreases |a|
  {
    if |a| > 0 {
      var ab := a + b;
      assert ab[0] == a[0] && ab[1..] == a[1..] + b;
      RemoveOverConcat(a[1..], b, id);
      if a[0].id != id {
        assert RemoveById(ab, id) == [a[0]] + RemoveById(ab[1..], id);
      }
    } else {
      assert a + b == b;
    }
  }

  /** Deletions of two ids commute. */
  lemma {:induction false} RemoveCommutes(list: seq<Goal>, x: string, y: string)
    ensures RemoveById(RemoveById(list, x), y) == RemoveById(RemoveById(list, y), x)
    decreases |list|
  {
    if |list| > 0 {
      RemoveCommutes(list[1..], x, y);
      var h := [list[0]];
      assert list == h + list[1..];
      RemoveOverConcat(h, list[1..], x);
      RemoveOverConcat(h, list[1..], y);
      RemoveOverConcat(RemoveById(h, x), RemoveById(list[1..], x), y);
      RemoveOverConcat(RemoveById(h, y), RemoveById(list[1..], y), x);
    }
  }

  /** Showing the list reversed twice gives back the stored order. */
  lemma NewestFirstTwice(list: seq<Goal>)
    ensures NewestFirst(NewestFirst(list)) == list
  {
  }

  /** An entry appended to the stored list is shown first. */
  lemma NewestFirstAppend(list: seq<Goal>, g: Goal)
    ensures NewestFirst(list + [g]) == [g] + NewestFirst(list)
  {
  }

  /** The page re-reverses the filtered stored list after a delete; that is
      the same as filtering the list it was showing. */
  lemma {:induction false} DisplayAfterDelete(list: seq<Goal>, id: string)
    ensures NewestFirst(RemoveById(list, id)) == RemoveById(NewestFirst(list), id)
    decreases |list|
  {
    if |list| > 0 {
      var init, last := list[..|list| - 1], list[|list| - 1];
      var kept := RemoveById(init, id);
      assert list == init + [last];
      DisplayAfterDelete(init, id);
      RemoveOverConcat(init, [last], id);
      NewestFirstAppend(init, last);
      RemoveOverConcat([last], NewestFirst(init), id);
      if last.id == id {
        assert RemoveById([last], id) == [];
        assert kept + [] == kept;
      } else {
        assert RemoveById([last], id) == [last];
        NewestFirstAppend(kept, last);
      }
    }
  }
}
