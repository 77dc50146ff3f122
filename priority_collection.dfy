/**
 * PriorityCollection: a list kept in order of non-increasing priority, where
 * a selector gives each item its priority. Every AddRange sorts the whole list.
 */
module PriorityCollections {
  import opened Wrappers
  import opened Exceptions
  import opened Sorting

  /** The sort's comparison `priority(r).CompareTo(priority(l))`, as "l may stand before r". */
  function ByPriority<T>(priority: T -> int): (T, T) -> bool {
    (l, r) => priority(l) >= priority(r)
  }

  lemma ByPriorityTotalPreorder<T(!new)>(priority: T -> int)
    ensures TotalPreorder(ByPriority(priority))
  {
  }

  /** The first index holding `item`, or -1: List.IndexOf, which List.Remove uses. */
  function IndexOf<T(==)>(s: seq<T>, item: T): (r: int)
    ensures r == -1 <==> item !in s
    ensures r != -1 ==> 0 <= r < |s| && s[r] == item && item !in s[..r]
  {
    if s == [] then -1
    else if s[0] == item then 0
    else
      var r := IndexOf(s[1..], item);
      assert s[1..][..(if r == -1 then 0 else r)] == s[1..(if r == -1 then 1 else r + 1)];
      if r == -1 then -1 else r + 1
  }

  /** Does a list of possibly null items hold a null. */
  predicate HasNull<T>(items: seq<Option<T>>) {
    exists i | 0 <= i < |items| :: items[i].None?
  }

  /** The items of a list without nulls. */
  function Values<T>(items: seq<Option<T>>): (r: seq<T>)
    requires !HasNull(items)
    ensures |r| == |items| && forall i :: 0 <= i < |items| ==> items[i] == Some(r[i])
  {
    seq(|items|, i requires 0 <= i < |items| => items[i].value)
  }

  class PriorityCollection<T(==,!new)> {
    /** The priority selector given at construction. */
    const priority: T -> int
    var list: seq<T>

    /** The list is ordered by non-increasing priority. */
    predicate Valid()
      reads this
    {
      SortedBy(list, ByPriority(priority))
    }

    /** An empty collection. */
    constructor(priority: T -> int)
      ensures Valid() && this.priority == priority && list == []
    {
      this.priority := priority;
      list := [];
    }

    /** Count: the length of the list. */
    function Count(): (n: nat)
      reads this
      ensures n == |list|
    {
      |list|
    }

    /** Contains: list membership. */
    function Contains(item: T): (b: bool)
      reads this
      ensures b <==> exists i | 0 <= i < |list| :: list[i] == item
    {
      item in list
    }

    /**
     * AddRange: a null list throws ArgumentNullException("items"), a list
     * holding a null throws ArgumentNullException too, both before any
     * change; otherwise every item is appended, duplicates included, and the
     * whole list is sorted by non-increasing priority.
     */
    method AddRange(items: Option<seq<Option<T>>>) returns (r: Outcome<Exception>)
      requires Valid()
      modifies this
      ensures Valid()
      ensures items.None? ==> r == Fail(ArgumentNull("items"))
      ensures items.Some? && HasNull(items.value) ==> r == Fail(ArgumentNull("items contains null values."))
      ensures r.Pass? <==> items.Some? && !HasNull(items.value)
      ensures r.Fail? ==> list == old(list)
      ensures r.Pass? ==> list == SortBy(old(list) + Values(items.value), ByPriority(priority))
      ensures r.Pass? ==> multiset(list) == multiset(old(list)) + multiset(Values(items.value))
      ensures r.Pass? ==> |list| == |old(list)| + |items.value|
    {
      if items.None? {
        return Fail(ArgumentNull("items"));
      }
      if HasNull(items.value) {
        return Fail(ArgumentNull("items contains null values."));
      }
      var added := Values(items.value);
      ByPriorityTotalPreorder(priority);
      SortBySorted(list + added, ByPriority(priority));
      list := SortBy(list + added, ByPriority(priority));
      assert |multiset(list)| == |list|;
      r := Pass;
    }

    /** Add: AddRange with one item. */
    method Add(item: Option<T>) returns (r: Outcome<Exception>)
      requires Valid()
      modifies this
      ensures Valid()
      ensures item.None? <==> r == Fail(ArgumentNull("items contains null values."))
      ensures r.Fail? ==> list == old(list)
      ensures r.Pass? ==> multiset(list) == multiset(old(list)) + multiset{item.value}
    {
      assert [item][0] == item;
      assert HasNull([item]) <==> item.None?;
      r := AddRange(Some([item]));
      if r.Pass? {
        assert Values([item]) == [item.value];
      }
    }

    /** Clear: the list emptied. */
    method Clear()
      modifies this
      ensures Valid() && list == []
    {
      list := [];
    }

    /** Remove: the first occurrence is deleted; false and no change when the item is absent. */
    method Remove(item: T) returns (removed: bool)
      requires Valid()
      modifies this
      ensures Valid()
      ensures removed <==> item in old(list)
      ensures multiset(list) == multiset(old(list)) - multiset{item}
      ensures removed ==> var i := IndexOf(old(list), item); list == old(list)[..i] + old(list)[i + 1..]
      ensures !removed ==> list == old(list)
    {
      var i := IndexOf(list, item);
      if i == -1 {
        assert item !in multiset(list);
        return false;
      }
      var before := list;
      SortedRemove(before, i, ByPriority(priority));
      assert before == before[..i] + [item] + before[i + 1..];
      assert multiset(before) == multiset(before[..i]) + multiset{item} + multiset(before[i + 1..]);
      list := before[..i] + before[i + 1..];
      assert multiset(list) == multiset(before[..i]) + multiset(before[i + 1..]);
      return true;
    }
  }

  /** After any AddRange the items come out by non-increasing priority. */
  lemma SortedByPriority<T>(s: seq<T>, priority: T -> int)
    requires SortedBy(s, ByPriority(priority))
    ensures forall i, j :: 0 <= i < j < |s| ==> priority(s[i]) >= priority(s[j])
  {
    forall i, j | 0 <= i < j < |s| ensures priority(s[i]) >= priority(s[j]) {
      assert ByPriority(priority)(s[i], s[j]);
    }
  }
}
