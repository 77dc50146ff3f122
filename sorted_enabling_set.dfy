/**
 * SortedEnablingSet: a list of items, each enabled or disabled, kept with the
 * enabled items first, plus a counter of the enabled items that bounds the
 * binary searches over the enabled part. Items are modelled as `int` keys
 * (the one use in the program stores layer ids); the optional comparison is
 * a function on keys, the default comparer compares keys with ==.
 *
 * The class uses the corrected lookup, counter and default order; the
 * members suffixed AsWritten keep the source's own behaviour where it differs.
 */
module SortedEnablingSets {
  import opened Wrappers
  import opened Exceptions
  import opened Sorting

  /** KeyValuePair<T, bool>: an item and whether it is enabled. */
  datatype Entry = Entry(key: int, enabled: bool)

  /** The Comparer's TComparer: null, or a comparison of keys. */
  datatype Order = Default | Comparing(cmp: (int, int) -> int)

  /** The contract of a Comparison<T>: antisymmetric in sign and transitive. */
  ghost predicate ValidComparison(cmp: (int, int) -> int) {
    (forall a, b :: cmp(a, b) < 0 <==> cmp(b, a) > 0)
    && (forall a, b, c {:trigger cmp(a, b), cmp(b, c), cmp(a, c)} :: cmp(a, b) <= 0 && cmp(b, c) <= 0 ==> cmp(a, c) <= 0)
  }

  ghost predicate ValidOrder(order: Order) {
    order.Comparing? ==> ValidComparison(order.cmp)
  }

  /** Comparer.Compare as written. */
  function Compare(order: Order, x: Entry, y: Entry): (c: int)
    ensures c in {-1, 0, 1} || (order.Comparing? && c == order.cmp(x.key, y.key))
  {
    match order
    case Comparing(cmp) =>
      var tComp := cmp(x.key, y.key);
      if tComp == 0 then 0
      else if x.enabled == y.enabled then tComp
      else if !x.enabled then 1
      else -1
    case Default =>
      if x.enabled == y.enabled && x.key == y.key then 0
      else if !x.enabled then 1
      else -1
  }

  /**
   * With a comparison, entries the comparison tells apart are ordered
   * enabled first, and inside a group by the comparison.
   */
  lemma CompareEnabledFirst(cmp: (int, int) -> int, x: Entry, y: Entry)
    requires cmp(x.key, y.key) != 0
    ensures x.enabled && !y.enabled ==> Compare(Comparing(cmp), x, y) < 0
    ensures !x.enabled && y.enabled ==> Compare(Comparing(cmp), x, y) > 0
    ensures x.enabled == y.enabled ==> Compare(Comparing(cmp), x, y) == cmp(x.key, y.key)
  {
  }

  /**
   * The order the list is sorted by: enabled entries first, then inside a
   * group by the comparison, or with the default comparer by nothing.
   */
  predicate Before(order: Order, x: Entry, y: Entry) {
    if x.enabled != y.enabled then x.enabled
    else match order
      case Default => true
      case Comparing(cmp) => cmp(x.key, y.key) <= 0
  }

  function Le(order: Order): (Entry, Entry) -> bool {
    (x, y) => Before(order, x, y)
  }

  /** The sort order is a total preorder, so sorting by it is well defined. */
  lemma LeTotalPreorder(order: Order)
    requires ValidOrder(order)
    ensures TotalPreorder(Le(order))
  {
    forall a, b ensures Le(order)(a, b) || Le(order)(b, a) {
      if order.Comparing? && a.enabled == b.enabled && order.cmp(a.key, b.key) > 0 {
        assert order.cmp(b.key, a.key) < 0;
      }
    }
  }

  /**
   * With a valid comparison, sorting by Le is an order List.Sort may produce:
   * Le never contradicts Compare, and Compare's strict answers fix the order.
   */
  lemma LeRefinesCompare(cmp: (int, int) -> int, x: Entry, y: Entry)
    requires ValidComparison(cmp)
    ensures Before(Comparing(cmp), x, y) ==> Compare(Comparing(cmp), x, y) <= 0
    ensures Compare(Comparing(cmp), x, y) < 0 ==> Before(Comparing(cmp), x, y) && !Before(Comparing(cmp), y, x)
  {
    if x.enabled == y.enabled && cmp(x.key, y.key) < 0 {
      assert cmp(y.key, x.key) > 0;
    }
  }

  // Finding: the default comparer is not antisymmetric

  /**
   * Without a comparison, two different entries of the same group each
   * compare greater (both disabled) or each compare less (both enabled)
   * than the other, which breaks the IComparer contract.
   */
  lemma DefaultCompareAsWritten(a: int, b: int)
    requires a != b
    ensures Compare(Default, Entry(a, false), Entry(b, false)) == 1 == Compare(Default, Entry(b, false), Entry(a, false))
    ensures Compare(Default, Entry(a, true), Entry(b, true)) == -1 == Compare(Default, Entry(b, true), Entry(a, true))
  {
  }

  /** The default order the comparer evidently means: enabled before disabled, equal inside a group. */
  function DefaultCompare(x: Entry, y: Entry): (c: int)
    ensures c in {-1, 0, 1}
    ensures x.enabled != y.enabled ==> c == Compare(Default, x, y)
  {
    if x.enabled == y.enabled then 0
    else if !x.enabled then 1
    else -1
  }

  /** The corrected default order keeps the IComparer contract, and Before is its "not greater". */
  lemma DefaultCompareConsistent(x: Entry, y: Entry, z: Entry)
    ensures DefaultCompare(x, y) < 0 <==> DefaultCompare(y, x) > 0
    ensures DefaultCompare(x, y) <= 0 && DefaultCompare(y, z) <= 0 ==> DefaultCompare(x, z) <= 0
    ensures DefaultCompare(x, y) <= 0 <==> Before(Default, x, y)
  {
  }

  /** Does an entry's key stand for `item`: == by default, comparing 0 with a comparison. */
  predicate Matches(order: Order, key: int, item: int) {
    match order
    case Default => key == item
    case Comparing(cmp) => cmp(key, item) == 0
  }

  function CountEnabled(s: seq<Entry>): (n: nat)
    ensures n <= |s|
  {
    if s == [] then 0 else CountEnabled(s[..|s| - 1]) + (if s[|s| - 1].enabled then 1 else 0)
  }

  lemma {:induction false} CountEnabledAppend(a: seq<Entry>, b: seq<Entry>)
    ensures CountEnabled(a + b) == CountEnabled(a) + CountEnabled(b)
    decreases |b|
  {
    if b == [] {
      assert a + b == a;
    } else {
      assert (a + b)[..|a + b| - 1] == a + b[..|b| - 1];
      CountEnabledAppend(a, b[..|b| - 1]);
    }
  }

  lemma CountEnabledSplit(s: seq<Entry>, i: int)
    requires 0 <= i < |s|
    ensures CountEnabled(s) == CountEnabled(s[..i]) + (if s[i].enabled then 1 else 0) + CountEnabled(s[i + 1..])
  {
    assert s[..i + 1][..i] == s[..i];
    assert s == s[..i + 1] + s[i + 1..];
    CountEnabledAppend(s[..i + 1], s[i + 1..]);
  }

  /** Replacing one entry moves the count by the change of that entry's flag. */
  lemma CountEnabledUpdate(s: seq<Entry>, i: int, e: Entry)
    requires 0 <= i < |s|
    ensures CountEnabled(s[i := e]) == CountEnabled(s) - (if s[i].enabled then 1 else 0) + (if e.enabled then 1 else 0)
  {
    CountEnabledSplit(s, i);
    CountEnabledSplit(s[i := e], i);
    assert s[i := e][..i] == s[..i];
    assert s[i := e][i + 1..] == s[i + 1..];
  }

  /** Removing one entry lowers the count by that entry's flag. */
  lemma CountEnabledRemove(s: seq<Entry>, i: int)
    requires 0 <= i < |s|
    ensures CountEnabled(s[..i] + s[i + 1..]) == CountEnabled(s) - (if s[i].enabled then 1 else 0)
  {
    CountEnabledSplit(s, i);
    CountEnabledAppend(s[..i], s[i + 1..]);
  }

  /** The count of enabled entries does not depend on their order. */
  lemma {:induction false} CountEnabledPermutation(a: seq<Entry>, b: seq<Entry>)
    requires multiset(a) == multiset(b)
    ensures CountEnabled(a) == CountEnabled(b)
    decreases |a|
  {
    if a != [] {
      var x := a[|a| - 1];
      assert x in multiset(b);
      var j :| 0 <= j < |b| && b[j] == x;
      var rest := b[..j] + b[j + 1..];
      assert b == b[..j] + [b[j]] + b[j + 1..];
      assert a == a[..|a| - 1] + [x];
      assert multiset(rest) == multiset(b) - multiset{x};
      assert multiset(a[..|a| - 1]) == multiset(a) - multiset{x};
      CountEnabledPermutation(a[..|a| - 1], rest);
      CountEnabledRemove(b, j);
    }
  }

  /** The length of the maximal enabled prefix. */
  function EnabledPrefix(s: seq<Entry>): (n: nat)
    ensures n <= |s|
    ensures forall i :: 0 <= i < n ==> s[i].enabled
    ensures n < |s| ==> !s[n].enabled
  {
    if s == [] || !s[0].enabled then 0 else 1 + EnabledPrefix(s[1..])
  }

  function Keys(s: seq<Entry>): (r: seq<int>)
    ensures |r| == |s| && forall i :: 0 <= i < |s| ==> r[i] == s[i].key
  {
    seq(|s|, i requires 0 <= i < |s| => s[i].key)
  }

  /** EnabledContent: the items up to the first disabled one. */
  function EnabledContent(s: seq<Entry>): (r: seq<int>)
    ensures |r| == EnabledPrefix(s) && r == Keys(s[..EnabledPrefix(s)])
  {
    Keys(s[..EnabledPrefix(s)])
  }

  /**
   * In a list sorted enabled-first, the enabled prefix holds every enabled
   * entry, so its length is the count of enabled entries.
   */
  lemma {:induction false} SortedEnabledFirst(order: Order, s: seq<Entry>)
    requires SortedBy(s, Le(order))
    ensures EnabledPrefix(s) == CountEnabled(s)
    ensures forall i :: EnabledPrefix(s) <= i < |s| ==> !s[i].enabled
  {
    DisabledAfterPrefix(order, s);
    PrefixCount(s);
  }

  /** In a list sorted enabled-first, nothing after the enabled prefix is enabled. */
  lemma DisabledAfterPrefix(order: Order, s: seq<Entry>)
    requires SortedBy(s, Le(order))
    ensures forall i :: EnabledPrefix(s) <= i < |s| ==> !s[i].enabled
  {
    var n := EnabledPrefix(s);
    forall i | n < i < |s| ensures !s[i].enabled {
      assert Le(order)(s[n], s[i]);
    }
  }

  /** When nothing after the enabled prefix is enabled, the prefix's length is the count. */
  lemma PrefixCount(s: seq<Entry>)
    requires forall i :: EnabledPrefix(s) <= i < |s| ==> !s[i].enabled
    ensures EnabledPrefix(s) == CountEnabled(s)
  {
    var n := EnabledPrefix(s);
    assert s == s[..n] + s[n..];
    CountEnabledAppend(s[..n], s[n..]);
    AllEnabledCount(s[..n]);
    NoneEnabledCount(s[n..]);
  }

  lemma {:induction false} AllEnabledCount(s: seq<Entry>)
    requires forall i :: 0 <= i < |s| ==> s[i].enabled
    ensures CountEnabled(s) == |s|
    decreases |s|
  {
    if s != [] {
      AllEnabledCount(s[..|s| - 1]);
    }
  }

  lemma {:induction false} NoneEnabledCount(s: seq<Entry>)
    requires forall i :: 0 <= i < |s| ==> !s[i].enabled
    ensures CountEnabled(s) == 0
    decreases |s|
  {
    if s != [] {
      NoneEnabledCount(s[..|s| - 1]);
    }
  }

  // Lookup

  /**
   * List.BinarySearch's search over s[lo..hi] (both ends included): an index
   * whose entry compares 0 with `value`, or the complement of the index where
   * `value` would be inserted.
   */
  function SearchRange(order: Order, s: seq<Entry>, lo: int, hi: int, value: Entry): (r: int)
    requires 0 <= lo <= hi + 1 <= |s|
    ensures r >= 0 ==> lo <= r <= hi && Compare(order, s[r], value) == 0
    ensures r < 0 ==> lo <= -r - 1 <= hi + 1
    decreases hi + 1 - lo
  {
    if lo > hi then -lo - 1
    else
      var mid := lo + (hi - lo) / 2;
      var c := Compare(order, s[mid], value);
      if c == 0 then mid
      else if c < 0 then SearchRange(order, s, mid + 1, hi, value)
      else SearchRange(order, s, lo, mid - 1, value)
  }

  /**
   * List.BinarySearch(index, count, item, comparer): a negative index or
   * count throws ArgumentOutOfRangeException, a range past the end throws
   * ArgumentException.
   */
  function BinarySearch(order: Order, s: seq<Entry>, index: int, count: int, value: Entry): (r: Result<int, Exception>)
    ensures r.Success? <==> 0 <= index && 0 <= count && index + count <= |s|
    ensures r.Success? ==> r.value == SearchRange(order, s, index, index + count - 1, value)
  {
    if index < 0 then Failure(ArgumentOutOfRange("index"))
    else if count < 0 then Failure(ArgumentOutOfRange("count"))
    else if |s| - index < count then Failure(Argument("offset and length"))
    else Success(SearchRange(order, s, index, index + count - 1, value))
  }

  /** Below an entry that compares less than `v`, every entry of a sorted range compares less too. */
  lemma BelowMid(cmp: (int, int) -> int, s: seq<Entry>, lo: int, mid: int, hi: int, v: int)
    requires ValidComparison(cmp)
    requires 0 <= lo <= mid <= hi < |s|
    requires forall i, j :: lo <= i < j <= hi ==> cmp(s[i].key, s[j].key) <= 0
    requires cmp(s[mid].key, v) < 0
    ensures forall i :: lo <= i <= mid ==> cmp(s[i].key, v) != 0
  {
    forall i | lo <= i < mid
      ensures cmp(s[i].key, v) != 0
    {
      var a, b := s[i].key, s[mid].key;
      assert cmp(a, b) <= 0;
      assert cmp(v, b) > 0;
      assert cmp(v, a) > 0;
    }
  }

  /** Above an entry that compares greater than `v`, every entry of a sorted range compares greater too. */
  lemma AboveMid(cmp: (int, int) -> int, s: seq<Entry>, lo: int, mid: int, hi: int, v: int)
    requires ValidComparison(cmp)
    requires 0 <= lo <= mid <= hi < |s|
    requires forall i, j :: lo <= i < j <= hi ==> cmp(s[i].key, s[j].key) <= 0
    requires cmp(s[mid].key, v) > 0
    ensures forall i :: mid <= i <= hi ==> cmp(s[i].key, v) != 0
  {
    forall i | mid < i <= hi
      ensures cmp(s[i].key, v) != 0
    {
      var b, a := s[mid].key, s[i].key;
      assert cmp(b, a) <= 0;
      assert cmp(a, v) > 0;
    }
  }

  /**
   * Over a range of one group sorted by a valid comparison, the binary
   * search misses only when no entry of the range compares 0 with the value.
   */
  lemma {:induction false} SearchRangeComplete(cmp: (int, int) -> int, s: seq<Entry>, lo: int, hi: int, value: Entry)
    requires ValidComparison(cmp)
    requires 0 <= lo <= hi + 1 <= |s|
    requires forall i :: lo <= i <= hi ==> s[i].enabled == value.enabled
    requires forall i, j :: lo <= i < j <= hi ==> cmp(s[i].key, s[j].key) <= 0
    ensures SearchRange(Comparing(cmp), s, lo, hi, value) < 0 ==> forall i :: lo <= i <= hi ==> cmp(s[i].key, value.key) != 0
    decreases hi + 1 - lo
  {
    if lo <= hi {
      var mid := lo + (hi - lo) / 2;
      assert Compare(Comparing(cmp), s[mid], value) == cmp(s[mid].key, value.key);
      if cmp(s[mid].key, value.key) < 0 {
        SearchRangeComplete(cmp, s, mid + 1, hi, value);
        BelowMid(cmp, s, lo, mid, hi, value.key);
      } else if cmp(s[mid].key, value.key) > 0 {
        SearchRangeComplete(cmp, s, lo, mid - 1, value);
        AboveMid(cmp, s, lo, mid, hi, value.key);
      }
    }
  }

  /** The default comparer's scan: the first index below `bound` holding `item`, or -1. */
  function FirstIndex(s: seq<Entry>, item: int, bound: int): (r: int)
    requires bound <= |s|
    ensures r == -1 <==> forall i :: 0 <= i < bound ==> s[i].key != item
    ensures r != -1 ==> 0 <= r < bound && s[r].key == item && forall i :: 0 <= i < r ==> s[i].key != item
    decreases |s|
  {
    if bound <= 0 then -1
    else if s[0].key == item then 0
    else
      var r := FirstIndex(s[1..], item, bound - 1);
      if r == -1 then -1 else r + 1
  }

  /** The linear scan as written: looking past the end of the list throws ArgumentOutOfRangeException. */
  function LinearScanAsWritten(s: seq<Entry>, item: int, bound: int): (r: Result<int, Exception>)
    ensures bound <= |s| ==> r == Success(FirstIndex(s, item, bound))
    decreases |s|
  {
    if bound <= 0 then Success(-1)
    else if s == [] then Failure(ArgumentOutOfRange("index"))
    else if s[0].key == item then Success(0)
    else
      var r :- LinearScanAsWritten(s[1..], item, bound - 1);
      Success(if r == -1 then -1 else r + 1)
  }

  /**
   * FindItem as written, on any counter value: with a comparison, a binary
   * search over the first `count` entries and, unless that search returned
   * exactly -1 or only enabled items are wanted, its result as it is;
   * otherwise a search over the remaining entries. Without one, a scan of
   * the first `count` entries or of the whole list.
   */
  function FindItemAsWritten(order: Order, s: seq<Entry>, count: int, item: int, onlyEnabled: bool): (r: Result<int, Exception>)
    ensures order.Comparing? ==> (r.Success? <==> 0 <= count <= |s|)
    ensures 0 <= count <= |s| ==> r.Success? && (r.value >= 0 ==> r.value < |s| && Matches(order, s[r.value].key, item))
    ensures 0 <= count <= |s| && (onlyEnabled || order.Default?) ==> r.value == Find(order, s, count, item, onlyEnabled)
  {
    match order
    case Comparing(_) =>
      var search :- BinarySearch(order, s, 0, count, Entry(item, true));
      if search != -1 || onlyEnabled then Success(search)
      else BinarySearch(order, s, count, |s| - count, Entry(item, false))
    case Default =>
      LinearScanAsWritten(s, item, if onlyEnabled then count else |s|)
  }

  /** IsEnabled as written: FindItem over the enabled items differs from -1. */
  function IsEnabledAsWritten(order: Order, s: seq<Entry>, count: int, item: int): (r: Result<bool, Exception>)
    ensures r.Success? <==> FindItemAsWritten(order, s, count, item, true).Success?
    ensures r.Success? ==> (r.value <==> FindItemAsWritten(order, s, count, item, true).value != -1)
  {
    var idx :- FindItemAsWritten(order, s, count, item, true);
    Success(idx != -1)
  }

  /**
   * FindItem corrected: a miss in the enabled part is any negative result,
   * not only -1. The counter must lie within the list.
   */
  function Find(order: Order, s: seq<Entry>, count: int, item: int, onlyEnabled: bool): (r: int)
    requires 0 <= count <= |s|
    ensures r >= 0 ==> r < (if onlyEnabled then count else |s|) && Matches(order, s[r].key, item)
    ensures order.Default? ==> r == FirstIndex(s, item, if onlyEnabled then count else |s|)
  {
    match order
    case Comparing(_) =>
      var search := SearchRange(order, s, 0, count - 1, Entry(item, true));
      if search >= 0 || onlyEnabled then search
      else SearchRange(order, s, count, |s| - 1, Entry(item, false))
    case Default =>
      FirstIndex(s, item, if onlyEnabled then count else |s|)
  }

  /** Where the two agree: always without a comparison, and whenever the first search does not miss past index 0. */
  lemma FindAsWrittenAgrees(order: Order, s: seq<Entry>, count: int, item: int, onlyEnabled: bool)
    requires 0 <= count <= |s|
    requires order.Comparing? && !onlyEnabled ==> SearchRange(order, s, 0, count - 1, Entry(item, true)) >= -1
    ensures FindItemAsWritten(order, s, count, item, onlyEnabled) == Success(Find(order, s, count, item, onlyEnabled))
  {
  }

  /** The state every operation keeps: a valid order, the list sorted by it, the counter exact. */
  ghost predicate Consistent(order: Order, s: seq<Entry>, count: int) {
    ValidOrder(order) && SortedBy(s, Le(order)) && count == CountEnabled(s)
  }

  /**
   * In a consistent state, Find hits exactly when some entry in the searched
   * part (the enabled prefix, or the whole list) stands for the item.
   */
  lemma FindCorrect(order: Order, s: seq<Entry>, count: int, item: int, onlyEnabled: bool)
    requires Consistent(order, s, count)
    ensures count <= |s|
    ensures var bound := if onlyEnabled then count else |s|;
      Find(order, s, count, item, onlyEnabled) < 0 <==> forall i :: 0 <= i < bound ==> !Matches(order, s[i].key, item)
    ensures onlyEnabled ==> forall i :: count <= i < |s| ==> !s[i].enabled
  {
    SortedEnabledFirst(order, s);
    if order.Comparing? {
      FindCorrectComparing(order.cmp, s, count, item, onlyEnabled);
    }
  }

  /** Inside one group of a sorted list, the keys are in the comparison's order. */
  lemma GroupSorted(cmp: (int, int) -> int, s: seq<Entry>, lo: int, hi: int, enabled: bool)
    requires SortedBy(s, Le(Comparing(cmp)))
    requires 0 <= lo <= hi + 1 <= |s|
    requires forall i :: lo <= i <= hi ==> s[i].enabled == enabled
    ensures forall i, j :: lo <= i < j <= hi ==> cmp(s[i].key, s[j].key) <= 0
  {
    forall i, j | lo <= i < j <= hi
      ensures cmp(s[i].key, s[j].key) <= 0
    {
      assert Le(Comparing(cmp))(s[i], s[j]);
    }
  }

  /** FindCorrect with a comparison: both searches run over one sorted group. */
  lemma FindCorrectComparing(cmp: (int, int) -> int, s: seq<Entry>, count: int, item: int, onlyEnabled: bool)
    requires ValidComparison(cmp) && SortedBy(s, Le(Comparing(cmp)))
    requires 0 <= count <= |s|
    requires forall i :: 0 <= i < count ==> s[i].enabled
    requires forall i :: count <= i < |s| ==> !s[i].enabled
    ensures var bound := if onlyEnabled then count else |s|;
      Find(Comparing(cmp), s, count, item, onlyEnabled) < 0 <==> forall i :: 0 <= i < bound ==> !Matches(Comparing(cmp), s[i].key, item)
  {
    GroupSorted(cmp, s, 0, count - 1, true);
    GroupSorted(cmp, s, count, |s| - 1, false);
    FindInGroups(cmp, s, count, item, onlyEnabled);
  }

  /** FindCorrectComparing once each group is known to be sorted by the comparison. */
  lemma FindInGroups(cmp: (int, int) -> int, s: seq<Entry>, count: int, item: int, onlyEnabled: bool)
    requires ValidComparison(cmp)
    requires 0 <= count <= |s|
    requires forall i :: 0 <= i < count ==> s[i].enabled
    requires forall i :: count <= i < |s| ==> !s[i].enabled
    requires forall i, j :: 0 <= i < j <= count - 1 ==> cmp(s[i].key, s[j].key) <= 0
    requires forall i, j :: count <= i < j <= |s| - 1 ==> cmp(s[i].key, s[j].key) <= 0
    ensures var bound := if onlyEnabled then count else |s|;
      Find(Comparing(cmp), s, count, item, onlyEnabled) < 0 <==> forall i :: 0 <= i < bound ==> !Matches(Comparing(cmp), s[i].key, item)
  {
    var first := SearchRange(Comparing(cmp), s, 0, count - 1, Entry(item, true));
    SearchRangeComplete(cmp, s, 0, count - 1, Entry(item, true));
    if first < 0 && !onlyEnabled {
      SearchRangeComplete(cmp, s, count, |s| - 1, Entry(item, false));
    }
  }

  /** A constructed state where the as-written lookup goes wrong. */
  function Difference(a: int, b: int): int {
    a - b
  }

  lemma DifferenceValid()
    ensures ValidComparison(Difference)
  {
  }

  // Finding: FindItem and IsEnabled test for -1 instead of any negative result

  /**
   * Compared by key difference, the set {1 enabled, 3 disabled} with an exact
   * counter: Contains(3) misses the disabled 3 because the search over the
   * enabled part returns -2, and IsEnabled(2) holds for the absent 2.
   */
  lemma FindItemAsWrittenMisses()
    ensures Consistent(Comparing(Difference), [Entry(1, true), Entry(3, false)], 1)
    ensures FindItemAsWritten(Comparing(Difference), [Entry(1, true), Entry(3, false)], 1, 3, false) == Success(-2)
    ensures IsEnabledAsWritten(Comparing(Difference), [Entry(1, true), Entry(3, false)], 1, 2) == Success(true)
  {
    DifferenceValid();
    var s := [Entry(1, true), Entry(3, false)];
    assert CountEnabled(s[..1]) == 1;
    assert SearchRange(Comparing(Difference), s, 0, 0, Entry(3, true)) == -2;
    assert SearchRange(Comparing(Difference), s, 0, 0, Entry(2, true)) == -2;
  }

  // Finding: the enabled counter is not kept

  /** Does some entry stand for the item: what Contains means. */
  predicate Holds(order: Order, s: seq<Entry>, item: int) {
    exists i | 0 <= i < |s| :: Matches(order, s[i].key, item)
  }

  /**
   * AddRange's counter update as written. The added values are a lazy query
   * that filters on !Contains(t); the sum enumerates it a second time, after
   * the items were added, so the filter runs against the grown list.
   */
  function EnabledAddedAsWritten(order: Order, s: seq<Entry>, count: int, items: seq<int>, selector: int -> bool): (r: Result<int, Exception>)
    decreases |items|
  {
    if items == [] then Success(0)
    else
      var idx :- FindItemAsWritten(order, s, count, items[0], false);
      var rest :- EnabledAddedAsWritten(order, s, count, items[1..], selector);
      Success((if idx < 0 && selector(items[0]) then 1 else 0) + rest)
  }

  /** Without a comparison, once every item is in the list the second enumeration counts nothing. */
  lemma {:induction false} EnabledAddedAsWrittenIsZero(s: seq<Entry>, count: int, items: seq<int>, selector: int -> bool)
    requires forall t :: t in items ==> Holds(Default, s, t)
    ensures EnabledAddedAsWritten(Default, s, count, items, selector) == Success(0)
    decreases |items|
  {
    if items != [] {
      assert Holds(Default, s, items[0]);
      assert FirstIndex(s, items[0], |s|) != -1;
      assert forall t :: t in items[1..] ==> t in items;
      EnabledAddedAsWrittenIsZero(s, count, items[1..], selector);
    }
  }

  /**
   * A set built from one enabled item, or given it by AddRange, holds the
   * item as enabled, but the counter stays 0 (the constructor sets 0, the
   * sum counts nothing), so IsEnabled(x) is false without a comparison.
   */
  lemma CounterAsWritten(x: int, selector: int -> bool)
    requires selector(x)
    ensures SortBy([Entry(x, true)], Le(Default)) == [Entry(x, true)]
    ensures EnabledAddedAsWritten(Default, [Entry(x, true)], 0, [x], selector) == Success(0)
    ensures EnabledContent([Entry(x, true)]) == [x]
    ensures IsEnabledAsWritten(Default, [Entry(x, true)], 0, x) == Success(false)
  {
    assert Matches(Default, [Entry(x, true)][0].key, x);
    EnabledAddedAsWrittenIsZero([Entry(x, true)], 0, [x], selector);
    assert EnabledPrefix([Entry(x, true)]) == 1;
  }

  // Finding: Clear leaves the counter

  /** Clear as written: the list is emptied, the counter kept. */
  function ClearedAsWritten(s: seq<Entry>, count: int): (r: (seq<Entry>, int))
    ensures r.0 == [] && r.1 == count
  {
    ([], count)
  }

  /**
   * After Clear on a set with an enabled item, the kept counter sends the
   * lookups past the empty list: IsEnabled throws without a comparison,
   * Contains and IsEnabled throw with one.
   */
  lemma LookupAfterClearAsWritten(s: seq<Entry>, count: int, item: int, cmp: (int, int) -> int)
    requires count > 0
    ensures var (cleared, kept) := ClearedAsWritten(s, count);
      FindItemAsWritten(Default, cleared, kept, item, true) == Failure(ArgumentOutOfRange("index"))
      && FindItemAsWritten(Comparing(cmp), cleared, kept, item, false) == Failure(Argument("offset and length"))
  {
  }

  // Helpers for the operations

  /** The entries AddRange adds: each item not yet in the set, nor added before it, with its selected state. */
  function Additions(order: Order, s: seq<Entry>, items: seq<int>, selector: int -> bool): (r: seq<Entry>)
    ensures forall i :: 0 <= i < |r| ==> r[i].key in items && r[i].enabled == selector(r[i].key)
    ensures forall i :: 0 <= i < |r| ==> !Holds(order, s, r[i].key)
    ensures forall i, j :: 0 <= i < j < |r| ==> !Matches(order, r[i].key, r[j].key)
    decreases |items|
  {
    if items == [] then []
    else
      var prev := Additions(order, s, items[..|items| - 1], selector);
      var t := items[|items| - 1];
      if Holds(order, s + prev, t) then prev
      else
        assert forall i :: 0 <= i < |prev| ==> (s + prev)[|s| + i] == prev[i];
        assert forall i :: 0 <= i < |s| ==> (s + prev)[i] == s[i];
        prev + [Entry(t, selector(t))]
  }

  /** After AddRange every item stands for an entry of the set. */
  lemma {:induction false} AdditionsCover(order: Order, s: seq<Entry>, items: seq<int>, selector: int -> bool)
    requires ValidOrder(order)
    ensures forall t :: t in items ==> Holds(order, s + Additions(order, s, items, selector), t)
    decreases |items|
  {
    if items != [] {
      var init := items[..|items| - 1];
      var prev := Additions(order, s, init, selector);
      var t := items[|items| - 1];
      AdditionsCover(order, s, init, selector);
      var r := Additions(order, s, items, selector);
      assert |r| >= |prev| && forall i :: 0 <= i < |prev| ==> r[i] == prev[i];
      forall u | u in items ensures Holds(order, s + r, u) {
        if u in init {
          var i :| 0 <= i < |s + prev| && Matches(order, (s + prev)[i].key, u);
          assert (s + r)[i] == (s + prev)[i];
        } else {
          assert u == t;
          if !Holds(order, s + prev, t) {
            assert (s + r)[|s + prev|] == Entry(t, selector(t));
          }
        }
      }
    }
  }

  /** EnableAll's change to one entry: a selected entry takes the new state, others stay. */
  function Flip(e: Entry, enabled: bool, selector: int -> bool): (r: Entry)
    ensures r.key == e.key
    ensures r.enabled == (if selector(e.key) then enabled else e.enabled)
  {
    if e.enabled != enabled && selector(e.key) then Entry(e.key, enabled) else e
  }

  function FlipAll(s: seq<Entry>, enabled: bool, selector: int -> bool): (r: seq<Entry>)
    ensures |r| == |s| && forall i :: 0 <= i < |s| ==> r[i] == Flip(s[i], enabled, selector)
  {
    seq(|s|, i requires 0 <= i < |s| => Flip(s[i], enabled, selector))
  }

  /**
   * EnableAll(items, enabled): item by item, the entry FindItem finds for it
   * takes the item and the new state unless it already had that state. The
   * counter is exact throughout, and the list is sorted only at the end.
   */
  function SetItems(order: Order, s: seq<Entry>, items: seq<int>, enabled: bool): (r: seq<Entry>)
    ensures |r| == |s|
    decreases |items|
  {
    if items == [] then s
    else
      var idx := Find(order, s, CountEnabled(s), items[0], false);
      var next := if idx < 0 || s[idx].enabled == enabled then s else s[idx := Entry(items[0], enabled)];
      SetItems(order, next, items[1..], enabled)
  }

  predicate DistinctKeys(s: seq<Entry>) {
    forall i, j :: 0 <= i < j < |s| ==> s[i].key != s[j].key
  }

  /** Without a comparison and with distinct items, exactly the listed items take the new state. */
  lemma {:induction false} SetItemsDefault(s: seq<Entry>, items: seq<int>, enabled: bool)
    requires DistinctKeys(s)
    ensures forall i :: 0 <= i < |s| ==>
      SetItems(Default, s, items, enabled)[i] == if s[i].key in items then Entry(s[i].key, enabled) else s[i]
    decreases |items|
  {
    if items != [] {
      var idx := Find(Default, s, CountEnabled(s), items[0], false);
      var next := if idx < 0 || s[idx].enabled == enabled then s else s[idx := Entry(items[0], enabled)];
      assert forall i :: 0 <= i < |s| ==> next[i].key == s[i].key;
      assert DistinctKeys(next);
      SetItemsDefault(next, items[1..], enabled);
      forall i | 0 <= i < |s|
        ensures SetItems(Default, s, items, enabled)[i] == if s[i].key in items then Entry(s[i].key, enabled) else s[i]
      {
        assert s[i].key in items <==> s[i].key == items[0] || s[i].key in items[1..];
        if s[i].key == items[0] {
          assert idx == i;
        } else {
          assert next[i] == s[i];
        }
      }
    }
  }

  /** Sorting a list keeps it consistent with an exact counter. */
  lemma SortKeepsCount(order: Order, s: seq<Entry>)
    requires ValidOrder(order)
    ensures Consistent(order, SortBy(s, Le(order)), CountEnabled(s))
  {
    LeTotalPreorder(order);
    SortBySorted(s, Le(order));
    CountEnabledPermutation(SortBy(s, Le(order)), s);
  }

  /** Sorting keeps every item the list stood for. */
  lemma SortKeepsHolds(order: Order, s: seq<Entry>, items: seq<int>)
    requires forall t :: t in items ==> Holds(order, s, t)
    ensures forall t :: t in items ==> Holds(order, SortBy(s, Le(order)), t)
  {
    var sorted := SortBy(s, Le(order));
    forall t | t in items ensures Holds(order, sorted, t) {
      var k :| 0 <= k < |s| && Matches(order, s[k].key, t);
      assert s[k] in multiset(sorted);
      var j :| 0 <= j < |sorted| && sorted[j] == s[k];
    }
  }

  class SortedEnablingSet {
    /** The comparer, fixed at construction. */
    const order: Order
    /** The list of items with their enabled flags. */
    var content: seq<Entry>
    /** The number of enabled items, which bounds the search over the enabled part. */
    var enabledCount: int

    ghost predicate Valid()
      reads this
    {
      Consistent(order, content, enabledCount)
    }

    /** The constructor for a non-null list: the entries sorted, the counter exact. */
    constructor(initial: seq<Entry>, order: Order)
      requires ValidOrder(order)
      ensures Valid() && this.order == order
      ensures content == SortBy(initial, Le(order))
    {
      this.order := order;
      content := SortBy(initial, Le(order));
      enabledCount := CountEnabled(initial);
      new;
      SortKeepsCount(order, initial);
    }

    /** Count: the length of the list. */
    function Count(): (n: nat)
      reads this
      ensures n == |content|
    {
      |content|
    }

    /** EnabledContent: the items of the enabled prefix; in a valid set, all enabled items. */
    function EnabledItems(): (r: seq<int>)
      reads this
      ensures r == EnabledContent(content)
      ensures forall i :: 0 <= i < |r| ==> content[i].enabled && r[i] == content[i].key
    {
      EnabledContent(content)
    }

    /** FindItem: Find with the set's own counter. */
    method FindItem(item: int, onlyEnabled: bool) returns (idx: int)
      requires 0 <= enabledCount <= |content|
      ensures idx == Find(order, content, enabledCount, item, onlyEnabled)
    {
      match order {
        case Comparing(_) =>
          var search := SearchRange(order, content, 0, enabledCount - 1, Entry(item, true));
          if search >= 0 || onlyEnabled {
            return search;
          }
          idx := SearchRange(order, content, enabledCount, |content| - 1, Entry(item, false));
        case Default =>
          var bound := if onlyEnabled then enabledCount else |content|;
          var i := 0;
          while i < bound
            invariant 0 <= i <= bound
            invariant forall k :: 0 <= k < i ==> content[k].key != item
          {
            if content[i].key == item {
              return i;
            }
            i := i + 1;
          }
          return -1;
      }
    }

    /** Contains: some entry stands for the item. */
    method Contains(item: int) returns (b: bool)
      requires Valid()
      ensures b <==> Holds(order, content, item)
    {
      FindCorrect(order, content, enabledCount, item, false);
      var idx := FindItem(item, false);
      return idx >= 0;
    }

    /** IsEnabled (corrected): some enabled entry stands for the item. */
    method IsEnabled(item: int) returns (b: bool)
      requires Valid()
      ensures b <==> exists i | 0 <= i < |content| :: content[i].enabled && Matches(order, content[i].key, item)
    {
      FindCorrect(order, content, enabledCount, item, true);
      SortedEnabledFirst(order, content);
      var idx := FindItem(item, true);
      return idx >= 0;
    }

    /**
     * Remove: an item the set does not hold gives false and changes nothing;
     * otherwise the entry FindItem finds is removed and the counter drops
     * when it was enabled.
     */
    method Remove(item: int) returns (removed: bool)
      requires Valid()
      modifies this
      ensures Valid()
      ensures removed <==> Holds(order, old(content), item)
      ensures !removed ==> content == old(content)
      ensures removed ==> var idx := Find(order, old(content), old(enabledCount), item, false);
        0 <= idx < |old(content)| && Matches(order, old(content)[idx].key, item)
        && content == old(content)[..idx] + old(content)[idx + 1..]
    {
      FindCorrect(order, content, enabledCount, item, false);
      var idx := FindItem(item, false);
      if idx < 0 {
        return false;
      }
      var wasEnabled := content[idx].enabled;
      CountEnabledRemove(content, idx);
      SortedRemove(content, idx, Le(order));
      content := content[..idx] + content[idx + 1..];
      if wasEnabled {
        enabledCount := enabledCount - 1;
      }
      return true;
    }

    /** Clear (corrected): the list emptied and the counter reset. */
    method Clear()
      requires Valid()
      modifies this
      ensures Valid() && content == [] && enabledCount == 0
    {
      content := [];
      enabledCount := 0;
    }

    /**
     * AddRange: a null list throws ArgumentNullException("items"); otherwise
     * the items not yet in the set are added with their selected state, the
     * list is sorted and the counter grows by the enabled ones added.
     */
    method AddRange(items: Option<seq<int>>, selector: int -> bool) returns (r: Outcome<Exception>)
      requires Valid()
      modifies this
      ensures Valid()
      ensures items.None? <==> r == Fail(ArgumentNull("items"))
      ensures r.Fail? ==> content == old(content) && enabledCount == old(enabledCount)
      ensures r.Pass? ==> content == SortBy(old(content) + Additions(order, old(content), items.value, selector), Le(order))
      ensures r.Pass? ==> forall t :: t in items.value ==> Holds(order, content, t)
    {
      if items.None? {
        return Fail(ArgumentNull("items"));
      }
      var list := items.value;
      var values := NewValues(list, selector);
      AdditionsCover(order, content, list, selector);
      var grown := content + values;
      CountEnabledAppend(content, values);
      SortKeepsCount(order, grown);
      SortKeepsHolds(order, grown, list);
      content := SortBy(grown, Le(order));
      enabledCount := enabledCount + CountEnabled(values);
      r := Pass;
    }

    /** The entries the query in AddRange yields: the items not yet in the set, each with its selected state. */
    method NewValues(list: seq<int>, selector: int -> bool) returns (values: seq<Entry>)
      ensures values == Additions(order, content, list, selector)
    {
      values := [];
      var i := 0;
      while i < |list|
        invariant 0 <= i <= |list|
        invariant values == Additions(order, content, list[..i], selector)
      {
        var t := list[i];
        assert list[..i + 1][..i] == list[..i];
        if !Holds(order, content + values, t) {
          values := values + [Entry(t, selector(t))];
        }
        i := i + 1;
      }
      assert list[..|list|] == list;
    }

    /**
     * EnableAll(enabled, selector): every entry the selector accepts takes
     * the new state (the counter moving by one per change), then the list is
     * sorted.
     */
    method EnableAll(enabled: bool, selector: int -> bool)
      requires Valid()
      modifies this
      ensures Valid()
      ensures content == SortBy(FlipAll(old(content), enabled, selector), Le(order))
    {
      ghost var original := content;
      var i := 0;
      while i < |content|
        invariant |content| == |original| && 0 <= i <= |content|
        invariant forall k :: 0 <= k < i ==> content[k] == Flip(original[k], enabled, selector)
        invariant forall k :: i <= k < |content| ==> content[k] == original[k]
        invariant enabledCount == CountEnabled(content)
      {
        var entry := content[i];
        if entry.enabled != enabled && selector(entry.key) {
          CountEnabledUpdate(content, i, Entry(entry.key, enabled));
          content := content[i := Entry(entry.key, enabled)];
          if enabled {
            enabledCount := enabledCount + 1;
          } else {
            enabledCount := enabledCount - 1;
          }
        }
        i := i + 1;
      }
      assert content == FlipAll(original, enabled, selector);
      SortKeepsCount(order, content);
      content := SortBy(content, Le(order));
    }

    /**
     * EnableAll(items, enabled): a null list throws ArgumentNullException from
     * the query over it; otherwise each item FindItem finds takes the new
     * state, then the list is sorted.
     */
    method EnableItems(items: Option<seq<int>>, enabled: bool) returns (r: Outcome<Exception>)
      requires Valid()
      modifies this
      ensures Valid()
      ensures items.None? <==> r == Fail(ArgumentNull("source"))
      ensures r.Fail? ==> content == old(content) && enabledCount == old(enabledCount)
      ensures r.Pass? ==> content == SortBy(SetItems(order, old(content), items.value, enabled), Le(order))
    {
      if items.None? {
        return Fail(ArgumentNull("source"));
      }
      var list := items.value;
      ghost var original := content;
      var i := 0;
      while i < |list|
        invariant 0 <= i <= |list|
        invariant enabledCount == CountEnabled(content)
        invariant SetItems(order, content, list[i..], enabled) == SetItems(order, original, list, enabled)
      {
        var item := list[i];
        assert list[i..][1..] == list[i + 1..];
        var idx := FindItem(item, false);
        if idx >= 0 && content[idx].enabled != enabled {
          CountEnabledUpdate(content, idx, Entry(item, enabled));
          content := content[idx := Entry(item, enabled)];
          if enabled {
            enabledCount := enabledCount + 1;
          } else {
            enabledCount := enabledCount - 1;
          }
        }
        i := i + 1;
      }
      SortKeepsCount(order, content);
      content := SortBy(content, Le(order));
      r := Pass;
    }
  }

  /** The constructor's check: a null list throws ArgumentNullException("context"). */
  method NewSortedEnablingSet(initial: Option<seq<Entry>>, order: Order) returns (r: Result<SortedEnablingSet, Exception>)
    requires ValidOrder(order)
    ensures initial.None? <==> r == Failure(ArgumentNull("context"))
    ensures r.Success? ==> fresh(r.value) && r.value.Valid() && r.value.content == SortBy(initial.value, Le(order))
  {
    if initial.None? {
      return Failure(ArgumentNull("context"));
    }
    var created := new SortedEnablingSet(initial.value, order);
    return Success(created);
  }
}
