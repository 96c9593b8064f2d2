/**
 * `compare_expenses` of src/main.rs: how the amount of each baseline expense tag changed in the
 * current expenses, plus the tags that are new, ordered from the largest amount to the smallest.
 *
 * The function pushes into a vector in two loops and then calls the standard library's stable
 * `sort_by`. That library sort is modelled by a stable insertion sort, and `SortUnique` shows the
 * choice is immaterial: any ordering that is sorted, a permutation and stable is this one.
 */
module Expenses {
  import opened Common
  import opened Items

  /** `current.iter().find(|x| x.tag == tag)`: the first item with the tag. */
  function FindTag(items: seq<CostItem>, tag: seq<byte>): (r: Option<CostItem>)
    ensures r.Some? ==> exists i :: 0 <= i < |items| && items[i] == r.value && r.value.tag == tag
                                  && forall j :: 0 <= j < i ==> items[j].tag != tag
    ensures r.None? ==> forall x <- items :: x.tag != tag
  {
    if items == [] then None
    else if items[0].tag == tag then Some(items[0])
    else
      var r := FindTag(items[1..], tag);
      assert r.Some? ==> exists i :: 1 <= i < |items| && items[i] == r.value && r.value.tag == tag
                                    && forall j :: 1 <= j < i ==> items[j].tag != tag by {
        if r.Some? {
          var i :| 0 <= i < |items[1..]| && items[1..][i] == r.value && r.value.tag == tag
                   && forall j :: 0 <= j < i ==> items[1..][j].tag != tag;
          assert forall j :: 1 <= j < i + 1 ==> items[j].tag == items[1..][j - 1].tag;
        }
      }
      r
  }

  /** `baseline.iter().any(|y| y.tag == tag)`. */
  predicate HasTag(items: seq<CostItem>, tag: seq<byte>)
  {
    exists y <- items :: y.tag == tag
  }

  /** `baseline.iter().any(|y| y.tag == tag)` holds exactly when `find` by that tag finds an item. */
  lemma HasTagFound(items: seq<CostItem>, tag: seq<byte>)
    ensures HasTag(items, tag) <==> FindTag(items, tag).Some?
  {
    if FindTag(items, tag).Some? {
      var i :| 0 <= i < |items| && items[i] == FindTag(items, tag).value && FindTag(items, tag).value.tag == tag
        && forall j :: 0 <= j < i ==> items[j].tag != tag;
      assert items[i] in items;
    }
  }

  /** The current amount of a tag: that of its first current item, or zero when it has none. */
  function CurrentAmount(current: seq<CostItem>, tag: seq<byte>): (r: real)
    ensures !HasTag(current, tag) ==> r == 0.0
    ensures HasTag(current, tag) ==> exists i :: 0 <= i < |current| && current[i].tag == tag && r == current[i].amount
                                               && forall j :: 0 <= j < i ==> current[j].tag != tag
  {
    match FindTag(current, tag)
    case Some(item) => item.amount
    case None => 0.0
  }

  /** The first loop: one difference per baseline item, in the baseline's order. */
  function Differences(baseline: seq<CostItem>, current: seq<CostItem>): (r: seq<CostItem>)
    ensures |r| == |baseline|
  {
    if baseline == [] then []
    else
      var e := baseline[|baseline| - 1];
      Differences(baseline[..|baseline| - 1], current) + [CostItem(e.tag, CurrentAmount(current, e.tag) - e.amount)]
  }

  /**
   * The `i`-th difference keeps the `i`-th baseline tag and holds the current amount of that tag
   * minus the baseline amount.
   */
  lemma {:induction false} DifferenceEntries(baseline: seq<CostItem>, current: seq<CostItem>)
    ensures forall i :: 0 <= i < |baseline| ==>
      Differences(baseline, current)[i] == CostItem(baseline[i].tag, CurrentAmount(current, baseline[i].tag) - baseline[i].amount)
  {
    if baseline != [] {
      var front := baseline[..|baseline| - 1];
      DifferenceEntries(front, current);
      assert forall i :: 0 <= i < |front| ==> front[i] == baseline[i];
    }
  }

  /** The second loop: the current items whose tag is in no baseline item, in their order. */
  function NewItems(baseline: seq<CostItem>, current: seq<CostItem>): (r: seq<CostItem>)
    ensures |r| <= |current|
  {
    if current == [] then []
    else
      var x := current[|current| - 1];
      NewItems(baseline, current[..|current| - 1]) + if HasTag(baseline, x.tag) then [] else [x]
  }

  /**
   * The new items are the current items with an unknown tag, each occurrence kept once: an item
   * occurs in them as often as in `current` when its tag is new, and not at all otherwise.
   */
  lemma {:induction false} NewItemsCount(baseline: seq<CostItem>, current: seq<CostItem>, x: CostItem)
    ensures multiset(NewItems(baseline, current))[x] == if HasTag(baseline, x.tag) then 0 else multiset(current)[x]
  {
    if current != [] {
      var front, last := current[..|current| - 1], current[|current| - 1];
      assert current == front + [last];
      NewItemsCount(baseline, front, x);
    }
  }

  /** The vector before sorting: the differences, then the new items. */
  function Unsorted(baseline: seq<CostItem>, current: seq<CostItem>): (r: seq<CostItem>)
  {
    Differences(baseline, current) + NewItems(baseline, current)
  }

  // ---------------------------------------------------------------------------------------------
  // The stable sort by amount, largest first.

  predicate SortedDesc(s: seq<CostItem>)
  {
    forall i, j :: 0 <= i < j < |s| ==> s[i].amount >= s[j].amount
  }

  /** The items of `s` whose amount is `v`, in their order in `s`. */
  function WithAmount(s: seq<CostItem>, v: real): (r: seq<CostItem>)
  {
    if s == [] then []
    else WithAmount(s[..|s| - 1], v) + if s[|s| - 1].amount == v then [s[|s| - 1]] else []
  }

  /** Insert `x` into `t` after every item whose amount is at least `x`'s. */
  function Insert(t: seq<CostItem>, x: CostItem): (r: seq<CostItem>)
    ensures |r| == |t| + 1
  {
    if t == [] || t[|t| - 1].amount >= x.amount then t + [x]
    else Insert(t[..|t| - 1], x) + [t[|t| - 1]]
  }

  /** Insertion sort: `sort_by(|x, y| y.amount.cmp(&x.amount))`. */
  function SortDesc(s: seq<CostItem>): (r: seq<CostItem>)
    ensures |r| == |s|
  {
    if s == [] then [] else Insert(SortDesc(s[..|s| - 1]), s[|s| - 1])
  }

  lemma {:induction false} InsertPermutes(t: seq<CostItem>, x: CostItem)
    ensures multiset(Insert(t, x)) == multiset(t) + multiset{x}
  {
    if !(t == [] || t[|t| - 1].amount >= x.amount) {
      var front, last := t[..|t| - 1], t[|t| - 1];
      assert t == front + [last];
      InsertPermutes(front, x);
    }
  }

  lemma {:induction false} InsertSorted(t: seq<CostItem>, x: CostItem)
    requires SortedDesc(t)
    ensures SortedDesc(Insert(t, x))
  {
    if t == [] || t[|t| - 1].amount >= x.amount {
      assert Insert(t, x) == t + [x];
      assert forall i :: 0 <= i < |t| ==> t[i].amount >= x.amount by {
        forall i | 0 <= i < |t|
          ensures t[i].amount >= x.amount
        {
          assert i == |t| - 1 || t[i].amount >= t[|t| - 1].amount;
        }
      }
      SortedSnoc(t, x);
    } else {
      var front, last := t[..|t| - 1], t[|t| - 1];
      var u := Insert(front, x);
      assert Insert(t, x) == u + [last];
      assert SortedDesc(front);
      InsertSorted(front, x);
      InsertPermutes(front, x);
      assert forall i :: 0 <= i < |u| ==> u[i].amount >= last.amount by {
        forall i | 0 <= i < |u|
          ensures u[i].amount >= last.amount
        {
          var y := u[i];
          assert y in multiset(front) + multiset{x};
          if y != x {
            var k :| 0 <= k < |front| && front[k] == y;
            assert t[k] == y;
          }
        }
      }
      SortedSnoc(u, last);
    }
  }

  /** A descending sequence stays descending when an item no larger than all of it is appended. */
  lemma SortedSnoc(u: seq<CostItem>, z: CostItem)
    requires SortedDesc(u) && forall i :: 0 <= i < |u| ==> u[i].amount >= z.amount
    ensures SortedDesc(u + [z])
  {
  }

  /** Inserting keeps the order among equal amounts: `x` lands after every item of its amount. */
  lemma {:induction false} InsertStable(t: seq<CostItem>, x: CostItem, v: real)
    ensures WithAmount(Insert(t, x), v) == WithAmount(t, v) + if x.amount == v then [x] else []
  {
    if t == [] || t[|t| - 1].amount >= x.amount {
      assert (t + [x])[..|t|] == t;
    } else {
      var front, last := t[..|t| - 1], t[|t| - 1];
      var u := Insert(front, x);
      InsertStable(front, x, v);
      assert (u + [last])[..|u|] == u;
    }
  }

  /** The sorted vector is ordered by amount, largest first. */
  lemma {:induction false} SortDescSorted(s: seq<CostItem>)
    ensures SortedDesc(SortDesc(s))
  {
    if s != [] {
      SortDescSorted(s[..|s| - 1]);
      InsertSorted(SortDesc(s[..|s| - 1]), s[|s| - 1]);
    }
  }

  /** The sorted vector holds the same items, as often. */
  lemma {:induction false} SortDescPermutes(s: seq<CostItem>)
    ensures multiset(SortDesc(s)) == multiset(s)
    ensures |SortDesc(s)| == |s|
  {
    if s != [] {
      SortDescPermutes(s[..|s| - 1]);
      InsertPermutes(SortDesc(s[..|s| - 1]), s[|s| - 1]);
      assert s == s[..|s| - 1] + [s[|s| - 1]];
    }
    assert |multiset(SortDesc(s))| == |multiset(s)|;
  }

  /** The sort is stable: the items of any one amount keep their relative order. */
  lemma {:induction false} SortDescStable(s: seq<CostItem>, v: real)
    ensures WithAmount(SortDesc(s), v) == WithAmount(s, v)
  {
    if s != [] {
      SortDescStable(s[..|s| - 1], v);
      InsertStable(SortDesc(s[..|s| - 1]), s[|s| - 1], v);
    }
  }

  /** The last item of a sequence sorted largest first has the smallest amount. */
  lemma LastIsSmallest(s: seq<CostItem>, v: real)
    requires SortedDesc(s) && s != [] && WithAmount(s, v) != []
    ensures s[|s| - 1].amount <= v
  {
    WithAmountMembers(s, v);
    var y := WithAmount(s, v)[0];
    assert y in WithAmount(s, v);
  }

  lemma {:induction false} WithAmountMembers(s: seq<CostItem>, v: real)
    ensures forall y <- WithAmount(s, v) :: y.amount == v && exists i :: 0 <= i < |s| && s[i] == y
  {
    if s != [] {
      var front := s[..|s| - 1];
      WithAmountMembers(front, v);
      assert forall i :: 0 <= i < |front| ==> front[i] == s[i];
    }
  }

  lemma LastHasItsAmount(s: seq<CostItem>)
    ensures s != [] ==> WithAmount(s, s[|s| - 1].amount) != []
  {
  }

  /**
   * Sorted, largest first, and stable determine the order: two sequences that are both sorted and
   * hold the same items of every amount in the same order are equal. So every stable descending
   * sort of the vector, the library's included, gives `SortDesc` of it.
   */
  lemma {:induction false} SortUnique(a: seq<CostItem>, b: seq<CostItem>)
    requires SortedDesc(a) && SortedDesc(b)
    requires forall v :: WithAmount(a, v) == WithAmount(b, v)
    ensures a == b
  {
    if a == [] || b == [] {
      LastHasItsAmount(a);
      LastHasItsAmount(b);
    } else {
      var x, y := a[|a| - 1], b[|b| - 1];
      var a', b' := a[..|a| - 1], b[..|b| - 1];
      assert WithAmount(a, x.amount) != [];
      assert WithAmount(b, y.amount) != [];
      LastIsSmallest(b, x.amount);
      LastIsSmallest(a, y.amount);
      assert x.amount == y.amount;
      var wa, wb := WithAmount(a, x.amount), WithAmount(b, x.amount);
      assert wa == WithAmount(a', x.amount) + [x];
      assert wb == WithAmount(b', y.amount) + [y];
      assert wa == wb;
      assert x == y by {
        assert wa[|wa| - 1] == x && wb[|wb| - 1] == y;
      }
      forall v
        ensures WithAmount(a', v) == WithAmount(b', v)
      {
        var tail := if x.amount == v then [x] else [];
        var sa, sb := WithAmount(a', v), WithAmount(b', v);
        assert WithAmount(a, v) == sa + tail;
        assert WithAmount(b, v) == sb + tail;
        assert |sa| == |sb|;
        assert (sa + tail)[..|sa|] == sa && (sb + tail)[..|sb|] == sb;
      }
      assert SortedDesc(a') && SortedDesc(b');
      SortUnique(a', b');
      assert a == a' + [x] && b == b' + [y];
    }
  }

  /** What `compare_expenses` returns. */
  function Comparison(baseline: seq<CostItem>, current: seq<CostItem>): (r: seq<CostItem>)
    ensures |r| == |baseline| + |NewItems(baseline, current)|
  {
    SortDesc(Unsorted(baseline, current))
  }

  /**
   * The result holds one difference per baseline item and every current item with a new tag, and
   * nothing else; it is sorted by amount, largest first; and items of equal amount keep the order
   * they were pushed in.
   */
  lemma ComparisonProperties(baseline: seq<CostItem>, current: seq<CostItem>)
    ensures multiset(Comparison(baseline, current)) == multiset(Differences(baseline, current)) + multiset(NewItems(baseline, current))
    ensures |Comparison(baseline, current)| == |baseline| + |NewItems(baseline, current)|
    ensures SortedDesc(Comparison(baseline, current))
    ensures forall v :: WithAmount(Comparison(baseline, current), v) == WithAmount(Unsorted(baseline, current), v)
  {
    var u := Unsorted(baseline, current);
    SortDescPermutes(u);
    SortDescSorted(u);
    forall v
      ensures WithAmount(Comparison(baseline, current), v) == WithAmount(u, v)
    {
      SortDescStable(u, v);
    }
  }

  /** `compare_expenses`: the two loops that push, then the sort. */
  method CompareExpenses(baseline: seq<CostItem>, current: seq<CostItem>) returns (comparison: seq<CostItem>)
    ensures comparison == Comparison(baseline, current)
  {
    comparison := [];
    for i := 0 to |baseline|
      invariant comparison == Differences(baseline[..i], current)
    {
      var expense := baseline[i];
      var currentExpense := match FindTag(current, expense.tag)
        case Some(item) => item.amount
        case None => 0.0;
      comparison := comparison + [CostItem(expense.tag, currentExpense - expense.amount)];
      assert baseline[..i + 1][..i] == baseline[..i];
    }
    assert baseline[..|baseline|] == baseline;
    ghost var differences := comparison;
    for j := 0 to |current|
      invariant comparison == differences + NewItems(baseline, current[..j])
    {
      var expense := current[j];
      if !HasTag(baseline, expense.tag) {
        comparison := comparison + [expense];
      }
      assert current[..j + 1][..j] == current[..j];
    }
    assert current[..|current|] == current;
    comparison := SortDesc(comparison);
  }
}
