/**
 The client-side list transforms of the inventory page. Delete, increase and
 decrease each compute a whole new item list, which the page then sends to
 `save-items`; the category filter and the quantity total only compute what
 is shown. Positions are positions in the full item list.
 */
module ItemList {
  import opened Store

  /** `index` addresses an item of `items`. */
  predicate InRange(items: seq<Item>, index: int)
  {
    0 <= index < |items|
  }

  /** Every quantity is non-negative (the intended, unenforced invariant). */
  predicate NonNegative(items: seq<Item>)
  {
    forall i :: 0 <= i < |items| ==> items[i].quantity >= 0
  }

  function Incremented(item: Item): Item
  {
    item.(quantity := item.quantity + 1)
  }

  function Decremented(item: Item): Item
  {
    item.(quantity := item.quantity - 1)
  }

  // ---------------------------------------------------------------------------
  // Delete: keep every position except the pressed one
  // ---------------------------------------------------------------------------

  /** The filter over `items`, whose first element sits at position `pos` of
      the full list: keeps every element whose position is not `index`. */
  function KeepOthers(items: seq<Item>, index: int, pos: int): (r: seq<Item>)
    ensures pos <= index < pos + |items| ==> r == items[..index - pos] + items[index - pos + 1..]
    ensures !(pos <= index < pos + |items|) ==> r == items
    decreases |items|
  {
    if |items| == 0 then []
    else
      var rest := KeepOthers(items[1..], index, pos + 1);
      if pos == index then rest
      else
        assert pos < index < pos + |items| ==>
          items[..index - pos] == [items[0]] + items[1..][..index - pos - 1];
        [items[0]] + rest
  }

  /** The list after pressing delete on position `index`. */
  function DeleteItem(items: seq<Item>, index: int): (r: seq<Item>)
    ensures InRange(items, index) ==> r == items[..index] + items[index + 1..] && |r| == |items| - 1
    ensures !InRange(items, index) ==> r == items
  {
    KeepOthers(items, index, 0)
  }

  /** Delete removes one copy of the item at `index` and keeps every other
      item, duplicates included. */
  lemma DeleteRemovesOne(items: seq<Item>, index: int)
    requires InRange(items, index)
    ensures multiset(DeleteItem(items, index)) + multiset{items[index]} == multiset(items)
  {
    assert items == items[..index] + [items[index]] + items[index + 1..];
  }

  // ---------------------------------------------------------------------------
  // Increase: one more at the pressed position, every other item as it was
  // ---------------------------------------------------------------------------

  /** The list after pressing increase on position `index`. */
  function IncreaseAt(items: seq<Item>, index: int): (r: seq<Item>)
    ensures |r| == |items|
    ensures InRange(items, index) ==> r == items[index := Incremented(items[index])]
    ensures !InRange(items, index) ==> r == items
  {
    seq(|items|, i requires 0 <= i < |items| =>
      if i == index then Incremented(items[i]) else items[i])
  }

  // ---------------------------------------------------------------------------
  // Decrease: one fewer at the pressed position unless it is already at zero
  // ---------------------------------------------------------------------------

  /** The list after pressing decrease on position `index`: a quantity already
      at zero (or below) is left as it is. */
  function DecreaseAt(items: seq<Item>, index: int): (r: seq<Item>)
    ensures |r| == |items|
    ensures InRange(items, index) && items[index].quantity > 0 ==>
      r == items[index := Decremented(items[index])]
    ensures !(InRange(items, index) && items[index].quantity > 0) ==> r == items
  {
    seq(|items|, i requires 0 <= i < |items| =>
      if i == index && items[i].quantity > 0 then Decremented(items[i]) else items[i])
  }

  /** Increase followed by decrease on the same item restores the list,
      provided the quantity was not negative to begin with. */
  lemma IncreaseThenDecrease(items: seq<Item>, index: int)
    requires !InRange(items, index) || items[index].quantity >= 0
    ensures DecreaseAt(IncreaseAt(items, index), index) == items
  {
  }

  /** Decrease followed by increase restores the list exactly when the
      decrease did something; at zero the increase leaves one more than before. */
  lemma DecreaseThenIncrease(items: seq<Item>, index: int)
    requires InRange(items, index)
    ensures IncreaseAt(DecreaseAt(items, index), index) == items <==> items[index].quantity > 0
  {
  }

  /** None of the three transforms can make a quantity negative. */
  lemma TransformsKeepNonNegative(items: seq<Item>, index: int)
    requires NonNegative(items)
    ensures NonNegative(DeleteItem(items, index))
    ensures NonNegative(IncreaseAt(items, index))
    ensures NonNegative(DecreaseAt(items, index))
  {
  }

  // ---------------------------------------------------------------------------
  // Total: the sum of all quantities, folded from the front
  // ---------------------------------------------------------------------------

  /** The left fold that sums the quantities. */
  function Total(items: seq<Item>): int
    decreases |items|
  {
    if |items| == 0 then 0 else Total(items[..|items| - 1]) + items[|items| - 1].quantity
  }

  /** The reduce as the page runs it, front to back with an accumulator. */
  method SumQuantities(items: seq<Item>) returns (sum: int)
    ensures sum == Total(items)
  {
    sum := 0;
    var k := 0;
    while k < |items|
      invariant 0 <= k <= |items|
      invariant sum == Total(items[..k])
    {
      assert items[..k + 1][..k] == items[..k];
      sum := sum + items[k].quantity;
      k := k + 1;
    }
    assert items[..|items|] == items;
  }

  lemma {:induction false} TotalConcat(a: seq<Item>, b: seq<Item>)
    ensures Total(a + b) == Total(a) + Total(b)
    decreases |b|
  {
    if |b| > 0 {
      assert (a + b)[..|a + b| - 1] == a + b[..|b| - 1];
      TotalConcat(a, b[..|b| - 1]);
    } else {
      assert a + b == a;
    }
  }

  /** Replacing one item changes the total by the difference of the two
      quantities. */
  lemma TotalReplace(items: seq<Item>, index: int, item: Item)
    requires InRange(items, index)
    ensures Total(items[index := item]) == Total(items) - items[index].quantity + item.quantity
  {
    var pre, post := items[..index], items[index + 1..];
    assert items == pre + [items[index]] + post;
    assert items[index := item] == pre + [item] + post;
    TotalConcat(pre + [items[index]], post);
    TotalConcat(pre + [item], post);
    TotalConcat(pre, [items[index]]);
    TotalConcat(pre, [item]);
  }

  /** The total of a list with no negative quantity is not negative. */
  lemma {:induction false} TotalNonNegative(items: seq<Item>)
    requires NonNegative(items)
    ensures Total(items) >= 0
    decreases |items|
  {
    if |items| > 0 {
      TotalNonNegative(items[..|items| - 1]);
    }
  }

  /** Increase raises the total by one; decrease lowers it by one unless the
      quantity was already at zero; delete lowers it by the deleted quantity. */
  lemma TransformsChangeTotal(items: seq<Item>, index: int)
    requires InRange(items, index)
    ensures Total(IncreaseAt(items, index)) == Total(items) + 1
    ensures Total(DecreaseAt(items, index)) ==
      if items[index].quantity > 0 then Total(items) - 1 else Total(items)
    ensures Total(DeleteItem(items, index)) == Total(items) - items[index].quantity
  {
    TotalReplace(items, index, Incremented(items[index]));
    TotalReplace(items, index, Decremented(items[index]));
    DeleteLowersTotal(items, index);
  }

  /** Delete lowers the total by the deleted quantity. */
  lemma DeleteLowersTotal(items: seq<Item>, index: int)
    requires InRange(items, index)
    ensures Total(DeleteItem(items, index)) == Total(items) - items[index].quantity
  {
    var pre, post := items[..index], items[index + 1..];
    assert items == pre + [items[index]] + post;
    TotalConcat(pre + [items[index]], post);
    TotalConcat(pre, [items[index]]);
    TotalConcat(pre, post);
  }

  // ---------------------------------------------------------------------------
  // Category filter: the items whose category equals the clicked one
  // ---------------------------------------------------------------------------

  /** The items whose category is exactly `category`, in list order. */
  function FilterCategory(items: seq<Item>, category: string): (r: seq<Item>)
    ensures |r| <= |items|
    ensures forall x :: x in r ==> x.category == category
    decreases |items|
  {
    if |items| == 0 then []
    else
      var last := items[|items| - 1];
      var rest := FilterCategory(items[..|items| - 1], category);
      if last.category == category then rest + [last] else rest
  }

  /** The filter keeps each item of the category as many times as the list
      holds it, and no other item. */
  lemma {:induction false} FilterCounts(items: seq<Item>, category: string)
    ensures forall x :: multiset(FilterCategory(items, category))[x] == (if x.category == category then multiset(items)[x] else 0)
    decreases |items|
  {
    if |items| > 0 {
      var n := |items| - 1;
      FilterCounts(items[..n], category);
      assert items == items[..n] + [items[n]];
    }
  }

  /** The positions, in the full list, of the items whose category is
      `category`, in increasing order. */
  function MatchPositions(items: seq<Item>, category: string): (p: seq<int>)
    ensures forall k :: 0 <= k < |p| ==> InRange(items, p[k])
    ensures forall k, l :: 0 <= k < l < |p| ==> p[k] < p[l]
    decreases |items|
  {
    if |items| == 0 then []
    else
      var n := |items| - 1;
      var rest := MatchPositions(items[..n], category);
      if items[n].category == category then rest + [n] else rest
  }

  /** A position is among the matching positions exactly when its item has
      the category. */
  lemma {:induction false} MatchPositionsExact(items: seq<Item>, category: string)
    ensures forall j :: 0 <= j < |items| ==>
      (j in MatchPositions(items, category) <==> items[j].category == category)
    decreases |items|
  {
    if |items| > 0 {
      var n := |items| - 1;
      MatchPositionsExact(items[..n], category);
      assert forall j :: 0 <= j < n ==> items[..n][j] == items[j];
    }
  }

  /** The filtered list is an order-preserving subsequence of the full list:
      its k-th element is the item at the k-th matching position. */
  lemma {:induction false} FilterAtPositions(items: seq<Item>, category: string)
    ensures |MatchPositions(items, category)| == |FilterCategory(items, category)|
    ensures forall k :: 0 <= k < |MatchPositions(items, category)| ==>
      FilterCategory(items, category)[k] == items[MatchPositions(items, category)[k]]
    decreases |items|
  {
    if |items| > 0 {
      var n := |items| - 1;
      var init := items[..n];
      FilterAtPositions(init, category);
      var p', f' := MatchPositions(init, category), FilterCategory(init, category);
      assert forall k :: 0 <= k < |p'| ==> init[p'[k]] == items[p'[k]];
      if items[n].category == category {
        assert MatchPositions(items, category) == p' + [n];
        assert FilterCategory(items, category) == f' + [items[n]];
      } else {
        assert MatchPositions(items, category) == p';
        assert FilterCategory(items, category) == f';
      }
    }
  }

  /** Exactly `k` items of the category come before the `k`-th matching
      position: it is the `k`-th match, counted from the front. */
  lemma {:induction false} MatchesBefore(items: seq<Item>, category: string, k: int)
    requires 0 <= k < |MatchPositions(items, category)|
    ensures |FilterCategory(items[..MatchPositions(items, category)[k]], category)| == k
    decreases |items|
  {
    var n := |items| - 1;
    var init := items[..n];
    var p' := MatchPositions(init, category);
    if k < |p'| {
      MatchesBefore(init, category, k);
      assert MatchPositions(items, category)[k] == p'[k];
      assert init[..p'[k]] == items[..p'[k]];
    } else {
      assert MatchPositions(items, category)[k] == n;
      FilterAtPositions(init, category);
    }
  }

  /** Every item of the category is shown. */
  lemma FilterKeepsMatches(items: seq<Item>, category: string)
    ensures forall j :: 0 <= j < |items| && items[j].category == category ==>
      items[j] in FilterCategory(items, category)
  {
  }

  /** When every item already has the category, the filter shows the whole
      list, in the same order. */
  lemma {:induction false} FilterAllMatching(items: seq<Item>, category: string)
    requires forall j :: 0 <= j < |items| ==> items[j].category == category
    ensures FilterCategory(items, category) == items
    decreases |items|
  {
    if |items| > 0 {
      var n := |items| - 1;
      FilterAllMatching(items[..n], category);
      assert items == items[..n] + [items[n]];
    }
  }
}
