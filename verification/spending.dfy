/** Spending analytics: per-category totals of the expenses a user paid (or
    of a group's expenses), the total spent, the top category, and the
    analytics page's chart entries, their descending breakdown and the
    top-category percentage.

    Category totals are accumulated in a plain object keyed by category;
    its entries are modelled as iterating in first-insertion order. */
module SpendingStats {
  import opened JsValues
  import JsMap

  type UserId = string

  /** The expense columns the analytics queries select. A missing category
      is `None`. */
  datatype SpentExpense = SpentExpense(groupId: string, paidBy: UserId, category: Option<string>, amount: real)

  /** One category and its total (`{ category, total }`, or the page's
      chart entry `{ name, value }`). */
  datatype CategoryAmount = CategoryAmount(category: string, total: real)

  /** `acc[expense.category]` with a missing category: the property key
      JavaScript makes of `null` is "null". */
  function PropertyKey(category: Option<string>): (key: string)
    ensures category.Some? ==> key == category.value
    ensures category.None? ==> key == "null"
  {
    if category.Some? then category.value else "null"
  }

  /** `category || '🍕'`: the category the analytics page charts an expense
      under and the one the expenses route stores, so an empty category
      counts as '🍕' too. */
  function CategoryOrDefault(category: Option<string>): (key: string)
    ensures Truthy(category) ==> key == category.value
    ensures !Truthy(category) ==> key == "🍕"
    ensures key != ""
  {
    OrElse(category, "🍕")
  }

  // ---------------------------------------------------------------------
  // The reference quantities

  function SumAmounts(items: seq<CategoryAmount>): real
  {
    if |items| == 0 then 0.0 else SumAmounts(items[..|items| - 1]) + items[|items| - 1].total
  }

  /** The total of the amounts labelled `c`. */
  function CategoryTotal(items: seq<CategoryAmount>, c: string): real
  {
    if |items| == 0 then 0.0
    else
      var it := items[|items| - 1];
      CategoryTotal(items[..|items| - 1], c) + (if it.category == c then it.total else 0.0)
  }

  /** The distinct labels. */
  function Categories(items: seq<CategoryAmount>): set<string>
  {
    if |items| == 0 then {} else Categories(items[..|items| - 1]) + {items[|items| - 1].category}
  }

  /** A label that never occurs has total 0; there are no labels exactly
      when there are no amounts. */
  lemma {:induction false} CategoriesFacts(items: seq<CategoryAmount>, c: string)
    ensures c !in Categories(items) ==> CategoryTotal(items, c) == 0.0
    ensures Categories(items) == {} <==> |items| == 0
  {
    if |items| > 0 {
      CategoriesFacts(items[..|items| - 1], c);
    }
  }

  ghost predicate NonNegativeAmounts(items: seq<CategoryAmount>)
  {
    forall i :: 0 <= i < |items| ==> items[i].total >= 0.0
  }

  /** A category's total never exceeds the overall total when no amount is
      negative. */
  lemma {:induction false} CategoryTotalBounded(items: seq<CategoryAmount>, c: string)
    requires NonNegativeAmounts(items)
    ensures 0.0 <= CategoryTotal(items, c) <= SumAmounts(items)
  {
    if |items| > 0 {
      CategoryTotalBounded(items[..|items| - 1], c);
    }
  }

  // ---------------------------------------------------------------------
  // The fold

  /** `items.reduce((acc, x) => { acc[x.category] = (acc[x.category] || 0) + x.amount; ... }, {})`:
      one entry per distinct category, in the order categories first
      appear, each holding that category's total. */
  function Tally(items: seq<CategoryAmount>): (m: JsMap.OrderedMap<string, real>)
    ensures JsMap.Valid(m)
  {
    if |items| == 0 then JsMap.Empty()
    else Accumulate(Tally(items[..|items| - 1]), items[|items| - 1])
  }

  /** The object holds one entry per distinct category, holding that
      category's total. */
  lemma {:induction false} TallyTotals(items: seq<CategoryAmount>)
    ensures Tally(items).values.Keys == Categories(items)
    ensures forall c :: c in Tally(items).values ==> Tally(items).values[c] == CategoryTotal(items, c)
  {
    if |items| > 0 {
      TallyTotals(items[..|items| - 1]);
      CategoriesFacts(items[..|items| - 1], items[|items| - 1].category);
    }
  }

  /** `acc[c] = (acc[c] || 0) + amount`. */
  function Accumulate(acc: JsMap.OrderedMap<string, real>, it: CategoryAmount): (r: JsMap.OrderedMap<string, real>)
    requires JsMap.Valid(acc)
    ensures JsMap.Valid(r)
    ensures r.values == acc.values[it.category := Before(acc, it.category) + it.total]
    ensures it.category in acc.values ==> r.keys == acc.keys
    ensures it.category !in acc.values ==> r.keys == acc.keys + [it.category]
  {
    JsMap.Set(acc, it.category, Before(acc, it.category) + it.total)
  }

  /** `acc[c] || 0`. */
  function Before(acc: JsMap.OrderedMap<string, real>, c: string): real
  {
    if c in acc.values then acc.values[c] else 0.0
  }

  /** The sum of the values of `keys`. */
  function SumOver(keys: seq<string>, values: map<string, real>): real
    requires forall k :: k in keys ==> k in values
  {
    if |keys| == 0 then 0.0 else SumOver(keys[..|keys| - 1], values) + values[keys[|keys| - 1]]
  }

  lemma {:induction false} SumOverUnchanged(keys: seq<string>, values: map<string, real>, k: string, v: real)
    requires forall x :: x in keys ==> x in values
    requires k !in keys
    ensures SumOver(keys, values[k := v]) == SumOver(keys, values)
  {
    if |keys| > 0 {
      SumOverUnchanged(keys[..|keys| - 1], values, k, v);
    }
  }

  lemma {:induction false} SumOverUpdate(keys: seq<string>, values: map<string, real>, k: string, v: real)
    requires forall x :: x in keys ==> x in values
    requires forall i, j :: 0 <= i < j < |keys| ==> keys[i] != keys[j]
    requires k in keys
    ensures SumOver(keys, values[k := v]) == SumOver(keys, values) - values[k] + v
  {
    var init, last := keys[..|keys| - 1], keys[|keys| - 1];
    if last == k {
      assert k !in init;
      SumOverUnchanged(init, values, k, v);
    } else {
      assert k in init;
      SumOverUpdate(init, values, k, v);
    }
  }

  /** Accumulating an amount adds it to the sum of the values. */
  lemma SumOverAccumulate(acc: JsMap.OrderedMap<string, real>, it: CategoryAmount)
    requires JsMap.Valid(acc)
    ensures var r := Accumulate(acc, it);
            SumOver(r.keys, r.values) == SumOver(acc.keys, acc.values) + it.total
  {
    var r := Accumulate(acc, it);
    var k, v := it.category, Before(acc, it.category) + it.total;
    if k in acc.values {
      SumOverUpdate(acc.keys, acc.values, k, v);
    } else {
      SumOverUnchanged(acc.keys, acc.values, k, v);
      assert r.keys[..|acc.keys|] == acc.keys;
    }
  }

  /** The category totals add up to the overall total. */
  lemma {:induction false} TallyConserves(items: seq<CategoryAmount>)
    ensures SumOver(Tally(items).keys, Tally(items).values) == SumAmounts(items)
  {
    if |items| > 0 {
      var init, it := items[..|items| - 1], items[|items| - 1];
      TallyConserves(init);
      TallyStep(items);
      SumOverAccumulate(Tally(init), it);
    }
  }

  lemma TallyStep(items: seq<CategoryAmount>)
    requires |items| > 0
    ensures Tally(items) == Accumulate(Tally(items[..|items| - 1]), items[|items| - 1])
  {
  }

  /** `Object.entries(acc)`. */
  function Entries(m: JsMap.OrderedMap<string, real>): (es: seq<CategoryAmount>)
    requires JsMap.Valid(m)
    ensures |es| == |m.keys|
    ensures forall i :: 0 <= i < |es| ==> es[i] == CategoryAmount(m.keys[i], m.values[m.keys[i]])
  {
    seq(|m.keys|, i requires 0 <= i < |m.keys| => CategoryAmount(m.keys[i], m.values[m.keys[i]]))
  }

  /** Entries with pairwise different categories. */
  predicate DistinctCategories(es: seq<CategoryAmount>)
  {
    forall i, j :: 0 <= i < j < |es| ==> es[i].category != es[j].category
  }

  /** The per-category entries of a list of labelled amounts: exactly one per
      distinct category, holding its total. */
  function CategoryEntries(items: seq<CategoryAmount>): (es: seq<CategoryAmount>)
    ensures DistinctCategories(es)
    ensures forall c :: c in Categories(items) <==> exists i :: 0 <= i < |es| && es[i].category == c
    ensures forall i :: 0 <= i < |es| ==> es[i].total == CategoryTotal(items, es[i].category)
  {
    var m := Tally(items);
    var es := Entries(m);
    TallyTotals(items);
    assert forall i :: 0 <= i < |es| ==> m.keys[i] in m.values;
    es
  }

  // ---------------------------------------------------------------------
  // Sorting by descending amount

  predicate SortedDescending(s: seq<CategoryAmount>)
  {
    forall i, j :: 0 <= i < j < |s| ==> s[i].total >= s[j].total
  }

  /** `x` placed after every entry at least as large (the comparator
      `b - a` with a stable sort). */
  function InsertDescending(x: CategoryAmount, s: seq<CategoryAmount>): (r: seq<CategoryAmount>)
    requires SortedDescending(s)
    ensures SortedDescending(r)
    ensures multiset(r) == multiset(s) + multiset{x}
  {
    if |s| == 0 then [x]
    else if s[|s| - 1].total >= x.total then s + [x]
    else
      var init, last := s[..|s| - 1], s[|s| - 1];
      var front := InsertDescending(x, init);
      assert s == init + [last];
      forall y | y in front
        ensures y.total >= last.total
      {
        assert y in multiset(front);
        if y != x {
          assert y in multiset(init);
          var j :| 0 <= j < |init| && init[j] == y;
          assert s[j] == y;
        }
      }
      front + [last]
  }

  /** `.sort((a, b) => b.value - a.value)`: the same entries, largest first. */
  function SortDescending(s: seq<CategoryAmount>): (r: seq<CategoryAmount>)
    ensures SortedDescending(r)
    ensures multiset(r) == multiset(s)
  {
    if |s| == 0 then []
    else
      assert s == s[..|s| - 1] + [s[|s| - 1]];
      InsertDescending(s[|s| - 1], SortDescending(s[..|s| - 1]))
  }

  /** The first entry after sorting is at least as large as every entry. */
  lemma SortedHeadIsMaximal(s: seq<CategoryAmount>)
    requires |s| > 0
    ensures var r := SortDescending(s);
            |r| > 0 && r[0] in s && forall x :: x in s ==> r[0].total >= x.total
  {
    var r := SortDescending(s);
    assert |r| == |multiset(r)| == |multiset(s)| == |s|;
    assert r[0] in multiset(r);
    forall x | x in s
      ensures r[0].total >= x.total
    {
      assert x in multiset(s);
      assert x in multiset(r);
      var j :| 0 <= j < |r| && r[j] == x;
    }
  }

  /** The head of `x` inserted into a sorted list: the list's head when it
      is at least as large as `x`, `x` otherwise. */
  lemma {:induction false} InsertDescendingHead(x: CategoryAmount, s: seq<CategoryAmount>)
    requires SortedDescending(s)
    ensures var r := InsertDescending(x, s);
            |r| > 0 && r[0] == if |s| > 0 && s[0].total >= x.total then s[0] else x
  {
    if |s| > 0 && s[|s| - 1].total < x.total {
      var init := s[..|s| - 1];
      if |init| > 0 {
        InsertDescendingHead(x, init);
        assert init[0] == s[0];
      }
    }
  }

  lemma SortStep(s: seq<CategoryAmount>)
    requires |s| > 0
    ensures SortDescending(s) == InsertDescending(s[|s| - 1], SortDescending(s[..|s| - 1]))
  {
  }

  /** An index of the front keeps its place and its strictly smaller
      predecessors when one entry is appended. */
  lemma FrontIndex(s: seq<CategoryAmount>, init: seq<CategoryAmount>, k: nat)
    requires |s| > 0 && init == s[..|s| - 1] && k < |init|
    requires forall j :: 0 <= j < k ==> init[j].total < init[k].total
    ensures init[k] == s[k]
    ensures forall j :: 0 <= j < k ==> s[j].total < s[k].total
  {
    forall j | 0 <= j < k
      ensures s[j].total < s[k].total
    {
      assert init[j] == s[j];
    }
  }

  /** A last entry larger than every entry before it. */
  lemma LastLargest(s: seq<CategoryAmount>, top: CategoryAmount)
    requires |s| > 0
    requires forall y :: y in s[..|s| - 1] ==> top.total >= y.total
    requires top.total < s[|s| - 1].total
    ensures forall j :: 0 <= j < |s| - 1 ==> s[j].total < s[|s| - 1].total
  {
    forall j | 0 <= j < |s| - 1
      ensures s[j].total < s[|s| - 1].total
    {
      assert s[j] == s[..|s| - 1][j];
    }
  }

  /** The sort is stable: its head is the first entry whose total is
      maximal, so of several categories sharing the largest total the one
      that came first wins. */
  lemma {:induction false} SortedHeadIsFirstMaximal(s: seq<CategoryAmount>) returns (i: nat)
    requires |s| > 0
    ensures i < |s| && |SortDescending(s)| > 0 && SortDescending(s)[0] == s[i]
    ensures forall j :: 0 <= j < i ==> s[j].total < s[i].total
  {
    var init, x := s[..|s| - 1], s[|s| - 1];
    var sorted := SortDescending(init);
    SortStep(s);
    InsertDescendingHead(x, sorted);
    if |init| == 0 {
      assert |sorted| == 0 by { assert |multiset(sorted)| == |multiset(init)| == 0; }
      i := 0;
    } else {
      var k := SortedHeadIsFirstMaximal(init);
      if sorted[0].total >= x.total {
        FrontIndex(s, init, k);
        i := k;
      } else {
        SortedHeadIsMaximal(init);
        LastLargest(s, sorted[0]);
        i := |s| - 1;
      }
    }
  }

  /** Among entries with distinct categories, every entry before the
      sorted head's is strictly smaller. */
  lemma TopComesFirst(entries: seq<CategoryAmount>)
    requires |entries| > 0 && DistinctCategories(entries)
    ensures |SortDescending(entries)| > 0
    ensures forall i, j :: 0 <= i < j < |entries| && entries[j].category == SortDescending(entries)[0].category ==>
              entries[i].total < entries[j].total
  {
    var k := SortedHeadIsFirstMaximal(entries);
    forall i, j | 0 <= i < j < |entries| && entries[j].category == SortDescending(entries)[0].category
      ensures entries[i].total < entries[j].total
    {
      assert j == k;
    }
  }

  // ---------------------------------------------------------------------
  // The client library's queries

  /** The labelled amounts of the expenses, category by `PropertyKey`. */
  function Keyed(es: seq<SpentExpense>): (items: seq<CategoryAmount>)
    ensures |items| == |es|
    ensures forall i :: 0 <= i < |es| ==> items[i] == CategoryAmount(PropertyKey(es[i].category), es[i].amount)
  {
    seq(|es|, i requires 0 <= i < |es| => CategoryAmount(PropertyKey(es[i].category), es[i].amount))
  }

  /** The expenses `user` paid (`.eq('paid_by', user.id)`). */
  function PaidBy(table: seq<SpentExpense>, user: UserId): (es: seq<SpentExpense>)
    ensures forall e :: e in es <==> e in table && e.paidBy == user
  {
    if |table| == 0 then []
    else
      var rest := PaidBy(table[..|table| - 1], user);
      var e := table[|table| - 1];
      assert forall x :: x in table <==> x in table[..|table| - 1] || x == e;
      if e.paidBy == user then rest + [e] else rest
  }

  /** The expenses of one group (`.eq('group_id', groupId)`). */
  function InGroup(table: seq<SpentExpense>, groupId: string): (es: seq<SpentExpense>)
    ensures forall e :: e in es <==> e in table && e.groupId == groupId
  {
    if |table| == 0 then []
    else
      var rest := InGroup(table[..|table| - 1], groupId);
      var e := table[|table| - 1];
      assert forall x :: x in table <==> x in table[..|table| - 1] || x == e;
      if e.groupId == groupId then rest + [e] else rest
  }

  /** `getGroupAnalytics(groupId)`: one `{ category, total }` per distinct
      category among the group's expenses; `None` when the query fails and
      the function throws. */
  function GroupAnalytics(table: seq<SpentExpense>, groupId: string, queryFails: bool): (r: Option<seq<CategoryAmount>>)
    ensures r.None? <==> queryFails
    ensures r.Some? ==>
              var items, es := Keyed(InGroup(table, groupId)), r.value;
              && DistinctCategories(es)
              && (forall c :: c in Categories(items) <==> exists i :: 0 <= i < |es| && es[i].category == c)
              && (forall i :: 0 <= i < |es| ==> es[i].total == CategoryTotal(items, es[i].category))
  {
    if queryFails then None else Some(CategoryEntries(Keyed(InGroup(table, groupId))))
  }

  /** What `getUserSpendingStats` returns. */
  datatype SpendingStats = SpendingStats(
    totalSpent: real,
    topCategory: Option<string>,
    topCategoryAmount: real,
    expenseCount: nat)

  datatype StatsResult = NotAuthenticated | QueryFailed | Stats(stats: SpendingStats)

  /** `getUserSpendingStats()`: the signed-in user's total spent, the
      category with the largest total (the first after a descending sort),
      and the number of expenses they paid. Of several categories sharing
      the largest total, the one whose entry comes first wins, since the
      sort is stable. */
  function UserSpendingStats(user: Option<UserId>, table: seq<SpentExpense>, queryFails: bool): (r: StatsResult)
    ensures user.None? <==> r.NotAuthenticated?
    ensures r.QueryFailed? <==> user.Some? && queryFails
    ensures r.Stats? <==> user.Some? && !queryFails
    ensures r.Stats? ==>
              var items := Keyed(PaidBy(table, user.value));
              && r.stats.totalSpent == SumAmounts(items)
              && r.stats.expenseCount == |items|
              && (|items| == 0 <==> r.stats.topCategory.None?)
              && (|items| == 0 ==> r.stats.topCategoryAmount == 0.0)
              && (r.stats.topCategory.Some? ==>
                    && r.stats.topCategory.value in Categories(items)
                    && r.stats.topCategoryAmount == CategoryTotal(items, r.stats.topCategory.value)
                    && forall c :: c in Categories(items) ==> r.stats.topCategoryAmount >= CategoryTotal(items, c))
    ensures r.Stats? && r.stats.topCategory.Some? ==>
              var entries := CategoryEntries(Keyed(PaidBy(table, user.value)));
              forall i, j :: 0 <= i < j < |entries| && entries[j].category == r.stats.topCategory.value ==>
                entries[i].total < entries[j].total
  {
    if user.None? then NotAuthenticated
    else if queryFails then QueryFailed
    else
      var items := Keyed(PaidBy(table, user.value));
      var entries := CategoryEntries(items);
      var sorted := SortDescending(entries);
      if |sorted| == 0 then
        assert |entries| == 0 by { assert |multiset(sorted)| == |multiset(entries)|; }
        CategoriesFacts(items, "");
        Stats(SpendingStats(SumAmounts(items), None, 0.0, |items|))
      else
        assert |entries| > 0 by { assert |multiset(sorted)| == |multiset(entries)|; }
        SortedHeadIsMaximal(entries);
        TopComesFirst(entries);
        var top := sorted[0];
        assert top.category in Categories(items) by {
          var i :| 0 <= i < |entries| && entries[i] == top;
        }
        assert forall c :: c in Categories(items) ==> top.total >= CategoryTotal(items, c) by {
          forall c | c in Categories(items)
            ensures top.total >= CategoryTotal(items, c)
          {
            var i :| 0 <= i < |entries| && entries[i].category == c;
            assert entries[i] in entries;
          }
        }
        assert |items| > 0;
        Stats(SpendingStats(SumAmounts(items), Some(top.category), top.total, |items|))
  }

  // ---------------------------------------------------------------------
  // The analytics page

  /** The page's labelled amounts, category by `CategoryOrDefault`. */
  function ChartItems(es: seq<SpentExpense>): (items: seq<CategoryAmount>)
    ensures |items| == |es|
    ensures forall i :: 0 <= i < |es| ==> items[i] == CategoryAmount(CategoryOrDefault(es[i].category), es[i].amount)
  {
    seq(|es|, i requires 0 <= i < |es| => CategoryAmount(CategoryOrDefault(es[i].category), es[i].amount))
  }

  /** The chart entries of the expenses `user` paid: one per distinct
      category (a missing or empty category counted as '🍕'), each holding
      the total of its amounts. */
  function ChartData(table: seq<SpentExpense>, user: UserId): (es: seq<CategoryAmount>)
    ensures var items := ChartItems(PaidBy(table, user));
            && DistinctCategories(es)
            && (forall c :: c in Categories(items) <==> exists i :: 0 <= i < |es| && es[i].category == c)
            && (forall i :: 0 <= i < |es| ==> es[i].total == CategoryTotal(items, es[i].category))
            && (forall i :: 0 <= i < |es| ==> es[i].category != "")
  {
    var items := ChartItems(PaidBy(table, user));
    var es := CategoryEntries(items);
    NoEmptyChartCategory(PaidBy(table, user));
    es
  }

  lemma {:induction false} NoEmptyChartCategory(es: seq<SpentExpense>)
    ensures "" !in Categories(ChartItems(es))
  {
    if |es| > 0 {
      NoEmptyChartCategory(es[..|es| - 1]);
      assert ChartItems(es)[..|es| - 1] == ChartItems(es[..|es| - 1]);
    }
  }

  /** The category breakdown: the chart entries, largest first. */
  function Breakdown(chart: seq<CategoryAmount>): (r: seq<CategoryAmount>)
    ensures SortedDescending(r)
    ensures multiset(r) == multiset(chart)
  {
    SortDescending(chart)
  }

  /** `stats?.topCategoryAmount && stats?.totalSpent ? (top / total) * 100 : 0`
      (before rounding): 0 when the statistics are missing or either value
      is zero. */
  function TopCategoryPercentage(stats: Option<SpendingStats>): (p: real)
    ensures stats.None? || stats.value.topCategoryAmount == 0.0 || stats.value.totalSpent == 0.0 ==> p == 0.0
    ensures stats.Some? && stats.value.topCategoryAmount != 0.0 && stats.value.totalSpent != 0.0 ==>
              p * stats.value.totalSpent == stats.value.topCategoryAmount * 100.0
  {
    if stats.None? || stats.value.topCategoryAmount == 0.0 || stats.value.totalSpent == 0.0 then 0.0
    else stats.value.topCategoryAmount / stats.value.totalSpent * 100.0
  }

  /** With no negative amount, the percentage the page shows for the user's
      own statistics lies between 0 and 100. */
  lemma PercentageBounded(user: UserId, table: seq<SpentExpense>)
    requires forall e :: e in table ==> e.amount >= 0.0
    ensures var r := UserSpendingStats(Some(user), table, false);
            0.0 <= TopCategoryPercentage(Some(r.stats)) <= 100.0
  {
    var r := UserSpendingStats(Some(user), table, false);
    var items := Keyed(PaidBy(table, user));
    assert NonNegativeAmounts(items) by {
      forall i | 0 <= i < |items|
        ensures items[i].total >= 0.0
      {
        assert PaidBy(table, user)[i] in PaidBy(table, user);
      }
    }
    if r.stats.topCategory.Some? {
      CategoryTotalBounded(items, r.stats.topCategory.value);
    }
    var top, total := r.stats.topCategoryAmount, r.stats.totalSpent;
    if top != 0.0 && total != 0.0 {
      RatioBounded(top, total);
    }
  }

  lemma RatioBounded(top: real, total: real)
    requires 0.0 <= top <= total && total != 0.0
    ensures 0.0 <= top / total * 100.0 <= 100.0
  {
    assert top / total <= 1.0;
  }
}
