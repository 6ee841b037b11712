/** Finalisation of the product records once every row is read: each record's items and
    month buckets sorted by days left, its tier chosen from its minimum, the summary
    counters, and the list of products ordered by (tier rank, minimum days). */
module Classification {
  import opened Common
  import opened Numbers
  import opened Calendar
  import opened Records
  import opened Sorting
  import opened Totals
  import opened Aggregation
  import opened AggregationFacts

  // ---------------------------------------------------------------------------
  // Tiers
  // ---------------------------------------------------------------------------

  /** The tier of a minimum of `n` days left. */
  function TierOf(n: int): Tier {
    if n < 0 then Expired else if n <= 30 then High else if n <= 60 then Medium else Low
  }

  /** The thresholds: expired below 0, high up to 30, medium up to 60, low above. */
  lemma TierBounds(n: int)
    ensures TierOf(n) == Expired <==> n < 0
    ensures TierOf(n) == High <==> 0 <= n <= 30
    ensures TierOf(n) == Medium <==> 31 <= n <= 60
    ensures TierOf(n) == Low <==> 61 <= n
  {
  }

  /** The tier chosen while the minimum may still be unbounded: every comparison with
      `float('inf')` fails, so a product without items is in the low tier. */
  function Classify(e: Extended): (t: Tier)
    ensures e.Unbounded? ==> t == Low
    ensures e.Days? ==> t == TierOf(e.n)
  {
    match e
    case Unbounded => Low
    case Days(n) => TierOf(n)
  }

  /** The minimum once finished: an unbounded one becomes 999. */
  function FinalDays(e: Extended): (n: int)
    ensures e.Days? ==> n == e.n
    ensures e.Unbounded? ==> n == 999
  {
    match e
    case Unbounded => 999
    case Days(n) => n
  }

  /** Replacing an unbounded minimum by 999 after classifying keeps the tier a function of
      the finished minimum, and a product without items is low with 999 days. */
  lemma FinalTier(e: Extended)
    ensures Classify(e) == TierOf(FinalDays(e))
    ensures e.Unbounded? ==> Classify(e) == Low && FinalDays(e) == 999
    ensures Classify(e) == Low <==> e.Unbounded? || 61 <= e.n
    ensures Classify(e) == Expired <==> e.Days? && e.n < 0
  {
    TierBounds(FinalDays(e));
  }

  /** The first component of the sort key. */
  function Rank(n: int): int {
    if n < 0 then 0 else if n <= 30 then 1 else if n <= 60 then 2 else 3
  }

  function TierRank(t: Tier): int {
    match t
    case Expired => 0
    case High => 1
    case Medium => 2
    case Low => 3
  }

  /** The rank of the sort key is the position of the minimum's tier, and it never
      decreases as the minimum grows. */
  lemma RankOrder(a: int, b: int)
    ensures Rank(a) == TierRank(TierOf(a))
    ensures a <= b ==> Rank(a) <= Rank(b)
  {
  }

  // ---------------------------------------------------------------------------
  // One product
  // ---------------------------------------------------------------------------

  function ItemDays(i: Item): int { i.daysLeft }

  function BucketDays(b: Bucket): int { b.daysLeft }

  /** A record finished: items and buckets sorted by days left, the tier taken from the
      minimum, and the minimum made finite. */
  function Finish(p: Accumulated): (r: Product)
    ensures r.tier == TierOf(r.minDays)
    ensures SortedBy(r.items, ItemDays) && multiset(r.items) == multiset(p.items)
    ensures SortedBy(r.buckets, BucketDays) && multiset(r.buckets) == multiset(p.buckets)
  {
    FinalTier(p.minDays);
    Product(p.code, p.name, p.supplier, p.supplierCode, p.netWeight,
            SortBy(p.buckets, BucketDays), p.total, FinalDays(p.minDays), p.originalQuantity,
            SortBy(p.items, ItemDays), Classify(p.minDays))
  }

  /** A finished record of a consistent product keeps its code, and its total is the sum
      of its items' quantities and of its buckets' quantities. */
  lemma FinishTotals(c: string, p: Accumulated, today: Date)
    requires ValidDate(today) && ProductOK(c, p, today)
    ensures Finish(p).code == c
    ensures Finish(p).total == SumOf(Finish(p).items, ItemQuantity)
    ensures Finish(p).total == SumOf(Finish(p).buckets, BucketQuantity)
  {
    SumOfSortBy(p.items, ItemDays, ItemQuantity);
    BucketsOfTotal(p.items);
    SumOfSortBy(p.buckets, BucketDays, BucketQuantity);
  }

  /** Each item is dated and its days left are counted from `today`. */
  predicate DaysCounted(items: seq<Item>, today: Date)
    requires ValidDate(today)
  {
    forall i :: 0 <= i < |items| ==>
      ValidDate(items[i].expiry) && items[i].daysLeft == DaysBetween(today, items[i].expiry)
  }

  /** A finished record of a consistent product: its minimum is the days left of its first
      item, or 999 when it has none; no item has fewer days left, and each item's days left
      are still counted from the reference date. */
  lemma FinishMinimum(c: string, p: Accumulated, today: Date)
    requires ValidDate(today) && ProductOK(c, p, today)
    ensures Finish(p).items == [] <==> p.items == []
    ensures Finish(p).items == [] ==> Finish(p).minDays == 999
    ensures Finish(p).items != [] ==> Finish(p).minDays == Finish(p).items[0].daysLeft
    ensures forall i :: 0 <= i < |Finish(p).items| ==> Finish(p).minDays <= Finish(p).items[i].daysLeft
    ensures DaysCounted(Finish(p).items, today)
  {
    SortedMinimum(p.items);
    SortKeepsDays(p.items, today);
  }

  /** The stable sort of items by days left starts with an item of least days left. */
  lemma SortedMinimum(items: seq<Item>)
    ensures items != [] ==> MinDays(items) == Days(SortBy(items, ItemDays)[0].daysLeft)
  {
    if items != [] {
      var r := SortBy(items, ItemDays);
      var e := MinDays(items);
      var k :| 0 <= k < |items| && items[k].daysLeft == e.n;
      SameElements(items, r, k);
      var j :| 0 <= j < |r| && r[j] == items[k];
      SameElements(r, items, 0);
      var h :| 0 <= h < |items| && items[h] == r[0];
      assert e.n <= items[h].daysLeft;
      assert j == 0 || ItemDays(r[0]) <= ItemDays(r[j]);
    }
  }

  lemma SameElements<T>(a: seq<T>, b: seq<T>, k: nat)
    requires multiset(a) == multiset(b) && k < |a|
    ensures a[k] in b
  {
    assert a[k] in multiset(a);
  }

  /** Sorting keeps every item's days left counted from `today`. */
  lemma SortKeepsDays(items: seq<Item>, today: Date)
    requires ValidDate(today) && DaysCounted(items, today)
    ensures DaysCounted(SortBy(items, ItemDays), today)
  {
    var r := SortBy(items, ItemDays);
    forall i | 0 <= i < |r|
      ensures ValidDate(r[i].expiry) && r[i].daysLeft == DaysBetween(today, r[i].expiry)
    {
      assert r[i] in multiset(items);
    }
  }

  // ---------------------------------------------------------------------------
  // The listing, the counters and the final order
  // ---------------------------------------------------------------------------

  /** The records finished in the order of their codes. */
  function FinishAll(products: map<string, Accumulated>, order: seq<string>): (r: seq<Product>)
    requires forall i :: 0 <= i < |order| ==> order[i] in products
  {
    seq(|order|, i requires 0 <= i < |order| => Finish(products[order[i]]))
  }

  predicate IsExpired(p: Product) { p.tier == Expired }
  predicate IsHigh(p: Product) { p.tier == High }
  predicate IsMedium(p: Product) { p.tier == Medium }
  predicate IsLow(p: Product) { p.tier == Low }

  function AbsTotal(p: Product): Float { Abs(p.total) }

  function ProductRank(p: Product): int { Rank(p.minDays) }

  function ProductDays(p: Product): int { p.minDays }

  /** The counters of a listing. */
  function Summarize(list: seq<Product>): Summary {
    Summary(|list|, SumOf(list, AbsTotal), CountOf(list, IsHigh), CountOf(list, IsMedium), CountOf(list, IsExpired))
  }

  /** Every product is counted by exactly one counter, or by none when it is low. */
  lemma {:induction false} SummaryPartition(list: seq<Product>)
    ensures var s := Summarize(list);
      s.expired + s.within30 + s.within60 + CountOf(list, IsLow) == s.totalProducts
    decreases |list|
  {
    if list != [] {
      SummaryPartition(list[..|list| - 1]);
    }
  }

  /** The final sort by (rank, minimum) is the stable sort by the minimum alone. */
  lemma SortProductsByDays(list: seq<Product>)
    ensures SortByPair(list, ProductRank, ProductDays) == SortBy(list, ProductDays)
  {
    forall a, b | ProductDays(a) <= ProductDays(b) ensures ProductRank(a) <= ProductRank(b) {
      RankOrder(a.minDays, b.minDays);
    }
    SortByPairMonotone(list, ProductRank, ProductDays);
  }

  /** Sorting changes none of the counters. */
  lemma SummarizeSorted(list: seq<Product>)
    ensures Summarize(SortByPair(list, ProductRank, ProductDays)) == Summarize(list)
  {
    SortProductsByDays(list);
    SumOfSortBy(list, ProductDays, AbsTotal);
    CountOfSortBy(list, ProductDays, IsHigh);
    CountOfSortBy(list, ProductDays, IsMedium);
    CountOfSortBy(list, ProductDays, IsExpired);
  }

  /** The final list: the same products, ordered by tier rank and then by minimum, and
      products with the same minimum in the order their codes were first seen. */
  lemma SortedProducts(list: seq<Product>, k: int)
    ensures var r := SortByPair(list, ProductRank, ProductDays);
      && multiset(r) == multiset(list)
      && (forall i, j :: 0 <= i < j < |r| ==> ProductRank(r[i]) <= ProductRank(r[j]))
      && (forall i, j :: 0 <= i < j < |r| ==> r[i].minDays <= r[j].minDays)
      && WithKey(r, ProductDays, k) == WithKey(list, ProductDays, k)
  {
    SortProductsByDays(list);
    SortByStable(list, ProductDays, k);
    var r := SortBy(list, ProductDays);
    forall i, j | 0 <= i < j < |r| ensures ProductRank(r[i]) <= ProductRank(r[j]) {
      RankOrder(r[i].minDays, r[j].minDays);
    }
  }

  /** The finalisation loop over the records in first-seen order, then the sort: returns
      the listing and its counters. */
  method Finalize(st: State) returns (list: seq<Product>, summary: Summary)
    requires forall i :: 0 <= i < |st.order| ==> st.order[i] in st.products
    ensures list == SortByPair(FinishAll(st.products, st.order), ProductRank, ProductDays)
    ensures summary == Summarize(list)
  {
    var unsorted: seq<Product> := [];
    var totalItems := Zero;
    var within30, within60, expired := 0, 0, 0;
    for i := 0 to |st.order|
      invariant unsorted == FinishAll(st.products, st.order[..i])
      invariant Summary(|unsorted|, totalItems, within30, within60, expired) == Summarize(unsorted)
    {
      var product := FinishRecord(st.products[st.order[i]]);
      totalItems, within30, within60, expired := Tally(product, totalItems, within30, within60, expired);
      SummarizeAppend(unsorted, product);
      FinishAllAppend(st.products, st.order, i);
      unsorted := unsorted + [product];
    }
    assert st.order[..|st.order|] == st.order;
    summary := Summary(|unsorted|, totalItems, within30, within60, expired);
    list := SortByPair(unsorted, ProductRank, ProductDays);
    SummarizeSorted(unsorted);
  }

  /** The counters updated for one product: its tier's counter and the total of absolute
      quantities. */
  method Tally(p: Product, totalItems0: Float, within300: nat, within600: nat, expired0: nat)
    returns (totalItems: Float, within30: nat, within60: nat, expired: nat)
    ensures totalItems == Add(totalItems0, Abs(p.total))
    ensures within30 == within300 + (if p.tier == High then 1 else 0)
    ensures within60 == within600 + (if p.tier == Medium then 1 else 0)
    ensures expired == expired0 + (if p.tier == Expired then 1 else 0)
  {
    totalItems, within30, within60, expired := totalItems0, within300, within600, expired0;
    if p.tier == Expired {
      expired := expired + 1;
    } else if p.tier == High {
      within30 := within30 + 1;
    } else if p.tier == Medium {
      within60 := within60 + 1;
    }
    totalItems := Add(totalItems, Abs(p.total));
  }

  /** The counters after one more product. */
  lemma SummarizeAppend(list: seq<Product>, p: Product)
    ensures var s := Summarize(list);
      Summarize(list + [p])
      == Summary(s.totalProducts + 1, Add(s.totalItems, Abs(p.total)),
                 s.within30 + (if p.tier == High then 1 else 0),
                 s.within60 + (if p.tier == Medium then 1 else 0),
                 s.expired + (if p.tier == Expired then 1 else 0))
  {
    assert (list + [p])[..|list|] == list;
  }

  lemma FinishAllAppend(products: map<string, Accumulated>, order: seq<string>, i: nat)
    requires forall i :: 0 <= i < |order| ==> order[i] in products
    requires i < |order|
    ensures FinishAll(products, order[..i + 1]) == FinishAll(products, order[..i]) + [Finish(products[order[i]])]
  {
  }

  /** One pass of the loop: the items and buckets sorted, the tier chosen by the thresholds
      on the running minimum, and the minimum made finite. */
  method FinishRecord(p: Accumulated) returns (r: Product)
    ensures r == Finish(p)
  {
    var items := SortBy(p.items, ItemDays);
    var buckets := SortBy(p.buckets, BucketDays);
    var tier: Tier;
    if p.minDays.Days? && p.minDays.n < 0 {
      tier := Expired;
    } else if p.minDays.Days? && p.minDays.n <= 30 {
      tier := High;
    } else if p.minDays.Days? && p.minDays.n <= 60 {
      tier := Medium;
    } else {
      tier := Low;
    }
    var minDays := if p.minDays.Unbounded? then 999 else p.minDays.n;
    r := Product(p.code, p.name, p.supplier, p.supplierCode, p.netWeight,
                 buckets, p.total, minDays, p.originalQuantity, items, tier);
  }
}
