/** The read handlers: each one builds a query over the food collection and
    the document store runs it. The collection is given as `docs`, the records
    in the order the store scans them; sorting, filtering, skip and limit are
    modelled here as functions over that sequence. */
module Queries {
  import opened Results
  import opened FoodModel

  /** Items returned by the "all foods" handler. */
  const AllFoodsLimit: nat := 12
  /** Items per page of the paginated list. */
  const PerPage: nat := 6
  /** Items returned by the "related foods" handler. */
  const RelatedLimit: nat := 3

  function Min(a: int, b: int): int
  {
    if a <= b then a else b
  }

  // ---------------------------------------------------------------------
  // The store's query primitives
  // ---------------------------------------------------------------------

  /** `sort({ createdAt: -1 })` order: non-increasing creation time. */
  ghost predicate NewestFirst(s: seq<Food>)
  {
    forall i, j :: 0 <= i < j < |s| ==> s[i].createdAt >= s[j].createdAt
  }

  /** Every record of the scan appears at most once. */
  ghost predicate EachOnce(s: seq<Food>)
  {
    forall x: Food :: multiset(s)[x] <= 1
  }

  /** Insert `x` into a newest-first sequence, before the first record that is
      not newer than it. */
  function InsertNewestFirst(x: Food, s: seq<Food>): (r: seq<Food>)
    requires NewestFirst(s)
    ensures NewestFirst(r)
    ensures multiset(r) == multiset(s) + multiset{x}
    ensures |r| == |s| + 1
    ensures r[0] == x || (s != [] && r[0] == s[0])
  {
    if s == [] || x.createdAt >= s[0].createdAt then
      [x] + s
    else
      var t := InsertNewestFirst(x, s[1..]);
      assert s == [s[0]] + s[1..];
      assert t[0].createdAt <= s[0].createdAt;
      [s[0]] + t
  }

  /** The records sorted by `createdAt`, newest first. Records created at the
      same instant keep no particular order in the store; this sort is one
      admissible choice. */
  function SortNewestFirst(docs: seq<Food>): (r: seq<Food>)
    ensures NewestFirst(r)
    ensures multiset(r) == multiset(docs)
    ensures |r| == |docs|
  {
    if docs == [] then []
    else
      assert docs == [docs[0]] + docs[1..];
      InsertNewestFirst(docs[0], SortNewestFirst(docs[1..]))
  }

  /** `skip(n).limit(m)` on a result sequence. The store reads `limit(0)` as
      "no limit"; the handlers only ever pass 12, 6 and 3, so that case is not
      modelled and a limit of 0 here returns nothing. */
  function SkipLimit(s: seq<Food>, skip: nat, limit: nat): (r: seq<Food>)
    ensures |r| == if skip >= |s| then 0 else Min(limit, |s| - skip)
    ensures forall k :: 0 <= k < |r| ==> r[k] == s[skip + k]
  {
    if skip >= |s| then [] else s[skip .. skip + Min(limit, |s| - skip)]
  }

  /** `find(filter)`: the records that satisfy `keep`, in scan order. */
  function Where(docs: seq<Food>, keep: Food -> bool): (r: seq<Food>)
    ensures |r| <= |docs|
    ensures forall x :: x in r <==> x in docs && keep(x)
    ensures forall x :: multiset(r)[x] == if keep(x) then multiset(docs)[x] else 0
  {
    if docs == [] then []
    else
      assert docs == [docs[0]] + docs[1..];
      if keep(docs[0]) then [docs[0]] + Where(docs[1..], keep)
      else Where(docs[1..], keep)
  }

  /** A filter that every record satisfies returns the whole scan. */
  lemma {:induction false} WhereAll(docs: seq<Food>, keep: Food -> bool)
    requires forall x :: keep(x)
    ensures Where(docs, keep) == docs
  {
    if docs != [] {
      WhereAll(docs[1..], keep);
      assert docs == [docs[0]] + docs[1..];
    }
  }

  /** A filter that no record satisfies returns nothing. */
  lemma {:induction false} WhereNone(docs: seq<Food>, keep: Food -> bool)
    requires forall x :: !keep(x)
    ensures Where(docs, keep) == []
  {
    if docs != [] {
      WhereNone(docs[1..], keep);
    }
  }

  /** In a newest-first sequence, nothing after position n is newer than
      anything before it. */
  lemma PrefixIsNewest(s: seq<Food>, n: nat)
    requires NewestFirst(s) && n <= |s|
    ensures NewestFirst(s[..n])
    ensures multiset(s[..n]) <= multiset(s)
    ensures forall i, y :: 0 <= i < n && y in multiset(s) - multiset(s[..n]) ==> y.createdAt <= s[i].createdAt
  {
    assert s == s[..n] + s[n..];
    assert multiset(s) - multiset(s[..n]) == multiset(s[n..]);
    forall i, y | 0 <= i < n && y in multiset(s) - multiset(s[..n])
      ensures y.createdAt <= s[i].createdAt
    {
      assert y in s[n..];
      var j :| 0 <= j < |s[n..]| && s[n..][j] == y;
      assert s[n + j] == y;
    }
  }

  /** A prefix holds no record more often than the whole sequence. */
  lemma PrefixSubMultiset(s: seq<Food>, n: nat)
    requires n <= |s|
    ensures multiset(s[..n]) <= multiset(s)
    ensures n == |s| ==> s[..n] == s
  {
    assert s == s[..n] + s[n..];
  }

  /** A record that occurs at two positions occurs at least twice. */
  lemma {:induction false} TwoPositions(s: seq<Food>, i: nat, j: nat)
    requires i < j < |s| && s[i] == s[j]
    ensures multiset(s)[s[i]] >= 2
  {
    assert s == s[..j] + [s[j]] + s[j + 1..];
    assert s[..j][i] == s[i];
    assert s[i] in multiset(s[..j]);
  }

  // ---------------------------------------------------------------------
  // "All foods": find({}).limit(12).sort({ createdAt: -1 })
  // ---------------------------------------------------------------------

  /** The 12 newest records, newest first: fewer only when the collection
      holds fewer, and no record left out is newer than one returned. */
  function AllFoods(docs: seq<Food>): (r: seq<Food>)
    ensures |r| == Min(AllFoodsLimit, |docs|)
    ensures NewestFirst(r)
    ensures multiset(r) <= multiset(docs)
    ensures forall i, y :: 0 <= i < |r| && y in multiset(docs) - multiset(r) ==> y.createdAt <= r[i].createdAt
  {
    var sorted := SortNewestFirst(docs);
    var r := SkipLimit(sorted, 0, AllFoodsLimit);
    assert r == sorted[..Min(AllFoodsLimit, |docs|)];
    PrefixIsNewest(sorted, |r|);
    r
  }

  // ---------------------------------------------------------------------
  // Paginated list: find({}).skip((page - 1) * 6).limit(6).sort({ createdAt: -1 })
  // ---------------------------------------------------------------------

  /** Why the store refuses a query. */
  datatype QueryError = NegativeSkip  // the store rejects a skip below zero

  /** The page number the handler uses: the route parameter, or 1 when absent. */
  function PageNumber(page: Option<int>): (n: int)
    ensures page.None? ==> n == 1
    ensures page.Some? ==> n == page.value
  {
    if page.Some? then page.value else 1
  }

  /** Position of the first record of page `p`: `(p - 1) * perPage`. */
  function PageStart(p: int): int
  {
    (p - 1) * PerPage
  }

  /** `skip((p - 1) * 6).limit(6)` on an ordered result. */
  function PageOf(sorted: seq<Food>, p: int): (r: seq<Food>)
    requires p >= 1
    ensures r == sorted[Min(PageStart(p), |sorted|)..Min(PageStart(p + 1), |sorted|)]
  {
    SkipLimit(sorted, PageStart(p), PerPage)
  }

  /** Page `p` of the newest-first order: at most 6 records, those at positions
      (p - 1) * 6 up to (p - 1) * 6 + 5. A page below 1 asks the store for a
      negative skip, which it rejects. */
  function ListPage(docs: seq<Food>, page: Option<int>): (r: Result<seq<Food>, QueryError>)
    ensures r.Failure? <==> PageNumber(page) < 1
    ensures r.Success? ==> r.value == PageOf(SortNewestFirst(docs), PageNumber(page))
    ensures r.Success? ==> |r.value| <= PerPage
    ensures r.Success? ==> forall k :: 0 <= k < |r.value| ==>
              && PageStart(PageNumber(page)) + k < |docs|
              && r.value[k] == SortNewestFirst(docs)[PageStart(PageNumber(page)) + k]
    ensures r.Success? && PageStart(PageNumber(page)) + PerPage <= |docs| ==> |r.value| == PerPage
    ensures r.Success? && PageStart(PageNumber(page)) < |docs| ==>
              PageStart(PageNumber(page)) + |r.value| == Min(PageStart(PageNumber(page)) + PerPage, |docs|)
  {
    var p := PageNumber(page);
    var sorted := SortNewestFirst(docs);
    if p < 1 then Failure(NegativeSkip)
    else Success(PageOf(sorted, p))
  }

  /** Without a page parameter the handler serves page 1. */
  lemma PageDefaultsToFirst(docs: seq<Food>)
    ensures ListPage(docs, None) == ListPage(docs, Some(1))
    ensures ListPage(docs, None).Success?
  {
  }

  /** Pages 1 to k of an ordered result, one after the other. */
  ghost function PagesUpTo(sorted: seq<Food>, k: nat): seq<Food>
  {
    if k == 0 then [] else PagesUpTo(sorted, k - 1) + PageOf(sorted, k)
  }

  /** Reading pages 1, 2, ..., k in turn yields exactly the first 6k records of
      the order: each record appears on exactly one page, with no gap and no
      overlap between consecutive pages. */
  lemma {:induction false} PagesTile(sorted: seq<Food>, k: nat)
    ensures PagesUpTo(sorted, k) == sorted[..Min(PageStart(k + 1), |sorted|)]
  {
    if k > 0 {
      PagesTile(sorted, k - 1);
      var lo := Min(PageStart(k), |sorted|);
      var hi := Min(PageStart(k + 1), |sorted|);
      assert sorted[..hi] == sorted[..lo] + sorted[lo..hi];
    }
  }

  /** When each record occurs once, two different pages share no record. */
  lemma PagesDisjoint(sorted: seq<Food>, p: int, q: int)
    requires EachOnce(sorted)
    requires 1 <= p < q
    ensures forall x :: x in PageOf(sorted, p) ==> x !in PageOf(sorted, q)
  {
    var a, b := PageOf(sorted, p), PageOf(sorted, q);
    forall x | x in a && x in b
      ensures false
    {
      var i :| 0 <= i < |a| && a[i] == x;
      var j :| 0 <= j < |b| && b[j] == x;
      assert sorted[PageStart(p) + i] == x;
      assert sorted[PageStart(q) + j] == x;
      assert multiset(sorted)[x] <= 1;
      TwoPositions(sorted, PageStart(p) + i, PageStart(q) + j);
    }
  }

  /** No two different records share a creation time. */
  ghost predicate DistinctTimes(s: seq<Food>)
  {
    forall x, y :: x in s && y in s && x.createdAt == y.createdAt ==> x == y
  }

  /** The tail of a newest-first sequence is newest-first. */
  lemma TailNewestFirst(s: seq<Food>)
    requires NewestFirst(s) && s != []
    ensures NewestFirst(s[1..])
  {
    forall i, j | 0 <= i < j < |s[1..]|
      ensures s[1..][i].createdAt >= s[1..][j].createdAt
    {
      assert s[1..][i] == s[i + 1] && s[1..][j] == s[j + 1];
    }
  }

  /** Two newest-first orders of the same records without shared creation
      times start with the same record. */
  lemma HeadsAgree(a: seq<Food>, b: seq<Food>)
    requires NewestFirst(a) && NewestFirst(b) && a != [] && b != []
    requires multiset(a) == multiset(b)
    requires DistinctTimes(a)
    ensures a[0] == b[0]
  {
    assert a[0] in multiset(b);
    var k :| 0 <= k < |b| && b[k] == a[0];
    assert b[0] in multiset(a);
    var j :| 0 <= j < |a| && a[j] == b[0];
    assert a[0].createdAt == b[0].createdAt;
  }

  /** Dropping the first record keeps creation times distinct. */
  lemma TailDistinctTimes(s: seq<Food>)
    requires DistinctTimes(s) && s != []
    ensures DistinctTimes(s[1..])
  {
    forall x, y | x in s[1..] && y in s[1..] && x.createdAt == y.createdAt
      ensures x == y
    {
      assert x in s && y in s;
    }
  }

  /** Two sequences holding the same records and starting with the same one
      hold the same records after it. */
  lemma TailsSameRecords(a: seq<Food>, b: seq<Food>)
    requires a != [] && b != [] && a[0] == b[0]
    requires multiset(a) == multiset(b)
    ensures multiset(a[1..]) == multiset(b[1..])
  {
    assert a == [a[0]] + a[1..] && b == [b[0]] + b[1..];
    assert multiset(a[1..]) == multiset(a) - multiset{a[0]};
    assert multiset(b[1..]) == multiset(b) - multiset{b[0]};
  }

  /** When no two records share a creation time, there is only one newest-first
      order of a collection. */
  lemma {:induction false} NewestFirstUnique(a: seq<Food>, b: seq<Food>)
    requires NewestFirst(a) && NewestFirst(b)
    requires multiset(a) == multiset(b)
    requires DistinctTimes(a)
    ensures a == b
    decreases |a|
  {
    assert |a| == |multiset(a)| == |multiset(b)| == |b|;
    if a != [] {
      HeadsAgree(a, b);
      TailsSameRecords(a, b);
      TailDistinctTimes(a);
      TailNewestFirst(a);
      TailNewestFirst(b);
      NewestFirstUnique(a[1..], b[1..]);
      assert a == [a[0]] + a[1..] && b == [b[0]] + b[1..];
    }
  }

  /** Whatever newest-first order the store produces on a request, when no two
      records share a creation time it is the model's order, so the pages of
      separate requests tile the collection as PagesTile and PagesDisjoint state. */
  lemma PagesIndependentOfOrder(docs: seq<Food>, order: seq<Food>, p: int)
    requires DistinctTimes(docs)
    requires NewestFirst(order) && multiset(order) == multiset(docs)
    requires p >= 1
    ensures order == SortNewestFirst(docs)
    ensures ListPage(docs, Some(p)) == Success(PageOf(order, p))
  {
    var sorted := SortNewestFirst(docs);
    assert DistinctTimes(order) by {
      forall x, y | x in order && y in order && x.createdAt == y.createdAt
        ensures x == y
      {
        assert x in multiset(docs) && y in multiset(docs);
      }
    }
    NewestFirstUnique(order, sorted);
  }

  // ---------------------------------------------------------------------
  // Filters: find(args) with args built from `checked` and `radio`
  // ---------------------------------------------------------------------

  /** An inclusive price range, `$gte: min, $lte: max`. */
  datatype PriceRange = PriceRange(min: int, max: int)

  /** The query object of the filter handler: each constraint is either
      absent or present. */
  datatype FilterArgs = FilterArgs(category: Option<seq<string>>, price: Option<PriceRange>)

  /** Whether a record satisfies every constraint present in `args`; a list of
      categories matches a record whose category is any of them. */
  predicate Matches(args: FilterArgs, f: Food)
  {
    && (args.category.Some? ==> f.category in args.category.value)
    && (args.price.Some? ==> args.price.value.min <= f.price <= args.price.value.max)
  }

  /** Start from an empty query object and add a category constraint only
      for a non-empty `checked` and a price constraint only for a non-empty
      `radio`. */
  method BuildFilterArgs(checked: seq<string>, radio: seq<int>) returns (args: FilterArgs)
    requires |radio| != 1
    ensures args.category.Some? <==> |checked| > 0
    ensures args.category.Some? ==> args.category.value == checked
    ensures args.price.Some? <==> |radio| > 0
    ensures args.price.Some? ==> args.price.value == PriceRange(radio[0], radio[1])
  {
    args := FilterArgs(None, None);
    if |checked| > 0 {
      args := args.(category := Some(checked));
    }
    if |radio| > 0 {
      args := args.(price := Some(PriceRange(radio[0], radio[1])));
    }
  }

  /** `find(args)`: each record that meets the constraints, as often as the
      collection holds it, and no other. */
  function Find(docs: seq<Food>, args: FilterArgs): (r: seq<Food>)
    ensures forall x :: multiset(r)[x] == if Matches(args, x) then multiset(docs)[x] else 0
  {
    Where(docs, (f: Food) => Matches(args, f))
  }

  /** The filter handler: a record is returned exactly when it is in the
      collection and satisfies each constraint the request added; with both
      inputs empty every record is returned, in scan order. */
  method FoodFilters(docs: seq<Food>, checked: seq<string>, radio: seq<int>) returns (r: seq<Food>)
    requires |radio| != 1
    ensures forall x :: x in r <==>
              && x in docs
              && (|checked| > 0 ==> x.category in checked)
              && (|radio| > 0 ==> radio[0] <= x.price <= radio[1])
    ensures forall x :: multiset(r)[x] ==
              if (|checked| > 0 ==> x.category in checked) && (|radio| > 0 ==> radio[0] <= x.price <= radio[1])
              then multiset(docs)[x] else 0
    ensures |checked| == 0 && |radio| == 0 ==> r == docs
  {
    var args := BuildFilterArgs(checked, radio);
    r := Find(docs, args);
    if |checked| == 0 && |radio| == 0 {
      WhereAll(docs, (f: Food) => Matches(args, f));
    }
  }

  // ---------------------------------------------------------------------
  // Related foods: find({ category: cid, _id: { $ne: pid } }).limit(3)
  // ---------------------------------------------------------------------

  /** At most 3 records of category `cid`, none of them `pid`, the first ones
      in scan order; fewer than 3 only when no other such record exists. */
  function Related(docs: seq<Food>, pid: Id, cid: string): (r: seq<Food>)
    ensures |r| <= RelatedLimit
    ensures multiset(r) <= multiset(docs)
    ensures forall x :: x in r ==> x.category == cid && x.id != pid
    ensures |r| < RelatedLimit ==>
              forall x :: multiset(r)[x] == if x.category == cid && x.id != pid then multiset(docs)[x] else 0
  {
    var candidates := Where(docs, (f: Food) => f.category == cid && f.id != pid);
    var r := SkipLimit(candidates, 0, RelatedLimit);
    assert r == candidates[..|r|];
    PrefixSubMultiset(candidates, |r|);
    assert multiset(candidates) <= multiset(docs);
    assert forall x :: x in r ==> x in candidates;
    r
  }

  // ---------------------------------------------------------------------
  // Single food by slug, and foods by category slug: findOne / find
  // ---------------------------------------------------------------------

  /** `findOne({ slug })`: the first record in scan order with that slug. */
  function SingleBySlug(docs: seq<Food>, slug: string): (r: Option<Food>)
    ensures r.None? <==> forall x :: x in docs ==> x.slug != slug
    ensures r.Some? ==>
              exists i :: 0 <= i < |docs| && docs[i] == r.value && r.value.slug == slug
                          && forall j :: 0 <= j < i ==> docs[j].slug != slug
  {
    if docs == [] then None
    else if docs[0].slug == slug then Some(docs[0])
    else
      var r := SingleBySlug(docs[1..], slug);
      assert forall x :: x in docs[1..] ==> x in docs;
      assert forall x :: x in docs ==> x == docs[0] || x in docs[1..];
      if r.Some? then
        var i :| 0 <= i < |docs[1..]| && docs[1..][i] == r.value && r.value.slug == slug
                 && forall j :: 0 <= j < i ==> docs[1..][j].slug != slug;
        assert docs[i + 1] == r.value;
        assert forall j :: 1 <= j < i + 1 ==> docs[j] == docs[1..][j - 1];
        r
      else r
  }

  /** `categoryModel.findOne({ slug })`: the first category whose stored slug
      equals the requested one. The category schema declares its slug
      `lowercase`, so the store lower-cases the requested slug before comparing;
      `lower` is that conversion, deterministic and otherwise unknown. */
  function CategoryBySlug(categories: seq<Category>, slug: string, lower: string -> string): (r: Option<Category>)
    ensures r.None? <==> forall c :: c in categories ==> c.slug != lower(slug)
    ensures r.Some? ==> r.value in categories && r.value.slug == lower(slug)
  {
    if categories == [] then None
    else if categories[0].slug == lower(slug) then Some(categories[0])
    else
      assert forall c :: c in categories ==> c == categories[0] || c in categories[1..];
      CategoryBySlug(categories[1..], slug, lower)
  }

  /** Whether a record belongs to the looked-up category. With no category
      found the query asks for records whose category is null, and every
      stored record has one. */
  predicate InCategory(category: Option<Category>, f: Food)
  {
    category.Some? && f.category == category.value.id
  }

  /** The category handler: the category with the slug and every record that
      references it; no records when no category has the slug. */
  function FoodsInCategory(categories: seq<Category>, docs: seq<Food>, slug: string, lower: string -> string)
    : (r: (Option<Category>, seq<Food>))
    ensures r.0 == CategoryBySlug(categories, slug, lower)
    ensures r.0.None? ==> r.1 == []
    ensures r.0.Some? ==>
              forall x :: multiset(r.1)[x] == if x.category == r.0.value.id then multiset(docs)[x] else 0
  {
    var category := CategoryBySlug(categories, slug, lower);
    var foods := Where(docs, (f: Food) => InCategory(category, f));
    assert category.None? ==> foods == [] by {
      if category.None? {
        WhereNone(docs, (f: Food) => InCategory(category, f));
      }
    }
    (category, foods)
  }
}
