/** The listing query: from the full list of listings and the current
    search text, category, sort key and price-bound strings, the list the
    grid shows. Each filter stage is skipped when its parameter is at its
    default; the survivors are then sorted stably by the chosen key. */
module Query {
  import opened Options
  import opened JsText
  import opened JsNumbers
  import opened Listings
  import opened Filtering
  import opened StableSort

  /** The query state: search text, category, sort key and the two
      price-bound strings, exactly as the inputs hold them. */
  datatype QueryParams = QueryParams(q: string, cat: string, sort: string, min: string, max: string)

  /** The text filter runs only when `q.trim()` is non-empty. */
  predicate TextFilterOn(q: string) {
    Trim(q) != ""
  }

  /** The text test against the lower-cased search string `s`: the
      lower-cased title or description contains it. */
  predicate MatchesText(s: string, it: Listing) {
    Includes(ToLower(it.title), s) || Includes(ToLower(it.description), s)
  }

  /** `b ? Number(b) : undefined`: an empty bound is absent, any other is
      converted, and a string that is not a number becomes NaN. */
  function PriceBound(b: string): (r: Option<JsNumber>)
    ensures r.None? <==> b == ""
  {
    if b == "" then None else Some(ToNumber(b))
  }

  /** Stage 1: matching is against the lower-cased search string as typed,
      surrounding white space included. */
  predicate TextOk(p: QueryParams, it: Listing) {
    TextFilterOn(p.q) ==> MatchesText(ToLower(p.q), it)
  }

  /** Stage 2: any category but "all" must match exactly. */
  predicate CategoryOk(p: QueryParams, it: Listing) {
    p.cat != ALL_CATEGORIES ==> it.category == p.cat
  }

  /** Stage 3: a present minimum is inclusive; NaN admits nothing. */
  predicate MinOk(p: QueryParams, it: Listing) {
    PriceBound(p.min).Some? ==> AtLeast(it.price, PriceBound(p.min).value)
  }

  /** Stage 4: a present maximum is inclusive; NaN admits nothing. */
  predicate MaxOk(p: QueryParams, it: Listing) {
    PriceBound(p.max).Some? ==> AtMost(it.price, PriceBound(p.max).value)
  }

  /** A listing is shown when it passes every active stage. */
  predicate Keep(p: QueryParams, it: Listing) {
    TextOk(p, it) && CategoryOk(p, it) && MinOk(p, it) && MaxOk(p, it)
  }

  /** Keep as a predicate value, to hand to Filter. */
  function Keeps(p: QueryParams): Listing -> bool {
    it => Keep(p, it)
  }

  /** The comparator `(a, b) => a.price - b.price`, as an ascending key. */
  function ByPrice(it: Listing): real {
    it.price
  }

  /** The comparator `(a, b) => b.price - a.price`, as an ascending key. */
  function ByPriceDescending(it: Listing): real {
    -it.price
  }

  /** The comparator `(a, b) => b.createdAt - a.createdAt`, as an ascending key. */
  function ByNewest(it: Listing): real {
    -(it.createdAt as real)
  }

  /** The comparator handed to `list.sort` for the sort parameter. */
  function Comparator(sort: string, a: Listing, b: Listing): real {
    if sort == "priceAsc" then a.price - b.price
    else if sort == "priceDesc" then b.price - a.price
    else (b.createdAt - a.createdAt) as real
  }

  /** The sort key named by the sort parameter; anything but the two price
      orders means newest first. The comparator is the difference of the
      keys, so it orders any two listings exactly as their keys do. */
  function SortKey(sort: string): (key: Listing -> real)
    ensures forall a, b :: Comparator(sort, a, b) == key(a) - key(b)
  {
    if sort == "priceAsc" then ByPrice
    else if sort == "priceDesc" then ByPriceDescending
    else ByNewest
  }

  /** The reference definition of the shown list: the listings that pass
      every active stage, in input order, stably sorted by the chosen key. */
  function View(items: seq<Listing>, p: QueryParams): (r: seq<Listing>)
    ensures |r| <= |items|
  {
    var s := Filter(items, Keeps(p));
    var r := SortByKey(s, SortKey(p.sort));
    assert |r| == |s| by { assert |multiset(r)| == |multiset(s)|; }
    r
  }

  /** The stages up to and including stage `n`, for the proof of Filtered. */
  ghost function PassesFirst(p: QueryParams, n: nat): Listing -> bool {
    it => (n >= 1 ==> TextOk(p, it)) && (n >= 2 ==> CategoryOk(p, it))
       && (n >= 3 ==> MinOk(p, it)) && (n >= 4 ==> MaxOk(p, it))
  }

  /** A fresh array holding `s`: the array the filter stages hand on. */
  method NewArray(s: seq<Listing>) returns (a: array<Listing>)
    ensures fresh(a) && a[..] == s
  {
    a := new Listing[|s|](i requires 0 <= i < |s| => s[i]);
  }

  /** The `filtered` pipeline: copy the listings, narrow the list stage by
      stage, then sort the resulting array in place. Nothing it is given
      changes: it has no modifies clause, and the array it sorts is its own. */
  method Filtered(items: seq<Listing>, p: QueryParams) returns (list: seq<Listing>)
    ensures list == View(items, p)
  {
    list := items;
    FilterKeepsAll(items, PassesFirst(p, 0));
    if Trim(p.q) != "" {
      var s := ToLower(p.q);
      var byText := (it: Listing) => Includes(ToLower(it.title), s) || Includes(ToLower(it.description), s);
      list := Filter(list, byText);
      FilterCompose(items, PassesFirst(p, 0), byText, PassesFirst(p, 1));
    } else {
      FilterExt(items, PassesFirst(p, 0), PassesFirst(p, 1));
    }
    if p.cat != ALL_CATEGORIES {
      var byCategory := (it: Listing) => it.category == p.cat;
      list := Filter(list, byCategory);
      FilterCompose(items, PassesFirst(p, 1), byCategory, PassesFirst(p, 2));
    } else {
      FilterExt(items, PassesFirst(p, 1), PassesFirst(p, 2));
    }
    var minN := PriceBound(p.min);
    var maxN := PriceBound(p.max);
    if minN.Some? {
      var m := minN.value;
      var byMin := (it: Listing) => AtLeast(it.price, m);
      list := Filter(list, byMin);
      FilterCompose(items, PassesFirst(p, 2), byMin, PassesFirst(p, 3));
    } else {
      FilterExt(items, PassesFirst(p, 2), PassesFirst(p, 3));
    }
    if maxN.Some? {
      var m := maxN.value;
      var byMax := (it: Listing) => AtMost(it.price, m);
      list := Filter(list, byMax);
      FilterCompose(items, PassesFirst(p, 3), byMax, PassesFirst(p, 4));
    } else {
      FilterExt(items, PassesFirst(p, 3), PassesFirst(p, 4));
    }
    FilterExt(items, PassesFirst(p, 4), Keeps(p));
    var a := NewArray(list);
    if p.sort == "priceAsc" {
      SortInPlace(a, ByPrice);
    } else if p.sort == "priceDesc" {
      SortInPlace(a, ByPriceDescending);
    } else {
      SortInPlace(a, ByNewest);
    }
    list := a[..];
  }

  /** Which listings are shown: every occurrence of a listing that passes
      every active stage, and no other listing. */
  lemma ViewSelects(items: seq<Listing>, p: QueryParams, x: Listing)
    ensures multiset(View(items, p))[x] == if Keep(p, x) then multiset(items)[x] else 0
    ensures x in View(items, p) <==> x in items && Keep(p, x)
  {
    FilterCount(items, Keeps(p), x);
  }

  /** The order of the shown list: ascending or descending price, or
      newest first for any other sort key. */
  lemma ViewOrder(items: seq<Listing>, p: QueryParams)
    ensures var r := View(items, p);
      && (p.sort == "priceAsc" ==> forall i, j :: 0 <= i < j < |r| ==> r[i].price <= r[j].price)
      && (p.sort == "priceDesc" ==> forall i, j :: 0 <= i < j < |r| ==> r[i].price >= r[j].price)
      && (p.sort != "priceAsc" && p.sort != "priceDesc" ==>
            forall i, j :: 0 <= i < j < |r| ==> r[i].createdAt >= r[j].createdAt)
  {
    SortByKeySorted(Filter(items, Keeps(p)), SortKey(p.sort));
  }

  /** Listings that tie on the sort key keep their relative order from
      the filtered input. */
  lemma ViewStable(items: seq<Listing>, p: QueryParams)
    ensures Stable(Filter(items, Keeps(p)), View(items, p), SortKey(p.sort))
  {
    SortByKeyStable(Filter(items, Keeps(p)), SortKey(p.sort));
  }

  /** Any sorted, stable arrangement of the surviving listings is the
      shown list, so the result does not depend on the sort algorithm. */
  lemma ViewIsTheStableSort(items: seq<Listing>, p: QueryParams, r: seq<Listing>)
    requires SortedBy(r, SortKey(p.sort)) && Stable(Filter(items, Keeps(p)), r, SortKey(p.sort))
    ensures r == View(items, p)
  {
    SortByKeyIsTheStableSort(Filter(items, Keeps(p)), r, SortKey(p.sort));
  }

  /** The text stage in plain terms: it passes every listing when the
      search string is all white space, and otherwise a listing whose
      lower-cased title or description contains the lower-cased search
      string, white space and all. */
  lemma TextStageMeaning(p: QueryParams, it: Listing)
    ensures TextOk(p, it) <==>
      || AllTrimmable(p.q)
      || (exists i :: OccursAt(ToLower(it.title), ToLower(p.q), i))
      || (exists i :: OccursAt(ToLower(it.description), ToLower(p.q), i))
  {
    IncludesIff(ToLower(it.title), ToLower(p.q));
    IncludesIff(ToLower(it.description), ToLower(p.q));
  }

  /** A bound that is not a number becomes NaN, which no price satisfies:
      the shown list is empty. */
  lemma UnparsableBoundShowsNothing(items: seq<Listing>, p: QueryParams)
    requires PriceBound(p.min) == Some(NaN) || PriceBound(p.max) == Some(NaN)
    ensures View(items, p) == []
  {
    var r := View(items, p);
    if r != [] {
      ViewSelects(items, p, r[0]);
      assert false;
    }
  }

  /** A bound made only of white space is not empty, so it is present, and
      Number() reads it as 0. */
  lemma BlankBoundIsZero(p: QueryParams, it: Listing)
    requires p.min != "" && AllTrimmable(p.min)
    ensures MinOk(p, it) <==> it.price >= 0.0
  {
  }
}
