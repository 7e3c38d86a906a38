/** The changes made to the list of listings: marking a listing as a
    favourite, and building a new listing from the "new listing" form and
    putting it at the head of the list. */
module Store {
  import opened Options
  import opened JsNumbers
  import opened Listings
  import opened Query
  import opened StableSort

  /** `x.id === id ? { ...x, fav: !x.fav } : x` for one listing: an absent
      flag counts as false, so it becomes true. */
  function Toggled(x: Listing, id: string): (r: Listing)
    ensures r == x.(fav := r.fav)
    ensures IsFav(r) <==> (IsFav(x) != (x.id == id))
    ensures x.id == id ==> r.fav.Some?
    ensures x.id != id ==> r == x
  {
    if x.id == id then x.(fav := Some(!IsFav(x))) else x
  }

  /** `toggleFav(id)`: every listing whose identifier is `id` has its
      favourite flag flipped (and made present); every other listing is
      left as it was, and the order and length are kept. */
  function ToggleFav(items: seq<Listing>, id: string): (r: seq<Listing>)
    ensures |r| == |items|
    ensures forall i :: 0 <= i < |items| && items[i].id == id ==>
      r[i].fav.Some? && (IsFav(r[i]) <==> !IsFav(items[i])) && r[i] == items[i].(fav := r[i].fav)
    ensures forall i :: 0 <= i < |items| && items[i].id != id ==> r[i] == items[i]
  {
    seq(|items|, i requires 0 <= i < |items| => Toggled(items[i], id))
  }

  /** Toggling keeps the identifiers, in order. */
  lemma ToggleFavKeepsIds(items: seq<Listing>, id: string)
    ensures Ids(ToggleFav(items, id)) == Ids(items)
  {
  }

  /** Toggling an identifier no listing has leaves the list as it was. */
  lemma ToggleFavMissingId(items: seq<Listing>, id: string)
    requires id !in Ids(items)
    ensures ToggleFav(items, id) == items
  {
    var r := ToggleFav(items, id);
    forall i | 0 <= i < |items|
      ensures r[i] == items[i]
    {
      assert Ids(items)[i] == items[i].id;
    }
  }

  /** Toggling twice returns every flag to its original truth value; a
      listing whose flag was already present comes back exactly as it was. */
  lemma ToggleFavTwice(items: seq<Listing>, id: string)
    ensures var r := ToggleFav(ToggleFav(items, id), id);
      && |r| == |items|
      && (forall i :: 0 <= i < |items| ==> (IsFav(r[i]) <==> IsFav(items[i])))
      && (forall i :: 0 <= i < |items| && items[i].fav.Some? ==> r[i] == items[i])
  {
    var once := ToggleFav(items, id);
    var r := ToggleFav(once, id);
    forall i | 0 <= i < |items|
      ensures (IsFav(r[i]) <==> IsFav(items[i]))
      ensures items[i].fav.Some? ==> r[i] == items[i]
    {
      assert once[i] == Toggled(items[i], id) && r[i] == Toggled(once[i], id);
      if items[i].id == id && items[i].fav.Some? {
        var b := items[i].fav.value;
        assert once[i].fav == Some(!b);
        assert r[i].fav == Some(b);
      }
    }
  }

  /** With unique identifiers, exactly the listing at the position of `id`
      changes. */
  lemma ToggleFavChangesOne(items: seq<Listing>, id: string, k: nat)
    requires UniqueIds(items) && k < |items| && items[k].id == id
    ensures var r := ToggleFav(items, id);
      && (IsFav(r[k]) <==> !IsFav(items[k]))
      && (forall i :: 0 <= i < |items| && i != k ==> r[i] == items[i])
  {
    var r := ToggleFav(items, id);
    forall i | 0 <= i < |items| && i != k
      ensures r[i] == items[i]
    {
      if i < k {
        assert items[i].id != items[k].id;
      } else {
        assert items[k].id != items[i].id;
      }
    }
  }

  /** The fields of the "new listing" form, as its inputs hold them; the
      uploaded image is absent until a file has been read. */
  datatype NewItemForm = NewItemForm(
    title: string,
    price: string,
    category: string,
    condition: string,
    description: string,
    location: string,
    image: Option<string>,
    name: string,
    email: string,
    phone: string)

  /** Why a form is refused: a required field is empty. */
  datatype SubmitError = MissingRequired

  /** What a number input can hold: nothing, or a string that reads as a
      finite number. */
  predicate ValidPriceField(price: string) {
    price == "" || ToNumber(price).Num?
  }

  /** Title, price, category and condition are all filled in. */
  predicate RequiredFilled(f: NewItemForm) {
    f.title != "" && f.price != "" && f.category != "" && f.condition != ""
  }

  /** An empty optional text field is left out of the seller. */
  function OptionalField(s: string): (r: Option<string>)
    ensures r.None? <==> s == ""
    ensures r.Some? ==> r.value == s
  {
    if s == "" then None else Some(s)
  }

  /** `submit`: refuse the form when a required field is empty; otherwise
      build the listing with the given identifier and creation time, one
      image (the uploaded one when it is a non-empty string, else the
      placeholder drawn for the title), and no favourite flag. */
  function Submit(f: NewItemForm, id: string, now: int, placeholder: string -> string): (r: Result<Listing, SubmitError>)
    requires ValidPriceField(f.price)
    ensures r.Err? <==> !RequiredFilled(f)
    ensures r.Ok? ==>
      && r.value.id == id && r.value.createdAt == now
      && r.value.title == f.title && r.value.description == f.description
      && Num(r.value.price) == ToNumber(f.price)
      && r.value.category == f.category && r.value.condition == f.condition
      && r.value.location == f.location
      && |r.value.images| == 1
      && r.value.images[0] == (if f.image.Some? && f.image.value != "" then f.image.value else placeholder(f.title))
      && r.value.seller.name == f.name
      && (r.value.seller.email.None? <==> f.email == "")
      && (r.value.seller.phone.None? <==> f.phone == "")
      && (r.value.seller.email.Some? ==> r.value.seller.email.value == f.email)
      && (r.value.seller.phone.Some? ==> r.value.seller.phone.value == f.phone)
      && r.value.fav.None?
  {
    if f.title == "" || f.price == "" || f.category == "" || f.condition == "" then
      Err(MissingRequired)
    else
      var image := if f.image.Some? && f.image.value != "" then f.image.value else placeholder(f.title);
      Ok(Listing(
        id, f.title, f.description, ToNumber(f.price).value,
        f.category, f.condition, f.location, [image], now,
        Seller(f.name, OptionalField(f.email), OptionalField(f.phone)),
        None))
  }

  /** `onAdd(l)`: the new listing goes in front of the existing ones. */
  function Prepend(items: seq<Listing>, l: Listing): (r: seq<Listing>)
    ensures |r| == |items| + 1 && r[0] == l && r[1..] == items
  {
    [l] + items
  }

  /** Submitting the form and handing the result to `onAdd`: a refused
      form leaves the list as it was. */
  function AddFromForm(items: seq<Listing>, f: NewItemForm, id: string, now: int, placeholder: string -> string): (r: seq<Listing>)
    requires ValidPriceField(f.price)
    ensures !RequiredFilled(f) ==> r == items
    ensures RequiredFilled(f) ==>
      |r| == |items| + 1 && r[1..] == items && r[0].id == id && r[0].title == f.title && |r[0].images| == 1
    ensures RequiredFilled(f) ==> Submit(f, id, now, placeholder) == Ok(r[0])
  {
    match Submit(f, id, now, placeholder)
    case Err(_) => items
    case Ok(l) => Prepend(items, l)
  }

  /** A listing added under an identifier no listing has keeps the
      identifiers unique. */
  lemma AddKeepsIdsUnique(items: seq<Listing>, l: Listing)
    requires UniqueIds(items) && l.id !in Ids(items)
    ensures UniqueIds(Prepend(items, l))
  {
    var r := Prepend(items, l);
    forall i, j | 0 <= i < j < |r|
      ensures r[i].id != r[j].id
    {
      if i == 0 {
        assert r[j] == items[j - 1];
        assert Ids(items)[j - 1] == items[j - 1].id;
      } else {
        assert r[i] == items[i - 1] && r[j] == items[j - 1];
      }
    }
  }

  /** Under the newest-first order, a listing added with the latest
      creation time that passes the filters is shown first. */
  lemma NewListingShownFirst(items: seq<Listing>, l: Listing, p: QueryParams)
    requires p.sort != "priceAsc" && p.sort != "priceDesc"
    requires Keep(p, l)
    requires forall x :: x in items ==> x.createdAt <= l.createdAt
    ensures View(Prepend(items, l), p) != [] && View(Prepend(items, l), p)[0] == l
  {
    var all := Prepend(items, l);
    var s := Filtering.Filter(all, Keeps(p));
    var key := SortKey(p.sort);
    ViewSelects(all, p, l);
    var r := View(all, p);
    SortByKeySorted(s, key);
    SortByKeyStable(s, key);
    // l is the first listing of `s` and holds the smallest key, so it is
    // the first of its key in `r` and nothing comes before it.
    assert s == [l] + Filtering.Filter(items, Keeps(p));
    assert r[0] in s by {
      assert multiset(r) == multiset(s);
      assert r[0] in multiset(r);
    }
    assert key(r[0]) == key(l) by {
      var k :| 0 <= k < |s| && s[k] == r[0];
      if k > 0 {
        Filtering.FilterCount(items, Keeps(p), s[k]);
      }
      var m :| 0 <= m < |r| && r[m] == l;
      assert key(r[0]) <= key(r[m]);
    }
    WithKeyFirst(s, r, key, l);
  }
}
