/** The entities of the marketplace: a seller and a classified-ad listing.
    Prices and creation times are JavaScript Numbers; a price is a finite
    real here and a creation time an integer count of milliseconds. The
    category and the condition are kept as the strings the form delivers,
    since the form casts them to their enumerated types without checking. */
module Listings {
  import opened Options

  /** The category value that switches the category filter off ("all"). */
  const ALL_CATEGORIES: string := "الكل"

  /** Who sells a listing; e-mail and phone are absent when not given. */
  datatype Seller = Seller(name: string, email: Option<string>, phone: Option<string>)

  /** One item offered for sale. `fav` is absent until the listing is first
      marked as a favourite. */
  datatype Listing = Listing(
    id: string,
    title: string,
    description: string,
    price: real,
    category: string,
    condition: string,
    location: string,
    images: seq<string>,
    createdAt: int,
    seller: Seller,
    fav: Option<bool>)

  /** The truth value of the optional `fav` property: absent counts as false. */
  predicate IsFav(x: Listing) {
    x.fav == Some(true)
  }

  /** The identifiers of `items`, in order. */
  function Ids(items: seq<Listing>): (r: seq<string>)
    ensures |r| == |items|
    ensures forall i :: 0 <= i < |items| ==> r[i] == items[i].id
  {
    seq(|items|, i requires 0 <= i < |items| => items[i].id)
  }

  /** No two listings share an identifier. */
  predicate UniqueIds(items: seq<Listing>) {
    forall i, j :: 0 <= i < j < |items| ==> items[i].id != items[j].id
  }
}
