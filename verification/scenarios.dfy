/** Worked queries over the three listings the page starts with (creation
    times are taken relative to a clock reading of 0). */
module Scenarios {
  import opened Options
  import opened JsNumbers
  import opened JsText
  import opened Listings
  import opened Query
  import opened Filtering
  import opened StableSort

  /** A listing with the given identifier, title, price and creation
      time; the fields no query looks at are left empty. */
  function Item(id: string, title: string, category: string, price: real, createdAt: int): Listing {
    Listing(id, title, "", price, category, "", "", [], createdAt, Seller("", None, None), None)
  }

  function Phone(): Listing {
    Item("1", "iPhone 12 128GB", "إلكترونيك", 3200.0, -93600000)
  }

  function Desk(): Listing {
    Item("2", "طيبلة خدمة 120×60", "موبيليا", 600.0, -28800000)
  }

  function Bike(): Listing {
    Item("3", "بيكالة دراري 20\"", "رياضة و ترفيه", 850.0, -288000000)
  }

  /** The seed listings in their initial order. */
  function Seed(): seq<Listing> {
    [Phone(), Desk(), Bike()]
  }

  /** The title of the phone listing, lower-cased. */
  lemma PhoneTitleLowered()
    ensures ToLower(Phone().title) == "iphone 12 128gb"
  {
  }

  /** " iphone " occurs nowhere in "iphone 12 128gb": every window of eight
      characters differs from it somewhere. */
  lemma PaddedNeedleAbsent()
    ensures !Includes("iphone 12 128gb", " iphone ")
  {
    var title, needle := "iphone 12 128gb", " iphone ";
    assert title[0..8] != needle by { assert title[0..8][0] == title[0] != needle[0]; }
    assert title[1..9] != needle by { assert title[1..9][0] == title[1] != needle[0]; }
    assert title[2..10] != needle by { assert title[2..10][0] == title[2] != needle[0]; }
    assert title[3..11] != needle by { assert title[3..11][0] == title[3] != needle[0]; }
    assert title[4..12] != needle by { assert title[4..12][0] == title[4] != needle[0]; }
    assert title[5..13] != needle by { assert title[5..13][0] == title[5] != needle[0]; }
    assert title[6..14] != needle by { assert title[6..14][1] == title[7] != needle[1]; }
    assert title[7..15] != needle by { assert title[7..15][0] == title[7] != needle[0]; }
    forall i
      ensures !OccursAt(title, needle, i)
    {
      if 0 <= i <= 7 {
        assert i == 0 || i == 1 || i == 2 || i == 3 || i == 4 || i == 5 || i == 6 || i == 7;
      }
    }
    IncludesIff(title, needle);
  }

  /** The two search strings, lower-cased. */
  lemma SearchStringsLowered()
    ensures ToLower(" iPhone ") == " iphone " && ToLower("iPhone") == "iphone"
  {
  }

  /** The padded search string is not blank, so the text filter runs. */
  lemma PaddedSearchIsOn()
    ensures TextFilterOn(" iPhone ")
  {
    assert !IsTrimmable(" iPhone "[1]);
  }

  /** "iphone" starts "iphone 12 128gb". */
  lemma PlainNeedlePresent()
    ensures Includes("iphone 12 128gb", "iphone")
  {
    assert OccursAt("iphone 12 128gb", "iphone", 0);
    IncludesIff("iphone 12 128gb", "iphone");
  }

  /** A search padded with spaces is matched as typed: " iPhone " turns the
      text filter on but is not found in the title "iPhone 12 128GB",
      while "iPhone" is. */
  lemma PaddedSearchMissesTitle()
    ensures TextFilterOn(" iPhone ") && !Includes(ToLower(Phone().title), ToLower(" iPhone "))
    ensures Includes(ToLower(Phone().title), ToLower("iPhone"))
  {
    PhoneTitleLowered();
    SearchStringsLowered();
    PaddedSearchIsOn();
    PaddedNeedleAbsent();
    PlainNeedlePresent();
  }

  /** "700" reads as 700. */
  lemma Numeral700()
    ensures PriceBound("700") == Some(Num(700.0))
  {
    assert IntToString(700) == "700" by {
      assert NatToString(7) == "7";
      assert NatToString(70) == "70";
    }
    ToNumberOfIntString(700);
  }

  /** "3000" reads as 3000. */
  lemma Numeral3000()
    ensures PriceBound("3000") == Some(Num(3000.0))
  {
    assert IntToString(3000) == "3000" by {
      assert NatToString(3) == "3";
      assert NatToString(30) == "30";
      assert NatToString(300) == "300";
    }
    ToNumberOfIntString(3000);
  }

  /** "abc" has no white space to trim. */
  lemma AbcUntrimmed()
    ensures Trim("abc") == "abc"
  {
    var s := "abc";
    assert s[0] == 'a' && s[|s| - 1] == 'c';
    assert !IsTrimmable('a') && !IsTrimmable('c');
    TrimOfUnpadded(s);
  }

  /** "abc" starts with no digit, sign, point or radix prefix, and is not
      `Infinity`, so it is no numeric literal. */
  lemma AbcNotLiteral()
    ensures ParseNumericLiteral("abc") == None
  {
    var s := "abc";
    assert s[0] == 'a';
    assert DigitValue('a') == 10 by { assert !('0' <= 'a' <= '9'); }
    assert DigitRun(s) == 0;
    assert s != "Infinity" by { assert |s| == 3; }
    assert ParseUnsignedDecimal(s) == None by { assert s[0..] == s; }
    assert ParseDecimal(s) == None;
  }

  /** A bound of "abc" is present and reads as NaN. */
  lemma AbcIsNaN()
    ensures PriceBound("abc") == Some(NaN)
  {
    AbcUntrimmed();
    AbcNotLiteral();
  }

  /** A minimum of "abc" empties the grid, whatever the listings. */
  lemma AbcMinimumShowsNothing(items: seq<Listing>)
    ensures View(items, QueryParams("", ALL_CATEGORIES, "newest", "abc", "")) == []
  {
    AbcIsNaN();
    UnparsableBoundShowsNothing(items, QueryParams("", ALL_CATEGORIES, "newest", "abc", ""));
  }

  /** The query of the price-band example. */
  function Band(): QueryParams {
    QueryParams("", ALL_CATEGORIES, "newest", "700", "3000")
  }

  /** An empty search string leaves the text filter off. */
  lemma EmptySearchIsOff()
    ensures !TextFilterOn("")
  {
    assert Trim("") == "";
  }

  /** Which seed listings lie within the band. */
  lemma BandKeeps()
    ensures !Keep(Band(), Phone()) && !Keep(Band(), Desk()) && Keep(Band(), Bike())
  {
    Numeral700();
    Numeral3000();
    EmptySearchIsOff();
    assert !MaxOk(Band(), Phone());
    assert !MinOk(Band(), Desk());
    assert MinOk(Band(), Bike()) && MaxOk(Band(), Bike());
  }

  /** Bounds of 700 and 3000 keep only the 850 listing. */
  lemma PriceBandExample()
    ensures View(Seed(), Band()) == [Bike()]
  {
    BandKeeps();
    var s, f := Seed(), Keeps(Band());
    assert Filter([Bike()], f) == [Bike()];
    assert Filter([Desk(), Bike()], f) == [Bike()] by {
      assert [Desk(), Bike()][1..] == [Bike()];
    }
    assert Filter(s, f) == [Bike()] by {
      assert s[1..] == [Desk(), Bike()];
    }
    assert SortByKey([Bike()], ByNewest) == [Bike()] by {
      assert [Bike()][..0] == [];
    }
  }

  /** With no search text, the category "all" and no bounds, every
      listing passes. */
  lemma DefaultQueryKeepsAll(items: seq<Listing>, sort: string)
    ensures Filter(items, Keeps(QueryParams("", ALL_CATEGORIES, sort, "", ""))) == items
  {
    var p := QueryParams("", ALL_CATEGORIES, sort, "", "");
    EmptySearchIsOff();
    assert PriceBound("") == None;
    assert forall x :: Keep(p, x);
    FilterKeepsAll(items, Keeps(p));
  }

  /** The two listings Phone and Desk, highest price first. */
  lemma FirstTwoDescending()
    ensures SortByKey([Phone(), Desk()], ByPriceDescending) == [Phone(), Desk()]
  {
    assert SortByKey([Phone()], ByPriceDescending) == [Phone()] by {
      assert [Phone()][..0] == [];
    }
    assert [Phone(), Desk()][..1] == [Phone()];
    assert Place([Phone()], Desk(), ByPriceDescending) == [Phone(), Desk()];
  }

  /** Bike goes between Phone and Desk. */
  lemma BikeBetween()
    ensures Place([Phone(), Desk()], Bike(), ByPriceDescending) == [Phone(), Bike(), Desk()]
  {
    assert [Phone(), Desk()][..1] == [Phone()];
    assert Place([Phone()], Bike(), ByPriceDescending) == [Phone(), Bike()];
  }

  /** The seed listings sorted by descending price. */
  lemma SeedDescending()
    ensures SortByKey(Seed(), ByPriceDescending) == [Phone(), Bike(), Desk()]
  {
    var s := Seed();
    FirstTwoDescending();
    BikeBetween();
    assert s[..2] == [Phone(), Desk()] && s[2] == Bike();
  }

  /** Highest price first orders the seed listings 3200, 850, 600. */
  lemma PriceDescendingExample()
    ensures View(Seed(), QueryParams("", ALL_CATEGORIES, "priceDesc", "", "")) == [Phone(), Bike(), Desk()]
  {
    var p := QueryParams("", ALL_CATEGORIES, "priceDesc", "", "");
    DefaultQueryKeepsAll(Seed(), p.sort);
    SeedDescending();
    assert SortKey(p.sort) == ByPriceDescending;
    assert View(Seed(), p) == SortByKey(Filter(Seed(), Keeps(p)), SortKey(p.sort));
  }
}
