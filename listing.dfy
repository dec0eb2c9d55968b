/** The `filteredHomes` computation shared by the listing hook and the public listing page: copy the
    list, keep the homes of the chosen category, and sort the copy in place by the chosen key. */
module Listing {
  import opened Js
  import opened Seqs
  import opened StableSort
  import opened Homes
  import opened CsvParse
  import opened CsvLoader

  /** The category that keeps every home. */
  const AllCategory := "전체"

  /** The category that keeps the homes open around the clock. */
  const Open24hCategory := "24시간"

  /** The filter callback, used for every category but `전체`: `24시간` reads the `open24h` flag,
      any other category must be one of the home's tags (when it has any) or facilities. */
  predicate Matches(h: Home, category: string): (b: bool)
    ensures category == Open24hCategory ==> (b <==> h.open24h)
    ensures b && category != Open24hCategory ==> category in h.facilities || h.tags.Some?
  {
    if category == Open24hCategory then h.open24h
    else (h.tags.Some? && category in h.tags.value) || category in h.facilities
  }

  /** The category step: `전체` skips the filter. */
  function FilterHomes(homes: seq<Home>, category: string): (r: seq<Home>)
    ensures category == AllCategory ==> r == homes
    ensures category != AllCategory ==> forall i :: 0 <= i < |r| ==> Matches(r[i], category)
    ensures multiset(r) <= multiset(homes)
  {
    if category == AllCategory then homes else Filter(homes, h => Matches(h, category))
  }

  /** `a.distance - b.distance` reads the distance text as a number. */
  function DistanceKey(h: Home): Option<real> {
    ToNumber(h.distance)
  }

  /** `b.rating - a.rating` reads the rating text as a number. */
  function RatingKey(h: Home): Option<real> {
    ToNumber(h.rating)
  }

  function PriceKey(h: Home): Option<real> {
    Some(h.price.small as real)
  }

  /** The key the comparator subtracts for a sort key (any key will do when it returns 0). */
  function SortKey(sortKey: string): Home -> Option<real> {
    if sortKey == "distance" then DistanceKey
    else if sortKey == "rating" then RatingKey
    else PriceKey
  }

  /** Distance and price subtract `a - b`, rating `b - a`, and any other sort key returns 0. */
  function SortDirection(sortKey: string): Direction {
    if sortKey == "distance" || sortKey == "price" then Ascending
    else if sortKey == "rating" then Descending
    else Unordered
  }

  /** The list `filteredHomes` holds. */
  function Arrange(homes: seq<Home>, category: string, sortKey: string): (r: seq<Home>)
    ensures multiset(r) <= multiset(homes)
  {
    var filtered := FilterHomes(homes, category);
    SortPermutes(filtered, SortKey(sortKey), SortDirection(sortKey));
    Sort(filtered, SortKey(sortKey), SortDirection(sortKey))
  }

  /** The computation itself: the filtered copy is put in an array and sorted there, so the input
      list is never touched. */
  method ArrangeHomes(homes: seq<Home>, category: string, sortKey: string) returns (result: seq<Home>)
    ensures result == Arrange(homes, category, sortKey)
  {
    var filtered := FilterHomes(homes, category);
    var a := new Home[|filtered|](i requires 0 <= i < |filtered| => filtered[i]);
    assert a[..] == filtered;
    SortInPlace(a, SortKey(sortKey), SortDirection(sortKey));
    result := a[..];
  }

  // ---------------------------------------------------------------------------------------------
  // Filter

  /** `전체` keeps every home, in order. */
  lemma FilterAll(homes: seq<Home>)
    ensures FilterHomes(homes, AllCategory) == homes
  {
  }

  /** `24시간` keeps exactly the homes open around the clock, whatever their tags, in their order. */
  lemma Filter24h(homes: seq<Home>)
    ensures forall h :: h in FilterHomes(homes, Open24hCategory) <==> h in homes && h.open24h
    ensures IsSubsequence(FilterHomes(homes, Open24hCategory), homes)
  {
    FilterMembers(homes, Open24hCategory);
  }

  /** Any other category keeps exactly the homes with it among their tags or facilities, in their
      order. */
  lemma FilterCategory(homes: seq<Home>, category: string)
    requires category != AllCategory && category != Open24hCategory
    ensures forall h :: h in FilterHomes(homes, category) <==>
      h in homes && ((h.tags.Some? && category in h.tags.value) || category in h.facilities)
    ensures IsSubsequence(FilterHomes(homes, category), homes)
  {
    FilterMembers(homes, category);
  }

  lemma FilterMembers(homes: seq<Home>, category: string)
    requires category != AllCategory
    ensures forall h :: h in FilterHomes(homes, category) <==> h in homes && Matches(h, category)
  {
    var r := FilterHomes(homes, category);
    forall h | h in homes && Matches(h, category)
      ensures h in r
    {
      var i :| 0 <= i < |homes| && homes[i] == h;
    }
    forall h | h in r
      ensures h in homes && Matches(h, category)
    {
      var i :| 0 <= i < |r| && r[i] == h;
    }
  }

  // ---------------------------------------------------------------------------------------------
  // Sort

  /** The result holds exactly the filtered homes. */
  lemma ArrangePermutes(homes: seq<Home>, category: string, sortKey: string)
    ensures multiset(Arrange(homes, category, sortKey)) == multiset(FilterHomes(homes, category))
    ensures |Arrange(homes, category, sortKey)| == |FilterHomes(homes, category)|
  {
    SortPermutes(FilterHomes(homes, category), SortKey(sortKey), SortDirection(sortKey));
  }

  /** Sorting by price gives non-decreasing small-pet prices. */
  lemma ArrangeByPrice(homes: seq<Home>, category: string)
    ensures var r := Arrange(homes, category, "price");
      forall i, j :: 0 <= i < j < |r| ==> r[i].price.small <= r[j].price.small
  {
    var f := FilterHomes(homes, category);
    assert Numeric(f, PriceKey);
    SortOrdered(f, PriceKey, Ascending);
    var r := Sort(f, PriceKey, Ascending);
    assert Arrange(homes, category, "price") == r;
    OrderedValues(r, PriceKey, Ascending);
    forall i, j | 0 <= i < j < |r|
      ensures r[i].price.small <= r[j].price.small
    {
      assert PriceKey(r[i]).value <= PriceKey(r[j]).value;
    }
  }

  /** Sorting by distance gives non-decreasing distances, when every distance reads as a number. */
  lemma ArrangeByDistance(homes: seq<Home>, category: string)
    requires forall i :: 0 <= i < |homes| ==> ToNumber(homes[i].distance).Some?
    ensures var r := Arrange(homes, category, "distance");
      forall i :: 0 <= i < |r| ==> ToNumber(r[i].distance).Some?
    ensures var r := Arrange(homes, category, "distance");
      forall i, j :: 0 <= i < j < |r| ==> ToNumber(r[i].distance).value <= ToNumber(r[j].distance).value
  {
    var f := FilterHomes(homes, category);
    assert Numeric(homes, DistanceKey);
    FilteredNumeric(homes, category, DistanceKey);
    var r := Sort(f, DistanceKey, Ascending);
    assert Arrange(homes, category, "distance") == r;
    SortOrdered(f, DistanceKey, Ascending);
    OrderedValues(r, DistanceKey, Ascending);
  }

  /** Sorting by rating gives non-increasing ratings, when every rating reads as a number. */
  lemma ArrangeByRating(homes: seq<Home>, category: string)
    requires forall i :: 0 <= i < |homes| ==> ToNumber(homes[i].rating).Some?
    ensures var r := Arrange(homes, category, "rating");
      forall i :: 0 <= i < |r| ==> ToNumber(r[i].rating).Some?
    ensures var r := Arrange(homes, category, "rating");
      forall i, j :: 0 <= i < j < |r| ==> ToNumber(r[i].rating).value >= ToNumber(r[j].rating).value
  {
    var f := FilterHomes(homes, category);
    assert Numeric(homes, RatingKey);
    FilteredNumeric(homes, category, RatingKey);
    var r := Sort(f, RatingKey, Descending);
    assert Arrange(homes, category, "rating") == r;
    SortOrdered(f, RatingKey, Descending);
    OrderedValues(r, RatingKey, Descending);
  }

  lemma FilteredNumeric(homes: seq<Home>, category: string, key: Home -> Option<real>)
    requires Numeric(homes, key)
    ensures Numeric(FilterHomes(homes, category), key)
  {
    var f := FilterHomes(homes, category);
    forall i | 0 <= i < |f|
      ensures key(f[i]).Some?
    {
      if category != AllCategory {
        var j :| 0 <= j < |homes| && homes[j] == f[i];
      }
    }
  }

  /** Homes with the same key value stay in their filtered order (for a `NaN` key, in the order
      insertion sort gives). */
  lemma ArrangeStable(homes: seq<Home>, category: string, sortKey: string, v: Option<real>)
    ensures WithKey(Arrange(homes, category, sortKey), SortKey(sortKey), v)
         == WithKey(FilterHomes(homes, category), SortKey(sortKey), v)
  {
    SortStable(FilterHomes(homes, category), SortKey(sortKey), SortDirection(sortKey), v);
  }

  /** An unrecognised sort key leaves the filtered order as it is. */
  lemma ArrangeUnknownKey(homes: seq<Home>, category: string, sortKey: string)
    requires sortKey != "distance" && sortKey != "rating" && sortKey != "price"
    ensures Arrange(homes, category, sortKey) == FilterHomes(homes, category)
  {
    SortUnordered(FilterHomes(homes, category), SortKey(sortKey));
  }

  // ---------------------------------------------------------------------------------------------
  // The records as the loader writes them

  /** Without a `tags` property a record matches a category only through its facilities. */
  lemma UntaggedMatches(h: Home, category: string)
    requires h.tags.None? && category != Open24hCategory
    ensures Matches(h, category) <==> category in h.facilities
  {
  }

  /** The loss for one row: a category among the row's computed tags but not among its facilities
      keeps the record with its tags and drops the record as the loader writes it. */
  lemma TagOnlyCategory(rc: RowCells, k: nat, e: Enrichment, category: string)
    requires rc.name != "" && category != AllCategory && category != Open24hCategory
    requires category in RowTags(rc, e) && category !in ListOrPick(rc.facilities, e.facilities)
    ensures Matches(NormalizeCells(rc, k, e).value, category)
    ensures !Matches(NormalizeCellsAsWritten(rc, k, e).value, category)
  {
    var h := NormalizeCells(rc, k, e).value;
    assert h.tags == Some(RowTags(rc, e));
    RowFacilities(rc, k, e);
    AsWrittenDiffersInTagsOnly(rc, k, e);
  }

  /** Over the loader's list as written, any category but `24시간` keeps exactly the homes with it
      among their facilities: what the tags say plays no part. */
  lemma AsWrittenFilterByFacilities(text: string, enrich: nat -> Enrichment, category: string)
    requires category != AllCategory && category != Open24hCategory
    ensures var homes := LoadAsWritten(text, enrich);
      forall h :: h in FilterHomes(homes, category) <==> h in homes && category in h.facilities
  {
    var homes := LoadAsWritten(text, enrich);
    LoadAsWrittenHasNoTags(text, enrich);
    FilterCategory(homes, category);
    forall h | h in homes
      ensures h.tags.None?
    {
      var i :| 0 <= i < |homes| && homes[i] == h;
    }
  }

  /** The loader's distances are always numbers, so its list sorted by distance is in order. */
  lemma LoadedByDistance(text: string, enrich: nat -> Enrichment, category: string)
    ensures var r := Arrange(LoadAsWritten(text, enrich), category, "distance");
      forall i :: 0 <= i < |r| ==> ToNumber(r[i].distance).Some?
    ensures var r := Arrange(LoadAsWritten(text, enrich), category, "distance");
      forall i, j :: 0 <= i < j < |r| ==> ToNumber(r[i].distance).value <= ToNumber(r[j].distance).value
  {
    LoadAsWrittenDistancesNumeric(text, enrich);
    ArrangeByDistance(LoadAsWritten(text, enrich), category);
  }
}
