/** The public listing page: the same filter and sort as the listing hook, over the list handed
    to the page. */
module PublicList {
  import opened Js
  import opened Homes
  import opened Listing

  class PublicFuneralHomeList {
    /** The `initialHomes` prop: `None` when it is `null`; an absent prop defaults to `[]`. */
    const initialHomes: Option<seq<Home>>
    var activeFilter: string
    var activeSort: string

    constructor (initialHomes: Option<seq<Home>>)
      ensures this.initialHomes == initialHomes
      ensures activeFilter == AllCategory && activeSort == "distance"
    {
      this.initialHomes := initialHomes;
      activeFilter := AllCategory;
      activeSort := "distance";
    }

    method SetActiveFilter(category: string)
      modifies this
      ensures activeFilter == category && activeSort == old(activeSort)
    {
      activeFilter := category;
    }

    method SetActiveSort(sortKey: string)
      modifies this
      ensures activeSort == sortKey && activeFilter == old(activeFilter)
    {
      activeSort := sortKey;
    }

    /** `filteredHomes`: nothing without a list, else the listing hook's view of that list. */
    method FilteredHomes() returns (result: seq<Home>)
      ensures initialHomes.None? ==> result == []
      ensures initialHomes.Some? ==> result == Arrange(initialHomes.value, activeFilter, activeSort)
    {
      if initialHomes.None? {
        return [];
      }
      result := ArrangeHomes(initialHomes.value, activeFilter, activeSort);
    }
  }
}
