/** The listing hook: the fetched list and the chosen filter and sort key as state, and the
    filtered, sorted view of that list. */
module UseFuneralHomes {
  import opened Js
  import opened Homes
  import opened Listing

  /** What `response.json()` gives: a JSON array (of listing records) or any other JSON value. */
  datatype Payload = JsonArray(items: seq<Home>) | JsonOther

  /** How the fetch ends: a parsed body, or a failure of the request or of the JSON parse. */
  datatype FetchOutcome = Received(data: Payload) | Failed

  class FuneralHomes {
    var homes: seq<Home>
    var isLoading: bool
    var activeFilter: string
    var activeSort: string

    /** The initial state: no homes, loading, every category, nearest first. */
    constructor ()
      ensures homes == [] && isLoading
      ensures activeFilter == AllCategory && activeSort == "distance"
    {
      homes := [];
      isLoading := true;
      activeFilter := AllCategory;
      activeSort := "distance";
    }

    /** `fetchHomes`: an array body becomes the list, any other body empties it, a failure keeps
        it; loading ends in every case. */
    method FetchHomes(outcome: FetchOutcome)
      modifies this
      ensures outcome.Received? && outcome.data.JsonArray? ==> homes == outcome.data.items
      ensures outcome.Received? && outcome.data.JsonOther? ==> homes == []
      ensures outcome.Failed? ==> homes == old(homes)
      ensures !isLoading
      ensures activeFilter == old(activeFilter) && activeSort == old(activeSort)
    {
      if outcome.Received? {
        if outcome.data.JsonArray? {
          homes := outcome.data.items;
        } else {
          homes := [];
        }
      }
      isLoading := false;
    }

    method SetActiveFilter(category: string)
      modifies this
      ensures activeFilter == category
      ensures homes == old(homes) && isLoading == old(isLoading) && activeSort == old(activeSort)
    {
      activeFilter := category;
    }

    method SetActiveSort(sortKey: string)
      modifies this
      ensures activeSort == sortKey
      ensures homes == old(homes) && isLoading == old(isLoading) && activeFilter == old(activeFilter)
    {
      activeSort := sortKey;
    }

    /** The `homes` the hook returns; the state, the fetched list included, is left as it is. */
    method FilteredHomes() returns (result: seq<Home>)
      ensures result == Arrange(homes, activeFilter, activeSort)
    {
      result := ArrangeHomes(homes, activeFilter, activeSort);
    }
  }

  /** With the initial filter and sort key the view holds every fetched home, nearest first when
      every distance reads as a number. */
  lemma DefaultView(homes: seq<Home>)
    ensures multiset(Arrange(homes, AllCategory, "distance")) == multiset(homes)
    ensures (forall i :: 0 <= i < |homes| ==> ToNumber(homes[i].distance).Some?) ==>
      var r := Arrange(homes, AllCategory, "distance");
      forall i :: 0 <= i < |r| ==> ToNumber(r[i].distance).Some?
    ensures (forall i :: 0 <= i < |homes| ==> ToNumber(homes[i].distance).Some?) ==>
      var r := Arrange(homes, AllCategory, "distance");
      forall i, j :: 0 <= i < j < |r| ==> ToNumber(r[i].distance).value <= ToNumber(r[j].distance).value
  {
    ArrangePermutes(homes, AllCategory, "distance");
    if forall i :: 0 <= i < |homes| ==> ToNumber(homes[i].distance).Some? {
      ArrangeByDistance(homes, AllCategory);
    }
  }
}
