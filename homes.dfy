/** The funeral-home listing record that the CSV loader produces and the list views filter and
    sort. */
module Homes {
  import opened Js

  /** Cremation cost by pet size, in won. */
  datatype Price = Price(small: int, medium: int, large: int)

  /** `reviewCount`: the CSV cell's text when the cell is filled, a generated number otherwise. */
  datatype Count = CountText(text: string) | CountNumber(n: int)

  /** One listing. `rating` and `distance` are strings (a CSV cell or a `toFixed(1)` result);
      `tags` is `None` when the record has no `tags` property at all. */
  datatype Home = Home(
    id: Id,
    name: string,
    address: string,
    phone: string,
    open24h: bool,
    description: string,
    image: string,
    facilities: seq<string>,
    director: string,
    reviewHighlight: string,
    rating: string,
    reviewCount: Count,
    price: Price,
    certified: bool,
    permitNo: string,
    distance: string,
    tags: Option<seq<string>>)
}
