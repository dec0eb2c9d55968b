/** `getFuneralHomesFromCSV`: from the decoded text of the listing file to listing records. The
    header row picks the columns by exact label; each data row with a name becomes one record, with
    fallbacks for empty cells. The random fallbacks (shuffled facility and tag picks, rating,
    review count, distance) are an `Enrichment` chosen per data row. */
module CsvLoader {
  import opened Js
  import opened Seqs
  import opened Homes
  import opened CsvParse

  // ---------------------------------------------------------------------------------------------
  // Columns

  /** The columns the loader reads. */
  datatype Column = Name | Address | Phone | Open24h | Description | Image | Facilities | Director
    | ReviewHighlight | PriceSmall | PriceMedium | PriceLarge | Rating | ReviewCount | Tags | PermitNo

  /** The header label of each column. */
  function Label(c: Column): string {
    match c
    case Name => "업체명"
    case Address => "주소"
    case Phone => "전화번호"
    case Open24h => "24시간 운영여부"
    case Description => "한줄소개"
    case Image => "대표이미지URL"
    case Facilities => "보유시설"
    case Director => "장례지도사"
    case ReviewHighlight => "대표후기"
    case PriceSmall => "소형_비용"
    case PriceMedium => "중형_비용"
    case PriceLarge => "대형_비용"
    case Rating => "평점"
    case ReviewCount => "후기수"
    case Tags => "태그"
    case PermitNo => "허가번호"
  }

  /** `xs.indexOf(x)`: the first position holding exactly `x`, or -1 when there is none. */
  function IndexOf(xs: seq<string>, x: string): (r: int)
    ensures -1 <= r < |xs|
    ensures r == -1 <==> x !in xs
    ensures r >= 0 ==> xs[r] == x && forall k :: 0 <= k < r ==> xs[k] != x
  {
    if xs == [] then -1
    else if xs[0] == x then 0
    else
      var i := IndexOf(xs[1..], x);
      if i == -1 then -1 else i + 1
  }

  /** `colMap[c]`: where the column's label sits in the header row. */
  function ColumnIndex(headers: seq<string>, c: Column): int {
    IndexOf(headers, Label(c))
  }

  /** `getCol(idx)`: the cell at `idx`, or `''` for -1, a position past the row's end, or an
      empty cell. */
  function GetCol(cols: seq<string>, idx: int): (r: string)
    ensures r != "" ==> 0 <= idx < |cols| && r == cols[idx]
    ensures r == "" <==> idx < 0 || idx >= |cols| || cols[idx] == ""
  {
    if idx != -1 && 0 <= idx < |cols| && cols[idx] != "" then cols[idx] else ""
  }

  /** The cell of row `cols` in column `c`. */
  function Cell(cols: seq<string>, headers: seq<string>, c: Column): string {
    GetCol(cols, ColumnIndex(headers, c))
  }

  // ---------------------------------------------------------------------------------------------
  // Fallback pools and the random choices

  /** The number of fallback images. */
  const ImageCount := 7

  /** The fallback image pool, by position. */
  function ImageAt(k: nat): string
    requires k < ImageCount
  {
    match k
    case 0 => "https://images.unsplash.com/photo-1596272875729-ed2c21d50c46?auto=format&fit=crop&q=80&w=600"
    case 1 => "https://images.unsplash.com/photo-1497366216548-37526070297c?auto=format&fit=crop&q=80&w=600"
    case 2 => "https://images.unsplash.com/photo-1518241353330-0f7941c2d9b5?auto=format&fit=crop&q=80&w=600"
    case 3 => "https://images.unsplash.com/photo-1535905557558-afc4877a26fc?auto=format&fit=crop&q=80&w=600"
    case 4 => "https://images.unsplash.com/photo-1516455590571-18256e5bb9ff?auto=format&fit=crop&q=80&w=600"
    case 5 => "https://images.unsplash.com/photo-1445116572660-236099ec97a0?auto=format&fit=crop&q=80&w=600"
    case _ => "https://images.unsplash.com/photo-1519052537078-e6302a77da00?auto=format&fit=crop&q=80&w=600"
  }

  const FacilityPool: seq<string> := ["개인추모실", "납골당", "수목장", "픽업서비스", "화장장", "스톤제작", "야외장례", "대기실"]

  const TagPool: seq<string> := ["24시간", "프리미엄", "단독추모", "주차편리", "친절한", "깨끗한", "최신시설", "합리적가격", "정식허가", "따뜻한분위기"]

  const Tag24h := "24시간"

  const DefaultAddress := "주소 미표기"
  const DefaultDescription := "반려동물과의 소중한 이별, 저희가 함께하겠습니다. 따뜻하고 편안한 분위기에서 아이를 배웅할 수 있도록 최선을 다하겠습니다."
  const DefaultDirector := "전문 장례지도사 상주"
  const DefaultReviewHighlight := "정식 허가된 업체라 믿고 맡길 수 있었습니다."
  const DefaultPermitNo := "정식허가업체"
  const DefaultPriceSmall := 200000
  const DefaultPriceMedium := 300000
  const DefaultPriceLarge := 500000

  /** The outcome of the `Math.random()` calls for one row: the facility and tag picks (the first
      elements of a shuffled copy of the pool), the rating in tenths, the review count and the
      distance in tenths. */
  datatype Enrichment = Enrichment(
    facilities: seq<string>,
    tags: seq<string>,
    ratingTenths: nat,
    reviewCount: nat,
    distanceTenths: nat)

  predicate Distinct(xs: seq<string>) {
    forall i, j :: 0 <= i < j < |xs| ==> xs[i] != xs[j]
  }

  /** `xs` could be `shuffled(pool).slice(0, n)` for some `lo <= n <= hi`. */
  predicate PoolPick(xs: seq<string>, pool: seq<string>, lo: nat, hi: nat) {
    lo <= |xs| <= hi && Distinct(xs) && forall i :: 0 <= i < |xs| ==> xs[i] in pool
  }

  /** What the random expressions can produce: 3 or 4 facilities and 2 or 3 tags from their pools,
      `(4.5 + r * 0.5).toFixed(1)` between 4.5 and 5.0, `floor(r * 500) + 10` between 10 and 509,
      and `(r * 50).toFixed(1)` between 0.0 and 50.0. */
  predicate ValidEnrichment(e: Enrichment) {
    PoolPick(e.facilities, FacilityPool, 3, 4)
    && PoolPick(e.tags, TagPool, 2, 3)
    && 45 <= e.ratingTenths <= 50
    && 10 <= e.reviewCount <= 509
    && e.distanceTenths <= 500
  }

  // ---------------------------------------------------------------------------------------------
  // Field rules

  predicate NonEmpty(s: string) {
    s != ""
  }

  /** `parts.map(s => s.trim())`. */
  function TrimEach(parts: seq<string>): (r: seq<string>)
    ensures |r| == |parts|
    ensures forall k :: 0 <= k < |r| ==> r[k] == Trim(parts[k])
  {
    seq(|parts|, k requires 0 <= k < |parts| => Trim(parts[k]))
  }

  /** `raw.split(',').map(s => s.trim()).filter(Boolean)`. */
  function ListField(raw: string): (items: seq<string>)
    ensures forall i :: 0 <= i < |items| ==> items[i] != "" && IsTrimmed(items[i]) && ',' !in items[i]
  {
    var parts := Split(raw, ',');
    var items := Filter(TrimEach(parts), NonEmpty);
    TrimmedPieces(parts, items);
    items
  }

  /** Pieces taken from the trimmed comma-free parts are trimmed and comma-free. */
  lemma TrimmedPieces(parts: seq<string>, items: seq<string>)
    requires forall k :: 0 <= k < |parts| ==> ',' !in parts[k]
    requires forall i :: 0 <= i < |items| ==> items[i] in TrimEach(parts)
    ensures forall i :: 0 <= i < |items| ==> IsTrimmed(items[i]) && ',' !in items[i]
  {
    var trimmed := TrimEach(parts);
    forall i | 0 <= i < |items|
      ensures IsTrimmed(items[i]) && ',' !in items[i]
    {
      var k :| 0 <= k < |trimmed| && trimmed[k] == items[i];
      assert ',' !in parts[k];
      assert items[i] == Trim(parts[k]);
    }
  }

  /** A list written out with commas reads back as the list. */
  lemma ListFieldJoin(items: seq<string>)
    requires items != []
    requires forall i :: 0 <= i < |items| ==> items[i] != "" && IsTrimmed(items[i]) && ',' !in items[i]
    ensures ListField(Join(items, ',')) == items
  {
    SplitJoin(items, ',');
    TrimEachTrimmed(items);
    FilterAll(items, NonEmpty);
  }

  /** Trimming pieces that are already trimmed changes nothing. */
  lemma TrimEachTrimmed(parts: seq<string>)
    requires forall i :: 0 <= i < |parts| ==> IsTrimmed(parts[i])
    ensures TrimEach(parts) == parts
  {
    assert forall i :: 0 <= i < |parts| ==> TrimEach(parts)[i] == parts[i];
  }

  /** The facility or tag list of a row: the cell's list, or the random pick when it is empty. */
  function ListOrPick(cell: string, pick: seq<string>): (r: seq<string>)
    ensures cell == "" ==> r == pick
    ensures r != pick ==> r != [] && r == ListField(cell)
  {
    var listed := if cell != "" then ListField(cell) else [];
    if |listed| == 0 then pick else listed
  }

  /** `open24hRaw === 'Y' || open24hRaw === 'y'`. */
  predicate IsOpen24h(raw: string): (b: bool)
    ensures b ==> |raw| == 1
    ensures raw == "Y" ==> b
  {
    raw == "Y" || raw == "y"
  }

  /** The tags after `if (open24h && !tags.includes('24시간')) tags.unshift('24시간')`. */
  function WithTag24h(tags: seq<string>, open24h: bool): (r: seq<string>)
    ensures open24h ==> Tag24h in r
    ensures forall t :: t in r <==> t in tags || (open24h && t == Tag24h)
    ensures |tags| <= |r| <= |tags| + 1 && r[|r| - |tags|..] == tags
  {
    if open24h && Tag24h !in tags then [Tag24h] + tags else tags
  }

  /** `parseInt(cell) || fallback`: `NaN` and 0 both give the fallback. */
  function PriceOr(cell: string, fallback: int): (r: int)
    ensures fallback != 0 ==> r != 0
    ensures r == fallback || ParseInt(cell) == Some(r)
  {
    var p := ParseInt(cell);
    if p.None? || p.value == 0 then fallback else p.value
  }

  /** `cell || fallback` for a text cell. */
  function OrDefault(cell: string, fallback: string): (r: string)
    ensures r == cell || r == fallback
    ensures r != "" <==> cell != "" || fallback != ""
  {
    if cell != "" then cell else fallback
  }

  // ---------------------------------------------------------------------------------------------
  // One row

  /** The cells of one row that the record is built from, `getCol(colMap.<column>)` each. */
  datatype RowCells = RowCells(
    name: string, address: string, phone: string, open24h: string, description: string,
    image: string, facilities: string, director: string, reviewHighlight: string,
    priceSmall: string, priceMedium: string, priceLarge: string, rating: string,
    reviewCount: string, tags: string, permitNo: string)

  function Cells(cols: seq<string>, headers: seq<string>): RowCells {
    RowCells(
      Cell(cols, headers, Name), Cell(cols, headers, Address), Cell(cols, headers, Phone),
      Cell(cols, headers, Open24h), Cell(cols, headers, Description), Cell(cols, headers, Image),
      Cell(cols, headers, Facilities), Cell(cols, headers, Director), Cell(cols, headers, ReviewHighlight),
      Cell(cols, headers, PriceSmall), Cell(cols, headers, PriceMedium), Cell(cols, headers, PriceLarge),
      Cell(cols, headers, Rating), Cell(cols, headers, ReviewCount), Cell(cols, headers, Tags),
      Cell(cols, headers, PermitNo))
  }

  /** The tags a row computes: its list or the random pick, then `24시간` in front when the row is
      open around the clock and the list lacks it. */
  function RowTags(rc: RowCells, e: Enrichment): seq<string> {
    WithTag24h(ListOrPick(rc.tags, e.tags), IsOpen24h(rc.open24h))
  }

  /** The record built for data row number `index`, with `tags` as given. */
  function Record(rc: RowCells, index: nat, e: Enrichment, tags: Option<seq<string>>): (h: Home)
    ensures h.id == CsvId(index) && h.name == rc.name && h.certified && h.tags == tags
    ensures h.address != "" && h.description != "" && h.director != ""
      && h.reviewHighlight != "" && h.permitNo != ""
    ensures h.price.small != 0 && h.price.medium != 0 && h.price.large != 0
    ensures h.distance == ToFixed1(e.distanceTenths)
  {
    Home(
      id := StrId("csv-" + NatToString(index)),
      name := rc.name,
      address := OrDefault(rc.address, DefaultAddress),
      phone := OrDefault(rc.phone, ""),
      open24h := IsOpen24h(rc.open24h),
      description := OrDefault(rc.description, DefaultDescription),
      image := OrDefault(rc.image, ImageAt(index % ImageCount)),
      facilities := ListOrPick(rc.facilities, e.facilities),
      director := OrDefault(rc.director, DefaultDirector),
      reviewHighlight := OrDefault(rc.reviewHighlight, DefaultReviewHighlight),
      rating := OrDefault(rc.rating, ToFixed1(e.ratingTenths)),
      reviewCount := if rc.reviewCount != "" then CountText(rc.reviewCount) else CountNumber(e.reviewCount),
      price := Price(
        PriceOr(rc.priceSmall, DefaultPriceSmall),
        PriceOr(rc.priceMedium, DefaultPriceMedium),
        PriceOr(rc.priceLarge, DefaultPriceLarge)),
      certified := true,
      permitNo := OrDefault(rc.permitNo, DefaultPermitNo),
      distance := ToFixed1(e.distanceTenths),
      tags := tags)
  }

  /** The row mapper as written: the record literal has no `tags` property, so the computed tags
      are lost. */
  function NormalizeCellsAsWritten(rc: RowCells, index: nat, e: Enrichment): Option<Home> {
    if rc.name == "" then None else Some(Record(rc, index, e, None))
  }

  /** The row mapper with the computed tags kept on the record. */
  function NormalizeCells(rc: RowCells, index: nat, e: Enrichment): Option<Home> {
    if rc.name == "" then None else Some(Record(rc, index, e, Some(RowTags(rc, e))))
  }

  /** The `map` callback as written, on the row's fields and the header row: `null` for a row
      without a name, else the record of that name, `csv-<index>`, without `tags`. */
  function NormalizeRowAsWritten(cols: seq<string>, headers: seq<string>, index: nat, e: Enrichment): (r: Option<Home>)
    ensures r.Some? <==> Cell(cols, headers, Name) != ""
    ensures r.Some? ==> r.value.name == Cell(cols, headers, Name) && r.value.id == CsvId(index) && r.value.tags.None?
  {
    NormalizeCellsAsWritten(Cells(cols, headers), index, e)
  }

  /** The `map` callback with the tags kept: the same records, carrying the row's computed tags. */
  function NormalizeRow(cols: seq<string>, headers: seq<string>, index: nat, e: Enrichment): (r: Option<Home>)
    ensures r.Some? <==> Cell(cols, headers, Name) != ""
    ensures r.Some? ==>
      r.value.name == Cell(cols, headers, Name) && r.value.id == CsvId(index)
      && r.value.tags == Some(RowTags(Cells(cols, headers), e))
  {
    NormalizeCells(Cells(cols, headers), index, e)
  }

  // ---------------------------------------------------------------------------------------------
  // The whole file

  /** Where the text comes from: the decoded file, or a failure to read it. */
  datatype Source = Decoded(text: string) | ReadFailed

  /** The header row, parsed. */
  function Headers(text: string): seq<string> {
    var rows := Rows(text);
    if |rows| == 0 then [] else ParseLine(rows[0])
  }

  /** The rows after the header. */
  function DataRows(text: string): seq<string> {
    var rows := Rows(text);
    if |rows| == 0 then [] else rows[1..]
  }

  /** `rows.slice(1).map(...)`: each data row and its position, mapped to a record or to `null`. */
  function RowResults(text: string, enrich: nat -> Enrichment,
                      normalize: (seq<string>, seq<string>, nat, Enrichment) -> Option<Home>): (cs: seq<Option<Home>>)
    ensures |cs| == |DataRows(text)|
    ensures forall k :: 0 <= k < |cs| ==>
      cs[k] == normalize(ParseLine(DataRows(text)[k]), Headers(text), k, enrich(k))
  {
    var data := DataRows(text);
    var headers := Headers(text);
    seq(|data|, k requires 0 <= k < |data| => normalize(ParseLine(data[k]), headers, k, enrich(k)))
  }

  /** The loader with a given row mapper: no rows give `[]`; otherwise the mapped data rows with
      the `null`s dropped. */
  function LoadWith(text: string, enrich: nat -> Enrichment,
                    normalize: (seq<string>, seq<string>, nat, Enrichment) -> Option<Home>): (hs: seq<Home>)
    ensures Rows(text) == [] ==> hs == []
    ensures |hs| <= |DataRows(text)|
  {
    if |Rows(text)| == 0 then [] else Somes(RowResults(text, enrich, normalize))
  }

  /** The records of the file, with the row mapper that keeps the tags. */
  function Load(text: string, enrich: nat -> Enrichment): (hs: seq<Home>)
    ensures |hs| <= |DataRows(text)|
  {
    LoadWith(text, enrich, NormalizeRow)
  }

  /** The records of the file as the source builds them. */
  function LoadAsWritten(text: string, enrich: nat -> Enrichment): (hs: seq<Home>)
    ensures |hs| <= |DataRows(text)|
  {
    LoadWith(text, enrich, NormalizeRowAsWritten)
  }

  /** `getFuneralHomesFromCSV()`: a file that cannot be read gives `[]`; otherwise the records as
      the source builds them, which are the corrected records without `tags`. */
  function GetFuneralHomesFromCSV(source: Source, enrich: nat -> Enrichment): (homes: seq<Home>)
    ensures source.ReadFailed? ==> homes == []
    ensures source.Decoded? ==> homes == LoadAsWritten(source.text, enrich)
    ensures source.Decoded? ==> |homes| == |Load(source.text, enrich)|
    ensures source.Decoded? ==> forall i :: 0 <= i < |homes| ==>
      homes[i].tags.None? && homes[i] == WithoutTags(Load(source.text, enrich)[i])
  {
    match source
    case ReadFailed => []
    case Decoded(text) =>
      LoadAsWrittenDropsTags(text, enrich);
      LoadAsWrittenHasNoTags(text, enrich);
      LoadAsWritten(text, enrich)
  }

  // ---------------------------------------------------------------------------------------------
  // Properties of one row

  /** The id of the record for data row `k`. */
  function CsvId(k: nat): Id {
    StrId("csv-" + NatToString(k))
  }

  /** Different rows get different ids. */
  lemma CsvIdInjective(a: nat, b: nat)
    ensures CsvId(a) == CsvId(b) ==> a == b
  {
    if CsvId(a) == CsvId(b) {
      assert ("csv-" + NatToString(a))[4..] == NatToString(a);
      assert ("csv-" + NatToString(b))[4..] == NatToString(b);
      NatToStringInjective(a, b);
    }
  }

  /** A row gives a record exactly when its name cell is filled; the record carries that name, the
      id `csv-<k>` for its row position, and is certified. */
  lemma RowRecord(rc: RowCells, k: nat, e: Enrichment)
    ensures NormalizeCells(rc, k, e).None? <==> rc.name == ""
    ensures NormalizeCellsAsWritten(rc, k, e).None? <==> rc.name == ""
    ensures NormalizeCells(rc, k, e).Some? ==>
      var h := NormalizeCells(rc, k, e).value;
      h.name == rc.name && h.name != "" && h.id == CsvId(k) && h.certified
  {
  }

  /** `open24h` is set exactly by a `Y` or `y` cell, and then the tags hold `24시간`: the row's own
      list when it already has it, else `24시간` in front of that list. Without the flag the list is
      left alone. */
  lemma RowOpen24h(rc: RowCells, k: nat, e: Enrichment)
    requires rc.name != ""
    ensures var h := NormalizeCells(rc, k, e).value;
      var base := ListOrPick(rc.tags, e.tags);
      && (h.open24h <==> rc.open24h == "Y" || rc.open24h == "y")
      && h.tags.Some?
      && (h.open24h ==> Tag24h in h.tags.value)
      && (Tag24h in base ==> h.tags.value == base)
      && (h.open24h && Tag24h !in base ==> h.tags.value == [Tag24h] + base && |h.tags.value| == |base| + 1)
      && (!h.open24h ==> h.tags.value == base)
  {
  }

  /** A price cell yields the amount `parseInt` reads from it, unless that is `NaN` or 0, in which
      case the tier's default is used. */
  lemma PriceRule(cell: string, fallback: int)
    ensures ParseInt(cell).None? ==> PriceOr(cell, fallback) == fallback
    ensures ParseInt(cell) == Some(0) ==> PriceOr(cell, fallback) == fallback
    ensures ParseInt(cell).Some? && ParseInt(cell).value != 0 ==> PriceOr(cell, fallback) == ParseInt(cell).value
  {
  }

  /** A cell holding the digits of a positive amount gives that amount; an empty cell gives the
      default. */
  lemma PricePrinted(n: nat, fallback: int)
    ensures n > 0 ==> PriceOr(NatToString(n), fallback) == n
    ensures PriceOr("", fallback) == fallback
  {
    ParseIntNatToString(n);
    ParseIntEmpty();
  }

  /** A price written with a thousands separator is cut at the first comma: the cell `200,000`
      gives 200, not 200000. */
  lemma PriceCutAtComma(ds: string, rest: string, fallback: int)
    requires ds != [] && AllDigits(ds) && ValueOf(ds, 10) != 0
    ensures PriceOr(ds + "," + rest, fallback) == ValueOf(ds, 10)
  {
    var cell := ds + "," + rest;
    assert "" + "" + ds + ("," + rest) == cell;
    ParseIntDecimal("", "", ds, "," + rest);
    assert ParseInt(cell) == Some(ValueOf(ds, 10));
  }

  /** The price tiers, the image, the address, the phone and the permit number of a record: the
      cell when it is filled, the fixed fallback otherwise. */
  lemma RowDefaults(rc: RowCells, k: nat, e: Enrichment)
    requires rc.name != ""
    ensures var h := NormalizeCells(rc, k, e).value;
      && h.price == Price(PriceOr(rc.priceSmall, DefaultPriceSmall), PriceOr(rc.priceMedium, DefaultPriceMedium),
        PriceOr(rc.priceLarge, DefaultPriceLarge))
      && h.image == (if rc.image != "" then rc.image else ImageAt(k % ImageCount))
      && h.address == (if rc.address != "" then rc.address else DefaultAddress)
      && h.phone == rc.phone
      && h.permitNo == (if rc.permitNo != "" then rc.permitNo else DefaultPermitNo)
  {
  }

  lemma JoinNonEmpty(items: seq<string>, sep: char)
    requires items != [] && items[0] != ""
    ensures Join(items, sep) != ""
  {
    assert |Join(items, sep)| >= |items[0]|;
  }

  /** A cell written as a comma-separated list gives that list, whatever the random pick. */
  lemma ListOrPickListed(items: seq<string>, pick: seq<string>)
    requires items != []
    requires forall i :: 0 <= i < |items| ==> items[i] != "" && IsTrimmed(items[i]) && ',' !in items[i]
    ensures ListOrPick(Join(items, ','), pick) == items
  {
    ListFieldJoin(items);
    JoinNonEmpty(items, ',');
  }

  /** A record's facilities are its cell's list, or the random pick when the list is empty. */
  lemma RowFacilities(rc: RowCells, k: nat, e: Enrichment)
    requires rc.name != ""
    ensures NormalizeCells(rc, k, e).value.facilities == ListOrPick(rc.facilities, e.facilities)
  {
  }

  /** With fallbacks in their stated ranges, an empty facilities cell gives 3 or 4 distinct pool
      facilities, an empty rating cell a rating from 4.5 to 5.0, an empty review-count cell a count
      from 10 to 509, and every distance reads as a number from 0 to 50. */
  lemma RowFallbacks(rc: RowCells, k: nat, e: Enrichment)
    requires ValidEnrichment(e)
    requires rc.name != ""
    ensures var h := NormalizeCells(rc, k, e).value;
      && (rc.facilities == "" ==> PoolPick(h.facilities, FacilityPool, 3, 4))
      && (rc.rating == "" ==> ToNumber(h.rating).Some? && 4.5 <= ToNumber(h.rating).value <= 5.0)
      && (rc.reviewCount == "" ==> h.reviewCount.CountNumber? && 10 <= h.reviewCount.n <= 509)
      && ToNumber(h.distance).Some? && 0.0 <= ToNumber(h.distance).value <= 50.0
  {
    ToNumberToFixed1(e.distanceTenths);
    ToNumberToFixed1(e.ratingTenths);
  }


  // ---------------------------------------------------------------------------------------------
  // Properties of the whole file

  /** No rows, or only a header row, give no records. */
  lemma LoadEmpty(text: string, enrich: nat -> Enrichment)
    requires |Rows(text)| <= 1
    ensures Load(text, enrich) == [] && LoadAsWritten(text, enrich) == []
  {
    assert DataRows(text) == [];
  }

  /** Where each record came from: strictly increasing data-row positions, one for every row the
      mapper keeps. */
  lemma LoadOrigin(text: string, enrich: nat -> Enrichment,
                   normalize: (seq<string>, seq<string>, nat, Enrichment) -> Option<Home>) returns (ks: seq<nat>)
    ensures |ks| == |LoadWith(text, enrich, normalize)|
    ensures forall i :: 0 <= i < |ks| ==>
      (ks[i] < |DataRows(text)| && RowResults(text, enrich, normalize)[ks[i]] == Some(LoadWith(text, enrich, normalize)[i]))
    ensures forall i, j :: 0 <= i < j < |ks| ==> ks[i] < ks[j]
    ensures forall k :: 0 <= k < |DataRows(text)| && RowResults(text, enrich, normalize)[k].Some? ==> k in ks
  {
    var cs := RowResults(text, enrich, normalize);
    if |Rows(text)| == 0 {
      assert cs == [];
    }
    ks := SomeIndices(cs);
  }

  /** A property every record of the mapper has, given its row position, holds for every record
      of the file. */
  lemma LoadWithAll(text: string, enrich: nat -> Enrichment,
                    normalize: (seq<string>, seq<string>, nat, Enrichment) -> Option<Home>,
                    P: (Home, nat) -> bool) returns (ks: seq<nat>)
    requires forall cols: seq<string>, headers: seq<string>, k: nat, e: Enrichment ::
      normalize(cols, headers, k, e).Some? ==> P(normalize(cols, headers, k, e).value, k)
    ensures |ks| == |LoadWith(text, enrich, normalize)|
    ensures forall i, j :: 0 <= i < j < |ks| ==> ks[i] < ks[j]
    ensures forall i :: 0 <= i < |ks| ==> P(LoadWith(text, enrich, normalize)[i], ks[i])
  {
    ks := LoadOrigin(text, enrich, normalize);
    var cs := RowResults(text, enrich, normalize);
    forall i | 0 <= i < |ks|
      ensures P(LoadWith(text, enrich, normalize)[i], ks[i])
    {
      var k := ks[i];
      assert cs[k] == normalize(ParseLine(DataRows(text)[k]), Headers(text), k, enrich(k));
    }
  }

  /** A record with a name and the id of row `k`. */
  predicate IsRowRecord(h: Home, k: nat) {
    h.name != "" && h.id == CsvId(k)
  }

  /** Every record has a name and a `csv-` id, and no two records share an id. */
  lemma LoadIds(text: string, enrich: nat -> Enrichment)
    ensures forall i :: 0 <= i < |Load(text, enrich)| ==>
      Load(text, enrich)[i].name != "" && Load(text, enrich)[i].id.StrId? && StartsWith(Load(text, enrich)[i].id.s, "csv-")
    ensures forall i, j :: 0 <= i < j < |Load(text, enrich)| ==> Load(text, enrich)[i].id != Load(text, enrich)[j].id
  {
    forall cols: seq<string>, headers: seq<string>, k: nat, e: Enrichment | NormalizeRow(cols, headers, k, e).Some?
      ensures IsRowRecord(NormalizeRow(cols, headers, k, e).value, k)
    {
      RowRecord(Cells(cols, headers), k, e);
    }
    var hs := Load(text, enrich);
    var ks := LoadWithAll(text, enrich, NormalizeRow, IsRowRecord);
    forall i | 0 <= i < |hs|
      ensures hs[i].id.StrId? && StartsWith(hs[i].id.s, "csv-")
    {
      assert hs[i].id.s == "csv-" + NatToString(ks[i]);
    }
    forall i, j | 0 <= i < j < |hs|
      ensures hs[i].id != hs[j].id
    {
      CsvIdInjective(ks[i], ks[j]);
    }
  }

  /** The same for the records as the source builds them. */
  lemma LoadAsWrittenIds(text: string, enrich: nat -> Enrichment)
    ensures forall i :: 0 <= i < |LoadAsWritten(text, enrich)| ==>
      LoadAsWritten(text, enrich)[i].name != "" && LoadAsWritten(text, enrich)[i].id.StrId?
      && StartsWith(LoadAsWritten(text, enrich)[i].id.s, "csv-")
    ensures forall i, j :: 0 <= i < j < |LoadAsWritten(text, enrich)| ==>
      LoadAsWritten(text, enrich)[i].id != LoadAsWritten(text, enrich)[j].id
  {
    LoadIds(text, enrich);
    LoadAsWrittenDropsTags(text, enrich);
    FieldsButTags(Load(text, enrich), LoadAsWritten(text, enrich));
    IdsCarryOver(Load(text, enrich), LoadAsWritten(text, enrich));
  }

  /** Ids and names pass from one list of records to another that agrees with it on both. */
  lemma IdsCarryOver(hs: seq<Home>, ws: seq<Home>)
    requires |ws| == |hs|
    requires forall i :: 0 <= i < |hs| ==> ws[i].id == hs[i].id && ws[i].name == hs[i].name
    requires forall i :: 0 <= i < |hs| ==> hs[i].name != "" && hs[i].id.StrId? && StartsWith(hs[i].id.s, "csv-")
    requires forall i, j :: 0 <= i < j < |hs| ==> hs[i].id != hs[j].id
    ensures forall i :: 0 <= i < |ws| ==> ws[i].name != "" && ws[i].id.StrId? && StartsWith(ws[i].id.s, "csv-")
    ensures forall i, j :: 0 <= i < j < |ws| ==> ws[i].id != ws[j].id
  {
  }

  /** Every data row with a name gives a record, and the records are in row order: record `i`
      comes from data row `ks[i]`. */
  lemma LoadKeepsNamedRows(text: string, enrich: nat -> Enrichment) returns (ks: seq<nat>)
    ensures |ks| == |Load(text, enrich)|
    ensures forall i, j :: 0 <= i < j < |ks| ==> ks[i] < ks[j]
    ensures forall i :: 0 <= i < |ks| ==> ks[i] < |DataRows(text)| && Load(text, enrich)[i].id == CsvId(ks[i])
    ensures forall i :: 0 <= i < |ks| ==>
      Load(text, enrich)[i].name == Cell(ParseLine(DataRows(text)[ks[i]]), Headers(text), Name)
    ensures forall k :: 0 <= k < |DataRows(text)| && Cell(ParseLine(DataRows(text)[k]), Headers(text), Name) != "" ==> k in ks
  {
    ks := LoadOrigin(text, enrich, NormalizeRow);
    var cs := RowResults(text, enrich, NormalizeRow);
    var data, headers := DataRows(text), Headers(text);
    forall i | 0 <= i < |ks|
      ensures Load(text, enrich)[i].id == CsvId(ks[i])
      ensures Load(text, enrich)[i].name == Cell(ParseLine(data[ks[i]]), headers, Name)
    {
      var k := ks[i];
      assert cs[k] == NormalizeRow(ParseLine(data[k]), headers, k, enrich(k));
    }
    forall k | 0 <= k < |data| && Cell(ParseLine(data[k]), headers, Name) != ""
      ensures k in ks
    {
      assert cs[k] == NormalizeRow(ParseLine(data[k]), headers, k, enrich(k));
      RowRecord(Cells(ParseLine(data[k]), headers), k, enrich(k));
    }
  }

  /** The same for the records as the source builds them. */
  lemma LoadAsWrittenKeepsNamedRows(text: string, enrich: nat -> Enrichment) returns (ks: seq<nat>)
    ensures |ks| == |LoadAsWritten(text, enrich)|
    ensures forall i, j :: 0 <= i < j < |ks| ==> ks[i] < ks[j]
    ensures forall i :: 0 <= i < |ks| ==> ks[i] < |DataRows(text)| && LoadAsWritten(text, enrich)[i].id == CsvId(ks[i])
    ensures forall i :: 0 <= i < |ks| ==>
      LoadAsWritten(text, enrich)[i].name == Cell(ParseLine(DataRows(text)[ks[i]]), Headers(text), Name)
    ensures forall k :: 0 <= k < |DataRows(text)| && Cell(ParseLine(DataRows(text)[k]), Headers(text), Name) != "" ==> k in ks
  {
    ks := LoadKeepsNamedRows(text, enrich);
    LoadAsWrittenDropsTags(text, enrich);
    FieldsButTags(Load(text, enrich), LoadAsWritten(text, enrich));
  }

  predicate HasNumericDistance(h: Home, k: nat) {
    ToNumber(h.distance).Some?
  }

  /** Every record's distance reads as a number, so sorting by distance compares numbers. */
  lemma LoadDistancesNumeric(text: string, enrich: nat -> Enrichment)
    ensures forall i :: 0 <= i < |Load(text, enrich)| ==> ToNumber(Load(text, enrich)[i].distance).Some?
  {
    forall cols: seq<string>, headers: seq<string>, k: nat, e: Enrichment | NormalizeRow(cols, headers, k, e).Some?
      ensures HasNumericDistance(NormalizeRow(cols, headers, k, e).value, k)
    {
      ToNumberToFixed1(e.distanceTenths);
    }
    var ks := LoadWithAll(text, enrich, NormalizeRow, HasNumericDistance);
  }

  /** The same for the records as the source builds them. */
  lemma LoadAsWrittenDistancesNumeric(text: string, enrich: nat -> Enrichment)
    ensures forall i :: 0 <= i < |LoadAsWritten(text, enrich)| ==> ToNumber(LoadAsWritten(text, enrich)[i].distance).Some?
  {
    LoadDistancesNumeric(text, enrich);
    LoadAsWrittenDropsTags(text, enrich);
    FieldsButTags(Load(text, enrich), LoadAsWritten(text, enrich));
  }

  predicate HasTag24hWhenOpen(h: Home, k: nat) {
    h.open24h ==> h.tags.Some? && Tag24h in h.tags.value
  }

  /** Every record open around the clock carries the `24시간` tag. */
  lemma LoadTag24h(text: string, enrich: nat -> Enrichment)
    ensures forall i :: 0 <= i < |Load(text, enrich)| ==>
      (Load(text, enrich)[i].open24h ==> Load(text, enrich)[i].tags.Some? && Tag24h in Load(text, enrich)[i].tags.value)
  {
    forall cols: seq<string>, headers: seq<string>, k: nat, e: Enrichment | NormalizeRow(cols, headers, k, e).Some?
      ensures HasTag24hWhenOpen(NormalizeRow(cols, headers, k, e).value, k)
    {
      RowOpen24h(Cells(cols, headers), k, e);
    }
    var ks := LoadWithAll(text, enrich, NormalizeRow, HasTag24hWhenOpen);
  }

  predicate HasNoTags(h: Home, k: nat) {
    h.tags.None?
  }

  /** As written, no record has a `tags` property. */
  lemma LoadAsWrittenHasNoTags(text: string, enrich: nat -> Enrichment)
    ensures forall i :: 0 <= i < |LoadAsWritten(text, enrich)| ==> LoadAsWritten(text, enrich)[i].tags.None?
  {
    forall cols: seq<string>, headers: seq<string>, k: nat, e: Enrichment | NormalizeRowAsWritten(cols, headers, k, e).Some?
      ensures HasNoTags(NormalizeRowAsWritten(cols, headers, k, e).value, k)
    {
    }
    var ks := LoadWithAll(text, enrich, NormalizeRowAsWritten, HasNoTags);
  }

  /** The two mappers build the same records but for `tags`. */
  lemma AsWrittenDiffersInTagsOnly(rc: RowCells, k: nat, e: Enrichment)
    ensures NormalizeCells(rc, k, e).Some? ==>
      NormalizeCellsAsWritten(rc, k, e) == Some(NormalizeCells(rc, k, e).value.(tags := None))
  {
  }

  /** A record without its `tags` property. */
  function WithoutTags(h: Home): Home {
    h.(tags := None)
  }

  /** The records as written are the corrected records without `tags`, one for one. */
  lemma LoadAsWrittenDropsTags(text: string, enrich: nat -> Enrichment)
    ensures |LoadAsWritten(text, enrich)| == |Load(text, enrich)|
    ensures forall i :: 0 <= i < |Load(text, enrich)| ==>
      LoadAsWritten(text, enrich)[i] == WithoutTags(Load(text, enrich)[i])
  {
    if |Rows(text)| > 0 {
      var xs, ys := RowResults(text, enrich, NormalizeRow), RowResults(text, enrich, NormalizeRowAsWritten);
      RowResultsTagsOnly(text, enrich);
      SomesAgree(xs, ys, WithoutTags);
      LoadAsWrittenHasNoTags(text, enrich);
      assert LoadAsWritten(text, enrich) == Somes(ys);
      assert Load(text, enrich) == Somes(xs);
      SameButTags(Somes(xs), Somes(ys));
    }
  }

  /** Records equal but for `tags` share every other field. */
  lemma FieldsButTags(hs: seq<Home>, ws: seq<Home>)
    requires |ws| == |hs|
    requires forall i :: 0 <= i < |hs| ==> ws[i] == WithoutTags(hs[i])
    ensures forall i :: 0 <= i < |hs| ==>
      ws[i].id == hs[i].id && ws[i].name == hs[i].name && ws[i].distance == hs[i].distance
      && FixedFields(ws[i]) == FixedFields(hs[i])
  {
  }

  lemma SameButTags(hs: seq<Home>, ws: seq<Home>)
    requires |hs| == |ws|
    requires forall i :: 0 <= i < |hs| ==> WithoutTags(hs[i]) == WithoutTags(ws[i])
    requires forall i :: 0 <= i < |ws| ==> ws[i].tags.None?
    ensures forall i :: 0 <= i < |hs| ==> ws[i] == WithoutTags(hs[i])
  {
  }

  /** Row by row, the two mappers keep the same rows and agree but for `tags`. */
  lemma RowResultsTagsOnly(text: string, enrich: nat -> Enrichment)
    ensures var xs, ys := RowResults(text, enrich, NormalizeRow), RowResults(text, enrich, NormalizeRowAsWritten);
      && |xs| == |ys|
      && (forall k :: 0 <= k < |xs| ==> xs[k].Some? == ys[k].Some?)
      && (forall k :: 0 <= k < |xs| && xs[k].Some? ==> WithoutTags(xs[k].value) == WithoutTags(ys[k].value))
  {
    var xs, ys := RowResults(text, enrich, NormalizeRow), RowResults(text, enrich, NormalizeRowAsWritten);
    var data, headers := DataRows(text), Headers(text);
    forall k | 0 <= k < |xs|
      ensures xs[k].Some? == ys[k].Some?
      ensures xs[k].Some? ==> WithoutTags(xs[k].value) == WithoutTags(ys[k].value)
    {
      assert xs[k] == NormalizeRow(ParseLine(data[k]), headers, k, enrich(k));
      assert ys[k] == NormalizeRowAsWritten(ParseLine(data[k]), headers, k, enrich(k));
      RowTagsOnly(ParseLine(data[k]), headers, k, enrich(k));
    }
  }

  /** One row, mapped by the source's code and by the corrected one. */
  lemma RowTagsOnly(cols: seq<string>, headers: seq<string>, k: nat, e: Enrichment)
    ensures NormalizeRow(cols, headers, k, e).Some? == NormalizeRowAsWritten(cols, headers, k, e).Some?
    ensures NormalizeRow(cols, headers, k, e).Some? ==>
      WithoutTags(NormalizeRow(cols, headers, k, e).value) == WithoutTags(NormalizeRowAsWritten(cols, headers, k, e).value)
  {
    AsWrittenDiffersInTagsOnly(Cells(cols, headers), k, e);
  }

  // ---------------------------------------------------------------------------------------------
  // What does not depend on the random fallbacks

  /** A record with the fields that may come from the random fallbacks blanked out. */
  function FixedFields(h: Home): Home {
    h.(facilities := [], rating := "", reviewCount := CountNumber(0), distance := "", tags := None)
  }

  /** Whatever the fallbacks, a row gives a record or not alike, and the same fixed fields. */
  lemma RowFixedFields(rc: RowCells, k: nat, e1: Enrichment, e2: Enrichment)
    ensures NormalizeCells(rc, k, e1).Some? == NormalizeCells(rc, k, e2).Some?
    ensures NormalizeCells(rc, k, e1).Some? ==>
      FixedFields(NormalizeCells(rc, k, e1).value) == FixedFields(NormalizeCells(rc, k, e2).value)
  {
  }

  /** Loading a file twice gives as many records, with the same ids, names, addresses, phones
      and every other field the fallbacks do not touch, in the same order. */
  lemma LoadFixedFields(text: string, enrich1: nat -> Enrichment, enrich2: nat -> Enrichment)
    ensures |Load(text, enrich1)| == |Load(text, enrich2)|
    ensures forall i :: 0 <= i < |Load(text, enrich1)| ==>
      FixedFields(Load(text, enrich1)[i]) == FixedFields(Load(text, enrich2)[i])
  {
    if |Rows(text)| > 0 {
      var xs, ys := RowResults(text, enrich1, NormalizeRow), RowResults(text, enrich2, NormalizeRow);
      forall k | 0 <= k < |xs|
        ensures xs[k].Some? == ys[k].Some?
        ensures xs[k].Some? ==> FixedFields(xs[k].value) == FixedFields(ys[k].value)
      {
        RowFixedFields(Cells(ParseLine(DataRows(text)[k]), Headers(text)), k, enrich1(k), enrich2(k));
      }
      SomesAgree(xs, ys, FixedFields);
    }
  }

  /** The same for the records as the source builds them. */
  lemma LoadAsWrittenFixedFields(text: string, enrich1: nat -> Enrichment, enrich2: nat -> Enrichment)
    ensures |LoadAsWritten(text, enrich1)| == |LoadAsWritten(text, enrich2)|
    ensures forall i :: 0 <= i < |LoadAsWritten(text, enrich1)| ==>
      FixedFields(LoadAsWritten(text, enrich1)[i]) == FixedFields(LoadAsWritten(text, enrich2)[i])
  {
    LoadFixedFields(text, enrich1, enrich2);
    LoadAsWrittenDropsTags(text, enrich1);
    LoadAsWrittenDropsTags(text, enrich2);
    FieldsButTags(Load(text, enrich1), LoadAsWritten(text, enrich1));
    FieldsButTags(Load(text, enrich2), LoadAsWritten(text, enrich2));
  }
}
