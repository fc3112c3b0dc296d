/** The search pipeline of bot_utils.py: request parameters, the dispatch on
    the result count, the merge of fetched result pages, pagination into pages
    of ten, and the detail record of a single series. Network calls are
    parameters: `catalog` answers a search request, `details` answers a
    request for one series by id. */
module BotUtils {
  import opened Base
  import opened Strings
  import opened PyDict
  import opened Arith

  const ImagesEndpoint := "https://images.ranobedb.org/"
  const SearchLimit := 100
  const OverflowThreshold := 6000
  const OverflowMessage := "More than 6000 results.\nBe more specific with the search terms."
  const PageSize := 10
  const JaColour := 10216
  const OtherColour := 15204352

  // ---------------------------------------------------------------- requests

  datatype ParamValue = Text(text: string) | Number(number: int)

  /** Query parameters of a search request, in insertion order. */
  type Params = Dict<string, ParamValue>

  /** The parameters `search_series` sends: `q`, `sort`, `limit=100`, and
      `rl=en` only for a licensed-only search. */
  function SearchParams(title: string, sort: string, licensed: bool): (p: Params)
    ensures Get(p, "q") == Some(Text(title))
    ensures Get(p, "sort") == Some(Text(sort))
    ensures Get(p, "limit") == Some(Number(SearchLimit))
    ensures Get(p, "rl").Some? <==> licensed
    ensures licensed ==> Get(p, "rl") == Some(Text("en"))
    ensures Get(p, "page").None?
    ensures |p| == if licensed then 4 else 3
  {
    var common := [("q", Text(title)), ("sort", Text(sort)), ("limit", Number(SearchLimit))];
    var p := if licensed then common + [("rl", Text("en"))] else common;
    assert DistinctKeys(p);
    GetEntry(p, 0);
    GetEntry(p, 1);
    GetEntry(p, 2);
    if licensed then GetEntry(p, 3); p else p
  }

  /** The parameters of the request for result page `page`: the search
      parameters plus the page number. */
  function PageParams(params: Params, page: int): (p: Params)
    ensures Get(p, "page") == Some(Number(page))
    ensures forall k :: k != "page" ==> Get(p, k) == Get(params, k)
  {
    Put(params, "page", Number(page))
  }

  // ---------------------------------------------------------------- responses

  /** One entry of the `series` list of a search response. */
  datatype SearchItem = SearchItem(id: int, title: string, romajiOrig: string, lang: string)

  /** A search response: the total match count, the number of result pages,
      and the entries of the requested page. */
  datatype SearchResponse = SearchResponse(count: int, totalPages: int, series: seq<SearchItem>)

  /** A search result as listed to the user: display name and series id. */
  type Entry = (string, int)

  /** The display name is the English title for an English-language entry
      and the original romanised title otherwise; the id is the entry's id. */
  function DisplayEntry(item: SearchItem): (e: Entry)
    ensures e.1 == item.id
    ensures item.lang == "en" ==> e.0 == item.title
    ensures item.lang != "en" ==> e.0 == item.romajiOrig
  {
    if item.lang == "en" then (item.title, item.id) else (item.romajiOrig, item.id)
  }

  function PageEntries(page: SearchResponse): (es: seq<Entry>)
    ensures |es| == |page.series|
    ensures forall j :: 0 <= j < |es| ==> es[j] == DisplayEntry(page.series[j])
  {
    seq(|page.series|, j requires 0 <= j < |page.series| => DisplayEntry(page.series[j]))
  }

  /** Number of entries over a list of pages. */
  function TotalItems(pages: seq<SearchResponse>): nat {
    if |pages| == 0 then 0
    else TotalItems(pages[..|pages| - 1]) + |pages[|pages| - 1].series|
  }

  /** The flat result list: every page's entries, pages in list order. */
  function Merge(pages: seq<SearchResponse>): (flat: seq<Entry>)
    ensures |flat| == TotalItems(pages)
  {
    if |pages| == 0 then []
    else Merge(pages[..|pages| - 1]) + PageEntries(pages[|pages| - 1])
  }

  lemma {:induction false} MergeAppend(a: seq<SearchResponse>, b: seq<SearchResponse>)
    ensures Merge(a + b) == Merge(a) + Merge(b)
    ensures TotalItems(a + b) == TotalItems(a) + TotalItems(b)
    decreases |b|
  {
    if |b| == 0 {
      assert a + b == a;
    } else {
      var b', last := b[..|b| - 1], PageEntries(b[|b| - 1]);
      var ab := a + b;
      assert ab[..|ab| - 1] == a + b';
      assert ab[|ab| - 1] == b[|b| - 1];
      MergeAppend(a, b');
      var ma, mb' := Merge(a), Merge(b');
      assert Merge(ab) == (ma + mb') + last;
      assert Merge(b) == mb' + last;
      assert (ma + mb') + last == ma + (mb' + last);
    }
  }

  /** Entry `j` of page `p` sits in the flat list right after the entries of
      all earlier pages. */
  lemma MergeIndex(pages: seq<SearchResponse>, p: nat, j: nat)
    requires p < |pages| && j < |pages[p].series|
    ensures TotalItems(pages[..p]) + j < |Merge(pages)|
    ensures Merge(pages)[TotalItems(pages[..p]) + j] == DisplayEntry(pages[p].series[j])
  {
    var front := pages[..p + 1];
    assert front[..p] == pages[..p];
    assert front + pages[p + 1..] == pages;
    MergeAppend(front, pages[p + 1..]);
    assert Merge(front) == Merge(pages[..p]) + PageEntries(pages[p]);
  }

  /** The pages `fetch_all_results_async` gathers: page `i + 1` at index `i`,
      for every page number in `1..totalPages`, whatever order the requests
      complete in. */
  function FetchPages(catalog: Params -> SearchResponse, params: Params, totalPages: int): (pages: seq<SearchResponse>)
    ensures |pages| == Max(0, totalPages)
    ensures forall i :: 0 <= i < |pages| ==> pages[i] == catalog(PageParams(params, i + 1))
  {
    seq(Max(0, totalPages), i => catalog(PageParams(params, i + 1)))
  }

  /** `fetch_all_results_async`: the merged list of pages `1..total_pages`;
      entry `j` of page `p` follows every entry of the earlier pages. */
  function FetchAllResults(catalog: Params -> SearchResponse, params: Params, totalPages: int): (flat: seq<Entry>)
    ensures var pages := FetchPages(catalog, params, totalPages);
      |flat| == TotalItems(pages) && MergedInOrder(pages, flat)
  {
    var pages := FetchPages(catalog, params, totalPages);
    MergeInOrder(pages);
    Merge(pages)
  }

  /** Entry `j` of page `p` sits in `flat` right after every entry of the
      pages before `p`, as that entry's display pair. */
  ghost predicate EntryInPlace(pages: seq<SearchResponse>, flat: seq<Entry>, p: nat, j: nat)
    requires p < |pages| && j < |pages[p].series|
  {
    TotalItems(pages[..p]) + j < |flat| && flat[TotalItems(pages[..p]) + j] == DisplayEntry(pages[p].series[j])
  }

  ghost predicate MergedInOrder(pages: seq<SearchResponse>, flat: seq<Entry>) {
    forall p: nat, j: nat :: p < |pages| && j < |pages[p].series| ==> EntryInPlace(pages, flat, p, j)
  }

  lemma MergeInOrder(pages: seq<SearchResponse>)
    ensures MergedInOrder(pages, Merge(pages))
  {
    forall p: nat, j: nat | p < |pages| && j < |pages[p].series|
      ensures EntryInPlace(pages, Merge(pages), p, j)
    {
      MergeIndex(pages, p, j);
    }
  }

  // ---------------------------------------------------------------- pagination

  /** `math.ceil(len / n)`. */
  function PageCount(len: nat, n: nat): (c: nat)
    requires n > 0
    ensures len <= c * n
    ensures c > 0 ==> (c - 1) * n < len
    ensures c == 0 <==> len == 0
  {
    var c := (len + n - 1) / n;
    assert c * n + (len + n - 1) % n == len + n - 1;
    c
  }

  /** Python's `s[lo:hi]` for non-negative bounds: both ends are clamped. */
  function Slice<T>(s: seq<T>, lo: nat, hi: nat): (r: seq<T>)
    ensures lo <= hi <= |s| ==> r == s[lo..hi]
    ensures hi <= lo ==> r == []
    ensures lo <= |s| <= hi ==> r == s[lo..]
    ensures |s| <= lo ==> r == []
  {
    var h := Min(hi, |s|);
    var l := Min(lo, h);
    s[l..h]
  }

  /** The slice `flat[i*n : (i+1)*n]` that becomes page `i + 1`. */
  function Chunk<T>(flat: seq<T>, n: nat, i: nat): seq<T> {
    Slice(flat, i * n, i * n + n)
  }

  function Flatten<T>(xss: seq<seq<T>>): seq<T> {
    if |xss| == 0 then [] else xss[0] + Flatten(xss[1..])
  }

  /** Chunking as a recursive cut of the front `n` items, the reference that
      the slice-by-index formulation is checked against. */
  function Chunks<T>(flat: seq<T>, n: nat): seq<seq<T>>
    requires n > 0
    decreases |flat|
  {
    if |flat| == 0 then []
    else
      var k := Min(n, |flat|);
      [flat[..k]] + Chunks(flat[k..], n)
  }

  /** Cutting the front repeatedly loses and reorders nothing. */
  lemma {:induction false} ChunksFlatten<T>(flat: seq<T>, n: nat)
    requires n > 0
    ensures Flatten(Chunks(flat, n)) == flat
    decreases |flat|
  {
    if |flat| > 0 {
      var k := Min(n, |flat|);
      ChunksFlatten(flat[k..], n);
      assert flat[..k] + flat[k..] == flat;
    }
  }

  /** The recursive chunking yields `ceil(|flat| / n)` chunks. */
  lemma {:induction false} ChunksLength<T>(flat: seq<T>, n: nat)
    requires n > 0
    ensures |Chunks(flat, n)| == PageCount(|flat|, n)
    decreases |flat|
  {
    if |flat| > n {
      ChunksLength(flat[n..], n);
      PageCountStep(|flat| - n, n);
    } else if |flat| > 0 {
      assert flat[|flat|..] == [];
      PageCountOne(|flat|, n);
    }
  }

  lemma PageCountOne(len: nat, n: nat)
    requires 0 < len <= n
    ensures PageCount(len, n) == 1
  {
    var c := PageCount(len, n);
    if c >= 2 {
      MulAtLeast(c - 1, n);
    }
  }

  /** Chunk `i` of the recursive chunking is the slice `flat[i*n : (i+1)*n]`. */
  lemma {:induction false} ChunksAt<T>(flat: seq<T>, n: nat, i: nat)
    requires n > 0 && i < |Chunks(flat, n)|
    ensures Chunks(flat, n)[i] == Chunk(flat, n, i)
    decreases i
  {
    if i > 0 {
      if |flat| <= n {
        assert false;
      }
      ChunksAt(flat[n..], n, i - 1);
      ChunkShift(flat, n, i);
    }
  }

  lemma PageCountStep(len: nat, n: nat)
    requires n > 0
    ensures PageCount(len + n, n) == PageCount(len, n) + 1
  {
    DivPlusOne(len + n - 1, n);
  }

  /** Chunk `i` of `flat` is chunk `i - 1` of `flat` without its first `n`. */
  lemma ChunkShift<T>(flat: seq<T>, n: nat, i: nat)
    requires n > 0 && 0 < i && n <= |flat|
    ensures Chunk(flat, n, i) == Chunk(flat[n..], n, i - 1)
  {
    var lo := (i - 1) * n;
    assert i * n == lo + n;
    SliceShift(flat, n, lo, lo + n);
  }

  /** Slicing after dropping the first `n` items is slicing `n` further on. */
  lemma SliceShift<T>(s: seq<T>, n: nat, lo: nat, hi: nat)
    requires n <= |s|
    ensures Slice(s, lo + n, hi + n) == Slice(s[n..], lo, hi)
  {
  }

  /** Every chunk but the last holds exactly `n` items; the last holds
      between 1 and `n`. */
  lemma ChunkSizes<T>(flat: seq<T>, n: nat, i: nat)
    requires n > 0 && i < PageCount(|flat|, n)
    ensures 1 <= |Chunk(flat, n, i)| <= n
    ensures i + 1 < PageCount(|flat|, n) ==> |Chunk(flat, n, i)| == n
  {
    var c := PageCount(|flat|, n);
    MulMonotone(i, c - 1, n);
    if i + 1 < c {
      MulMonotone(i + 1, c - 1, n);
      assert (i + 1) * n == i * n + n;
    }
  }

  /** `paginate_results`: page `i + 1` maps each name of chunk `i` to an id. */
  function Paginate(flat: seq<Entry>, n: nat): (pages: Dict<int, Dict<string, int>>)
    requires n > 0
    ensures |pages| == PageCount(|flat|, n)
    ensures forall i :: 0 <= i < |pages| ==> pages[i].0 == i + 1
    ensures forall i :: 0 <= i < |pages| ==> 1 <= |pages[i].1| <= n
    ensures forall i :: 0 <= i < |pages| ==> DistinctKeys(pages[i].1)
  {
    var c := PageCount(|flat|, n);
    var pages := seq(c, i requires 0 <= i < c => (i + 1, FromPairs(Chunk(flat, n, i))));
    assert forall i :: 0 <= i < c ==> 1 <= |pages[i].1| <= n by {
      forall i | 0 <= i < c ensures 1 <= |pages[i].1| <= n {
        ChunkSizes(flat, n, i);
      }
    }
    pages
  }

  /** Page `p` of the result holds chunk `p - 1`; there is no page outside
      `1..ceil(|flat| / n)`. */
  lemma PaginateGet(flat: seq<Entry>, n: nat, p: int)
    requires n > 0
    ensures 1 <= p <= PageCount(|flat|, n) ==>
      Get(Paginate(flat, n), p) == Some(FromPairs(Chunk(flat, n, p - 1)))
    ensures !(1 <= p <= PageCount(|flat|, n)) ==> Get(Paginate(flat, n), p).None?
  {
    var pages := Paginate(flat, n);
    assert DistinctKeys(pages);
    if 1 <= p <= PageCount(|flat|, n) {
      GetEntry(pages, p - 1);
    }
  }

  /** With no name listed twice, the pages in key order give back the flat
      list exactly. */
  lemma PaginateConcat(flat: seq<Entry>, n: nat)
    requires n > 0
    requires DistinctKeys(flat)
    ensures Flatten(Values(Paginate(flat, n))) == flat
  {
    var pages := Paginate(flat, n);
    ChunksLength(flat, n);
    ChunksFlatten(flat, n);
    forall i | 0 <= i < |pages| ensures Values(pages)[i] == Chunks(flat, n)[i] {
      ChunksAt(flat, n, i);
      ChunkSizes(flat, n, i);
      DistinctChunk(flat, n, i);
      FromPairsDistinct(Chunk(flat, n, i));
    }
    assert Values(pages) == Chunks(flat, n);
  }

  /** In a list without repeated names, page `p + 1` holds chunk `p`
      unchanged. */
  lemma PageHoldsChunk(flat: seq<Entry>, n: nat, p: nat)
    requires n > 0 && p < PageCount(|flat|, n)
    requires DistinctKeys(flat)
    ensures Get(Paginate(flat, n), p + 1) == Some(Chunk(flat, n, p))
  {
    PaginateGet(flat, n, p + 1);
    DistinctChunk(flat, n, p);
    FromPairsDistinct(Chunk(flat, n, p));
  }

  /** Item `j` of chunk `p` is item `p*n + j` of the flat list. */
  lemma ChunkEntry<T>(flat: seq<T>, n: nat, p: nat, j: nat)
    requires j < n && p * n + j < |flat|
    ensures j < |Chunk(flat, n, p)| && Chunk(flat, n, p)[j] == flat[p * n + j]
  {
    assert (p + 1) * n == p * n + n;
  }

  /** The chunk holding item `p*n + j` is a real page. */
  lemma EntryPageInRange(len: nat, n: nat, p: nat, j: nat)
    requires j < n && p * n + j < len
    ensures p < PageCount(len, n)
  {
    MulMonotone(PageCount(len, n), p, n);
  }

  /** A slice of a list without repeated names has no repeated names. */
  lemma DistinctChunk(flat: seq<Entry>, n: nat, i: nat)
    requires n > 0 && i < PageCount(|flat|, n)
    requires DistinctKeys(flat)
    ensures DistinctKeys(Chunk(flat, n, i))
  {
    ChunkSizes(flat, n, i);
    var lo := i * n;
    var ch := Chunk(flat, n, i);
    assert forall j :: 0 <= j < |ch| ==> ch[j] == flat[lo + j];
  }

  // ---------------------------------------------------------------- one series

  /** A key read with `.get`: absent, present with JSON `null`, or present
      with a value. `.get(key, default)` yields the default only when the key
      is absent; a `null` comes back as `None`. */
  datatype Field<T> = Missing | Null | Present(value: T)

  datatype BookDescription = BookDescription(description: Option<string>, descriptionJa: Option<string>)
  /** A book's `image` object; `None` is a JSON `null` image. */
  datatype Book = Book(image: Option<string>)
  datatype Tag = Tag(name: string)

  /** The `series` object of a detail response. Fields read with `.get` are
      optional; `tags` and `book_description` may also be absent or `null`. */
  datatype SeriesRecord = SeriesRecord(
    id: int,
    title: string,
    titleOrig: Option<string>,
    romaji: Option<string>,
    romajiOrig: Option<string>,
    bookDescription: Field<BookDescription>,
    lang: string,
    tags: Field<seq<Tag>>,
    books: seq<Book>)

  /** The `Series` dataclass. */
  datatype Series = Series(
    id: int,
    title: string,
    originalTitle: Option<string>,
    romaji: Option<string>,
    originalRomaji: Option<string>,
    description: Option<string>,
    imageUrl: string,
    lang: string,
    tags: seq<string>)

  function TagNames(tags: seq<Tag>): (names: seq<string>)
    ensures |names| == |tags|
    ensures forall i :: 0 <= i < |tags| ==> names[i] == tags[i].name
  {
    seq(|tags|, i requires 0 <= i < |tags| => tags[i].name)
  }

  /** Why `Series.from_json` fails on a record, if it does, in the order the
      code reads the fields: a `null` tag list cannot be iterated, a `null`
      `book_description` has no `.get`, a series without books has no first
      book, and a `null` image cannot be indexed. */
  function RecordFailure(rec: SeriesRecord): Option<Failure> {
    if rec.tags.Null? then Some(TypeError)
    else if rec.bookDescription.Null? then Some(AttributeError)
    else if |rec.books| == 0 then Some(IndexError)
    else if rec.books[0].image.None? then Some(TypeError)
    else None
  }

  /** `Series.from_json`: fails as `RecordFailure` says, otherwise copies the
      fields, picks the description by language and builds the image URL
      from the first book. */
  function SeriesFromJson(rec: SeriesRecord): (r: Result<Series, Failure>)
    ensures r.Err? <==> rec.tags.Null? || rec.bookDescription.Null? || |rec.books| == 0 || rec.books[0].image.None?
    ensures rec.tags.Null? ==> r == Err(TypeError)
    ensures !rec.tags.Null? && rec.bookDescription.Null? ==> r == Err(AttributeError)
    ensures !rec.tags.Null? && !rec.bookDescription.Null? && |rec.books| == 0 ==> r == Err(IndexError)
    ensures !rec.tags.Null? && !rec.bookDescription.Null? && |rec.books| > 0 && rec.books[0].image.None? ==>
      r == Err(TypeError)
    ensures r.Ok? ==> r.value.id == rec.id && r.value.title == rec.title && r.value.lang == rec.lang
    ensures r.Ok? ==>
      r.value.originalTitle == rec.titleOrig && r.value.romaji == rec.romaji && r.value.originalRomaji == rec.romajiOrig
    ensures r.Ok? ==>
      |rec.books| > 0 && rec.books[0].image.Some? && r.value.imageUrl == ImagesEndpoint + rec.books[0].image.value
    ensures r.Ok? && rec.tags.Missing? ==> r.value.tags == []
    ensures r.Ok? && rec.tags.Present? ==> r.value.tags == TagNames(rec.tags.value)
    ensures r.Ok? && rec.bookDescription.Missing? ==> r.value.description.None?
    ensures r.Ok? && rec.bookDescription.Present? && rec.lang == "ja" ==>
      r.value.description == rec.bookDescription.value.descriptionJa
    ensures r.Ok? && rec.bookDescription.Present? && rec.lang != "ja" ==>
      r.value.description == rec.bookDescription.value.description
  {
    match RecordFailure(rec)
    case Some(e) => Err(e)
    case None =>
      var tags := if rec.tags.Present? then TagNames(rec.tags.value) else [];
      var desc :=
        match rec.bookDescription
        case Present(bd) => if rec.lang == "ja" then bd.descriptionJa else bd.description
        case _ => None;
      Ok(Series(rec.id, rec.title, rec.titleOrig, rec.romaji, rec.romajiOrig, desc,
                ImagesEndpoint + rec.books[0].image.value, rec.lang, tags))
  }

  /** What an f-string shows for an optional field: the text, or `None`. */
  function Show(s: Option<string>): string {
    match s
    case None => "None"
    case Some(t) => t
  }

  /** The tuple `fetch_series_info` returns. */
  datatype SeriesInfo = SeriesInfo(colour: int, title: string, description: string, imageUrl: string, tags: seq<string>)

  /** `fetch_series_info` on an already fetched record: a Japanese-language
      series gets colour 10216 and a `***romaji***` header, any other gets
      colour 15204352 and a `***original title | original romaji***` header;
      a missing description fails, as `str + None` raises. */
  function FetchSeriesInfo(rec: SeriesRecord): (r: Result<SeriesInfo, Failure>)
    ensures r.Ok? <==> SeriesFromJson(rec).Ok? && SeriesFromJson(rec).value.description.Some?
    ensures SeriesFromJson(rec).Err? ==> r == Err(SeriesFromJson(rec).error)
    ensures r.Err? && SeriesFromJson(rec).Ok? ==> r.error == TypeError
    ensures r.Ok? ==> (r.value.colour == JaColour <==> rec.lang == "ja")
    ensures r.Ok? ==> (r.value.colour == OtherColour <==> rec.lang != "ja")
    ensures r.Ok? ==> r.value.title == rec.title && r.value.tags == SeriesFromJson(rec).value.tags
    ensures r.Ok? ==> r.value.imageUrl == ImagesEndpoint + rec.books[0].image.value
    ensures r.Ok? && rec.lang == "ja" ==>
      r.value.description == "***" + Show(rec.romaji) + "***\n\n" + SeriesFromJson(rec).value.description.value + "\n\n"
    ensures r.Ok? && rec.lang != "ja" ==>
      r.value.description == "***" + Show(rec.titleOrig) + " | " + Show(rec.romajiOrig) + "***\n\n"
        + SeriesFromJson(rec).value.description.value + "\n\n"
  {
    match SeriesFromJson(rec)
    case Err(e) => Err(e)
    case Ok(s) =>
      match s.description
      case None => Err(TypeError)
      case Some(d) =>
        if s.lang == "ja" then
          Ok(SeriesInfo(JaColour, s.title, "***" + Show(s.romaji) + "***\n\n" + d + "\n\n", s.imageUrl, s.tags))
        else
          Ok(SeriesInfo(OtherColour, s.title,
                        "***" + Show(s.originalTitle) + " | " + Show(s.originalRomaji) + "***\n\n" + d + "\n\n",
                        s.imageUrl, s.tags))
  }

  // ---------------------------------------------------------------- dispatch

  /** What `search_series` returns: `None`, the detail tuple of the only
      match, the overflow message, or the count with the paginated results. */
  datatype Outcome =
    | NoResults
    | Detail(info: SeriesInfo)
    | TooMany(message: string)
    | Paged(count: int, pages: Dict<int, Dict<string, int>>)

  /** `search_series`: one probe request, then a dispatch on its count. */
  function SearchSeries(title: string, sort: string, licensed: bool,
                        catalog: Params -> SearchResponse, details: int -> SeriesRecord): (r: Result<Outcome, Failure>)
    ensures var probe := catalog(SearchParams(title, sort, licensed));
      && (r == Ok(NoResults) <==> probe.count < 1)
      && (r == Ok(TooMany(OverflowMessage)) <==> probe.count > OverflowThreshold)
      && (r.Ok? && r.value.Paged? <==> 1 < probe.count <= OverflowThreshold)
      && (r.Err? || r.value.Detail? <==> probe.count == 1)
      && (probe.count == 1 && |probe.series| == 0 ==> r == Err(IndexError))
      && (probe.count == 1 && |probe.series| > 0 ==>
            r == match FetchSeriesInfo(details(probe.series[0].id))
                 case Ok(info) => Ok(Detail(info))
                 case Err(e) => Err(e))
      && (r.Ok? && r.value.Paged? ==>
            r.value.count == probe.count
            && r.value.pages == Paginate(FetchAllResults(catalog, SearchParams(title, sort, licensed), probe.totalPages), PageSize))
  {
    var params := SearchParams(title, sort, licensed);
    var probe := catalog(params);
    if probe.count < 1 then Ok(NoResults)
    else if probe.count == 1 then
      if |probe.series| == 0 then Err(IndexError)
      else
        match FetchSeriesInfo(details(probe.series[0].id))
        case Ok(info) => Ok(Detail(info))
        case Err(e) => Err(e)
    else if probe.count > OverflowThreshold then Ok(TooMany(OverflowMessage))
    else Ok(Paged(probe.count, Paginate(FetchAllResults(catalog, params, probe.totalPages), PageSize)))
  }

  /** Outside the paginated range only the probe request is consulted: no
      result page is fetched. */
  lemma SearchSeriesProbeOnly(title: string, sort: string, licensed: bool,
                              c1: Params -> SearchResponse, c2: Params -> SearchResponse,
                              details: int -> SeriesRecord)
    requires c1(SearchParams(title, sort, licensed)) == c2(SearchParams(title, sort, licensed))
    requires var count := c1(SearchParams(title, sort, licensed)).count; count <= 1 || count > OverflowThreshold
    ensures SearchSeries(title, sort, licensed, c1, details) == SearchSeries(title, sort, licensed, c2, details)
  {
  }

  /** In the paginated range the result depends only on the probe and on
      result pages `1..totalPages`, each requested with the search
      parameters plus its page number. */
  lemma SearchSeriesPagesFetched(title: string, sort: string, licensed: bool,
                                 c1: Params -> SearchResponse, c2: Params -> SearchResponse,
                                 d1: int -> SeriesRecord, d2: int -> SeriesRecord)
    requires c1(SearchParams(title, sort, licensed)) == c2(SearchParams(title, sort, licensed))
    requires var count := c1(SearchParams(title, sort, licensed)).count; 1 < count <= OverflowThreshold
    requires forall p :: 1 <= p <= c1(SearchParams(title, sort, licensed)).totalPages ==>
      c1(PageParams(SearchParams(title, sort, licensed), p)) == c2(PageParams(SearchParams(title, sort, licensed), p))
    ensures SearchSeries(title, sort, licensed, c1, d1) == SearchSeries(title, sort, licensed, c2, d2)
  {
    var params := SearchParams(title, sort, licensed);
    var total := c1(params).totalPages;
    assert FetchPages(c1, params, total) == FetchPages(c2, params, total);
  }

  /** Only the single-match outcome asks for a series' details. */
  lemma SearchSeriesDetailOnlyForOne(title: string, sort: string, licensed: bool,
                                     catalog: Params -> SearchResponse,
                                     d1: int -> SeriesRecord, d2: int -> SeriesRecord)
    requires catalog(SearchParams(title, sort, licensed)).count != 1
    ensures SearchSeries(title, sort, licensed, catalog, d1) == SearchSeries(title, sort, licensed, catalog, d2)
  {
  }
}
