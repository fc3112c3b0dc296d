/** The results browser of bot_ext.py: serial numbers across pages, the
    select options and their labels, the lookup a selection performs, and the
    text listing each page. Discord objects are not modelled; an option is
    its label and value, a page is its description and options. */
module BotExt {
  import opened Base
  import opened Strings
  import opened PyDict
  import opened Arith
  import BotUtils

  const SerialsPerPage := 10
  const LabelLimit := 90
  const LabelTitleChars := 80

  /** `10*(page-1)+i`: the serial of the `i`-th entry (counting from 1) of
      page `page`. */
  function Serial(page: int, i: int): (sn: int)
    ensures 1 <= i <= SerialsPerPage ==>
      (sn - 1) / SerialsPerPage == page - 1 && (sn - 1) % SerialsPerPage == i - 1
  {
    var sn := SerialsPerPage * (page - 1) + i;
    if 1 <= i <= SerialsPerPage then DivUnique(sn - 1, SerialsPerPage, page - 1, i - 1); sn else sn
  }

  /** `sn_dict`: the page's titles keyed by serial number, in entry order. */
  function SerialDict(page: int, results: Dict<string, int>): (sns: Dict<int, string>)
    ensures |sns| == |results|
    ensures forall i :: 0 <= i < |sns| ==> sns[i].0 == Serial(page, 1) + i
    ensures Values(sns) == Keys(results)
    ensures DistinctKeys(sns)
  {
    seq(|results|, i requires 0 <= i < |results| => (Serial(page, i + 1), results[i].0))
  }

  /** `f"{sn}. "`, the start of every option label and listing line. */
  function SerialPrefix(sn: int): string {
    IntToString(sn) + ". "
  }

  /** An option label: `"{sn}. {title}"` when that is shorter than 90
      characters, otherwise the serial, the first 80 characters of the title
      and six dots. */
  function Label(sn: int, title: string): (caption: string)
    ensures |SerialPrefix(sn)| <= |caption| && caption[..|SerialPrefix(sn)|] == SerialPrefix(sn)
    ensures |SerialPrefix(sn) + title| < LabelLimit ==> caption == SerialPrefix(sn) + title
    ensures |SerialPrefix(sn) + title| >= LabelLimit ==>
      caption == SerialPrefix(sn) + Take(title, LabelTitleChars) + "......"
    ensures |caption| <= Max(LabelLimit - 1, |SerialPrefix(sn)| + LabelTitleChars + 6)
  {
    var full := SerialPrefix(sn) + title;
    if |full| < LabelLimit then full
    else SerialPrefix(sn) + Take(title, LabelTitleChars) + "......"
  }

  /** A caption with its dots removed is the start of the full text: truncation
      only ever cuts the title short. */
  lemma LabelIsTruncation(sn: int, title: string)
    ensures var caption := Label(sn, title);
      var full := SerialPrefix(sn) + title;
      caption == full
      || (|caption| >= 6 && caption[|caption| - 6..] == "......" && caption[..|caption| - 6] == full[..|caption| - 6])
  {
    var full := SerialPrefix(sn) + title;
    if |full| >= LabelLimit {
      var p := SerialPrefix(sn);
      var kept := Take(title, LabelTitleChars);
      var caption := p + kept + "......";
      assert caption[..|caption| - 6] == p + kept;
      assert full[..|p| + |kept|] == p + title[..|kept|];
    }
  }

  datatype SelectOption = SelectOption(caption: string, value: string)

  /** The options of `ResultsSelector`: one per serial, in entry order, valued
      by the serial's decimal spelling. */
  function Options(page: int, results: Dict<string, int>): (opts: seq<SelectOption>)
    ensures |opts| == |results|
    ensures forall i :: 0 <= i < |opts| ==> opts[i].value == IntToString(Serial(page, i + 1))
    ensures forall i :: 0 <= i < |opts| ==> ParseInt(opts[i].value) == Some(Serial(page, i + 1))
    ensures forall i :: 0 <= i < |opts| ==> opts[i].caption == Label(Serial(page, i + 1), results[i].0)
  {
    var sns := SerialDict(page, results);
    var opts := seq(|sns|, i requires 0 <= i < |sns| => SelectOption(Label(sns[i].0, sns[i].1), IntToString(sns[i].0)));
    forall i | 0 <= i < |opts|
      ensures opts[i].value == IntToString(Serial(page, i + 1))
      ensures ParseInt(opts[i].value) == Some(Serial(page, i + 1))
      ensures opts[i].caption == Label(Serial(page, i + 1), results[i].0)
    {
      assert sns[i].0 == Serial(page, i + 1);
      assert sns[i].1 == Values(sns)[i] == results[i].0;
      ParseIntToString(sns[i].0);
    }
    opts
  }

  /** `ResultsSelector.callback`: the selected value is parsed back to a
      serial, the serial to a title, the title to a series id, which is the id
      whose details are then requested. */
  function Callback(page: int, results: Dict<string, int>, value: string): (r: Result<int, Failure>)
    ensures ParseInt(value).None? ==> r == Err(ValueError)
    ensures r.Ok? ==> exists i :: 0 <= i < |results| && results[i].1 == r.value
  {
    match ParseInt(value)
    case None => Err(ValueError)
    case Some(sn) =>
      match Get(SerialDict(page, results), sn)
      case None => Err(KeyError)
      case Some(title) =>
        match Get(results, title)
        case None => Err(KeyError)
        case Some(id) => GetFound(results, title); Ok(id)
  }

  /** Choosing any option of a page resolves to the id of the entry the option
      was made for. */
  lemma {:induction false} SelectionRoundTrip(page: int, results: Dict<string, int>, k: nat)
    requires DistinctKeys(results)
    requires k < |results|
    ensures Callback(page, results, Options(page, results)[k].value) == Ok(results[k].1)
  {
    var sns := SerialDict(page, results);
    ParseIntToString(Serial(page, k + 1));
    assert Options(page, results)[k].value == IntToString(Serial(page, k + 1));
    GetEntry(sns, k);
    assert sns[k].1 == Values(sns)[k] == results[k].0;
    GetEntry(results, k);
  }

  /** A serial outside the page's range is a `KeyError`. */
  lemma CallbackOutsidePage(page: int, results: Dict<string, int>, sn: int)
    requires sn < Serial(page, 1) || sn > Serial(page, |results|)
    ensures Callback(page, results, IntToString(sn)) == Err(KeyError)
  {
    ParseIntToString(sn);
    var sns := SerialDict(page, results);
    assert forall i :: 0 <= i < |sns| ==> sns[i].0 != sn;
  }

  // ---------------------------------------------------------------- listing

  /** `[f"{sn}. {title}" ...]`: one line per entry of the page. */
  function ListingLines(page: int, results: Dict<string, int>): (lines: seq<string>)
    ensures |lines| == |results|
    ensures forall i :: 0 <= i < |lines| ==> lines[i] == SerialPrefix(Serial(page, i + 1)) + results[i].0
  {
    seq(|results|, i requires 0 <= i < |results| => SerialPrefix(Serial(page, i + 1)) + results[i].0)
  }

  function ListingHeader(count: int): string {
    "***Found " + IntToString(count) + " results***\n\n"
  }

  /** The description of one results page: the count header, then the lines
      joined by newlines. */
  function ListingText(count: int, page: int, results: Dict<string, int>): (text: string)
    ensures |ListingHeader(count)| <= |text| && text[..|ListingHeader(count)|] == ListingHeader(count)
  {
    var text := ListingHeader(count) + Join(ListingLines(page, results), '\n');
    assert text[..|ListingHeader(count)|] == ListingHeader(count);
    text
  }

  /** Splitting the listing body at newlines gives back one line per entry
      when no title holds a newline. */
  lemma ListingSplits(count: int, page: int, results: Dict<string, int>)
    requires 1 <= |results|
    requires forall i :: 0 <= i < |results| ==> !Contains(results[i].0, '\n')
    ensures var text := ListingText(count, page, results);
      Split(text[|ListingHeader(count)|..], '\n') == ListingLines(page, results)
  {
    var lines := ListingLines(page, results);
    forall i | 0 <= i < |lines| ensures !Contains(lines[i], '\n') {
      var pre := SerialPrefix(Serial(page, i + 1));
      forall j | 0 <= j < |lines[i]| ensures lines[i][j] != '\n' {
        if j >= |pre| {
          assert lines[i][j] == results[i].0[j - |pre|];
        } else {
          assert lines[i][j] == pre[j];
        }
      }
    }
    SplitJoin(lines, '\n');
    var text := ListingText(count, page, results);
    assert text[|ListingHeader(count)|..] == Join(lines, '\n');
  }

  /** An entry's listing line is its option label whenever the label needed
      no truncation. */
  lemma ListingMatchesOptions(page: int, results: Dict<string, int>, k: nat)
    requires k < |results|
    requires |ListingLines(page, results)[k]| < LabelLimit
    ensures Options(page, results)[k].caption == ListingLines(page, results)[k]
  {
  }

  /** A results page as shown: its description and its select options. */
  datatype ResultsPage = ResultsPage(description: string, options: seq<SelectOption>)

  /** `create_results_page`: one shown page per paginated page, in key order. */
  function CreateResultsPages(count: int, searchResults: Dict<int, Dict<string, int>>): (shown: seq<ResultsPage>)
    ensures |shown| == |searchResults|
    ensures forall i :: 0 <= i < |shown| ==>
      shown[i].description == ListingText(count, searchResults[i].0, searchResults[i].1)
      && shown[i].options == Options(searchResults[i].0, searchResults[i].1)
  {
    seq(|searchResults|, i requires 0 <= i < |searchResults| =>
      ResultsPage(ListingText(count, searchResults[i].0, searchResults[i].1),
                  Options(searchResults[i].0, searchResults[i].1)))
  }

  // ---------------------------------------------------------------- end to end

  /** On a page without repeated names, the serial of entry `j` names that
      entry and selecting it resolves to its id. */
  lemma SerialOnPage(page: int, results: Dict<string, int>, j: nat)
    requires DistinctKeys(results)
    requires j < |results|
    ensures Get(SerialDict(page, results), Serial(page, j + 1)) == Some(results[j].0)
    ensures Callback(page, results, IntToString(Serial(page, j + 1))) == Ok(results[j].1)
  {
    var sns := SerialDict(page, results);
    assert sns[j].1 == Values(sns)[j] == results[j].0;
    GetEntry(sns, j);
    SelectionRoundTrip(page, results, j);
  }

  /** Serial `k` sits at position `(k - 1) % 10` of chunk `(k - 1) / 10`. */
  lemma LocateSerial(flat: seq<BotUtils.Entry>, k: int)
    requires 1 <= k <= |flat|
    ensures var p := (k - 1) / SerialsPerPage + 1;
      var j := (k - 1) % SerialsPerPage;
      var chunk := BotUtils.Chunk(flat, BotUtils.PageSize, p - 1);
      p - 1 < BotUtils.PageCount(|flat|, BotUtils.PageSize)
      && j < |chunk| && chunk[j] == flat[k - 1] && Serial(p, j + 1) == k
  {
    var n := BotUtils.PageSize;
    var p := (k - 1) / n + 1;
    var j := (k - 1) % n;
    assert k - 1 == (p - 1) * n + j;
    BotUtils.EntryPageInRange(|flat|, n, p - 1, j);
    BotUtils.ChunkEntry(flat, n, p - 1, j);
  }

  /** The chunk holding serial `k` is the page numbered `(k - 1) / 10 + 1`,
      with no name listed twice. */
  lemma PageOfSerial(flat: seq<BotUtils.Entry>, k: int)
    requires DistinctKeys(flat)
    requires 1 <= k <= |flat|
    ensures var p := (k - 1) / SerialsPerPage + 1;
      var chunk := BotUtils.Chunk(flat, BotUtils.PageSize, p - 1);
      Get(BotUtils.Paginate(flat, BotUtils.PageSize), p) == Some(chunk) && DistinctKeys(chunk)
  {
    var p := (k - 1) / SerialsPerPage + 1;
    LocateSerial(flat, k);
    BotUtils.DistinctChunk(flat, BotUtils.PageSize, p - 1);
    BotUtils.PageHoldsChunk(flat, BotUtils.PageSize, p - 1);
  }

  /** With pages of ten and no name listed twice, serial `k` is shown on page
      `ceil(k / 10)`, names the `k`-th entry of the merged list, and selecting
      it resolves to that entry's id. */
  lemma SerialNamesFlatEntry(flat: seq<BotUtils.Entry>, k: int)
    requires DistinctKeys(flat)
    requires 1 <= k <= |flat|
    ensures var p := (k - 1) / SerialsPerPage + 1;
      var pages := BotUtils.Paginate(flat, BotUtils.PageSize);
      Get(pages, p).Some?
      && Get(SerialDict(p, Get(pages, p).value), k) == Some(flat[k - 1].0)
      && Callback(p, Get(pages, p).value, IntToString(k)) == Ok(flat[k - 1].1)
  {
    LocateSerial(flat, k);
    PageOfSerial(flat, k);
    SerialOnPage((k - 1) / SerialsPerPage + 1,
      BotUtils.Chunk(flat, BotUtils.PageSize, (k - 1) / SerialsPerPage), (k - 1) % SerialsPerPage);
  }
}
