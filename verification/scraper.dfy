/** DLsite metadata: the field rules of `parse_dlsite_html` over a page
    whose selector matches are given in document order, and the URL
    fallback of `fetch_dlsite_metadata` over the responses the network
    gives. */
module Scraper {
  import opened Common
  import opened Text

  datatype ScrapedMetadata = ScrapedMetadata(title: string, circle: Option<string>, voiceActors: seq<string>, tags: seq<string>)

  /** A row of `table#work_outline`: the texts of its `th` cells and, for
      each `td` cell, the texts of the links inside it. */
  datatype Row = Row(headers: seq<string>, cells: seq<seq<string>>)

  /** What the selectors find in a page, untrimmed, in document order:
      `#work_name`, `#work_maker .maker_name`, the outline rows and
      `.main_genre a`. */
  datatype Document = Document(titles: seq<string>, makers: seq<string>, rows: seq<Row>, mainGenreLinks: seq<string>)

  const VoiceHeader := "声優"
  const GenreHeader := "ジャンル"
  const NoTitleText := "Could not find title"

  /** Each text trimmed, in order. */
  function TrimAll(texts: seq<string>): (r: seq<string>)
    ensures |r| == |texts| && forall k :: 0 <= k < |r| ==> r[k] == Trim(texts[k])
    ensures forall k :: 0 <= k < |r| ==> Trim(r[k]) == r[k]
  {
    assert forall k :: 0 <= k < |texts| ==> Trim(Trim(texts[k])) == Trim(texts[k]) by {
      forall k | 0 <= k < |texts| {
        TrimIdempotent(texts[k]);
      }
    }
    seq(|texts|, k requires 0 <= k < |texts| => Trim(texts[k]))
  }

  /** The trimmed text of the row's first `th`, or "" when it has none. */
  function HeaderText(row: Row): string {
    if row.headers == [] then "" else Trim(row.headers[0])
  }

  /** The trimmed link texts of the row's first `td`, or none when it has none. */
  function FirstCellLinks(row: Row): seq<string> {
    if row.cells == [] then [] else TrimAll(row.cells[0])
  }

  predicate IsVoiceRow(row: Row) {
    Contains(HeaderText(row), VoiceHeader)
  }

  /** The genre test is only reached when the voice test fails. */
  predicate IsGenreRow(row: Row) {
    !IsVoiceRow(row) && Contains(HeaderText(row), GenreHeader)
  }

  /** What `f` gives for each item that satisfies `p`, item after item. */
  function Gather<R, X>(items: seq<R>, p: R -> bool, f: R -> seq<X>): seq<X> {
    if items == [] then []
    else
      var last := items[|items| - 1];
      Gather(items[..|items| - 1], p, f) + (if p(last) then f(last) else [])
  }

  function VoiceActorsIn(rows: seq<Row>): seq<string> {
    Gather(rows, IsVoiceRow, FirstCellLinks)
  }

  function GenresIn(rows: seq<Row>): seq<string> {
    Gather(rows, IsGenreRow, FirstCellLinks)
  }

  /** `parse_dlsite_html`: no title element is an error; otherwise the
      first title and maker trimmed, the links of the voice and genre rows,
      and the main-genre links when the rows gave no genre. */
  function Parse(doc: Document): (r: Result<ScrapedMetadata, string>)
    ensures doc.titles == [] <==> r == Err(NoTitleText)
    ensures r.Ok? ==> r.value.title == Trim(doc.titles[0])
    ensures r.Ok? ==> r.value.circle == if doc.makers == [] then None else Some(Trim(doc.makers[0]))
    ensures r.Ok? ==> r.value.voiceActors == VoiceActorsIn(doc.rows)
    ensures r.Ok? ==> r.value.tags == if GenresIn(doc.rows) == [] then TrimAll(doc.mainGenreLinks) else GenresIn(doc.rows)
  {
    if doc.titles == [] then Err(NoTitleText)
    else
      var genres := GenresIn(doc.rows);
      Ok(ScrapedMetadata(
        Trim(doc.titles[0]),
        if doc.makers == [] then None else Some(Trim(doc.makers[0])),
        VoiceActorsIn(doc.rows),
        if genres == [] then TrimAll(doc.mainGenreLinks) else genres))
  }

  /** `x` is among what `f` gives for an item that satisfies `p`. */
  predicate Lends<R, X(==)>(item: R, p: R -> bool, f: R -> seq<X>, x: X) {
    p(item) && x in f(item)
  }

  /** One more item adds what `f` gives for it, when it satisfies `p`, at the end. */
  lemma GatherNext<R, X>(items: seq<R>, i: nat, p: R -> bool, f: R -> seq<X>)
    requires i < |items|
    ensures Gather(items[..i + 1], p, f) == Gather(items[..i], p, f) + (if p(items[i]) then f(items[i]) else [])
  {
    assert items[..i + 1][..i] == items[..i];
  }

  /** A value is gathered exactly when some item satisfying `p` lends it. */
  lemma {:induction false} GatherMembers<R, X>(items: seq<R>, p: R -> bool, f: R -> seq<X>, x: X)
    ensures x in Gather(items, p, f) <==> exists k :: 0 <= k < |items| && Lends(items[k], p, f, x)
    decreases |items|
  {
    if items != [] {
      var n := |items| - 1;
      var front := items[..n];
      GatherMembers(front, p, f, x);
      if x in Gather(front, p, f) {
        var k :| 0 <= k < n && Lends(front[k], p, f, x);
        assert front[k] == items[k];
      }
      if exists k :: 0 <= k < |items| && Lends(items[k], p, f, x) {
        var k :| 0 <= k < |items| && Lends(items[k], p, f, x);
        if k < n {
          assert front[k] == items[k];
        }
      }
    }
  }

  /** Every listed name and tag comes from a row of its kind, and no row
      lends its links to both lists. */
  lemma ScrapedFrom(doc: Document, x: string)
    requires Parse(doc).Ok?
    ensures x in Parse(doc).value.voiceActors <==>
      exists k :: 0 <= k < |doc.rows| && Lends(doc.rows[k], IsVoiceRow, FirstCellLinks, x)
    ensures GenresIn(doc.rows) != [] ==>
      (x in Parse(doc).value.tags <==> exists k :: 0 <= k < |doc.rows| && Lends(doc.rows[k], IsGenreRow, FirstCellLinks, x))
    ensures forall k :: 0 <= k < |doc.rows| ==> !(IsVoiceRow(doc.rows[k]) && IsGenreRow(doc.rows[k]))
  {
    GatherMembers(doc.rows, IsVoiceRow, FirstCellLinks, x);
    GatherMembers(doc.rows, IsGenreRow, FirstCellLinks, x);
  }

  /** A row without a header cell adds to neither list. */
  lemma HeaderlessRowIgnored(rows: seq<Row>, row: Row)
    requires row.headers == []
    ensures VoiceActorsIn(rows + [row]) == VoiceActorsIn(rows)
    ensures GenresIn(rows + [row]) == GenresIn(rows)
  {
    assert (rows + [row])[..|rows|] == rows;
    assert !Contains("", VoiceHeader) by {
      forall i | 0 <= i <= 0 ensures !OccursAt("", VoiceHeader, i) {
      }
    }
    assert !Contains("", GenreHeader) by {
      forall i | 0 <= i <= 0 ensures !OccursAt("", GenreHeader, i) {
      }
    }
  }

  /** A header naming both voice actors and genres feeds the voice actors only. */
  lemma BothHeadersMeanVoice(rows: seq<Row>, row: Row)
    requires Contains(HeaderText(row), VoiceHeader) && Contains(HeaderText(row), GenreHeader)
    ensures VoiceActorsIn(rows + [row]) == VoiceActorsIn(rows) + FirstCellLinks(row)
    ensures GenresIn(rows + [row]) == GenresIn(rows)
  {
    assert (rows + [row])[..|rows|] == rows;
  }

  /** Trimming twice trims no more than once. */
  lemma TrimIdempotent(s: string)
    ensures Trim(Trim(s)) == Trim(s)
  {
    var t := Trim(s);
    assert LeadingSpace(t) == 0;
    assert TrailingSpace(t[LeadingSpace(t)..]) == 0;
  }

  lemma TrimmedAllTrimmed(texts: seq<string>, x: string)
    requires x in TrimAll(texts)
    ensures Trim(x) == x
  {
    var k :| 0 <= k < |texts| && TrimAll(texts)[k] == x;
  }

  /** Every text gathered from first cells is trimmed. */
  lemma GatheredTrimmed(rows: seq<Row>, p: Row -> bool, x: string)
    requires x in Gather(rows, p, FirstCellLinks)
    ensures Trim(x) == x
  {
    GatherMembers(rows, p, FirstCellLinks, x);
    var k :| 0 <= k < |rows| && Lends(rows[k], p, FirstCellLinks, x);
    TrimmedAllTrimmed(rows[k].cells[0], x);
  }

  /** Every text scraped is trimmed: trimming it again changes nothing. */
  lemma ScrapedTextsTrimmed(doc: Document)
    requires Parse(doc).Ok?
    ensures Trim(Parse(doc).value.title) == Parse(doc).value.title
    ensures Parse(doc).value.circle.Some? ==> Trim(Parse(doc).value.circle.value) == Parse(doc).value.circle.value
    ensures forall x | x in Parse(doc).value.voiceActors :: Trim(x) == x
    ensures forall x | x in Parse(doc).value.tags :: Trim(x) == x
  {
    TrimIdempotent(doc.titles[0]);
    if doc.makers != [] {
      TrimIdempotent(doc.makers[0]);
    }
    forall x | x in VoiceActorsIn(doc.rows) ensures Trim(x) == x {
      GatheredTrimmed(doc.rows, IsVoiceRow, x);
    }
    forall x | x in GenresIn(doc.rows) ensures Trim(x) == x {
      GatheredTrimmed(doc.rows, IsGenreRow, x);
    }
    forall x | x in TrimAll(doc.mainGenreLinks) ensures Trim(x) == x {
      TrimmedAllTrimmed(doc.mainGenreLinks, x);
    }
  }

  /** Trimming one more text appends its trimmed form. */
  lemma TrimAllNext(texts: seq<string>, j: nat)
    requires j < |texts|
    ensures TrimAll(texts[..j + 1]) == TrimAll(texts[..j]) + [Trim(texts[j])]
  {
    assert |TrimAll(texts[..j + 1])| == |TrimAll(texts[..j]) + [Trim(texts[j])]|;
    forall k | 0 <= k <= j ensures TrimAll(texts[..j + 1])[k] == (TrimAll(texts[..j]) + [Trim(texts[j])])[k] {
      assert texts[..j + 1][k] == texts[k];
    }
  }

  /** `push` of each trimmed link text onto `acc`. */
  method PushTrimmed(acc: seq<string>, links: seq<string>) returns (r: seq<string>)
    ensures r == acc + TrimAll(links)
  {
    r := acc;
    var j := 0;
    while j < |links|
      invariant 0 <= j <= |links|
      invariant r == acc + TrimAll(links[..j])
    {
      TrimAllNext(links, j);
      r := r + [Trim(links[j])];
      j := j + 1;
    }
    assert links[..j] == links;
  }

  /** The pass of `parse_dlsite_html` over the outline rows: the voice
      row links and the genre row links, pushed in row order. */
  method CollectOutline(rows: seq<Row>) returns (voiceActors: seq<string>, tags: seq<string>)
    ensures voiceActors == VoiceActorsIn(rows) && tags == GenresIn(rows)
  {
    voiceActors := [];
    tags := [];
    var i := 0;
    while i < |rows|
      invariant 0 <= i <= |rows|
      invariant voiceActors == VoiceActorsIn(rows[..i])
      invariant tags == GenresIn(rows[..i])
    {
      var row := rows[i];
      GatherNext(rows, i, IsVoiceRow, FirstCellLinks);
      GatherNext(rows, i, IsGenreRow, FirstCellLinks);
      if IsVoiceRow(row) {
        if row.cells != [] {
          voiceActors := PushTrimmed(voiceActors, row.cells[0]);
        }
      } else if IsGenreRow(row) {
        if row.cells != [] {
          tags := PushTrimmed(tags, row.cells[0]);
        }
      }
      i := i + 1;
    }
    assert rows[..i] == rows;
  }

  /** `parse_dlsite_html` as it runs: the title and circle, the pass over
      the outline rows, then the main-genre fallback. */
  method ParseDlsiteHtml(doc: Document) returns (r: Result<ScrapedMetadata, string>)
    ensures r == Parse(doc)
  {
    if doc.titles == [] {
      return Err(NoTitleText);
    }
    var title := Trim(doc.titles[0]);
    var circle := if doc.makers == [] then None else Some(Trim(doc.makers[0]));
    var voiceActors, tags := CollectOutline(doc.rows);
    if tags == [] {
      tags := PushTrimmed([], doc.mainGenreLinks);
      assert tags == TrimAll(doc.mainGenreLinks);
    }
    return Ok(ScrapedMetadata(title, circle, voiceActors, tags));
  }

  // ---------------------------------------------------------------------
  // fetch_dlsite_metadata

  datatype Request = Request(url: string, headers: seq<(string, string)>)

  /** A response: its status code and what reading its body gives (the
      page, or the error text). */
  datatype Response = Response(status: int, body: Result<Document, string>)

  const BrowserAgent := "Mozilla/5.0 (Windows NT 10.0; Win64; x64) AppleWebKit/537.36 (KHTML, like Gecko) Chrome/91.0.4472.124 Safari/537.36"

  function ManiaxRequest(code: string): Request {
    Request("https://www.dlsite.com/maniax/work/=/product_id/" + code + ".html",
            [("User-Agent", BrowserAgent), ("Cookie", "adult_checked=1")])
  }

  function HomeRequest(code: string): Request {
    Request("https://www.dlsite.com/home/work/=/product_id/" + code + ".html", [("User-Agent", "Mozilla/5.0")])
  }

  /** `StatusCode::is_success`. */
  predicate IsSuccess(status: int) {
    200 <= status <= 299
  }

  /** The page of a successful response parsed, or the error reading its body. */
  function ParseBody(resp: Response): Result<ScrapedMetadata, string> {
    match resp.body
    case Err(e) => Err(e)
    case Ok(doc) => Parse(doc)
  }

  /** What the fallback request to the home page ends in. */
  function HomeOutcome(code: string, home: Result<Response, string>): (r: Result<ScrapedMetadata, string>)
    ensures home.Err? ==> r == Err("Failed to fetch DLsite page (home): " + home.error)
    ensures home.Ok? && !IsSuccess(home.value.status) ==> r == Err("DLsite page not found for " + code)
    ensures home.Ok? && IsSuccess(home.value.status) ==> r == ParseBody(home.value)
  {
    match home
    case Err(e) => Err("Failed to fetch DLsite page (home): " + e)
    case Ok(resp) => if IsSuccess(resp.status) then ParseBody(resp) else Err("DLsite page not found for " + code)
  }

  datatype Fetched = Fetched(result: Result<ScrapedMetadata, string>, sent: seq<Request>)

  /** `fetch_dlsite_metadata`: the maniax page first; a transport error
      there is final; a status other than success falls back to the home
      page, whose transport error or failing status is final. `send` is
      the network: the outcome of sending a request. */
  function FetchDlsiteMetadata(code: string, send: Request -> Result<Response, string>): (r: Fetched)
    ensures 1 <= |r.sent| <= 2 && r.sent[0] == ManiaxRequest(code)
    ensures send(ManiaxRequest(code)).Err? ==>
      r == Fetched(Err("Failed to fetch DLsite page: " + send(ManiaxRequest(code)).error), [ManiaxRequest(code)])
    ensures send(ManiaxRequest(code)).Ok? && IsSuccess(send(ManiaxRequest(code)).value.status) ==>
      r == Fetched(ParseBody(send(ManiaxRequest(code)).value), [ManiaxRequest(code)])
    ensures |r.sent| == 2 <==> send(ManiaxRequest(code)).Ok? && !IsSuccess(send(ManiaxRequest(code)).value.status)
    ensures |r.sent| == 2 ==> r.sent[1] == HomeRequest(code) && r.result == HomeOutcome(code, send(HomeRequest(code)))
  {
    match send(ManiaxRequest(code))
    case Err(e) => Fetched(Err("Failed to fetch DLsite page: " + e), [ManiaxRequest(code)])
    case Ok(resp) =>
      if IsSuccess(resp.status) then Fetched(ParseBody(resp), [ManiaxRequest(code)])
      else
        Fetched(HomeOutcome(code, send(HomeRequest(code))), [ManiaxRequest(code), HomeRequest(code)])
  }

  /** Metadata is returned only from a page that answered with success and
      has a title, and it is that page's parse. */
  lemma FetchedFromSuccessfulPage(code: string, send: Request -> Result<Response, string>)
    requires FetchDlsiteMetadata(code, send).result.Ok?
    ensures exists req :: (req in FetchDlsiteMetadata(code, send).sent && send(req).Ok? &&
      IsSuccess(send(req).value.status) && send(req).value.body.Ok? &&
      Parse(send(req).value.body.value) == FetchDlsiteMetadata(code, send).result)
  {
    var r := FetchDlsiteMetadata(code, send);
    if IsSuccess(send(ManiaxRequest(code)).value.status) {
      assert ManiaxRequest(code) in r.sent;
    } else {
      assert HomeRequest(code) in r.sent;
    }
  }
}
