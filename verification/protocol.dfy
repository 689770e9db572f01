/** The conversation both scripts hold with the portal, as functions of the
    scripted transport: `prepare`, `firstpage`, `count` and `scrape` with its
    paging loop. The imperative versions in module Scraper are proved equal to
    these. */
module Protocol {
  import opened Wrappers
  import opened Text
  import opened Page
  import opened Tokens
  import opened Grid
  import opened Status
  import opened Transport

  // ---- form fields of the search page ----

  const EventTarget := "__EVENTTARGET"
  const AsyncPost := "__ASYNCPOST"
  const CountyList := "ctl00$ContentPlaceHolder1$countyListDropDown"
  const ZipCodes := "ctl00$ContentPlaceHolder1$zipCodesDropDown"
  const CountyDropDown := "ctl00$ContentPlaceHolder1$countyDropDown"
  const ZipSearchLink := "ctl00$ContentPlaceHolder1$zipCodeSearchLinkButton"
  const ScriptManager := "ctl00$ContentPlaceHolder1$ScriptManager1"
  const SubmitZip := "ctl00$ContentPlaceHolder1$submitZipCodeButton"
  const GridPanel := "ctl00$ContentPlaceHolder1$gridUpdatePanel"
  const NextButton := "ctl00$ContentPlaceHolder1$buildingsGridView$ctl54$btnNext"

  /** What `re.search(r'value="Next"', …)` looks for: the pager's Next button. */
  const NextMarker := "value=\"Next\""

  /** The GET of the search page. */
  const Landing := Request(Get, map[], false)

  /** The fields `prepare` adds to the snapshot: the zip-code search link as the event target. */
  function ZipSearchFields(): Params {
    map[EventTarget := ZipSearchLink, CountyDropDown := ""]
  }

  /** `county_params`: the county drop-down's asynchronous postback. */
  function CountyFields(county: string): Params {
    map[CountyList := county, ZipCodes := "", EventTarget := CountyList, AsyncPost := "true",
        ScriptManager := ScriptManager + "|" + CountyList]
  }

  /** `zip_params` after `zip_params.update(basic)`: the zip-code submit button,
      the county, the zip code and an empty event target. */
  function ZipFields(county: string, zipcode: string): Params {
    map[SubmitZip := "Submit"] + map[CountyList := county, ZipCodes := zipcode, EventTarget := ""]
  }

  /** `next_params`: the pager's Next button, as an asynchronous postback. */
  function NextFields(county: string, zipcode: string): Params {
    map[ScriptManager := GridPanel + "|" + NextButton, NextButton := "Next", AsyncPost := "true",
        CountyList := county, ZipCodes := zipcode, EventTarget := ""]
  }

  // ---- prepare and firstpage ----

  /** `prepare`: GET the search page, then post its snapshot with the zip-code
      search link as event target; the parsed answer. */
  function Prepare(v: Variant, w: Wire): Step<Document> {
    var get := Send(w, Landing);
    if get.out.Failure? then Step(Failure(get.out.error), get.wire)
    else match DumbParams(v, get.out.value.doc)
      case Failure(e) => Step(Failure(e), get.wire)
      case Success(tokens) =>
        var post := Checked(v, get.wire, Request(Post, tokens + ZipSearchFields(), false));
        if post.out.Failure? then Step(Failure(post.out.error), post.wire)
        else Step(Success(post.out.value.doc), post.wire)
  }

  /** The first half of `firstpage`: prepare, then select the county with an
      asynchronous postback carrying the tokens of the prepared page; the
      postback's response. */
  function SelectCounty(v: Variant, w: Wire, county: string): Step<Response> {
    var prep := Prepare(v, w);
    if prep.out.Failure? then Step(Failure(prep.out.error), prep.wire)
    else match DumbParams(v, prep.out.value)
      case Failure(e) => Step(Failure(e), prep.wire)
      case Success(tokens) => Checked(v, prep.wire, Request(Post, CountyFields(county) + tokens, true))
  }

  /** `firstpage`: select the county, then submit the zip code with the tokens
      of the county postback's payload; the response to the submission. */
  function FirstPage(v: Variant, w: Wire, county: string, zipcode: string): Step<Response> {
    var sel := SelectCounty(v, w, county);
    if sel.out.Failure? then Step(Failure(sel.out.error), sel.wire)
    else match DumbParams(v, ConstructSoup(sel.out.value))
      case Failure(e) => Step(Failure(e), sel.wire)
      case Success(tokens) => Checked(v, sel.wire, Request(Post, ZipFields(county, zipcode) + tokens, false))
  }

  // ---- count ----

  /** `count`: the line `county,zipcode,N` it prints, N read off the first results page. */
  function Count(v: Variant, w: Wire, county: string, zipcode: string): Step<string> {
    var first := FirstPage(v, w, county, zipcode);
    if first.out.Failure? then Step(Failure(first.out.error), first.wire)
    else match ParseCount(first.out.value.text)
      case Failure(e) => Step(Failure(e), first.wire)
      case Success(n) => Step(Success(county + "," + zipcode + "," + n), first.wire)
  }

  /** `count` sends nothing after `firstpage`; it reports the count of the
      first results page, and fails for want of a status line only when that
      page came. */
  lemma CountReports(v: Variant, w: Wire, county: string, zipcode: string)
    ensures var first := FirstPage(v, w, county, zipcode);
            var c := Count(v, w, county, zipcode);
            && c.wire == first.wire
            && (c.out.Success? <==> first.out.Success? && ParseCount(first.out.value.text).Success?)
            && (c.out.Success? ==>
                  c.out.value == county + "," + zipcode + "," + ParseCount(first.out.value.text).value)
            && (c.out.Failure? && first.out.Success? ==> c.out.error == MissingStatus)
  {
  }

  // ---- scrape ----

  /** The end of a run of `scrape`: how it ended, the conversation, and the CSV
      rows it wrote. */
  datatype Run = Run(out: Outcome<Error>, wire: Wire, rows: seq<seq<string>>)

  /** One page of the paging loop: the Next postback, parsed with
      `construct_soup`; when the result has no grid, the identical request is
      sent exactly once more, and a second missing grid is an error. */
  function FetchNext(w: Wire, params: Params): (s: Step<Response>)
    ensures s.out.Success? ==> ConstructSoup(s.out.value).grid.Some? && |s.wire.pending| < |w.pending|
  {
    var req := Request(Post, params, true);
    var first := Send(w, req);
    if first.out.Failure? || ConstructSoup(first.out.value).grid.Some? then first
    else
      var second := Send(first.wire, req);
      if second.out.Success? && ConstructSoup(second.out.value).grid.None? then
        Step(Failure(MissingTable), second.wire)
      else second
  }

  /** One turn of the `while next_button` loop. */
  datatype Turn = Turn(out: Outcome<Error>, wire: Wire, params: Params, page: Document, more: seq<seq<string>>, next: bool)

  /** One turn of the `while next_button` loop, from the page `soup` just
      written and `params` as `next_params` stands: refresh the tokens from the
      page, fetch the next page, and report its rows and whether its text shows
      the Next button. */
  function Advance(v: Variant, w: Wire, params: Params, soup: Document): (t: Turn)
    ensures t.out.Pass? ==> |t.wire.pending| < |w.pending|
  {
    match DumbParams(v, soup)
    case Failure(e) => Turn(Fail(e), w, params, soup, [], false)
    case Success(tokens) =>
      var p := params + tokens;
      var f := FetchNext(w, p);
      if f.out.Failure? then Turn(Fail(f.out.error), f.wire, p, soup, [], false)
      else
        var page := ConstructSoup(f.out.value);
        Turn(Pass, f.wire, p, page, GridRows(v, page.grid.value.rows), Contains(f.out.value.text, NextMarker))
  }

  /** The `while next_button` loop, entered with the page `soup` just written
      and `params` as `next_params` stands: turn after turn while the page shows
      the Next button; the rows of every page it fetches, in order. */
  function Paging(v: Variant, w: Wire, params: Params, soup: Document): Run
    decreases |w.pending|
  {
    var t := Advance(v, w, params, soup);
    if t.out.Fail? then Run(t.out, t.wire, [])
    else if t.next then
      var r := Paging(v, t.wire, t.params, t.page);
      Run(r.out, r.wire, t.more + r.rows)
    else Run(Pass, t.wire, t.more)
  }

  /** `scrape` once the first results page is in: nothing more when it shows
      the zero marker; an error when it has no status line or no grid; otherwise
      its rows, then the paging loop from `nextParams` when it shows the Next
      button. */
  function Results(v: Variant, w: Wire, nextParams: Params, first: Response): Run {
    var text := first.text;
    var soup := first.doc;
    if Contains(text, ZeroMarker) then Run(Pass, w, [])
    else if FirstCount(text, 0).None? then Run(Fail(MissingStatus), w, [])
    else if soup.grid.None? then Run(Fail(MissingTable), w, [])
    else
      var rows := GridRows(v, soup.grid.value.rows);
      if Contains(text, NextMarker) then
        var r := Paging(v, w, nextParams, soup);
        Run(r.out, r.wire, rows + r.rows)
      else Run(Pass, w, rows)
  }

  /** `scrape`: the first results page, then what `Results` does with it. */
  function Scrape(v: Variant, w: Wire, county: string, zipcode: string): Run {
    var first := FirstPage(v, w, county, zipcode);
    if first.out.Failure? then Run(Fail(first.out.error), first.wire, [])
    else Results(v, first.wire, NextFields(county, zipcode), first.out.value)
  }

  /** `prepare` sends the GET first, then the snapshot POST, which `scrape.py`
      may re-send once; the conversation so far is kept. */
  lemma PrepareRequests(v: Variant, w: Wire)
    ensures var s := Prepare(v, w);
            && w.sent <= s.wire.sent && |w.sent| + 1 <= |s.wire.sent| <= |w.sent| + 3
            && s.wire.sent[|w.sent|] == Landing
            && (s.out.Success? ==> |s.wire.sent| >= |w.sent| + 2)
            && (s.out.Success? && v == MsrPy ==> |s.wire.sent| == |w.sent| + 2)
  {
    var s := Prepare(v, w);
    var get := Send(w, Landing);
    if get.out.Success? && DumbParams(v, get.out.value.doc).Success? {
      var req := Request(Post, DumbParams(v, get.out.value.doc).value + ZipSearchFields(), false);
      CheckedAppends(v, get.wire, req);
      assert s.wire == Checked(v, get.wire, req).wire;
      SentChain(w.sent, get.wire.sent, s.wire.sent);
    } else {
      assert s.wire == get.wire;
    }
  }

  /** A checked POST appends the request, twice at most and once in `msr.py`. */
  lemma CheckedAppends(v: Variant, w: Wire, req: Request)
    ensures var s := Checked(v, w, req);
            && w.sent <= s.wire.sent && |w.sent| + 1 <= |s.wire.sent| <= |w.sent| + 2
            && (v == MsrPy ==> |s.wire.sent| == |w.sent| + 1)
            && s.wire.sent[|s.wire.sent| - 1] == req
  {
  }

  /** `prepare` succeeds only when the search page came and its tokens could
      be read; it then posts exactly those tokens with the zip-code search link
      as event target, and that POST is the last request. */
  lemma PrepareSends(v: Variant, w: Wire)
    ensures var s := Prepare(v, w);
            && (s.out.Success? ==> w.pending != [] && DumbParams(v, w.pending[0].doc).Success?)
            && (w.pending != [] && DumbParams(v, w.pending[0].doc).Success? ==>
                  && |s.wire.sent| > 0
                  && s.wire.sent[|s.wire.sent| - 1] ==
                       Request(Post, DumbParams(v, w.pending[0].doc).value + ZipSearchFields(), false))
  {
    var s := Prepare(v, w);
    var get := Send(w, Landing);
    if get.out.Success? && DumbParams(v, get.out.value.doc).Success? {
      var req := Request(Post, DumbParams(v, get.out.value.doc).value + ZipSearchFields(), false);
      CheckedAppends(v, get.wire, req);
      assert s.wire == Checked(v, get.wire, req).wire;
    } else {
      assert s.out.Failure?;
    }
  }

  /** Selecting the county sends the GET first and one to five requests in
      all; on success it has sent the GET and then two POSTs in `msr.py`,
      while `scrape.py` may have re-sent each POST once. */
  lemma SelectCountyRequests(v: Variant, w: Wire, county: string)
    ensures var s := SelectCounty(v, w, county);
            && w.sent <= s.wire.sent && |w.sent| + 1 <= |s.wire.sent| <= |w.sent| + 5
            && s.wire.sent[|w.sent|] == Landing
            && (s.out.Success? ==> |w.sent| + 3 <= |s.wire.sent|)
            && (s.out.Success? && v == MsrPy ==> |s.wire.sent| == |w.sent| + 3)
  {
    var s := SelectCounty(v, w, county);
    var prep := Prepare(v, w);
    PrepareRequests(v, w);
    if prep.out.Success? && DumbParams(v, prep.out.value).Success? {
      var req := Request(Post, CountyFields(county) + DumbParams(v, prep.out.value).value, true);
      CheckedAppends(v, prep.wire, req);
      assert s == Checked(v, prep.wire, req);
      SentChain(w.sent, prep.wire.sent, s.wire.sent);
    } else {
      assert s.wire == prep.wire;
    }
  }

  /** Selecting the county succeeds only when `prepare` did and the prepared
      page's tokens could be read; it then posts the county form with exactly
      those tokens, asynchronously, and that postback is the last request. */
  lemma SelectCountySends(v: Variant, w: Wire, county: string)
    ensures var prep := Prepare(v, w);
            var s := SelectCounty(v, w, county);
            && (s.out.Success? ==> prep.out.Success? && DumbParams(v, prep.out.value).Success?)
            && (prep.out.Success? && DumbParams(v, prep.out.value).Success? ==>
                  && |s.wire.sent| > 0
                  && s.wire.sent[|s.wire.sent| - 1] ==
                       Request(Post, CountyFields(county) + DumbParams(v, prep.out.value).value, true))
  {
    var prep := Prepare(v, w);
    var s := SelectCounty(v, w, county);
    if prep.out.Success? && DumbParams(v, prep.out.value).Success? {
      var req := Request(Post, CountyFields(county) + DumbParams(v, prep.out.value).value, true);
      CheckedAppends(v, prep.wire, req);
      assert s == Checked(v, prep.wire, req);
    } else {
      assert s.out.Failure?;
    }
  }

  /** `firstpage` sends the GET first and at most seven requests in all; on
      success it has sent the GET and then three POSTs in `msr.py`, while
      `scrape.py` may have re-sent each POST once. */
  lemma FirstPageRequests(v: Variant, w: Wire, county: string, zipcode: string)
    ensures var s := FirstPage(v, w, county, zipcode);
            && w.sent <= s.wire.sent && |w.sent| + 1 <= |s.wire.sent| <= |w.sent| + 7
            && s.wire.sent[|w.sent|] == Landing
            && (s.out.Success? ==> |w.sent| + 4 <= |s.wire.sent|)
            && (s.out.Success? && v == MsrPy ==> |s.wire.sent| == |w.sent| + 4)
  {
    var s := FirstPage(v, w, county, zipcode);
    var sel := SelectCounty(v, w, county);
    SelectCountyRequests(v, w, county);
    if sel.out.Success? && DumbParams(v, ConstructSoup(sel.out.value)).Success? {
      var req := Request(Post, ZipFields(county, zipcode) + DumbParams(v, ConstructSoup(sel.out.value)).value, false);
      CheckedAppends(v, sel.wire, req);
      assert s == Checked(v, sel.wire, req);
      SentChain(w.sent, sel.wire.sent, s.wire.sent);
    } else {
      assert s.wire == sel.wire;
    }
  }

  /** `firstpage` succeeds only when the county postback did and its
      payload's tokens could be read; it then submits the zip form with exactly
      those tokens, as a plain POST, and that submission is the last request: its
      keys are the zip form's plus the six snapshot keys, and the zip form's
      values are unchanged. */
  lemma FirstPageSubmits(v: Variant, w: Wire, county: string, zipcode: string)
    ensures var sel := SelectCounty(v, w, county);
            var s := FirstPage(v, w, county, zipcode);
            && (s.out.Success? ==> sel.out.Success? && DumbParams(v, ConstructSoup(sel.out.value)).Success?)
            && (sel.out.Success? && DumbParams(v, ConstructSoup(sel.out.value)).Success? ==>
                  && |s.wire.sent| > 0
                  && var last := s.wire.sent[|s.wire.sent| - 1];
                     && last == Request(Post, ZipFields(county, zipcode) + DumbParams(v, ConstructSoup(sel.out.value)).value, false)
                     && last.data.Keys == ZipFields(county, zipcode).Keys + SnapshotKeys
                     && forall k | k in ZipFields(county, zipcode) :: last.data[k] == ZipFields(county, zipcode)[k])
  {
    var sel := SelectCounty(v, w, county);
    var s := FirstPage(v, w, county, zipcode);
    if sel.out.Success? && DumbParams(v, ConstructSoup(sel.out.value)).Success? {
      var tokens := DumbParams(v, ConstructSoup(sel.out.value)).value;
      assert s == Checked(v, sel.wire, Request(Post, ZipFields(county, zipcode) + tokens, false));
      SubmissionIsLast(v, sel.wire, county, zipcode, tokens, s);
    } else {
      assert s.out.Failure?;
    }
  }

  /** The zip-code submission is the last request sent after it: the zip form
      with the given tokens; its keys are the zip form's plus the six snapshot
      keys, and the zip form's values are unchanged. */
  lemma SubmissionIsLast(v: Variant, w: Wire, county: string, zipcode: string, tokens: Params, s: Step<Response>)
    requires tokens.Keys == SnapshotKeys
    requires s == Checked(v, w, Request(Post, ZipFields(county, zipcode) + tokens, false))
    ensures |s.wire.sent| > 0
    ensures var last := s.wire.sent[|s.wire.sent| - 1];
            && last == Request(Post, ZipFields(county, zipcode) + tokens, false)
            && last.data.Keys == ZipFields(county, zipcode).Keys + SnapshotKeys
            && forall k | k in ZipFields(county, zipcode) :: last.data[k] == ZipFields(county, zipcode)[k]
  {
    CheckedAppends(v, w, Request(Post, ZipFields(county, zipcode) + tokens, false));
    ZipSubmission(county, zipcode, tokens);
  }

  /** The snapshot fields leave the zip form's fields as they are. */
  lemma ZipSubmission(county: string, zipcode: string, tokens: Params)
    requires tokens.Keys == SnapshotKeys
    ensures (ZipFields(county, zipcode) + tokens).Keys == ZipFields(county, zipcode).Keys + SnapshotKeys
    ensures forall k | k in ZipFields(county, zipcode) :: (ZipFields(county, zipcode) + tokens)[k] == ZipFields(county, zipcode)[k]
  {
    assert ZipFields(county, zipcode).Keys !! SnapshotKeys;
  }

  /** When the county postback's payload declares no element named like a
      token field, the zip-code submission carries the zip form and exactly the
      snapshot of that payload: its four token values and the two empty
      auxiliary fields. */
  lemma SubmissionCarriesPayloadTokens(v: Variant, w: Wire, county: string, zipcode: string)
    requires SelectCounty(v, w, county).out.Success?
    requires NoTokenElements(SelectCounty(v, w, county).out.value.doc)
    ensures var s := FirstPage(v, w, county, zipcode);
            && |s.wire.sent| > 0
            && s.wire.sent[|s.wire.sent| - 1] ==
                 Request(Post, ZipFields(county, zipcode) + DeltaSnapshot(SelectCounty(v, w, county).out.value.text), false)
  {
    var sel := SelectCounty(v, w, county);
    DumbParamsOfConstructedSoup(v, sel.out.value);
    FirstPageSubmits(v, w, county, zipcode);
  }

  /** Every request from index `i` on is a POST. */
  predicate PostsFrom(sent: seq<Request>, i: nat) {
    forall j | i <= j < |sent| :: sent[j].verb == Post
  }

  /** A checked POST adds only POSTs. */
  lemma CheckedPosts(v: Variant, w: Wire, req: Request, i: nat)
    requires req.verb == Post && PostsFrom(w.sent, i)
    ensures PostsFrom(Checked(v, w, req).wire.sent, i)
  {
  }

  /** After its GET, `prepare` sends only POSTs. */
  lemma PrepareVerbs(v: Variant, w: Wire)
    ensures PostsFrom(Prepare(v, w).wire.sent, |w.sent| + 1)
  {
    var get := Send(w, Landing);
    if get.out.Success? && DumbParams(v, get.out.value.doc).Success? {
      var req := Request(Post, DumbParams(v, get.out.value.doc).value + ZipSearchFields(), false);
      CheckedPosts(v, get.wire, req, |w.sent| + 1);
      assert Prepare(v, w).wire == Checked(v, get.wire, req).wire;
    } else {
      assert Prepare(v, w).wire == get.wire;
    }
  }

  /** After its GET, `firstpage` sends only POSTs: with the request count of
      FirstPageRequests, one GET and three POSTs in `msr.py`. */
  lemma FirstPageVerbs(v: Variant, w: Wire, county: string, zipcode: string)
    ensures PostsFrom(FirstPage(v, w, county, zipcode).wire.sent, |w.sent| + 1)
  {
    var s := FirstPage(v, w, county, zipcode);
    var sel := SelectCounty(v, w, county);
    var prep := Prepare(v, w);
    PrepareVerbs(v, w);
    if prep.out.Success? && DumbParams(v, prep.out.value).Success? {
      var req := Request(Post, CountyFields(county) + DumbParams(v, prep.out.value).value, true);
      CheckedPosts(v, prep.wire, req, |w.sent| + 1);
      assert sel == Checked(v, prep.wire, req);
    } else {
      assert sel.wire == prep.wire;
    }
    if sel.out.Success? && DumbParams(v, ConstructSoup(sel.out.value)).Success? {
      var req' := Request(Post, ZipFields(county, zipcode) + DumbParams(v, ConstructSoup(sel.out.value)).value, false);
      CheckedPosts(v, sel.wire, req', |w.sent| + 1);
      assert s == Checked(v, sel.wire, req');
    } else {
      assert s.wire == sel.wire;
    }
  }

  /** Requests sent after requests sent after `a` come after `a`. */
  lemma SentChain(a: seq<Request>, b: seq<Request>, c: seq<Request>)
    requires a <= b <= c && |a| < |b|
    ensures a <= c && c[|a|] == b[|a|]
  {
  }

  /** A page of the loop costs one request, or two identical ones exactly when
      the first answer has no grid. */
  lemma FetchNextResends(w: Wire, params: Params)
    ensures var s := FetchNext(w, params);
            var req := Request(Post, params, true);
            && (s.wire.sent == w.sent + [req] || s.wire.sent == w.sent + [req, req])
            && (s.wire.sent == w.sent + [req, req] <==> w.pending != [] && ConstructSoup(w.pending[0]).grid.None?)
  {
    var req := Request(Post, params, true);
    var first := Send(w, req);
    if first.out.Failure? || ConstructSoup(first.out.value).grid.Some? {
      assert FetchNext(w, params).wire == first.wire;
    } else {
      assert FetchNext(w, params).wire == Send(first.wire, req).wire;
      assert first.wire.sent + [req] == w.sent + [req, req];
    }
  }

  /** A page is answered by the next one or two scripted responses; a failure
      is a network error or a second missing grid. */
  lemma FetchNextAnswers(w: Wire, params: Params)
    ensures var s := FetchNext(w, params);
            var n := |s.wire.sent| - |w.sent|;
            && (s.out.Success? ==>
                  && 1 <= n <= |w.pending|
                  && s.out.value == w.pending[n - 1]
                  && s.wire.pending == w.pending[n..])
            && (s.out.Failure? ==> s.out.error == NoResponse || s.out.error == MissingTable)
  {
    var req := Request(Post, params, true);
    var first := Send(w, req);
    if first.out.Success? && ConstructSoup(first.out.value).grid.None? {
      var second := Send(first.wire, req);
      if second.out.Success? {
        assert w.pending[1..][1..] == w.pending[2..];
      }
    }
  }

  // ---- properties of scrape ----

  /** `params` carries every field of `fields` with its value. */
  predicate KeepsFields(params: Params, fields: Params) {
    forall k | k in fields :: k in params && params[k] == fields[k]
  }

  /** A request of the paging loop: the Next button's asynchronous postback
      for the county and zip code. */
  predicate NextPostback(req: Request, county: string, zipcode: string) {
    req.verb == Post && req.ajax && KeepsFields(req.data, NextFields(county, zipcode))
  }

  /** Refreshing the snapshot fields leaves the Next postback's own fields alone. */
  lemma KeepsNextFields(params: Params, county: string, zipcode: string, tokens: Params)
    requires KeepsFields(params, NextFields(county, zipcode))
    requires tokens.Keys == SnapshotKeys
    ensures KeepsFields(params + tokens, NextFields(county, zipcode))
  {
    assert NextFields(county, zipcode).Keys !! SnapshotKeys;
  }

  /** A turn of the loop posts `next_params` refreshed with the tokens of the
      page it was entered with, once or twice; when those tokens cannot be
      read, it sends nothing. */
  lemma AdvanceSends(v: Variant, w: Wire, params: Params, soup: Document)
    ensures var t := Advance(v, w, params, soup);
            && w.sent <= t.wire.sent && |t.wire.sent| <= |w.sent| + 2
            && (DumbParams(v, soup).Failure? ==> t.wire == w && t.out == Fail(DumbParams(v, soup).error))
            && (DumbParams(v, soup).Success? ==>
                  && t.params == params + DumbParams(v, soup).value
                  && forall i | |w.sent| <= i < |t.wire.sent| :: t.wire.sent[i] == Request(Post, t.params, true))
  {
    if DumbParams(v, soup).Success? {
      AdvanceFetches(v, w, params, soup);
      FetchNextSends(w, params + DumbParams(v, soup).value);
    } else {
      AdvanceStops(v, w, params, soup);
    }
  }

  lemma AdvanceStops(v: Variant, w: Wire, params: Params, soup: Document)
    requires DumbParams(v, soup).Failure?
    ensures var t := Advance(v, w, params, soup);
            t.wire == w && t.out == Fail(DumbParams(v, soup).error)
  {
  }

  lemma AdvanceFetches(v: Variant, w: Wire, params: Params, soup: Document)
    requires DumbParams(v, soup).Success?
    ensures var t := Advance(v, w, params, soup);
            var p := params + DumbParams(v, soup).value;
            t.wire == FetchNext(w, p).wire && t.params == p
  {
  }

  /** A page of the loop appends the same postback once or twice. */
  lemma FetchNextSends(w: Wire, params: Params)
    ensures var f := FetchNext(w, params);
            && w.sent <= f.wire.sent && |f.wire.sent| <= |w.sent| + 2
            && forall i | |w.sent| <= i < |f.wire.sent| :: f.wire.sent[i] == Request(Post, params, true)
  {
    FetchNextResends(w, params);
  }

  /** Every request of the paging loop is the Next postback for the county and
      zip code it was entered with. */
  lemma {:induction false} PagingSendsNext(v: Variant, w: Wire, params: Params, soup: Document, county: string, zipcode: string)
    requires KeepsFields(params, NextFields(county, zipcode))
    ensures var r := Paging(v, w, params, soup);
            && w.sent <= r.wire.sent
            && forall i | |w.sent| <= i < |r.wire.sent| :: NextPostback(r.wire.sent[i], county, zipcode)
    decreases |w.pending|
  {
    var t := Advance(v, w, params, soup);
    AdvanceSends(v, w, params, soup);
    if DumbParams(v, soup).Success? {
      KeepsNextFields(params, county, zipcode, DumbParams(v, soup).value);
    }
    if t.out.Pass? && t.next {
      PagingSendsNext(v, t.wire, t.params, t.page, county, zipcode);
      var r := Paging(v, t.wire, t.params, t.page);
      forall i | |w.sent| <= i < |r.wire.sent|
        ensures NextPostback(r.wire.sent[i], county, zipcode)
      {
        if i < |t.wire.sent| {
          assert r.wire.sent[i] == t.wire.sent[i];
        }
      }
    }
  }

  /** Every row the paging loop writes is a non-empty list of normalised cells. */
  lemma {:induction false} PagingRowsShape(v: Variant, w: Wire, params: Params, soup: Document)
    ensures NormalRows(Paging(v, w, params, soup).rows)
    decreases |w.pending|
  {
    var t := Advance(v, w, params, soup);
    if t.out.Pass? {
      GridRowsShape(v, t.page.grid.value.rows);
      if t.next {
        PagingRowsShape(v, t.wire, t.params, t.page);
        NormalRowsAppend(t.more, Paging(v, t.wire, t.params, t.page).rows);
      }
    }
  }

  /** After the first results page, `scrape` sends only Next postbacks for its
      county and zip code. */
  lemma ScrapeSendsNext(v: Variant, w: Wire, county: string, zipcode: string)
    ensures var first := FirstPage(v, w, county, zipcode);
            var run := Scrape(v, w, county, zipcode);
            && first.wire.sent <= run.wire.sent
            && forall i | |first.wire.sent| <= i < |run.wire.sent| :: NextPostback(run.wire.sent[i], county, zipcode)
  {
    var first := FirstPage(v, w, county, zipcode);
    if first.out.Success? {
      var page := first.out.value;
      assert Scrape(v, w, county, zipcode) == Results(v, first.wire, NextFields(county, zipcode), page);
      if !Contains(page.text, ZeroMarker) && FirstCount(page.text, 0).Some? && page.doc.grid.Some?
         && Contains(page.text, NextMarker)
      {
        assert KeepsFields(NextFields(county, zipcode), NextFields(county, zipcode));
        PagingSendsNext(v, first.wire, NextFields(county, zipcode), page.doc, county, zipcode);
      }
    }
  }

  /** Every row `scrape` writes is a non-empty list of normalised cells. */
  lemma ScrapeRowsShape(v: Variant, w: Wire, county: string, zipcode: string)
    ensures NormalRows(Scrape(v, w, county, zipcode).rows)
  {
    var first := FirstPage(v, w, county, zipcode);
    if first.out.Success? {
      var page := first.out.value;
      assert Scrape(v, w, county, zipcode) == Results(v, first.wire, NextFields(county, zipcode), page);
      if !Contains(page.text, ZeroMarker) && FirstCount(page.text, 0).Some? && page.doc.grid.Some? {
        GridRowsShape(v, page.doc.grid.value.rows);
        if Contains(page.text, NextMarker) {
          PagingRowsShape(v, first.wire, NextFields(county, zipcode), page.doc);
          NormalRowsAppend(GridRows(v, page.doc.grid.value.rows), Paging(v, first.wire, NextFields(county, zipcode), page.doc).rows);
        }
      }
    }
  }

  /** A first results page showing the zero marker ends `scrape` at once:
      nothing more is sent and nothing is written, and `count` reports 0. */
  lemma ZeroResultsStop(v: Variant, w: Wire, county: string, zipcode: string)
    requires FirstPage(v, w, county, zipcode).out.Success?
    requires Contains(FirstPage(v, w, county, zipcode).out.value.text, ZeroMarker)
    ensures Scrape(v, w, county, zipcode) == Run(Pass, FirstPage(v, w, county, zipcode).wire, [])
    ensures Count(v, w, county, zipcode).out == Success(county + "," + zipcode + "," + "0")
  {
    var first := FirstPage(v, w, county, zipcode);
    assert Scrape(v, w, county, zipcode) == Results(v, first.wire, NextFields(county, zipcode), first.out.value);
    CountReports(v, w, county, zipcode);
  }

  /** A first results page without the Next button is the only page: its rows
      are all `scrape` writes and nothing more is sent. */
  lemma SinglePage(v: Variant, w: Wire, county: string, zipcode: string)
    requires FirstPage(v, w, county, zipcode).out.Success?
    requires var page := FirstPage(v, w, county, zipcode).out.value;
             !Contains(page.text, ZeroMarker) && FirstCount(page.text, 0).Some? && page.doc.grid.Some?
             && !Contains(page.text, NextMarker)
    ensures var first := FirstPage(v, w, county, zipcode);
            Scrape(v, w, county, zipcode) ==
              Run(Pass, first.wire, GridRows(v, first.out.value.doc.grid.value.rows))
  {
  }

  /** The paging loop keeps the conversation so far, and sends something
      exactly when the tokens of the page it is entered with can be read. */
  lemma {:induction false} PagingExtends(v: Variant, w: Wire, params: Params, soup: Document)
    ensures var r := Paging(v, w, params, soup);
            && w.sent <= r.wire.sent
            && (|r.wire.sent| > |w.sent| <==> DumbParams(v, soup).Success?)
    decreases |w.pending|
  {
    var t := Advance(v, w, params, soup);
    AdvanceSends(v, w, params, soup);
    if DumbParams(v, soup).Success? {
      AdvanceFetches(v, w, params, soup);
      FetchNextResends(w, params + DumbParams(v, soup).value);
    }
    if t.out.Pass? && t.next {
      PagingExtends(v, t.wire, t.params, t.page);
    }
  }

  /** After a page of the loop comes in, a further Next postback is sent if and
      only if that page's text shows the Next button (and its tokens can be
      read, which the postback needs). */
  lemma NextIffMarker(v: Variant, w: Wire, params: Params, soup: Document)
    requires Advance(v, w, params, soup).out.Pass?
    ensures var t := Advance(v, w, params, soup);
            var r := Paging(v, w, params, soup);
            && t.wire.sent <= r.wire.sent
            && (|r.wire.sent| > |t.wire.sent| <==> t.next && DumbParams(v, t.page).Success?)
  {
    var t := Advance(v, w, params, soup);
    if t.next {
      PagingExtends(v, t.wire, t.params, t.page);
    }
  }

  /** The same for the first results page: once it has passed the zero,
      status and grid checks, `scrape` sends a Next postback if and only if its
      text shows the Next button and its tokens can be read. */
  lemma ScrapeNextIffMarker(v: Variant, w: Wire, county: string, zipcode: string)
    requires FirstPage(v, w, county, zipcode).out.Success?
    requires var page := FirstPage(v, w, county, zipcode).out.value;
             !Contains(page.text, ZeroMarker) && FirstCount(page.text, 0).Some? && page.doc.grid.Some?
    ensures var first := FirstPage(v, w, county, zipcode);
            var page := first.out.value;
            var run := Scrape(v, w, county, zipcode);
            |run.wire.sent| > |first.wire.sent| <==> Contains(page.text, NextMarker) && DumbParams(v, page.doc).Success?
  {
    var first := FirstPage(v, w, county, zipcode);
    var page := first.out.value;
    assert Scrape(v, w, county, zipcode) == Results(v, first.wire, NextFields(county, zipcode), page);
    if Contains(page.text, NextMarker) {
      PagingExtends(v, first.wire, NextFields(county, zipcode), page.doc);
    }
  }
}
