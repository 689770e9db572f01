/** The scripts' procedures as they run: each updates the session (and, for
    `scrape`, the CSV writer) step by step, and each is proved to do exactly
    what its counterpart in module Protocol describes. */
module Scraper {
  import opened Wrappers
  import opened Text
  import opened Page
  import opened Tokens
  import opened Grid
  import opened Status
  import opened Transport
  import opened Protocol

  /** `prepare`. */
  method Prepare(v: Variant, session: Session) returns (r: Result<Document, Error>)
    modifies session
    ensures Step(r, session.State()) == Protocol.Prepare(v, old(session.State()))
  {
    var page := session.Request(Landing);
    if page.Failure? {
      return Failure(page.error);
    }
    var params := DumbParams(v, page.value.doc);
    if params.Failure? {
      return Failure(params.error);
    }
    var param := params.value + ZipSearchFields();
    var answer := session.Post(v, Request(Post, param, false));
    if answer.Failure? {
      return Failure(answer.error);
    }
    return Success(answer.value.doc);
  }

  /** `firstpage`. */
  method FirstPage(v: Variant, session: Session, county: string, zipcode: string) returns (r: Result<Response, Error>)
    modifies session
    ensures Step(r, session.State()) == Protocol.FirstPage(v, old(session.State()), county, zipcode)
  {
    var zipParams := map[SubmitZip := "Submit"];
    zipParams := zipParams + map[CountyList := county, ZipCodes := zipcode, EventTarget := ""];
    var countyParams := CountyFields(county);
    var soup := Prepare(v, session);
    if soup.Failure? {
      return Failure(soup.error);
    }
    var tokens := DumbParams(v, soup.value);
    if tokens.Failure? {
      return Failure(tokens.error);
    }
    countyParams := countyParams + tokens.value;
    var request := session.Post(v, Request(Post, countyParams, true));
    if request.Failure? {
      return Failure(request.error);
    }
    var payload := ConstructSoup(request.value);
    tokens := DumbParams(v, payload);
    if tokens.Failure? {
      return Failure(tokens.error);
    }
    zipParams := zipParams + tokens.value;
    r := session.Post(v, Request(Post, zipParams, false));
  }

  /** `count`: the line it prints. */
  method Count(v: Variant, session: Session, county: string, zipcode: string) returns (r: Result<string, Error>)
    modifies session
    ensures Step(r, session.State()) == Protocol.Count(v, old(session.State()), county, zipcode)
  {
    var text := FirstPage(v, session, county, zipcode);
    if text.Failure? {
      return Failure(text.error);
    }
    var buildings: string;
    if Contains(text.value.text, ZeroMarker) {
      buildings := "0";
    } else {
      var found := FirstCount(text.value.text, 0);
      if found.None? {
        return Failure(MissingStatus);
      }
      buildings := CountAt(text.value.text, found.value).value;
    }
    return Success(county + "," + zipcode + "," + buildings);
  }

  /** One page of the paging loop: the Next postback, `construct_soup`, and
      `writerows` in its `try`, with the one re-send on a missing table. */
  method FetchPage(v: Variant, session: Session, writer: RowWriter, params: Params) returns (r: Result<Response, Error>)
    modifies session, writer
    ensures Step(r, session.State()) == FetchNext(old(session.State()), params)
    ensures r.Success? ==> writer.rows == old(writer.rows) + GridRows(v, ConstructSoup(r.value).grid.value.rows)
    ensures r.Failure? ==> writer.rows == old(writer.rows)
  {
    r := session.Request(Request(Post, params, true));
    if r.Failure? {
      return;
    }
    var soup := ConstructSoup(r.value);
    var o := WriteRows(v, writer, soup);
    if o.Fail? {
      r := session.Request(Request(Post, params, true));
      if r.Failure? {
        return;
      }
      soup := ConstructSoup(r.value);
      o := WriteRows(v, writer, soup);
      if o.Fail? {
        return Failure(o.error);
      }
    }
  }

  /** The `while next_button` loop of `scrape`, entered with `next_params`,
      the page just written and the flag computed from it; the rows it fetches
      go to `writer` after what it already holds. */
  method PagingLoop(v: Variant, session: Session, writer: RowWriter, params: Params, soup: Document, nextButton: bool)
    returns (o: Outcome<Error>)
    modifies session, writer
    ensures var run := if nextButton then Paging(v, old(session.State()), params, soup)
                       else Run(Pass, old(session.State()), []);
            o == run.out && session.State() == run.wire && writer.rows == old(writer.rows) + run.rows
  {
    ghost var run := if nextButton then Paging(v, session.State(), params, soup)
                     else Run(Pass, session.State(), []);
    var nextParams := params;
    var page := soup;
    var more := nextButton;
    while more
      invariant more ==> var r := Paging(v, session.State(), nextParams, page);
                         r.out == run.out && r.wire == run.wire && old(writer.rows) + run.rows == writer.rows + r.rows
      invariant !more ==> run.out == Pass && run.wire == session.State() && old(writer.rows) + run.rows == writer.rows
      decreases |session.pending|, more
    {
      ghost var before := writer.rows;
      ghost var r := Paging(v, session.State(), nextParams, page);
      var tokens := DumbParams(v, page);
      if tokens.Failure? {
        return Fail(tokens.error);
      }
      nextParams := nextParams + tokens.value;
      var request := FetchPage(v, session, writer, nextParams);
      if request.Failure? {
        return Fail(request.error);
      }
      page := ConstructSoup(request.value);
      more := Contains(request.value.text, NextMarker);
      ghost var added := writer.rows[|before|..];
      assert writer.rows == before + added;
      if more {
        ghost var rest := Paging(v, session.State(), nextParams, page).rows;
        assert r.rows == added + rest;
        RowsAssoc(before, added, rest);
      } else {
        assert r.rows == added;
      }
    }
    return Pass;
  }

  /** `scrape` once the first results page is in. */
  method Results(v: Variant, session: Session, writer: RowWriter, nextParams: Params, first: Response)
    returns (o: Outcome<Error>)
    modifies session, writer
    ensures var run := Protocol.Results(v, old(session.State()), nextParams, first);
            o == run.out && session.State() == run.wire && writer.rows == old(writer.rows) + run.rows
  {
    var text := first.text;
    if Contains(text, ZeroMarker) {
      return Pass;
    }
    if FirstCount(text, 0).None? {
      return Fail(MissingStatus);
    }
    var soup := first.doc;
    o := WriteRows(v, writer, soup);
    if o.Fail? {
      return o;
    }
    ghost var written := writer.rows;
    var nextButton := Contains(text, NextMarker);
    o := PagingLoop(v, session, writer, nextParams, soup, nextButton);
    ghost var rest := writer.rows[|written|..];
    assert writer.rows == written + rest;
    RowsAssoc(old(writer.rows), GridRows(v, soup.grid.value.rows), rest);
  }

  /** `scrape`: the rows it writes go to `writer`, after what it already holds. */
  method Scrape(v: Variant, session: Session, writer: RowWriter, county: string, zipcode: string)
    returns (o: Outcome<Error>)
    modifies session, writer
    ensures var run := Protocol.Scrape(v, old(session.State()), county, zipcode);
            o == run.out && session.State() == run.wire && writer.rows == old(writer.rows) + run.rows
  {
    var nextParams := NextFields(county, zipcode);
    var first := FirstPage(v, session, county, zipcode);
    if first.Failure? {
      return Fail(first.error);
    }
    o := Results(v, session, writer, nextParams, first.value);
  }
}
