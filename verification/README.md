# Building-search scraper, modelled in Dafny

The repository has two Python scripts, `scrape.py` and its later copy `msr.py`.
Both walk the building-search portal of New York's housing agency, an ASP.NET
WebForms application, in three steps:

1. `prepare` and `firstpage` open a session and select a county and a zip code.
   Each postback must carry the page's anti-tamper tokens (`__VIEWSTATE` and
   the others), which `dumb_params` reads.
2. `count` reads the number of buildings off the first results page.
3. `scrape` writes the results grid, row by row, as CSV. It follows the pager's
   Next button with asynchronous postbacks. Their partial-postback ("delta")
   answers are pipe-delimited text, from which `construct_soup` rebuilds a
   document holding the tokens.

This project models both scripts at once. A `Variant` (`ScrapePy` or
`MsrPy`) selects their three differences:
- `.attrs['value']` versus `.attrs.get('value', '')`;
- `strip(' \r\n')` versus `strip()`;
- the redirect-history re-send, which only `scrape.py` has.

Modules, in dependency order:

- `Wrappers`: `Option`, `Result` (a value or a raised error) and `Outcome`.
- `Page`: the parsed document as the scripts query it.
  - The elements, in document order, with their attributes.
  - The first `table.grid`, with its rows. Each row has its markup (`str(tr)`) and its `td` cells.
  - A response: its text, its redirect-history length and its parsed document.
  - The requests and the errors the scripts raise.
- `Text`: Python's `in`, `strip`, `re.sub(r'\s+', ' ', …)`, and the visible (non-whitespace) characters of a string.
- `Tokens`: `dumb_params` and `construct_soup`.
- `Grid`: the row filter and cell normalisation of `writerows`.
  - The CSV writer is a class, `RowWriter`, whose rows the `writerows` loop appends to.
- `Status`: the zero-results marker and the `Displaying buildings A - B of N` regex.
- `County`: `replace('NEWYORK', 'NEW YORK')`.
- `Transport`: the session, as a class over a scripted sequence of responses.
  - An exhausted script stands for a failed request.
  - `Send` and `Checked` (the redirect check) specify its methods.
- `Protocol`: `prepare`, `firstpage`, `count` and `scrape` with its paging loop, as functions of the conversation state (`Wire`: the responses to come and the requests sent). Lemmas about the whole conversation sit beside them.
- `Scraper`: the same procedures as imperative methods over the session and the writer. Each is proved to end in exactly the state its `Protocol` function gives.

Three behaviours of the code a reader might not expect, which the model keeps:
- The colspan test compares a string (or `None`) with the integer `7`, so it never holds. No row is skipped for its colspan (`Grid.ColspanIsSeven`).
- The zero-results test is a substring search anywhere in the page, so `10 results found` also reads as zero results (`Status.ZeroMarkerAnywhere`).
- The county replacement rewrites every occurrence of `NEWYORK`, not only a whole argument equal to it (`County.Replace`).

## Model

| member | source | states |
|---|---|---|
| Tokens.SnapshotKeysSplit | scrape.py:25-29 | The six snapshot keys are the four token fields plus `__EVENTARGUMENT` and `__LASTFOCUS`, which are not token fields |
| Tokens.FirstNamed | scrape.py:26 | The index found is of the first element whose `name` is the field; none is found only when no element has that name |
| Tokens.FindByName | scrape.py:26 | `soup.find(attrs={'name': f})` is None exactly when no element has that name; otherwise it is the first such element |
| Tokens.FirstNamedUnique | scrape.py:26 | There is only one first element with a given name |
| Tokens.FirstNamedAppend | scrape.py:26 | Past leading elements without the name, the search goes on into the rest, with the index shifted |
| Tokens.FindByNameAppend | scrape.py:26 | Elements that lack the name, placed in front, do not change what `find` returns |
| Tokens.FirstUnreadable | scrape.py:26 | The position found is of a token that cannot be read, and every earlier token can be read; with no position, every token can be read |
| Tokens.ReadTokens | scrape.py:26 | The dict comprehension's keys are exactly the fields |
| Tokens.ReadTokensReads | scrape.py:26 | The comprehension succeeds iff every field can be read; each field maps to its token; a failure is the error of the first unreadable field in order |
| Tokens.DumbParams | scrape.py:23-31 | `dumb_params` yields exactly the six snapshot keys |
| Tokens.DumbParamsReads | scrape.py:23-31 | It succeeds iff all four tokens can be read. The auxiliary fields are `''` and each token is the element's `value`. A failure is the error of the first unreadable token (a missing element, or in `scrape.py` a missing `value`) |
| Tokens.MsrMissingValueIsEmpty | msr.py:44 | For a found element without a `value` attribute, `msr.py` reads `''` and `scrape.py` raises a missing-value error |
| Tokens.FirstMatch | scrape.py:40 | `re.search` for the key pattern finds the leftmost index where the field's name and a pipe occur with a later pipe; none when there is no such index |
| Tokens.UpToPipeNoPipe | scrape.py:40 | The captured group holds no pipe |
| Tokens.UpToPipeThenPipe | scrape.py:40 | When a pipe follows, the group and that pipe start the text |
| Tokens.DeltaValueFound | scrape.py:39-41 | A token value from the payload holds no pipe, and it is `''` when the pattern matches nowhere |
| Tokens.DeltaValueAtFirstMatch | scrape.py:39-41 | Where the pattern first matches, the payload reads the field's name, a pipe, the value, then a pipe: the value is the text between the first such key and the next pipe |
| Tokens.FirstMatchIs | scrape.py:40 | Helper: a match with no earlier match is the one `re.search` returns |
| Tokens.ValueBetweenPipes | scrape.py:40-41 | At a match, the key, the group and the closing pipe are what the payload reads from there |
| Tokens.MatchesAt | scrape.py:40 | No contract of its own: the key pattern (field name, a pipe, a pipe-free group, a pipe) tried at one index; FirstMatch, FirstMatchIs and ValueBetweenPipes state where it matches |
| Tokens.UpToPipe | scrape.py:40 | No contract of its own: the group `[^pipe]*`; UpToPipeNoPipe, UpToPipeThenPipe and ValueBetweenPipes state what it captures |
| Tokens.DeltaTokens | scrape.py:37-41 | No contract of its own: the `vals` dict, one value per field; DeltaValueFound and DeltaValueAtFirstMatch state each value, and ReadTokensOfConstructedSoup that the rebuilt document reads back exactly these |
| Tokens.SynthesizedMarkup | scrape.py:43-48 | The markup handed to the parser is the payload, unchanged, then a space and the input line of each of the four synthesised inputs (TokenInputs), in field order, separated by a line break and indentation |
| Tokens.InputsMarkupLines | scrape.py:43-46 | The template's four lines are, in order, the input lines of the four elements `construct_soup` adds |
| Tokens.InputLineOfInput | scrape.py:43-46 | Helper: the line of an input with a given name and value is the `<input value=… name=… />` tag with them |
| Tokens.Input | scrape.py:43-46 | No contract of its own: one synthesised `<input>` element; InputsForAt, TokenInputsAt and FirstInputNamed state its name and value, and InputLineOfInput the line it is written as |
| Tokens.Tag | scrape.py:43-46 | No contract of its own: one `<input>` line of the template; InputLineOfInput and InputsMarkupLines state its use |
| Tokens.InputLine | scrape.py:43-46 | No contract of its own: the line an element is written as; SynthesizedMarkup states that the template writes the four inputs this way |
| Tokens.InputsMarkup | scrape.py:43-48 | No contract of its own: the filled-in template; InputsMarkupLines states its lines |
| Tokens.InputsFor | scrape.py:43-46 | One hidden input per field |
| Tokens.InputsForAt | scrape.py:43-46 | Input `k` is named after field `k` and holds the payload's value for it |
| Tokens.TokenInputs | scrape.py:43-46 | `construct_soup` appends exactly four inputs |
| Tokens.TokenInputsAt | scrape.py:43-46 | The inputs come in the order VIEWSTATE, EVENTVALIDATION, VIEWSTATEGENERATOR, VIEWSTATEENCRYPTED, each holding the payload's value for its field |
| Tokens.ConstructSoup | scrape.py:34-49 | The rebuilt document keeps the payload's grid. What it adds is stated by SynthesizedMarkup (the markup: payload, then the four input lines) and TokenInputsAt, and what `dumb_params` reads back from it by DumbParamsOfConstructedSoup |
| Tokens.TokenFieldsDistinct | scrape.py:36 | The four field names differ |
| Tokens.FirstInputNamed | scrape.py:43-46 | Among the synthesised inputs, the first named after field `k` is input `k` |
| Tokens.ReadTokenOfConstructedSoup | scrape.py:43-49 | When the payload's own parsed document declares no element of that name (NoTokenElements), each token read back from the rebuilt document is the payload's value |
| Tokens.EachTokenOfConstructedSoup | scrape.py:43-49 | Under the same NoTokenElements condition, the same for all four fields at once |
| Tokens.ReadTokensOfConstructedSoup | scrape.py:43-49 | Under the same NoTokenElements condition, the comprehension over the rebuilt document yields the payload's values |
| Tokens.ReadTokensAllRead | scrape.py:26 | When every field reads as a given dict says, the comprehension yields that dict |
| Tokens.DumbParamsOfConstructedSoup | msr.py:49-61 | When the payload's own parsed document declares no element named like a token field (NoTokenElements), `dumb_params(construct_soup(text))` is the payload's four values plus the two empty auxiliary fields, in both scripts |
| Tokens.ReadToken | scrape.py:26 | No contract of its own: one entry of the comprehension; ReadTokensReads, MsrMissingValueIsEmpty and ReadTokenOfConstructedSoup state what it reads |
| Tokens.DeltaValue | scrape.py:39-41 | No contract of its own: one token of the payload; DeltaValueFound and DeltaValueAtFirstMatch state what it is |
| Tokens.DeltaSnapshot | scrape.py:39-49 | No contract of its own: the snapshot a payload carries; DumbParamsOfConstructedSoup and Protocol.SubmissionCarriesPayloadTokens state where it is read and sent |
| Grid.AttrGet | scrape.py:60 | `attrs.get` gives the attribute's string when present and None otherwise |
| Grid.ColspanIsSeven | scrape.py:60 | The colspan test `== 7` never holds |
| Grid.SkippedExactly | scrape.py:60-64 | Helper: A row is skipped exactly when it has no `td` or its markup contains `Displaying buildings ` |
| Grid.Skipped | scrape.py:60-64 | No contract of its own: the skip test; SkippedExactly states when it holds, ColspanIsSeven that the colspan clause never does, and EmitSkipped that a skipped row writes nothing |
| Grid.EdgeChars | msr.py:74 | The characters either script strips from cell edges are whitespace |
| Grid.CleanCellNormal | scrape.py:67 | A cleaned cell keeps every visible character, in order. Its only whitespace is single, non-adjacent spaces. In `msr.py` it also neither starts nor ends with whitespace |
| Grid.CleanRowCells | scrape.py:66-68 | Helper: A kept row gives one cleaned cell per `td`, in order |
| Grid.CleanRow | scrape.py:66-68 | No contract of its own: the list comprehension over the `td` cells; CleanRowCells states its length and cells, and EmitKept that it is what a kept row writes |
| Grid.EmitSkipped | scrape.py:60-64 | Helper: A skipped row writes nothing |
| Grid.EmitKept | scrape.py:66-68 | Helper: A kept row writes one CSV row, its cleaned cells |
| Grid.GridRowsAppend | scrape.py:59 | Rows are written in document order: two runs of rows write the first run's rows, then the second's |
| Grid.GridRowsStep | scrape.py:59-68 | One more grid row adds what is written for it, after the rest |
| Grid.NormalRowsAppend | scrape.py:66-68 | Appending two lists of normalised rows gives a list of normalised rows |
| Grid.GridRowsShape | scrape.py:59-68 | Each row written is non-empty and its cells are single-spaced; there are no more rows written than grid rows |
| Grid.CleanCell | scrape.py:67 | No contract of its own: CleanCellWords states the cleaned text of a cell of any number of words; CleanCellNormal, CleanCellTwoWords and CleanCellEdgeSpace state its shape and the two scripts' difference |
| Grid.Emit | scrape.py:59-68 | No contract of its own: what one grid row writes; EmitSkipped and EmitKept state both cases |
| Grid.GridRows | scrape.py:59-68 | No contract of its own: the rows `writerows` writes; GridRowsAppend, GridRowsStep and GridRowsShape state their order and shape, and WriteRows that the loop writes them |
| Grid.RowWriter.constructor | scrape.py:197 | A new writer holds no rows |
| Grid.RowWriter.WriteRow | scrape.py:66 | `writerow` appends exactly its row |
| Grid.WriteRows | scrape.py:52-68 | With no grid it fails with "Missing table" and writes nothing; otherwise it appends exactly the rows GridRows gives, in document order |
| Grid.CleanCellTwoWords | scrape.py:67 | Both scripts clean two words, wrapped in spaces or line breaks and with any whitespace between them, to the two words and one space (`"  Foo\n\nBar  "` becomes `"Foo Bar"`) |
| Grid.CleanCellWords | scrape.py:67 | Both scripts clean a cell of any number of words, with line breaks or spaces around them and any whitespace between them, to the words joined by one space each |
| Grid.CleanCellEdgeSpace | msr.py:74 | Leading whitespace that starts with a tab survives `scrape.py` as one space, while `msr.py` removes it |
| Grid.ScrapeKeepsEdgeSpace | scrape.py:67 | `strip(' \r\n')` keeps leading whitespace that starts with another whitespace character, which collapses to one space |
| Grid.MsrStripsEdgeSpace | msr.py:74 | `strip()` removes all leading whitespace |
| Text.TrimLeft | scrape.py:67 | `lstrip` never lengthens the text |
| Text.TrimLeftCuts | scrape.py:67 | `lstrip` leaves a suffix that does not start with a stripped character, and drops only stripped characters |
| Text.TrimRightCuts | scrape.py:67 | `rstrip` leaves a prefix that does not end with a stripped character, and drops only stripped characters |
| Text.StripTrims | scrape.py:67 | `strip` leaves a slice with only stripped characters around it, which neither starts nor ends with one |
| Text.TrimLeftRun | scrape.py:67 | `lstrip` removes exactly a leading run of stripped characters |
| Text.TrimRightRun | scrape.py:67 | `rstrip` removes exactly a trailing run of stripped characters |
| Text.StripAround | scrape.py:67 | `strip` returns the text inside runs of stripped characters |
| Text.CollapseHead | scrape.py:67 | `re.sub(r'\s+', ' ', …)` keeps a leading visible character first |
| Text.CollapseSingleSpaced | scrape.py:67 | After the substitution, the only whitespace is single, non-adjacent spaces |
| Text.VisibleTrimLeft | scrape.py:67 | Left-stripping whitespace loses no visible character |
| Text.VisibleTrimRight | scrape.py:67 | Right-stripping whitespace loses no visible character |
| Text.VisibleStrip | scrape.py:67 | Stripping whitespace loses no visible character |
| Text.CollapseKeepsVisible | scrape.py:67 | The substitution keeps exactly the visible characters, in order |
| Text.CollapseLast | scrape.py:67 | The substitution keeps a trailing visible character last |
| Text.CollapseWordThen | scrape.py:67 | A word in front of whitespace comes through the substitution unchanged |
| Text.CollapseWord | scrape.py:67 | A word comes through the substitution unchanged |
| Text.CollapseGapWord | scrape.py:67 | Whitespace in front of a word becomes one space |
| Text.CollapseTwoWords | scrape.py:67 | Whitespace between two words becomes one space |
| Text.CollapseGap | scrape.py:67 | A whitespace run of any length and characters, in front of text that does not start with whitespace, becomes one space, and the rest collapses on its own |
| Text.CollapseWords | scrape.py:67 | Any text of words separated by whitespace runs collapses to the words joined by single spaces: every run becomes exactly one space |
| Text.InterleaveEnds | scrape.py:67 | Helper: words and gaps start with the first word's first character and end with the last word's last character |
| Text.Interleave | scrape.py:67 | No contract of its own: a text as words and the whitespace gaps between them; CollapseWords and Grid.CleanCellWords state how it is cleaned |
| Text.JoinWords | scrape.py:67 | No contract of its own: words joined by one space, the reference CollapseWords compares against |
| Text.TrimRight | scrape.py:67 | No contract of its own: `rstrip`; TrimRightCuts and TrimRightRun state what it removes |
| Text.Strip | scrape.py:67 | No contract of its own: `strip`; StripTrims, StripAround and VisibleStrip state what it removes and keeps |
| Text.Collapse | scrape.py:67 | No contract of its own: the substitution. CollapseWordThen and CollapseGap fix it on every text (a word passes, a gap becomes one space); CollapseWords states the result for any number of words, and CollapseSingleSpaced and CollapseKeepsVisible its shape |
| Text.Visible | scrape.py:67 | No contract of its own: the visible characters of a text, the reference the Visible lemmas compare against |
| Status.Digits | scrape.py:165 | `\d+` consumes the whole leading run of digits and stops at the first non-digit |
| Status.CountAtShape | scrape.py:165 | The captured count is a non-empty digit string, and the regex matches only where `Displaying buildings ` starts |
| Status.FirstCount | scrape.py:165 | `re.search` finds the leftmost index where the status regex matches; none when it matches nowhere |
| Status.ParseCount | scrape.py:161-166 | The zero marker anywhere gives `0`, checked first. The count is otherwise a non-empty digit string. It fails, with the missing-status error, exactly when there is neither the marker nor a status line |
| Status.DigitsOfRun | scrape.py:165 | A digit run followed by a non-digit is consumed whole |
| Status.NumberThenRun | scrape.py:165 | `\d+` followed by ` - ` or ` of ` matches a digit run and its separator, and leaves what follows |
| Status.CountInStatusLine | scrape.py:165 | The regex at the start of `Displaying buildings A - B of N` captures the whole of `N` |
| Status.CountInParts | scrape.py:165 | Helper: the regex matches when its three parts match in turn |
| Status.ParseCountOfStatusLine | msr.py:133-137 | On a page without the zero marker, where the status regex matches nowhere before a status line `Displaying buildings A - B of N` that ends the page or is followed by a non-digit, the count is that line's `N` |
| Status.StatusLineAt | scrape.py:165 | Helper: the regex matches at the start of a status line, capturing its `N` |
| Status.LeftmostCount | scrape.py:165 | Helper: a match with no match before it is the leftmost |
| Status.ParseCountFirst | scrape.py:164-166 | Helper: without the zero marker, the count is the group of the leftmost match |
| Status.ZeroMarkerAnywhere | scrape.py:161-162 | Any page containing `0 results found`, such as one saying `10 results found`, counts as 0 |
| Status.ParseCountMissing | scrape.py:165-166 | A page containing neither `0 results found` nor `Displaying buildings ` gives the missing-status error |
| Status.NumberThen | scrape.py:165 | No contract of its own: `\d+` then a separator; NumberThenRun states what it matches |
| Status.CountIn | scrape.py:165 | No contract of its own: the regex anchored at a position; CountInStatusLine and CountInParts state when it matches |
| Status.CountAt | scrape.py:165 | No contract of its own: the regex tried at an index; CountAtShape, StatusLineAt and FirstCount state its matches |
| County.Replace | scrape.py:234 | The replaced county is never shorter than the given one |
| County.ReplaceLeavesNone | scrape.py:234 | No `NEWYORK` is left after the replacement |
| County.ReplaceUnchanged | scrape.py:234 | A county without `NEWYORK` is unchanged |
| County.ReplaceIdempotent | msr.py:184 | Replacing twice is replacing once |
| County.ReplaceOnlyAddsSpace | scrape.py:234 | The replacement only inserts spaces: the visible characters are the same |
| County.SpacedLooksJoined | scrape.py:234 | `NEW YORK` and `NEWYORK` differ only by whitespace |
| County.VisibleGap | scrape.py:234 | Two words joined by a space look like the words run together |
| County.ReplaceJoined | scrape.py:234 | `NEWYORK` becomes `NEW YORK` |
| County.PrefixWithoutN | scrape.py:234 | Replacement rewrites only text starting with `N`, so a prefix without `N` of the result is a prefix of the input |
| Transport.Send | scrape.py:82 | One request is appended to those sent. It is answered by the next scripted response exactly when one is left. Otherwise it fails with no response and the script is exhausted |
| Transport.Checked | scrape.py:97-101 | A POST is sent twice exactly when the variant is `scrape.py` and the first response's history is longer than 1. The response used is the last one received, with its history unchecked. `msr.py` sends it once |
| Transport.Session.constructor | scrape.py:236 | A new session has the whole script to come and nothing sent |
| Transport.Session.Request | scrape.py:82 | The session's new state and the result are those of `Send` |
| Transport.Session.Post | scrape.py:97-101 | The session's new state and the result are those of `Checked` |
| Protocol.CountReports | scrape.py:157-168 | `count` sends nothing after `firstpage`. It succeeds iff the first page came and its count parses, and it prints `county,zipcode,N`. A failure after the page came is the missing-status error |
| Protocol.FetchNext | scrape.py:210-220 | A successful page has a grid and consumes at least one scripted response |
| Protocol.Advance | scrape.py:207-222 | A turn that passes consumes at least one scripted response |
| Protocol.PrepareRequests | scrape.py:71-103 | `prepare` sends the GET (`Landing`: no form data, not asynchronous) first and one to three requests in all. On success it sends at least two, and exactly two in `msr.py`. The conversation before it is kept |
| Protocol.CheckedAppends | scrape.py:97-101 | A checked POST appends the request once or twice, last of all, and once in `msr.py` |
| Protocol.PrepareSends | scrape.py:82-101 | `prepare` succeeds only when the search page came and its tokens could be read. It then posts exactly those tokens with the zip-code search link as event target and an empty county, and that POST is the last request |
| Protocol.SelectCountyRequests | scrape.py:130-139 | Selecting the county sends the GET first and one to five requests in all. On success it sends at least three, and exactly three in `msr.py` |
| Protocol.SelectCountySends | scrape.py:130-139 | Selecting the county succeeds only when `prepare` did and its page's tokens could be read. It then posts the county form with exactly those tokens, as an asynchronous postback, and that postback is the last request |
| Protocol.FirstPageRequests | scrape.py:106-154 | `firstpage` sends the GET first and one to seven requests in all. On success it sends at least four, and exactly four in `msr.py` |
| Protocol.PrepareVerbs | scrape.py:82-101 | After its GET, `prepare` sends only POSTs |
| Protocol.FirstPageVerbs | msr.py:122-127 | After its GET, `firstpage` sends only POSTs; with FirstPageRequests, one GET and three POSTs in `msr.py` |
| Protocol.CheckedPosts | scrape.py:97-101 | A checked POST adds only POSTs |
| Protocol.FirstPageSubmits | scrape.py:143-154 | `firstpage` succeeds only when the county postback did and the tokens of its rebuilt payload could be read. The last request is then the zip form with exactly those tokens, as a plain (not asynchronous) POST. Its keys are the zip form's fields plus the six snapshot keys, and the zip form's values are kept |
| Protocol.SubmissionIsLast | scrape.py:146-152 | After the zip-code submission, the last request sent is that submission: the zip form with the given tokens, its six snapshot keys added and its own values kept |
| Protocol.ZipSubmission | scrape.py:127-146 | Adding the snapshot to the zip form adds its six keys and changes none of the form's values |
| Protocol.ZipSearchFields | scrape.py:91-94 | No contract of its own: the fields `prepare` adds to the snapshot; PrepareSends states that its POST is the snapshot updated with them |
| Protocol.CountyFields | scrape.py:113-122 | No contract of its own: `county_params`; SelectCountySends states that the county postback is this form updated with the tokens |
| Protocol.ZipFields | scrape.py:108-127 | No contract of its own: `zip_params` after its update with `basic`; FirstPageSubmits, SubmissionIsLast and ZipSubmission state the submission built from it |
| Protocol.NextFields | scrape.py:173-183 | No contract of its own: `next_params`; KeepsNextFields states that the token refresh keeps its own fields, and PagingSendsNext and ScrapeSendsNext that every paging request is it refreshed |
| Protocol.SubmissionCarriesPayloadTokens | scrape.py:143-147 | When the county postback's payload declares no element named like a token field, the zip-code submission, the last request, is the zip form plus exactly the snapshot of that payload: its four token values and the two empty auxiliary fields |
| Protocol.FetchNextResends | scrape.py:210-220 | A page costs one request, or two identical ones exactly when the first answer has no grid |
| Protocol.FetchNextAnswers | scrape.py:210-220 | A page is answered by the next one or two scripted responses. A failure is a network error or a second missing grid |
| Protocol.KeepsNextFields | scrape.py:208 | Refreshing the snapshot leaves the Next postback's own fields unchanged |
| Protocol.AdvanceSends | scrape.py:207-222 | A turn posts `next_params`, refreshed with the tokens of the page it started from, once or twice. When those tokens cannot be read it sends nothing and fails with their error |
| Protocol.AdvanceStops | scrape.py:208 | Helper: Unreadable tokens end the loop with their error before any request |
| Protocol.AdvanceFetches | scrape.py:208-220 | Helper: With readable tokens, the turn fetches with `next_params` updated by them |
| Protocol.FetchNextSends | scrape.py:210-218 | A page appends the same asynchronous postback once or twice |
| Protocol.PagingSendsNext | scrape.py:207-223 | Every request of the paging loop is the Next button's asynchronous postback for the county and zip code |
| Protocol.PagingRowsShape | scrape.py:207-223 | Every row the paging loop writes is non-empty and single-spaced |
| Protocol.ScrapeSendsNext | scrape.py:185-223 | After the first results page, `scrape` sends only Next postbacks for its county and zip code |
| Protocol.ScrapeRowsShape | scrape.py:199-223 | Every row `scrape` writes is non-empty and single-spaced |
| Protocol.ZeroResultsStop | scrape.py:188-190 | On a first page with the zero marker, `scrape` sends nothing more and writes nothing, and `count` reports `0` |
| Protocol.SinglePage | scrape.py:199-207 | On a first page without the Next button, its rows are all that `scrape` writes, and nothing more is sent |
| Protocol.PagingExtends | msr.py:164-175 | The loop keeps the conversation so far, and sends something iff the tokens of the page it starts from can be read |
| Protocol.NextIffMarker | scrape.py:207-222 | After a page of the loop, a further Next postback is sent iff that page's text contains `value="Next"` and its tokens can be read |
| Protocol.ScrapeNextIffMarker | scrape.py:200-210 | After a first page that passed the checks, a Next postback is sent iff its text contains `value="Next"` and its tokens can be read |
| Protocol.Prepare | scrape.py:71-103 | No contract of its own: PrepareRequests, PrepareSends and PrepareVerbs state what it sends; Scraper.Prepare ends in its state |
| Protocol.SelectCounty | scrape.py:130-139 | No contract of its own: SelectCountyRequests and SelectCountySends state what it sends |
| Protocol.FirstPage | scrape.py:106-154 | No contract of its own: FirstPageRequests, FirstPageVerbs, FirstPageSubmits and SubmissionCarriesPayloadTokens state what it sends; Scraper.FirstPage ends in its state |
| Protocol.Count | scrape.py:157-168 | No contract of its own: CountReports and ZeroResultsStop state its result |
| Protocol.Paging | scrape.py:207-223 | No contract of its own: PagingSendsNext, PagingRowsShape, PagingExtends and NextIffMarker state what the loop sends and writes; Scraper.PagingLoop ends in its state |
| Protocol.Results | scrape.py:188-223 | No contract of its own: ZeroResultsStop and SinglePage state its short cases; Scraper.Results ends in its state |
| Protocol.Scrape | scrape.py:171-223 | No contract of its own: ScrapeSendsNext, ScrapeRowsShape and ScrapeNextIffMarker state what it sends and writes; Scraper.Scrape ends in its state |
| Scraper.Prepare | scrape.py:71-103 | The imperative `prepare` ends in exactly the result and session state of `Protocol.Prepare` |
| Scraper.FirstPage | scrape.py:106-154 | The imperative `firstpage` ends in exactly the result and session state of `Protocol.FirstPage` |
| Scraper.Count | scrape.py:157-168 | The imperative `count` ends in exactly the result and session state of `Protocol.Count` |
| Scraper.FetchPage | scrape.py:210-220 | One page of the loop, with its one re-send on a missing table, ends in the state of `Protocol.FetchNext`. On success it has appended the page's rows; on failure it has written nothing |
| Scraper.PagingLoop | scrape.py:207-223 | The `while next_button` loop ends with the outcome and session of `Protocol.Paging` (nothing when it starts without the Next button). It appends that run's rows, page after page |
| Scraper.Results | msr.py:154-175 | After the first page, `scrape` ends with the outcome, session and rows of `Protocol.Results` |
| Scraper.Scrape | scrape.py:171-223 | `scrape` ends with the outcome, session and rows of `Protocol.Scrape`, appended after what the writer held |

## Left out

- The HTTP session's headers, cookies and URL are left out. Every request goes to the one endpoint. A response is a scripted value carrying its text, redirect-history length and parsed document. A network error is an exhausted script.
- `sleep()` is left out: random delays do not change what is sent or written.
- BeautifulSoup's parsing is not modelled. A parsed document is its elements in order plus its first `table.grid`. `construct_soup` is modelled as the payload's own parsed elements followed by the four synthesised inputs. This assumes the parser reads each line `InputLine(e)` of `Tokens.SynthesizedMarkup` as the element `e`. Values that contain `"` or markup are not re-parsed.
- `\s`, `\d` and `str.isspace()` are modelled on ASCII only. Unicode whitespace and digits are not modelled.
- Request bodies are maps. The order in which a Python dict lists its form fields, and so the order of the fields in the encoded body, is not modelled.
- `csv.writer` serialisation (quoting, line terminators) is left out. The writer is modelled as the list of rows it received.
- Printing to stdout and stderr is left out. `count`'s line is its result, and the progress messages are dropped.
- `argparse` and `main` are left out, and so is `msr.py`'s catch-all exception print. Both scripts' `main` is modelled only by its county replacement.
- `install_dependencies` and the import fallback of `msr.py` are left out: they concern the environment, not the scraper.
- Protocol.Count: `count` prints the integer `0` in the zero case and the captured digit string otherwise. The model returns the string `"0"` for the former, which prints identically.
- Protocol.Scrape: the status line's total, which `scrape` only prints, is not kept. Only whether the regex matches is modelled, because a missing match raises.
- The literal example `"  Foo\n\nBar  "` is stated for all such inputs (Grid.CleanCellTwoWords), not as the one string.
