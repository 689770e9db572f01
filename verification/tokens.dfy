/** The anti-tamper tokens: reading them from a parsed page (`dumb_params`) and
    from a partial-postback payload (`construct_soup`). */
module Tokens {
  import opened Wrappers
  import opened Text
  import opened Page

  const ViewState := "__VIEWSTATE"
  const EventValidation := "__EVENTVALIDATION"
  const ViewStateGenerator := "__VIEWSTATEGENERATOR"
  const ViewStateEncrypted := "__VIEWSTATEENCRYPTED"
  const EventArgument := "__EVENTARGUMENT"
  const LastFocus := "__LASTFOCUS"

  /** The four token fields, in the order both scripts read them. */
  const TokenFields: seq<string> := [ViewState, EventValidation, ViewStateGenerator, ViewStateEncrypted]

  /** The six keys of every snapshot: the four tokens and the two auxiliary fields. */
  const SnapshotKeys: set<string> :=
    {ViewState, EventValidation, ViewStateGenerator, ViewStateEncrypted, EventArgument, LastFocus}

  /** The snapshot keys are the token fields and the two auxiliary fields, which are not token fields. */
  lemma SnapshotKeysSplit()
    ensures EventArgument !in TokenFields && LastFocus !in TokenFields
    ensures (set f | f in TokenFields) + {EventArgument, LastFocus} == SnapshotKeys
  {
  }

  /** Form fields sent with a postback, as a Python dict. */
  type Params = map<string, string>

  predicate HasName(e: Element, name: string) {
    "name" in e.attrs && e.attrs["name"] == name
  }

  /** Element `i` is the first one named `name`. */
  predicate FirstNamedAt(elements: seq<Element>, name: string, i: nat) {
    && i < |elements|
    && HasName(elements[i], name)
    && (forall j | 0 <= j < i :: !HasName(elements[j], name))
  }

  /** The index of the first element whose name attribute is `name`, if any. */
  function FirstNamed(elements: seq<Element>, name: string): (r: Option<nat>)
    ensures r.Some? ==> FirstNamedAt(elements, name, r.value)
    ensures r.None? ==> forall i | 0 <= i < |elements| :: !HasName(elements[i], name)
  {
    if elements == [] then None
    else if HasName(elements[0], name) then Some(0)
    else match FirstNamed(elements[1..], name)
      case None => None
      case Some(i) =>
        assert forall j | 0 < j <= i :: elements[j] == elements[1..][j - 1];
        Some(i + 1)
  }

  /** `soup.find(attrs={'name': name})`: the first element whose name attribute is `name`. */
  function FindByName(elements: seq<Element>, name: string): (r: Option<Element>)
    ensures r.None? <==> forall i | 0 <= i < |elements| :: !HasName(elements[i], name)
    ensures r.Some? ==> exists i: nat :: FirstNamedAt(elements, name, i) && elements[i] == r.value
  {
    match FirstNamed(elements, name)
    case None => None
    case Some(i) => Some(elements[i])
  }

  lemma FirstNamedUnique(elements: seq<Element>, name: string, i: nat, j: nat)
    requires FirstNamedAt(elements, name, i) && FirstNamedAt(elements, name, j)
    ensures i == j
  {
  }

  /** Past elements that do not carry the name, the search goes on into what follows. */
  lemma {:induction false} FirstNamedAppend(a: seq<Element>, b: seq<Element>, name: string)
    requires forall i | 0 <= i < |a| :: !HasName(a[i], name)
    ensures FirstNamed(a + b, name) ==
              if FirstNamed(b, name).None? then None else Some(|a| + FirstNamed(b, name).value)
  {
    if a == [] {
      assert a + b == b;
    } else {
      assert (a + b)[0] == a[0];
      assert (a + b)[1..] == a[1..] + b;
      FirstNamedAppend(a[1..], b, name);
    }
  }

  /** The first named element is found past elements that do not carry the name. */
  lemma FindByNameAppend(a: seq<Element>, b: seq<Element>, name: string)
    requires forall i | 0 <= i < |a| :: !HasName(a[i], name)
    ensures FindByName(a + b, name) == FindByName(b, name)
  {
    FirstNamedAppend(a, b, name);
    if FirstNamed(b, name).Some? {
      var i := FirstNamed(b, name).value;
      assert (a + b)[|a| + i] == b[i];
    }
  }

  /** One token as a page yields it: the value attribute of the first element named
      `name`. An absent element is an error in both scripts; an element without a
      value attribute is a KeyError in `scrape.py` and reads as `''` in `msr.py`. */
  function ReadToken(v: Variant, doc: Document, name: string): Result<string, Error> {
    match FindByName(doc.elements, name)
    case None => Failure(MissingElement(name))
    case Some(e) =>
      if "value" in e.attrs then Success(e.attrs["value"])
      else if v == MsrPy then Success("")
      else Failure(MissingValue(name))
  }

  /** The position of the first field, in order, whose token cannot be read. */
  function FirstUnreadable(v: Variant, doc: Document, fields: seq<string>): (r: Option<nat>)
    ensures r.Some? ==> r.value < |fields| && ReadToken(v, doc, fields[r.value]).Failure?
    ensures r.Some? ==> forall j | 0 <= j < r.value :: ReadToken(v, doc, fields[j]).Success?
    ensures r.None? ==> forall j | 0 <= j < |fields| :: ReadToken(v, doc, fields[j]).Success?
  {
    if fields == [] then None
    else if ReadToken(v, doc, fields[0]).Failure? then Some(0)
    else
      var rest := FirstUnreadable(v, doc, fields[1..]);
      assert forall j | 0 < j < |fields| :: fields[j] == fields[1..][j - 1];
      if rest.None? then None else Some(rest.value + 1)
  }

  /** The dict comprehension `{f: <token f> for f in fields}`, which maps every
      field, and only those, to its token. */
  function ReadTokens(v: Variant, doc: Document, fields: seq<string>): (r: Result<Params, Error>)
    ensures r.Success? ==> r.value.Keys == (set f | f in fields)
  {
    match FirstUnreadable(v, doc, fields)
    case Some(k) => Failure(ReadToken(v, doc, fields[k]).error)
    case None => Success(map f | f in fields :: ReadToken(v, doc, f).value)
  }

  /** The comprehension fails with the error of the first field, in order,
      that cannot be read, exactly when one cannot; otherwise each field maps to
      its token. */
  lemma ReadTokensReads(v: Variant, doc: Document, fields: seq<string>)
    ensures var r := ReadTokens(v, doc, fields);
            && (r.Success? <==> forall f | f in fields :: ReadToken(v, doc, f).Success?)
            && (r.Success? ==> forall f | f in fields :: r.value[f] == ReadToken(v, doc, f).value)
            && (r.Failure? ==> exists k | 0 <= k < |fields| ::
                  && ReadToken(v, doc, fields[k]) == Failure(r.error)
                  && forall j | 0 <= j < k :: ReadToken(v, doc, fields[j]).Success?)
  {
    var u := FirstUnreadable(v, doc, fields);
    if u.None? {
      assert forall f | f in fields :: exists j | 0 <= j < |fields| :: fields[j] == f;
    }
  }

  /** `dumb_params`: the snapshot a postback must carry, with exactly the six
      snapshot keys. */
  function DumbParams(v: Variant, doc: Document): (r: Result<Params, Error>)
    ensures r.Success? ==> r.value.Keys == SnapshotKeys
  {
    var tokens :- ReadTokens(v, doc, TokenFields);
    SnapshotKeysSplit();
    Success(tokens[EventArgument := ""][LastFocus := ""])
  }

  /** The two auxiliary fields of a snapshot are empty and each token is the
      value ReadToken gives; `dumb_params` fails, with the error of the first
      token in field order that cannot be read, exactly when one of them cannot
      be read. */
  lemma DumbParamsReads(v: Variant, doc: Document)
    ensures var r := DumbParams(v, doc);
            && (r.Success? <==> forall f | f in TokenFields :: ReadToken(v, doc, f).Success?)
            && (r.Success? ==> r.value[EventArgument] == "" && r.value[LastFocus] == "")
            && (r.Success? ==> forall f | f in TokenFields :: r.value[f] == ReadToken(v, doc, f).value)
            && (r.Failure? ==> exists k | 0 <= k < 4 ::
                  && ReadToken(v, doc, TokenFields[k]) == Failure(r.error)
                  && forall j | 0 <= j < k :: ReadToken(v, doc, TokenFields[j]).Success?)
  {
    SnapshotKeysSplit();
    ReadTokensReads(v, doc, TokenFields);
    var r := ReadTokens(v, doc, TokenFields);
    if r.Success? {
      assert DumbParams(v, doc) == Success(r.value[EventArgument := ""][LastFocus := ""]);
    } else {
      assert DumbParams(v, doc) == Failure(r.error);
    }
  }

  /** `msr.py` reads an element that lacks a value attribute as `''`, where
      `scrape.py` raises. */
  lemma MsrMissingValueIsEmpty(doc: Document, name: string)
    requires FindByName(doc.elements, name).Some?
    requires "value" !in FindByName(doc.elements, name).value.attrs
    ensures ReadToken(MsrPy, doc, name) == Success("")
    ensures ReadToken(ScrapePy, doc, name) == Failure(MissingValue(name))
  {
  }

  // ---- the partial-postback payload ----

  /** The regex `__NAME\|([^|]*)\|` matches at `i`: the key `__NAME|` starts there
      and a further `|` follows it somewhere. */
  predicate MatchesAt(text: string, key: string, i: nat) {
    OccursAt(text, key, i) && '|' in text[i + |key|..]
  }

  /** The leftmost index at or after `from` where the regex matches. */
  function FirstMatch(text: string, key: string, from: nat): (r: Option<nat>)
    ensures r.Some? ==> from <= r.value <= |text| && MatchesAt(text, key, r.value)
    ensures r.Some? ==> forall j: nat | from <= j < r.value :: !MatchesAt(text, key, j)
    ensures r.None? ==> forall j: nat | from <= j <= |text| :: !MatchesAt(text, key, j)
    decreases |text| - from
  {
    if from > |text| then None
    else if MatchesAt(text, key, from) then Some(from)
    else FirstMatch(text, key, from + 1)
  }

  /** The text up to, not including, the first `|`: what `[^|]*` matches before a `|`. */
  function UpToPipe(s: string): string {
    if s == [] || s[0] == '|' then [] else [s[0]] + UpToPipe(s[1..])
  }

  /** The value holds no `|`. */
  lemma {:induction false} UpToPipeNoPipe(s: string)
    ensures '|' !in UpToPipe(s)
  {
    if s != [] && s[0] != '|' {
      UpToPipeNoPipe(s[1..]);
    }
  }

  /** When the text has a `|`, the value and that `|` start it. */
  lemma {:induction false} UpToPipeThenPipe(s: string)
    requires '|' in s
    ensures UpToPipe(s) + "|" <= s
  {
    if s[0] != '|' {
      assert s == [s[0]] + s[1..];
      UpToPipeThenPipe(s[1..]);
    }
  }

  /** The value the payload gives the field `name`: the text between the first
      `name|` that a later `|` closes and that `|`; `''` when there is none. */
  function DeltaValue(text: string, name: string): string {
    var m := FirstMatch(text, name + "|", 0);
    if m.None? then "" else UpToPipe(text[m.value + |name| + 1..])
  }

  /** The value holds no `|`; it is `''` when the regex matches nowhere; and where
      it first matches, the text there reads `name|`, the value, then `|`. */
  lemma DeltaValueFound(text: string, name: string)
    ensures '|' !in DeltaValue(text, name)
    ensures (forall i: nat | i <= |text| :: !MatchesAt(text, name + "|", i)) ==> DeltaValue(text, name) == ""
  {
    var m := FirstMatch(text, name + "|", 0);
    if m.Some? {
      var rest := text[m.value + |name| + 1..];
      assert DeltaValue(text, name) == UpToPipe(rest);
      UpToPipeNoPipe(rest);
      assert MatchesAt(text, name + "|", m.value);
    } else {
      assert DeltaValue(text, name) == "";
    }
  }

  /** Where the regex first matches, the text reads `name|`, the value, then `|`. */
  lemma DeltaValueAtFirstMatch(text: string, name: string, i: nat)
    requires FirstMatch(text, name + "|", 0) == Some(i)
    ensures name + "|" + DeltaValue(text, name) + "|" <= text[i..]
  {
    ValueBetweenPipes(text, name, i, DeltaValue(text, name));
  }

  /** The leftmost match is the one no earlier match precedes. */
  lemma FirstMatchIs(text: string, key: string, i: nat)
    requires MatchesAt(text, key, i)
    requires forall j: nat | j < i :: !MatchesAt(text, key, j)
    ensures FirstMatch(text, key, 0) == Some(i)
  {
  }

  /** Where the regex matches, the key, the value up to the pipe and the pipe
      are what the text reads from there. */
  lemma ValueBetweenPipes(text: string, name: string, i: nat, value: string)
    requires MatchesAt(text, name + "|", i)
    requires value == UpToPipe(text[i + |name| + 1..])
    ensures name + "|" + value + "|" <= text[i..]
  {
    var rest := text[i + |name| + 1..];
    assert text[i..] == name + "|" + rest;
    UpToPipeThenPipe(rest);
  }

  /** A hidden input element as the synthesised markup declares it. */
  function Input(name: string, value: string): Element {
    Element(map["value" := value, "name" := name])
  }

  /** An attribute of an element, or `''` when it has none. */
  function AttrOr(e: Element, key: string): string {
    if key in e.attrs then e.attrs[key] else ""
  }

  /** The template's `<input>` tag for a value and a name. */
  function Tag(value: string, name: string): string {
    "<input value=\"" + value + "\" name=\"" + name + "\" />"
  }

  /** The tag the template writes for a hidden input element: its value, then its name. */
  function InputLine(e: Element): string {
    Tag(AttrOr(e, "value"), AttrOr(e, "name"))
  }

  /** The line break and indentation between two input lines of the template. */
  const LineBreak := "\n        "

  /** The four `<input>` lines `construct_soup` appends, in field order: each
      holds the payload's value for its field and is named after the field. */
  function InputsMarkup(text: string): string {
    " " + Tag(DeltaValue(text, ViewState), ViewState)
    + LineBreak + Tag(DeltaValue(text, EventValidation), EventValidation)
    + LineBreak + Tag(DeltaValue(text, ViewStateGenerator), ViewStateGenerator)
    + LineBreak + Tag(DeltaValue(text, ViewStateEncrypted), ViewStateEncrypted)
  }

  /** The markup `construct_soup` hands to the parser: the payload, unchanged,
      then one input line for each element ConstructSoup appends, in order. */
  function SynthesizedMarkup(text: string): (r: string)
    ensures text <= r
    ensures r[|text|..] == " " + InputLine(TokenInputs(text)[0]) + LineBreak + InputLine(TokenInputs(text)[1])
                           + LineBreak + InputLine(TokenInputs(text)[2]) + LineBreak + InputLine(TokenInputs(text)[3])
  {
    InputsMarkupLines(text);
    text + InputsMarkup(text)
  }

  /** The input line of `Input(name, value)` is the template's tag for that
      name and value. */
  lemma InputLineOfInput(name: string, value: string)
    ensures InputLine(Input(name, value)) == Tag(value, name)
  {
  }

  /** The template's four lines are the input lines of the four elements
      ConstructSoup appends, in field order. */
  lemma InputsMarkupLines(text: string)
    ensures InputsMarkup(text) == " " + InputLine(TokenInputs(text)[0]) + LineBreak + InputLine(TokenInputs(text)[1])
                                  + LineBreak + InputLine(TokenInputs(text)[2]) + LineBreak + InputLine(TokenInputs(text)[3])
  {
    TokenInputsAt(text);
    InputLineOfInput(ViewState, DeltaValue(text, ViewState));
    InputLineOfInput(EventValidation, DeltaValue(text, EventValidation));
    InputLineOfInput(ViewStateGenerator, DeltaValue(text, ViewStateGenerator));
    InputLineOfInput(ViewStateEncrypted, DeltaValue(text, ViewStateEncrypted));
  }

  /** One hidden input per field of `fields`, in order, named after the field
      and holding the payload's value for it. */
  function InputsFor(text: string, fields: seq<string>): (r: seq<Element>)
    ensures |r| == |fields|
  {
    if fields == [] then [] else [Input(fields[0], DeltaValue(text, fields[0]))] + InputsFor(text, fields[1..])
  }

  /** Input `k` is the one for field `k`. */
  lemma {:induction false} InputsForAt(text: string, fields: seq<string>)
    ensures forall k | 0 <= k < |fields| :: InputsFor(text, fields)[k] == Input(fields[k], DeltaValue(text, fields[k]))
  {
    if fields != [] {
      InputsForAt(text, fields[1..]);
    }
  }

  /** The hidden inputs `construct_soup` appends: one per token field. */
  function TokenInputs(text: string): (r: seq<Element>)
    ensures |r| == 4
  {
    InputsFor(text, TokenFields)
  }

  /** The inputs appear in field order, each named after its field and holding
      the payload's value for it. */
  lemma TokenInputsAt(text: string)
    ensures forall k | 0 <= k < 4 :: TokenInputs(text)[k] == Input(TokenFields[k], DeltaValue(text, TokenFields[k]))
  {
    InputsForAt(text, TokenFields);
  }

  /** `construct_soup`, seen through the parser: the payload's own elements followed
      by the token inputs; the grid is the payload's. */
  function ConstructSoup(resp: Response): (d: Document)
    ensures d.grid == resp.doc.grid
  {
    Document(resp.doc.elements + TokenInputs(resp.text), resp.doc.grid)
  }

  /** The snapshot a partial-postback payload carries: its four token values and the two empty auxiliary fields. */
  function DeltaSnapshot(text: string): Params {
    DeltaTokens(text)[EventArgument := ""][LastFocus := ""]
  }

  /** The `vals` dict `construct_soup` fills: each token field mapped to the payload's value for it. */
  function DeltaTokens(text: string): Params {
    map f | f in TokenFields :: DeltaValue(text, f)
  }

  /** No element of the payload's own document is named like a token field. */
  predicate NoTokenElements(doc: Document) {
    forall i, f | 0 <= i < |doc.elements| && f in TokenFields :: !HasName(doc.elements[i], f)
  }

  lemma TokenFieldsDistinct()
    ensures forall i, j | 0 <= i < j < 4 :: TokenFields[i] != TokenFields[j]
  {
  }

  /** The first input named after field `k` is the `k`-th. */
  lemma FirstInputNamed(text: string, k: nat)
    requires k < 4
    ensures FindByName(TokenInputs(text), TokenFields[k]) == Some(Input(TokenFields[k], DeltaValue(text, TokenFields[k])))
  {
    var inputs := TokenInputs(text);
    TokenInputsAt(text);
    TokenFieldsDistinct();
    assert FirstNamedAt(inputs, TokenFields[k], k);
    FirstNamedUnique(inputs, TokenFields[k], FirstNamed(inputs, TokenFields[k]).value, k);
  }

  /** One token read back from the synthesised document is the payload's value. */
  lemma ReadTokenOfConstructedSoup(v: Variant, resp: Response, k: nat)
    requires NoTokenElements(resp.doc) && k < 4
    ensures ReadToken(v, ConstructSoup(resp), TokenFields[k]) == Success(DeltaValue(resp.text, TokenFields[k]))
  {
    var name := TokenFields[k];
    var inputs := TokenInputs(resp.text);
    assert ConstructSoup(resp).elements == resp.doc.elements + inputs;
    assert name in TokenFields;
    FindByNameAppend(resp.doc.elements, inputs, name);
    FirstInputNamed(resp.text, k);
    var e := Input(name, DeltaValue(resp.text, name));
    assert FindByName(ConstructSoup(resp).elements, name) == Some(e);
    assert "value" in e.attrs && e.attrs["value"] == DeltaValue(resp.text, name);
  }

  lemma EachTokenOfConstructedSoup(v: Variant, resp: Response)
    requires NoTokenElements(resp.doc)
    ensures forall f | f in TokenFields :: ReadToken(v, ConstructSoup(resp), f) == Success(DeltaValue(resp.text, f))
  {
    forall f | f in TokenFields
      ensures ReadToken(v, ConstructSoup(resp), f) == Success(DeltaValue(resp.text, f))
    {
      var k :| 0 <= k < 4 && TokenFields[k] == f;
      ReadTokenOfConstructedSoup(v, resp, k);
    }
  }

  /** All four tokens read back from the synthesised document are the payload's values. */
  lemma ReadTokensOfConstructedSoup(v: Variant, resp: Response)
    requires NoTokenElements(resp.doc)
    ensures ReadTokens(v, ConstructSoup(resp), TokenFields)
            == Success(DeltaTokens(resp.text))
  {
    EachTokenOfConstructedSoup(v, resp);
    ReadTokensAllRead(v, ConstructSoup(resp), TokenFields, DeltaTokens(resp.text));
  }

  /** When every token field reads as `vals` says, the comprehension yields `vals`. */
  lemma ReadTokensAllRead(v: Variant, doc: Document, fields: seq<string>, vals: Params)
    requires vals.Keys == (set f | f in fields)
    requires forall f | f in fields :: ReadToken(v, doc, f) == Success(vals[f])
    ensures ReadTokens(v, doc, fields) == Success(vals)
  {
    assert forall j | 0 <= j < |fields| :: ReadToken(v, doc, fields[j]).Success?;
    assert FirstUnreadable(v, doc, fields).None?;
    var m := map f | f in fields :: ReadToken(v, doc, f).value;
    assert m.Keys == vals.Keys;
    forall f | f in m.Keys
      ensures m[f] == vals[f]
    {
    }
    assert m == vals;
  }

  /** Reading the tokens back from the synthesised document gives exactly the
      payload's values, in both scripts, whenever the payload itself declares no
      element with a token field's name. */
  lemma DumbParamsOfConstructedSoup(v: Variant, resp: Response)
    requires NoTokenElements(resp.doc)
    ensures DumbParams(v, ConstructSoup(resp)) == Success(DeltaSnapshot(resp.text))
  {
    ReadTokensOfConstructedSoup(v, resp);
  }
}
