/** The HTTP session, seen from the scripts: every request goes to the one
    endpoint and is answered by the next response of a script. An exhausted
    script stands for a request that fails (a network error). */
module Transport {
  import opened Wrappers
  import opened Page

  /** The state of the conversation with the portal: the responses still to
      come and every request sent so far, oldest first. */
  datatype Wire = Wire(pending: seq<Response>, sent: seq<Request>)

  /** The result of one step of the conversation and the conversation after it. */
  datatype Step<+T> = Step(out: Result<T, Error>, wire: Wire)

  /** `session.get`/`session.post` once: the request is sent and the next
      scripted response, if any, answers it. */
  function Send(w: Wire, req: Request): (s: Step<Response>)
    ensures s.wire.sent == w.sent + [req]
    ensures s.out.Success? <==> w.pending != []
    ensures s.out.Success? ==> s.out.value == w.pending[0] && s.wire.pending == w.pending[1..]
    ensures s.out.Failure? ==> s.out.error == NoResponse && s.wire.pending == []
  {
    if w.pending == [] then Step(Failure(NoResponse), Wire([], w.sent + [req]))
    else Step(Success(w.pending[0]), Wire(w.pending[1..], w.sent + [req]))
  }

  /** A POST whose redirect history `scrape.py` checks: when the response came
      after more than one redirect, the same request is sent once more and its
      response is used, whatever its history. `msr.py` never re-sends. */
  function Checked(v: Variant, w: Wire, req: Request): (s: Step<Response>)
    ensures s.wire.sent == w.sent + [req] || s.wire.sent == w.sent + [req, req]
    ensures s.wire.sent == w.sent + [req, req] <==>
              v == ScrapePy && w.pending != [] && w.pending[0].history > 1
    ensures s.out.Success? ==>
              && |s.wire.sent| - |w.sent| <= |w.pending|
              && s.out.value == w.pending[|s.wire.sent| - |w.sent| - 1]
              && s.wire.pending == w.pending[|s.wire.sent| - |w.sent|..]
    ensures s.out.Failure? ==> s.out.error == NoResponse
  {
    var first := Send(w, req);
    if first.out.Success? && v == ScrapePy && first.out.value.history > 1 then
      var second := Send(first.wire, req);
      assert |w.pending| >= 2 ==> w.pending[1..][1..] == w.pending[2..];
      second
    else
      first
  }

  /** The session: the scripted responses still to come and the requests sent. */
  class Session {
    var pending: seq<Response>
    var sent: seq<Request>

    constructor (script: seq<Response>)
      ensures pending == script && sent == []
    {
      pending := script;
      sent := [];
    }

    function State(): Wire
      reads this
    {
      Wire(pending, sent)
    }

    /** One request, answered by the next scripted response. */
    method Request(req: Request) returns (r: Result<Response, Error>)
      modifies this
      ensures Step(r, State()) == Send(old(State()), req)
    {
      sent := sent + [req];
      if pending == [] {
        r := Failure(NoResponse);
      } else {
        r := Success(pending[0]);
        pending := pending[1..];
      }
    }

    /** A POST followed by the redirect-history check of the variant. */
    method Post(v: Variant, req: Request) returns (r: Result<Response, Error>)
      modifies this
      ensures Step(r, State()) == Checked(v, old(State()), req)
    {
      r := Request(req);
      if r.Success? && v == ScrapePy && r.value.history > 1 {
        r := Request(req);
      }
    }
  }
}
