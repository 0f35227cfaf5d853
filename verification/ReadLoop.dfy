/**
  What a Go peer does with one incoming message set (go/jsonrpc3/peer.go,
  go/jsonrpc3/jsonrpc3.go): classify it, handle requests, hand responses to the
  calls waiting for them, refuse a mixture.
*/
module ReadLoop {
  import opened Basics
  import opened Values
  import opened Messages
  import opened GoHandler

  /** One decoded message; nothing stops it from being a request and a response at once, or neither. */
  datatype Message = Message(ref: string, name: string, params: Value, result: Option<Value>, error: Option<int>, id: Option<Id>) {
    predicate IsRequest() { name != "" }

    predicate IsResponse() { result.Some? || error.Some? }
  }

  function ToRequest(m: Message): Option<Request> {
    if m.IsRequest() then Some(Request(m.id, m.ref, m.name, m.params)) else None
  }

  function ToResponse(m: Message): Option<Response> {
    if m.IsResponse() then Some(Response(m.id, if m.error.Some? then Fail(m.error.value) else Done(m.result.value))) else None
  }

  function FromRequest(r: Request): Message {
    Message(r.ref, r.name, r.params, None, None, r.id)
  }

  /** A nil result is left out of the message. */
  function FromResponse(r: Response): Message {
    match r.outcome
    case Done(v) => Message("", "", Absent, if v == Absent then None else Some(v), None, r.id)
    case Fail(code) => Message("", "", Absent, None, Some(code), r.id)
  }

  /** Converting to a message and back loses a request without a method name and a nil result, and nothing else. */
  lemma RoundTrips(q: Request, r: Response)
    ensures ToRequest(FromRequest(q)) == Some(q) <==> q.name != ""
    ensures ToResponse(FromResponse(r)) == Some(r) <==> r.outcome != Done(Absent)
    ensures !FromRequest(q).IsResponse() && ToRequest(FromResponse(r)) == None
  {
  }

  predicate AllRequests(ms: seq<Message>) {
    forall i | 0 <= i < |ms| :: ms[i].IsRequest()
  }

  predicate AllResponses(ms: seq<Message>) {
    forall i | 0 <= i < |ms| :: ms[i].IsResponse()
  }

  method Classify(ms: seq<Message>) returns (allRequests: bool, allResponses: bool)
    ensures allRequests == AllRequests(ms) && allResponses == AllResponses(ms)
  {
    allRequests, allResponses := true, true;
    for i := 0 to |ms|
      invariant allRequests == AllRequests(ms[..i]) && allResponses == AllResponses(ms[..i])
    {
      assert ms[..i + 1] == ms[..i] + [ms[i]];
      if !ms[i].IsRequest() {
        allRequests := false;
      }
      if !ms[i].IsResponse() {
        allResponses := false;
      }
    }
    assert ms[..|ms|] == ms;
  }

  function Requests(ms: seq<Message>): (r: seq<Request>)
    requires AllRequests(ms)
    ensures |r| == |ms| && forall i | 0 <= i < |ms| :: Some(r[i]) == ToRequest(ms[i])
  {
    seq(|ms|, i requires 0 <= i < |ms| => ToRequest(ms[i]).value)
  }

  method ToBatch(ms: seq<Message>) returns (batch: Option<seq<Request>>)
    ensures batch == if AllRequests(ms) then Some(Requests(ms)) else None
  {
    var requests: seq<Request> := [];
    for i := 0 to |ms|
      invariant |requests| == i && forall j | 0 <= j < i :: ms[j].IsRequest() && Some(requests[j]) == ToRequest(ms[j])
    {
      if !ms[i].IsRequest() {
        return None;
      }
      requests := requests + [Request(ms[i].id, ms[i].ref, ms[i].name, ms[i].params)];
    }
    assert requests == Requests(ms);
    return Some(requests);
  }

  /** The refusals of a set: one per request with an id. */
  function Refusals(ms: seq<Message>, code: int): seq<Response> {
    if ms == [] then []
    else
      var m := ms[|ms| - 1];
      Refusals(ms[..|ms| - 1], code) + if m.IsRequest() && m.id.Some? then [Response(m.id, Fail(code))] else []
  }

  method SendErrorForBatch(ms: seq<Message>, code: int) returns (responses: seq<Response>)
    ensures responses == Refusals(ms, code)
  {
    responses := [];
    for i := 0 to |ms|
      invariant responses == Refusals(ms[..i], code)
    {
      assert ms[..i + 1][..i] == ms[..i];
      if ms[i].IsRequest() {
        var req := ToRequest(ms[i]);
        if req.value.id.Some? {
          responses := responses + [Response(req.value.id, Fail(code))];
        }
      }
    }
    assert ms[..|ms|] == ms;
  }

  function Taken(ms: seq<Message>): (r: seq<Response>)
    requires AllResponses(ms)
    ensures |r| == |ms| && forall i | 0 <= i < |ms| :: Some(r[i]) == ToResponse(ms[i])
  {
    seq(|ms|, i requires 0 <= i < |ms| => ToResponse(ms[i]).value)
  }

  /** The new state, the responses sent back, and the responses handed to waiting calls. */
  datatype Reaction<W> = Reaction(st: State<W>, sent: seq<Response>, taken: seq<Response>)

  /** A set that is not a batch is a single message. */
  predicate WellFormed(ms: seq<Message>, isBatch: bool) {
    isBatch || |ms| == 1
  }

  function React<W>(srv: Server<W>, ms: seq<Message>, isBatch: bool, st: State<W>): Reaction<W>
    requires WellFormed(ms, isBatch)
  {
    if AllRequests(ms) && isBatch then
      var p := HandleAll(srv, Requests(ms), st);
      Reaction(p.st, p.responses, [])
    else if AllRequests(ms) then
      var p := Append([], Handle(srv, Requests(ms)[0], st));
      Reaction(p.st, p.responses, [])
    else if AllResponses(ms) then Reaction(st, [], Taken(ms))
    else Reaction(st, Refusals(ms, INVALID_REQUEST), [])
  }

  method ReadOne<W>(h: Handler<W>, ms: seq<Message>, isBatch: bool) returns (sent: seq<Response>, taken: seq<Response>)
    requires WellFormed(ms, isBatch)
    modifies h, h.session
    ensures Reaction(h.Now(), sent, taken) == React(h.srv, ms, isBatch, old(h.Now()))
  {
    sent, taken := [], [];
    var allRequests, allResponses := Classify(ms);
    if allRequests && isBatch {
      var batch := ToBatch(ms);
      sent := h.HandleBatch(batch.value);
    } else if allRequests {
      var resp := h.HandleRequest(ToRequest(ms[0]).value);
      if resp.Some? {
        sent := [resp.value];
      }
    } else if allResponses {
      for i := 0 to |ms|
        invariant taken == Taken(ms)[..i] && h.Now() == old(h.Now())
      {
        taken := taken + [ToResponse(ms[i]).value];
      }
    } else {
      sent := SendErrorForBatch(ms, INVALID_REQUEST);
    }
  }

  // ----- messages arrive as what they were sent as -----

  function AsMessages(rs: seq<Response>): (ms: seq<Message>)
    ensures |ms| == |rs|
  {
    seq(|rs|, i requires 0 <= i < |rs| => FromResponse(rs[i]))
  }

  function AsCalls(qs: seq<Request>): (ms: seq<Message>)
    ensures |ms| == |qs|
  {
    seq(|qs|, i requires 0 <= i < |qs| => FromRequest(qs[i]))
  }

  lemma ResponsesCarried(rs: seq<Response>)
    requires rs != [] && forall r | r in rs :: r.outcome != Done(Absent)
    ensures AllResponses(AsMessages(rs)) && !AllRequests(AsMessages(rs)) && Taken(AsMessages(rs)) == rs
  {
    var ms := AsMessages(rs);
    forall i | 0 <= i < |rs| ensures ms[i].IsResponse() && ToResponse(ms[i]) == Some(rs[i]) {
      assert rs[i] in rs;
      RoundTrips(Request(None, "", "", Absent), rs[i]);
    }
    assert !ms[0].IsRequest();
  }

  lemma CallsCarried(qs: seq<Request>)
    requires forall q | q in qs :: q.name != ""
    ensures AllRequests(AsCalls(qs)) && Requests(AsCalls(qs)) == qs
  {
    forall i | 0 <= i < |qs| ensures AsCalls(qs)[i].IsRequest() && ToRequest(AsCalls(qs)[i]) == Some(qs[i]) {
      assert qs[i] in qs;
      RoundTrips(qs[i], Response(None, Done(Null)));
    }
  }

  /**
    Responses, in a batch or alone, are handed to the waiting calls each and all, in order and as
    they were sent, unless one has a nil result. Nothing runs and nothing is sent back.
  */
  lemma ResponsesHandedOn<W>(srv: Server<W>, rs: seq<Response>, isBatch: bool, st: State<W>)
    requires rs != [] && (isBatch || |rs| == 1) && forall r | r in rs :: r.outcome != Done(Absent)
    ensures React(srv, AsMessages(rs), isBatch, st) == Reaction(st, [], rs)
  {
    ResponsesCarried(rs);
  }

  /** A set with a nil result among its responses hands nothing on. */
  lemma NilHandsNothingOn<W>(srv: Server<W>, rs: seq<Response>, isBatch: bool, st: State<W>)
    requires (isBatch || |rs| == 1) && exists r :: r in rs && r.outcome == Done(Absent)
    ensures React(srv, AsMessages(rs), isBatch, st) == Reaction(st, [], [])
  {
    var ms := AsMessages(rs);
    var r :| r in rs && r.outcome == Done(Absent);
    var i :| 0 <= i < |rs| && rs[i] == r;
    assert !ms[i].IsResponse() && !ms[i].IsRequest();
    forall j | 0 <= j < |ms| ensures !ms[j].IsRequest() {
    }
    ResponsesAskNothing(ms);
    RefusalsAnswer(ms, INVALID_REQUEST);
    NothingRefused(ms);
  }

  lemma {:induction false} NothingRefused(ms: seq<Message>)
    requires forall i | 0 <= i < |ms| :: !ms[i].IsRequest()
    ensures Refusals(ms, INVALID_REQUEST) == []
    decreases ms
  {
    if ms != [] {
      NothingRefused(ms[..|ms| - 1]);
    }
  }

  /** Requests that name a method are run as they were sent: a batch as a batch, a single one alone. */
  lemma RequestsRun<W>(srv: Server<W>, qs: seq<Request>, isBatch: bool, st: State<W>)
    requires (isBatch || |qs| == 1) && forall q | q in qs :: q.name != ""
    ensures var (re, p) := (React(srv, AsCalls(qs), isBatch, st), HandleAll(srv, qs, st));
            isBatch ==> re == Reaction(p.st, p.responses, [])
    ensures !isBatch ==> var (s, r) := Handle(srv, qs[0], st);
            React(srv, AsCalls(qs), isBatch, st) == Reaction(s, if r.Some? then [r.value] else [], [])
  {
    hide Handle, HandleAll;
    CallsCarried(qs);
    if !isBatch {
      var r := Handle(srv, qs[0], st).1;
      assert Append([], Handle(srv, qs[0], st)).responses == if r.Some? then [r.value] else [];
    }
  }

  /** A message that holds both a result and an error is read as the error. */
  lemma ErrorWins(m: Message)
    requires m.error.Some?
    ensures ToResponse(m) == Some(Response(m.id, Fail(m.error.value)))
  {
  }

  // ----- every request is answered once -----

  /** The ids of the requests that ask for a response, in order. */
  function Asked(ms: seq<Message>): seq<Id> {
    if ms == [] then []
    else
      var m := ms[|ms| - 1];
      Asked(ms[..|ms| - 1]) + if m.IsRequest() && m.id.Some? then [m.id.value] else []
  }

  /** The ids of the responses, in order; a response without one answers nobody. */
  function Ids(rs: seq<Response>): seq<Id> {
    if rs == [] then []
    else Ids(rs[..|rs| - 1]) + if rs[|rs| - 1].id.Some? then [rs[|rs| - 1].id.value] else []
  }

  lemma IdsAppend(rs: seq<Response>, r: Response)
    ensures Ids(rs + [r]) == Ids(rs) + if r.id.Some? then [r.id.value] else []
  {
  }

  lemma {:induction false} BatchAnswers<W>(srv: Server<W>, ms: seq<Message>, n: nat, st: State<W>)
    requires AllRequests(ms) && n <= |ms|
    ensures Ids(After(srv, Requests(ms), n, st).responses) == Asked(ms[..n])
  {
    hide Handle, GoHandler.Step, Answered, Entry;
    if n == 0 {
      NothingYet(srv, Requests(ms), st);
    } else {
      BatchAnswers(srv, ms, n - 1, st);
      OneTurn(srv, Requests(ms), st, n - 1);
      assert ms[..n][..n - 1] == ms[..n - 1];
      var rs := After(srv, Requests(ms), n - 1, st).responses;
      if Answered(srv, Requests(ms), st, n - 1) {
        IdsAppend(rs, Entry(srv, Requests(ms), st, n - 1));
      } else {
        assert rs + [] == rs;
      }
    }
  }

  lemma {:induction false} RefusalsAnswer(ms: seq<Message>, code: int)
    ensures Ids(Refusals(ms, code)) == Asked(ms)
    ensures forall r | r in Refusals(ms, code) :: r.id.Some? && r.outcome == Fail(code)
    decreases ms
  {
    if ms != [] {
      var m := ms[|ms| - 1];
      var before := Refusals(ms[..|ms| - 1], code);
      RefusalsAnswer(ms[..|ms| - 1], code);
      if m.IsRequest() && m.id.Some? {
        IdsAppend(before, Response(m.id, Fail(code)));
      } else {
        assert Refusals(ms, code) == before;
      }
    }
  }

  /**
    Each request with an id gets exactly one response under that id, in order, and no other
    id is answered; except that a set of responses, some of which are requests as well, is
    taken for responses: the condition below says exactly when.
  */
  lemma AnsweredOnce<W>(srv: Server<W>, ms: seq<Message>, isBatch: bool, st: State<W>)
    requires WellFormed(ms, isBatch)
    ensures Ids(React(srv, ms, isBatch, st).sent) == Asked(ms)
            <==> !(AllResponses(ms) && !AllRequests(ms) && Asked(ms) != [])
  {
    if AllRequests(ms) {
      RequestsAnswered(srv, ms, isBatch, st);
    } else {
      RefusalsAnswer(ms, INVALID_REQUEST);
    }
  }

  /** Such a set: two responses, the second of which also names a method. */
  lemma UnansweredWitness<W>(srv: Server<W>, st: State<W>)
    ensures var ms := [Message("", "", Absent, Some(Null), None, Some(Num(1))), Message("", "work", Null, Some(Null), None, Some(Num(2)))];
            Asked(ms) == [Num(2)] && React(srv, ms, true, st).sent == []
  {
    var ms := [Message("", "", Absent, Some(Null), None, Some(Num(1))), Message("", "work", Null, Some(Null), None, Some(Num(2)))];
    assert ms[..1] == [ms[0]] && ms[..1][..0] == [];
    assert Asked(ms[..1]) == [];
    assert !ms[0].IsRequest();
  }

  lemma RequestsAnswered<W>(srv: Server<W>, ms: seq<Message>, isBatch: bool, st: State<W>)
    requires WellFormed(ms, isBatch) && AllRequests(ms)
    ensures Ids(React(srv, ms, isBatch, st).sent) == Asked(ms)
  {
    hide Handle, After, Asked, Ids, Append;
    if !isBatch {
      SingleAnswer(srv, ms, st);
    } else if ms == [] {
      IdsAppend([], Response(None, Fail(INVALID_REQUEST)));
      NothingAsked();
    } else {
      assert ms[..|ms|] == ms;
      BatchAnswers(srv, ms, |ms|, st);
    }
  }

  lemma NothingAsked()
    ensures Asked([]) == [] && Ids([]) == [] && [] + [Response(None, Fail(INVALID_REQUEST))] == [Response(None, Fail(INVALID_REQUEST))]
  {
  }

  lemma {:induction false} SingleAnswer<W>(srv: Server<W>, ms: seq<Message>, st: State<W>)
    requires AllRequests(ms) && |ms| == 1
    ensures Ids(Append([], Handle(srv, Requests(ms)[0], st)).responses) == Asked(ms)
  {
    var r := Handle(srv, Requests(ms)[0], st).1;
    HandleKeepsId(srv, Requests(ms)[0], st);
    hide Handle;
    assert ms[..0] == [];
    if r.Some? {
      IdsAppend([], r.value);
    }
  }

  lemma HandleKeepsId<W>(srv: Server<W>, req: Request, st: State<W>)
    ensures var r := Handle(srv, req, st).1; if r.Some? then r.value.id == req.id else req.id.None?
  {
  }

  /** In particular when no message is both a request and a response. */
  lemma AnsweredOnceUnlessBoth<W>(srv: Server<W>, ms: seq<Message>, isBatch: bool, st: State<W>)
    requires WellFormed(ms, isBatch) && ms != [] && forall i | 0 <= i < |ms| :: !(ms[i].IsRequest() && ms[i].IsResponse())
    ensures Ids(React(srv, ms, isBatch, st).sent) == Asked(ms)
  {
    hide React;
    AnsweredOnce(srv, ms, isBatch, st);
    if AllResponses(ms) {
      ResponsesAskNothing(ms);
    }
  }

  lemma {:induction false} ResponsesAskNothing(ms: seq<Message>)
    requires forall i | 0 <= i < |ms| :: !ms[i].IsRequest()
    ensures Asked(ms) == []
    decreases ms
  {
    if ms != [] {
      ResponsesAskNothing(ms[..|ms| - 1]);
    }
  }

  /** A mixture: nothing is dispatched, no notification is answered, no response is handed on. */
  lemma MixtureRefused<W>(srv: Server<W>, ms: seq<Message>, isBatch: bool, st: State<W>)
    requires WellFormed(ms, isBatch) && !AllRequests(ms) && !AllResponses(ms)
    ensures var re := React(srv, ms, isBatch, st);
            && re.st == st && re.taken == [] && Ids(re.sent) == Asked(ms)
            && forall r | r in re.sent :: r.id.Some? && r.outcome == Fail(INVALID_REQUEST)
  {
    RefusalsAnswer(ms, INVALID_REQUEST);
  }
}
