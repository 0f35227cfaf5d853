/** What a TypeScript peer does with one incoming message set (ts/src/peer.ts). */
module TsReadLoop {
  import opened Basics
  import opened Values
  import opened Messages
  import opened ReadLoop
  import GoHandler
  import Ts = TsHandler

  /** One decoded message; `nullId` says that a response without an id has the field nevertheless, holding null. */
  datatype Item = Item(m: Message, nullId: bool)

  /** `validateMessage`: a request, or a response that has an id field. */
  predicate Accepted(x: Item) {
    x.m.IsRequest() || (x.m.IsResponse() && (x.m.id.Some? || x.nullId))
  }

  predicate AllAccepted(xs: seq<Item>) {
    forall i | 0 <= i < |xs| :: Accepted(xs[i])
  }

  function Contents(xs: seq<Item>): (ms: seq<Message>)
    ensures |ms| == |xs| && forall i | 0 <= i < |xs| :: ms[i] == xs[i].m
  {
    seq(|xs|, i requires 0 <= i < |xs| => xs[i].m)
  }

  /** What happens, and whether the read loop ends by it; that closes the peer. */
  datatype Effect<W> = Effect(reaction: Reaction<W>, ended: bool)

  function React<W>(srv: Server<W>, xs: seq<Item>, isBatch: bool, st: State<W>): Effect<W>
    requires WellFormed(Contents(xs), isBatch)
  {
    if AllAccepted(xs) then Effect(Dispatch(srv, Contents(xs), isBatch, st), false)
    else Effect(Reaction(st, [], []), true)
  }

  function Dispatch<W>(srv: Server<W>, ms: seq<Message>, isBatch: bool, st: State<W>): Reaction<W>
    requires WellFormed(ms, isBatch)
  {
    if AllRequests(ms) && isBatch then
      var p := Ts.After(srv, Requests(ms), |ms|, st);
      Reaction(p.st, p.responses, [])
    else if AllRequests(ms) then
      var (st', resp) := Ts.Handle(srv, Requests(ms)[0], st);
      Reaction(st', [resp], [])
    else if AllResponses(ms) then Reaction(st, [], Taken(ms))
    else Reaction(st, [], [])
  }

  /** `unmarshalMessages` after parsing: the messages, or nothing as soon as one is not accepted. */
  method Validate(xs: seq<Item>) returns (ms: Option<seq<Message>>)
    ensures ms == if AllAccepted(xs) then Some(Contents(xs)) else None
  {
    var messages: seq<Message> := [];
    for i := 0 to |xs|
      invariant AllAccepted(xs[..i]) && messages == Contents(xs[..i])
    {
      assert xs[..i + 1] == xs[..i] + [xs[i]];
      if xs[i].m.IsRequest() {
        messages := messages + [xs[i].m];
      } else if xs[i].m.IsResponse() {
        if xs[i].m.id.None? && !xs[i].nullId {
          assert !Accepted(xs[i]);
          return None;
        }
        messages := messages + [xs[i].m];
      } else {
        assert !Accepted(xs[i]);
        return None;
      }
    }
    assert xs[..|xs|] == xs;
    return Some(messages);
  }

  method ReadOne<W>(h: Ts.Handler<W>, xs: seq<Item>, isBatch: bool) returns (sent: seq<Response>, taken: seq<Response>, ended: bool)
    requires WellFormed(Contents(xs), isBatch)
    modifies h, h.session
    ensures Effect(Reaction(h.Now(), sent, taken), ended) == React(h.srv, xs, isBatch, old(h.Now()))
  {
    sent, taken, ended := [], [], false;
    var decoded := Validate(xs);
    if decoded.None? {
      return sent, taken, true;
    }
    var ms := decoded.value;
    var allRequests, allResponses := Classify(ms);
    if allRequests && isBatch {
      var batch := ToBatch(ms);
      sent := h.HandleBatch(batch.value);
    } else if allRequests {
      var resp := h.HandleRequest(ToRequest(ms[0]).value);
      sent := [resp];
    } else if allResponses {
      for i := 0 to |ms|
        invariant taken == Taken(ms)[..i] && h.Now() == old(h.Now())
      {
        taken := taken + [ToResponse(ms[i]).value];
      }
    }
  }

  /**
    Responses, in a batch or alone, are handed to the waiting calls each and all, in order and as
    they were sent, unless a result is undefined or Go left out a nil id; one of those ends the connection
    and takes the others with it.
  */
  lemma ResponsesHandedOn<W>(srv: Server<W>, rs: seq<Response>, isBatch: bool, st: State<W>)
    requires rs != [] && (isBatch || |rs| == 1)
    ensures var goLost := exists r :: r in rs && (r.id.None? || r.outcome == Done(Absent));
            React(srv, FromGo(rs), isBatch, st) == Effect(Reaction(st, [], if goLost then [] else rs), goLost)
    ensures var tsLost := exists r :: r in rs && r.outcome == Done(Absent);
            React(srv, FromTs(rs), isBatch, st) == Effect(Reaction(st, [], if tsLost then [] else rs), tsLost)
  {
    hide Ts.Handle, Ts.After;
    assert Contents(FromGo(rs)) == AsMessages(rs) == Contents(FromTs(rs));
    ReplyEndsConnection(srv, rs, isBatch, st);
    if forall r | r in rs :: r.outcome != Done(Absent) {
      ResponsesCarried(rs);
    }
  }

  /** A mixture of requests and responses, and a set with a message that is neither, come to nothing; only the latter ends the connection. */
  lemma NothingFromOthers<W>(srv: Server<W>, xs: seq<Item>, isBatch: bool, st: State<W>)
    requires WellFormed(Contents(xs), isBatch)
    requires exists x, y :: x in xs && y in xs && !x.m.IsRequest() && !y.m.IsResponse()
    ensures var e := React(srv, xs, isBatch, st);
            && e.reaction == Reaction(st, [], [])
            && (e.ended <==> exists x :: x in xs && !x.m.IsRequest() && !(x.m.IsResponse() && (x.m.id.Some? || x.nullId)))
  {
    hide Ts.Handle, Ts.After;
    var x, y :| x in xs && y in xs && !x.m.IsRequest() && !y.m.IsResponse();
    var i, j :| 0 <= i < |xs| && xs[i] == x && 0 <= j < |xs| && xs[j] == y;
    assert !Contents(xs)[i].IsRequest() && !Contents(xs)[j].IsResponse();
    if z :| z in xs && !z.m.IsRequest() && !(z.m.IsResponse() && (z.m.id.Some? || z.nullId)) {
      var n :| 0 <= n < |xs| && xs[n] == z;
      assert !Accepted(xs[n]);
    }
  }

  /** Requests that name a method are run as they were sent: a batch as a batch, a single one alone. */
  lemma RequestsRun<W>(srv: Server<W>, qs: seq<Request>, isBatch: bool, st: State<W>)
    requires (isBatch || |qs| == 1) && forall q | q in qs :: q.name != ""
    ensures isBatch ==> var p := Ts.After(srv, qs, |qs|, st);
            Dispatch(srv, AsCalls(qs), isBatch, st) == Reaction(p.st, p.responses, [])
    ensures !isBatch ==> var (s, r) := Ts.Handle(srv, qs[0], st);
            Dispatch(srv, AsCalls(qs), isBatch, st) == Reaction(s, [r], [])
  {
    hide Ts.Handle, Ts.After;
    CallsCarried(qs);
  }

  lemma {:induction false} BatchAnswers<W>(srv: Server<W>, ms: seq<Message>, n: nat, st: State<W>)
    requires AllRequests(ms) && n <= |ms|
    ensures Ids(Ts.After(srv, Requests(ms), n, st).responses) == Asked(ms[..n])
  {
    hide Ts.Handle, Ts.Resolve;
    if n > 0 {
      BatchAnswers(srv, ms, n - 1, st);
      var (was, now) := (Ts.After(srv, Requests(ms), n - 1, st).responses, Ts.After(srv, Requests(ms), n, st).responses);
      Ts.Turn(srv, Requests(ms), n - 1, st);
      hide Ts.After;
      assert ms[..n][..n - 1] == ms[..n - 1];
      if ms[n - 1].id.Some? {
        IdsAppend(was, now[|now| - 1]);
      }
    }
  }

  /**
    Each request with an id gets exactly one response under that id, in order, exactly when
    the set is all requests or asks for nothing: an accepted mixture is dropped without an
    answer, and a set with an unacceptable message ends the connection.
  */
  lemma AnsweredOnce<W>(srv: Server<W>, xs: seq<Item>, isBatch: bool, st: State<W>)
    requires WellFormed(Contents(xs), isBatch)
    ensures var ms := Contents(xs);
            Ids(React(srv, xs, isBatch, st).reaction.sent) == Asked(ms) <==> AllRequests(ms) || Asked(ms) == []
  {
    hide Ts.Handle, Ts.After;
    var ms := Contents(xs);
    if AllRequests(ms) {
      forall i | 0 <= i < |xs| ensures Accepted(xs[i]) {
        assert ms[i].IsRequest();
      }
      assert ms[..|ms|] == ms;
      if isBatch {
        BatchAnswers(srv, ms, |ms|, st);
      } else {
        SingleAnswer(srv, ms, st);
      }
    }
  }

  lemma {:induction false} SingleAnswer<W>(srv: Server<W>, ms: seq<Message>, st: State<W>)
    requires AllRequests(ms) && |ms| == 1
    ensures Ids([Ts.Handle(srv, Requests(ms)[0], st).1]) == Asked(ms)
  {
    var r := Ts.Handle(srv, Requests(ms)[0], st).1;
    assert r.id == ms[0].id by { hide Call; }
    hide Ts.Handle;
    assert ms[..0] == [];
    IdsAppend([], r);
    assert [] + [r] == [r];
  }

  /**
    A single notification is answered every time, by a response that names no call; in a
    batch it never is.
  */
  lemma NotificationsAnswered<W>(srv: Server<W>, m: Message, isBatch: bool, st: State<W>)
    requires m.IsRequest() && m.id.None?
    ensures var sent := React(srv, [Item(m, false)], isBatch, st).reaction.sent;
            if isBatch then sent == [] else |sent| == 1 && sent[0].id == None
  {
    hide Call;
    if isBatch {
      Ts.Turn(srv, Requests([m]), 0, st);
    }
    assert Contents([Item(m, false)]) == [m];
  }

  // ----- replies that end the connection -----

  /** A reply as a Go peer writes it: a nil id is left out. */
  function FromGo(rs: seq<Response>): (xs: seq<Item>)
    ensures |xs| == |rs|
  {
    seq(|rs|, i requires 0 <= i < |rs| => Item(FromResponse(rs[i]), false))
  }

  /** A reply as a TypeScript peer writes it: a missing id is written as null. */
  function FromTs(rs: seq<Response>): (xs: seq<Item>)
    ensures |xs| == |rs|
  {
    seq(|rs|, i requires 0 <= i < |rs| => Item(FromResponse(rs[i]), rs[i].id.None?))
  }

  /**
    A TypeScript peer survives a reply exactly if no result in it is undefined, and, when Go
    wrote it, if every response has an id.
  */
  lemma ReplyEndsConnection<W>(srv: Server<W>, rs: seq<Response>, isBatch: bool, st: State<W>)
    requires isBatch || |rs| == 1
    ensures React(srv, FromGo(rs), isBatch, st).ended <==> exists r :: r in rs && (r.id.None? || r.outcome == Done(Absent))
    ensures React(srv, FromTs(rs), isBatch, st).ended <==> exists r :: r in rs && r.outcome == Done(Absent)
  {
    hide Ts.Handle, Ts.After;
    forall i | 0 <= i < |rs|
      ensures Accepted(FromGo(rs)[i]) <==> rs[i].id.Some? && rs[i].outcome != Done(Absent)
      ensures Accepted(FromTs(rs)[i]) <==> rs[i].outcome != Done(Absent)
    {
      assert rs[i] in rs;
    }
    forall r | r in rs && (r.id.None? || r.outcome == Done(Absent)) ensures !AllAccepted(FromGo(rs)) {
      var i :| 0 <= i < |rs| && rs[i] == r;
      assert !Accepted(FromGo(rs)[i]);
    }
    forall r | r in rs && r.outcome == Done(Absent) ensures !AllAccepted(FromTs(rs)) {
      var i :| 0 <= i < |rs| && rs[i] == r;
      assert !Accepted(FromTs(rs)[i]);
    }
  }

  /** So a notification that fails on a Go peer costs the TypeScript peer that sent it its connection. */
  lemma FailedNotificationEnds<V, W>(go: Server<V>, ts: Server<W>, req: Request, st: State<V>, own: State<W>)
    requires req.id.None? && req.name != "" && Call(go, req.ref, req.name, req.params, st).1.Fail?
    ensures var reply := GoHandler.Handle(go, req, st).1;
            reply.Some? && React(ts, FromGo([reply.value]), false, own).ended
  {
    var reply := GoHandler.Handle(go, req, st).1.value;
    assert reply.id == None;
    hide Call, GoHandler.Handle;
    ReplyEndsConnection(ts, [reply], false, own);
    assert reply in [reply];
  }
}
