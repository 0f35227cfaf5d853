/**
  Go's request and batch handling. A batch (section 6 of the JSON-RPC 2.0
  Specification) is answered by a list without gaps: a notification that
  succeeds leaves no entry, so later positions shift.
*/
module GoHandler {
  import opened Basics
  import opened Text
  import opened Values
  import opened Sessions
  import opened ResultWalk
  import opened Messages

  /** `HandleRequest`: no response for a notification, unless it fails. */
  function Handle<W>(srv: Server<W>, req: Request, st: State<W>): (r: (State<W>, Option<Response>)) {
    if req.name == "" then (st, Some(Response(req.id, Fail(INVALID_REQUEST))))
    else
      var (st', out) := Call(srv, req.ref, req.name, req.params, st);
      match out
      case Fail(code) => (st', Some(Response(req.id, Fail(code))))
      case Done(v) =>
        if req.id.None? then (st', None)
        else
          var (w, t) := Walk(v, st'.table);
          (st'.(table := t), Some(Response(req.id, Done(w))))
  }

  datatype Resolved = To(ref: string) | Bad(code: int)

  const NOT_A_REFERENCE: string := "is not a reference"
  const BAD_FORMAT: string := "invalid batch-local reference format: "

  /** The code is picked by searching the error text, which quotes the request's own ref. */
  function FormatErrorCode(ref: string): int {
    if Contains(BAD_FORMAT + ref, NOT_A_REFERENCE) then REFERENCE_TYPE_ERROR else INVALID_REFERENCE
  }

  /** What referring to a response yields. */
  function Reads(r: Response): Resolved {
    match r.outcome
    case Fail(_) => Bad(INVALID_REFERENCE)
    case Done(v) =>
      match GoRefText(v)
      case Some(s) => To(s)
      case None => Bad(REFERENCE_TYPE_ERROR)
  }

  function Resolve(ref: string, current: nat, responses: seq<Response>): Resolved {
    match ReadLocalRef(ref)
    case None => Bad(FormatErrorCode(ref))
    case Some(index) =>
      if index >= current then Bad(INVALID_REFERENCE)
      else if index < 0 || index >= |responses| then Bad(INVALID_REFERENCE)
      else Reads(responses[index])
  }

  datatype Progress<W> = Progress(st: State<W>, responses: seq<Response>)

  function Append<W>(responses: seq<Response>, r: (State<W>, Option<Response>)): Progress<W> {
    Progress(r.0, if r.1.Some? then responses + [r.1.value] else responses)
  }

  /** One turn of the batch loop. */
  function Step<W>(srv: Server<W>, req: Request, i: nat, p: Progress<W>): Progress<W> {
    if IsLocalRef(req.ref) then
      match Resolve(req.ref, i, p.responses)
      case Bad(code) => Progress(p.st, p.responses + [Response(req.id, Fail(code))])
      case To(ref) => Append(p.responses, Handle(srv, req.(ref := ref), p.st))
    else Append(p.responses, Handle(srv, req, p.st))
  }

  /** The loop's state after n requests. */
  function After<W>(srv: Server<W>, batch: seq<Request>, n: nat, st: State<W>): Progress<W>
    requires n <= |batch|
  {
    if n == 0 then Progress(st, []) else Step(srv, batch[n - 1], n - 1, After(srv, batch, n - 1, st))
  }

  function HandleAll<W>(srv: Server<W>, batch: seq<Request>, st: State<W>): Progress<W> {
    if batch == [] then Progress(st, [Response(None, Fail(INVALID_REQUEST))])
    else After(srv, batch, |batch|, st)
  }

  class Handler<W> {
    const srv: Server<W>
    const session: Session
    var world: W

    constructor (srv: Server<W>, session: Session, world: W)
      ensures this.srv == srv && this.session == session && this.world == world
    {
      this.srv, this.session, this.world := srv, session, world;
    }

    function Now(): State<W>
      reads this, session
    {
      State(world, session.State())
    }

    method Become(st: State<W>)
      modifies this, session
      ensures Now() == st
    {
      world := st.world;
      session.Adopt(st.table);
    }

    method HandleRequest(req: Request) returns (resp: Option<Response>)
      modifies this, session
      ensures (Now(), resp) == Handle(srv, req, old(Now()))
    {
      if req.name == "" {
        return Some(Response(req.id, Fail(INVALID_REQUEST)));
      }
      if req.ref == RPC_REF {
        var (t, out) := srv.protocol(req.name, req.params, session.State());
        session.Adopt(t);
        resp := Answer(req, out);
      } else if req.ref != "" {
        resp := HandleRefMethod(req);
      } else {
        resp := HandleMethod(req);
      }
    }

    method HandleMethod(req: Request) returns (resp: Option<Response>)
      requires req.name != "" && req.ref == ""
      modifies this, session
      ensures (Now(), resp) == Handle(srv, req, old(Now()))
    {
      if !srv.hasRoot {
        return Some(Response(req.id, Fail(METHOD_NOT_FOUND)));
      }
      var (st, out) := srv.run(Root, req.name, req.params, Now());
      Become(st);
      resp := Answer(req, out);
    }

    method HandleRefMethod(req: Request) returns (resp: Option<Response>)
      requires req.name != "" && req.ref != "" && req.ref != RPC_REF
      modifies this, session
      ensures (Now(), resp) == Handle(srv, req, old(Now()))
    {
      if req.ref !in session.localRefs {
        return Some(Response(req.id, Fail(REFERENCE_NOT_FOUND)));
      }
      var (st, out) := srv.run(Object(session.localRefs[req.ref]), req.name, req.params, Now());
      Become(st);
      resp := Answer(req, out);
    }

    /** The common tail: errors are always answered, results only when an id asks for them. */
    method Answer(req: Request, out: Outcome) returns (resp: Option<Response>)
      modifies session
      ensures out.Fail? ==> Now() == old(Now()) && resp == Some(Response(req.id, out))
      ensures out.Done? && req.id.None? ==> Now() == old(Now()) && resp == None
      ensures out.Done? && req.id.Some? ==>
                var (w, t) := Walk(out.v, old(session.State()));
                Now() == State(world, t) && resp == Some(Response(req.id, Done(w)))
    {
      if out.Fail? {
        return Some(Response(req.id, out));
      }
      if req.id.None? {
        return None;
      }
      var w := ProcessResult(session, out.v);
      return Some(Response(req.id, Done(w)));
    }

    method ResolveBatchLocalRef(ref: string, current: nat, responses: seq<Response>) returns (r: Resolved)
      ensures r == Resolve(ref, current, responses)
    {
      var parsed := ParseBatchLocalRef(ref);
      if parsed.None? {
        return Bad(FormatErrorCode(ref));
      }
      var index := parsed.value;
      if index >= current || index < 0 || index >= |responses| {
        return Bad(INVALID_REFERENCE);
      }
      match responses[index].outcome
      case Fail(_) => return Bad(INVALID_REFERENCE);
      case Done(v) =>
        match GoRefText(v)
        case Some(s) => return To(s);
        case None => return Bad(REFERENCE_TYPE_ERROR);
    }

    method HandleBatch(batch: seq<Request>) returns (responses: seq<Response>)
      modifies this, session
      ensures Progress(Now(), responses) == HandleAll(srv, batch, old(Now()))
    {
      if batch == [] {
        return [Response(None, Fail(INVALID_REQUEST))];
      }
      responses := [];
      for i := 0 to |batch|
        invariant Progress(Now(), responses) == After(srv, batch, i, old(Now()))
      {
        var req := batch[i];
        if IsLocalRef(req.ref) {
          var target := ResolveBatchLocalRef(req.ref, i, responses);
          if target.Bad? {
            responses := responses + [Response(req.id, Fail(target.code))];
            continue;
          }
          req := req.(ref := target.ref);
        }
        var resp := HandleRequest(req);
        if resp.Some? {
          responses := responses + [resp.value];
        }
      }
    }
  }

  // ----- what a single request comes to -----

  /**
    The answer to a request whose method ended in `ran`: an error as it is, nothing for a
    notification, and otherwise the result with its objects replaced by the next ids of the
    session, which are then bound to them.
  */
  ghost predicate Replies<W>(req: Request, ran: (State<W>, Outcome), r: (State<W>, Option<Response>)) {
    var (s, out) := ran;
    match out
    case Fail(code) => r == (s, Some(Response(req.id, Fail(code))))
    case Done(v) =>
      if req.id.None? then r == (s, None)
      else
        var ids := MintRange(s.table.prefix, s.table.counter, |Objects(v)|);
        r == (s.(table := Registered(s.table, Objects(v))), Some(Response(req.id, Done(Fill(v, ids)))))
  }

  /** A named request through a bound reference runs the method on the object bound to it, and on nothing else. */
  lemma CallsTheObject<W>(srv: Server<W>, req: Request, st: State<W>)
    requires req.name != "" && req.ref != "" && req.ref != RPC_REF && req.ref in st.table.local
    ensures Replies(req, srv.run(Object(st.table.local[req.ref]), req.name, req.params, st), Handle(srv, req, st))
  {
    hide Walk, Registered, Fill, Objects;
    var (s, out) := srv.run(Object(st.table.local[req.ref]), req.name, req.params, st);
    if out.Done? {
      WalkIsFill(out.v, s.table);
    }
  }

  /** A named request without a reference runs the method on the root object. */
  lemma CallsTheRoot<W>(srv: Server<W>, req: Request, st: State<W>)
    requires req.name != "" && req.ref == "" && srv.hasRoot
    ensures Replies(req, srv.run(Root, req.name, req.params, st), Handle(srv, req, st))
  {
    hide Walk, Registered, Fill, Objects;
    var (s, out) := srv.run(Root, req.name, req.params, st);
    if out.Done? {
      WalkIsFill(out.v, s.table);
    }
  }

  /** A named request to `$rpc` runs the session's own method, whatever is bound under that name. */
  lemma CallsTheProtocol<W>(srv: Server<W>, req: Request, st: State<W>)
    requires req.name != "" && req.ref == "$rpc"
    ensures var (t, out) := srv.protocol(req.name, req.params, st.table);
            Replies(req, (State(st.world, t), out), Handle(srv, req, st))
  {
    hide Walk, Registered, Fill, Objects;
    var (t, out) := srv.protocol(req.name, req.params, st.table);
    if out.Done? {
      WalkIsFill(out.v, t);
    }
  }

  /** Every other request is refused, notification or not, and runs nothing. */
  lemma RefusedUnrun<W>(srv: Server<W>, req: Request, st: State<W>)
    ensures req.name == "" ==> Handle(srv, req, st) == (st, Some(Response(req.id, Fail(-32600))))
    ensures req.name != "" && req.ref !in ["", "$rpc"] && req.ref !in st.table.local ==>
              Handle(srv, req, st) == (st, Some(Response(req.id, Fail(-32002))))
    ensures req.name != "" && req.ref == "" && !srv.hasRoot ==>
              Handle(srv, req, st) == (st, Some(Response(req.id, Fail(-32601))))
  {
  }

  /**
    Reading `\k` while request i is handled: a reference to itself or a later request, or past the end
    of the list, or to a failed one is invalid; one to a result without `$ref` text is of the wrong type.
  */
  lemma ReferencesRead(k: nat, i: nat, responses: seq<Response>)
    requires k < TWO63
    ensures k >= i || k >= |responses| ==> Resolve(LocalRef(k), i, responses) == Bad(-32001)
    ensures k < i && k < |responses| ==>
              var (to, out) := (Resolve(LocalRef(k), i, responses), responses[k].outcome);
              && (out.Fail? ==> to == Bad(-32001))
              && (out.Done? && GoRefText(out.v).None? ==> to == Bad(-32003))
              && (out.Done? && GoRefText(out.v).Some? ==> to == To(GoRefText(out.v).value))
  {
    LocalRefRoundTrip(k);
  }

  /** An empty batch is answered by one refusal without an id. */
  lemma EmptyBatchRefused<W>(srv: Server<W>, st: State<W>)
    ensures HandleAll(srv, [], st) == Progress(st, [Response(None, Fail(-32600))])
  {
  }

  /** The requests handled one by one, outside any batch. */
  function Singly<W>(srv: Server<W>, reqs: seq<Request>, st: State<W>): (State<W>, seq<Response>)
    decreases reqs
  {
    if reqs == [] then (st, [])
    else
      var (s, r) := Handle(srv, reqs[0], st);
      var (s', rs) := Singly(srv, reqs[1..], s);
      (s', (if r.Some? then [r.value] else []) + rs)
  }

  lemma {:induction false} SinglyThenOne<W>(srv: Server<W>, reqs: seq<Request>, last: Request, st: State<W>)
    ensures var (s, rs) := Singly(srv, reqs, st);
            var (s', r) := Handle(srv, last, s);
            Singly(srv, reqs + [last], st) == (s', rs + if r.Some? then [r.value] else [])
    decreases reqs
  {
    hide Handle;
    if reqs == [] {
      assert [] + [last] == [last] && [last][1..] == [];
      var r := Handle(srv, last, st).1;
      NothingBeside(if r.Some? then [r.value] else []);
    } else {
      var (s, r) := Handle(srv, reqs[0], st);
      SinglyThenOne(srv, reqs[1..], last, s);
      assert (reqs + [last])[1..] == reqs[1..] + [last];
      var end := Handle(srv, last, Singly(srv, reqs[1..], s).0).1;
      ThreeParts(if r.Some? then [r.value] else [], Singly(srv, reqs[1..], s).1, if end.Some? then [end.value] else []);
    }
  }

  lemma NothingBeside(rs: seq<Response>)
    ensures rs + [] == rs == [] + rs
  {
  }

  lemma ThreeParts(a: seq<Response>, b: seq<Response>, c: seq<Response>)
    ensures a + (b + c) == (a + b) + c
  {
  }

  /** A batch that refers to none of its own results is handled exactly as its requests one by one would be, each at its own target. */
  lemma {:induction false} PlainBatchIsSingly<W>(srv: Server<W>, batch: seq<Request>, n: nat, st: State<W>)
    requires n <= |batch| && forall i | 0 <= i < n :: !IsLocalRef(batch[i].ref)
    ensures var (s, rs) := Singly(srv, batch[..n], st); After(srv, batch, n, st) == Progress(s, rs)
  {
    hide Handle, Singly;
    if n == 0 {
      NoneSingly(srv, st);
    } else {
      PlainBatchIsSingly(srv, batch, n - 1, st);
      assert batch[..n] == batch[..n - 1] + [batch[n - 1]];
      SinglyThenOne(srv, batch[..n - 1], batch[n - 1], st);
      NothingBeside(Singly(srv, batch[..n - 1], st).1);
    }
  }

  lemma NoneSingly<W>(srv: Server<W>, st: State<W>)
    ensures Singly(srv, [], st) == (st, [])
  {
  }

  /**
    What pipelining is for: the request after one that returned an object, addressed to `\` and its position,
    runs its method on that very object, in the state the first left, although neither
    side knew the object's id when the batch was written.
  */
  lemma ChainReachesTheObject<W>(srv: Server<W>, batch: seq<Request>, n: nat, st: State<W>, o: ObjId)
    requires n + 1 < |batch| && n < TWO63 && forall i | 0 <= i <= n :: batch[i].id.Some?
    requires var (first, second) := (batch[n], batch[n + 1]);
             && first.name != "" && first.ref == "" && srv.hasRoot
             && second.name != "" && second.ref == LocalRef(n) && second.id.Some?
    requires var (s, out) := srv.run(Root, batch[n].name, batch[n].params, After(srv, batch, n, st).st);
             && out == Done(Obj(o))
    ensures var s := srv.run(Root, batch[n].name, batch[n].params, After(srv, batch, n, st).st).0;
            var (id, t) := Register(s.table, o);
            var p := After(srv, batch, n + 2, st);
            && t.local[id] == o && |p.responses| == n + 2
            && Replies(batch[n + 1], srv.run(Object(o), batch[n + 1].name, batch[n + 1].params, s.(table := t)),
                       (p.st, Some(p.responses[n + 1])))
  {
    hide Handle, Replies, Decimal, Resolve, Walk;
    var (first, second) := (batch[n], batch[n + 1]);
    var p := After(srv, batch, n, st);
    NoNotificationsNoShift(srv, batch, st, n);
    var s := srv.run(Root, first.name, first.params, p.st).0;
    var (id, t) := Register(s.table, o);
    RootReturnsObject(srv, first, p.st, o);
    var p1 := After(srv, batch, n + 1, st);
    assert p1 == Progress(s.(table := t), p.responses + [Response(first.id, Done(RefTo(id)))]);
    ReferencesRead(n, n + 1, p1.responses);
    GoReads([REF_KEY], [Str(id)], id);
    MintedIsOrdinary(s.table.prefix, s.table.counter + 1);
    CallsTheObject(srv, second.(ref := id), p1.st);
    AnsweredOnceOnly(srv, second.(ref := id), p1.st);
    RepliesIgnoreRef(second, id, srv.run(Object(o), second.name, second.params, s.(table := t)), Handle(srv, second.(ref := id), p1.st));
  }

  /** No generated id is empty or that of the protocol object: it ends in a digit. */
  lemma MintedIsOrdinary(prefix: string, k: nat)
    ensures Mint(prefix, k) != "" && Mint(prefix, k) != RPC_REF
  {
    DecimalValue(k);
    var (d, id) := (Decimal(k), Mint(prefix, k));
    assert id[|id| - 1] == d[|d| - 1] && IsDigit(d[|d| - 1]);
  }

  lemma RootReturnsObject<W>(srv: Server<W>, req: Request, st: State<W>, o: ObjId)
    requires req.name != "" && req.ref == "" && srv.hasRoot && req.id.Some?
    requires srv.run(Root, req.name, req.params, st).1 == Done(Obj(o))
    ensures var s := srv.run(Root, req.name, req.params, st).0;
            var (id, t) := Register(s.table, o);
            Handle(srv, req, st) == (s.(table := t), Some(Response(req.id, Done(RefTo(id)))))
  {
  }

  lemma AnsweredOnceOnly<W>(srv: Server<W>, req: Request, st: State<W>)
    requires req.id.Some?
    ensures Handle(srv, req, st).1.Some?
  {
  }

  lemma RepliesIgnoreRef<W>(req: Request, ref: string, ran: (State<W>, Outcome), r: (State<W>, Option<Response>))
    requires Replies(req.(ref := ref), ran, r)
    ensures Replies(req, ran, r)
  {
  }

  /** Request i got an entry in the response list. */
  predicate Answered<W>(srv: Server<W>, batch: seq<Request>, st: State<W>, i: nat)
    requires i < |batch|
  {
    |After(srv, batch, i + 1, st).responses| > |After(srv, batch, i, st).responses|
  }

  /** The entry request i got. */
  function Entry<W>(srv: Server<W>, batch: seq<Request>, st: State<W>, i: nat): Response
    requires i < |batch| && Answered(srv, batch, st, i)
  {
    After(srv, batch, i + 1, st).responses[|After(srv, batch, i, st).responses|]
  }

  /** How many of the first n requests got none. */
  function Silent<W>(srv: Server<W>, batch: seq<Request>, st: State<W>, n: nat): nat
    requires n <= |batch|
  {
    if n == 0 then 0
    else Silent(srv, batch, st, n - 1) + if Answered(srv, batch, st, n - 1) then 0 else 1
  }

  /** Only a notification can go unanswered; a request with an id never does. */
  lemma OneTurn<W>(srv: Server<W>, batch: seq<Request>, st: State<W>, i: nat)
    requires i < |batch|
    ensures After(srv, batch, i + 1, st).responses ==
            After(srv, batch, i, st).responses + if Answered(srv, batch, st, i) then [Entry(srv, batch, st, i)] else []
    ensures Answered(srv, batch, st, i) ==> Entry(srv, batch, st, i).id == batch[i].id
    ensures !Answered(srv, batch, st, i) ==> batch[i].id.None?
    ensures Answered(srv, batch, st, i) && batch[i].id.None? ==> Entry(srv, batch, st, i).outcome.Fail?
  {
  }

  lemma {:induction false} SilentMonotone<W>(srv: Server<W>, batch: seq<Request>, st: State<W>, m: nat, n: nat)
    requires m <= n <= |batch|
    ensures Silent(srv, batch, st, m) <= Silent(srv, batch, st, n) <= Silent(srv, batch, st, m) + n - m
    decreases n - m
  {
    hide Answered;
    if m < n {
      SilentMonotone(srv, batch, st, m, n - 1);
    }
  }

  lemma NothingYet<W>(srv: Server<W>, batch: seq<Request>, st: State<W>)
    ensures After(srv, batch, 0, st).responses == []
  {
  }

  /**
    Batch accounting: the list has one entry per answered request, and the entry
    of request i sits at i minus the unanswered requests before it, under that
    request's id.
  */
  lemma {:induction false} BatchAccounting<W>(srv: Server<W>, batch: seq<Request>, st: State<W>, n: nat)
    requires n <= |batch|
    ensures var rs := After(srv, batch, n, st).responses;
            && |rs| == n - Silent(srv, batch, st, n)
            && forall i | 0 <= i < n && Answered(srv, batch, st, i) ::
                 var p := i - Silent(srv, batch, st, i);
                 0 <= p < |rs| && rs[p] == Entry(srv, batch, st, i) && rs[p].id == batch[i].id
  {
    hide After, Answered, Entry;
    if n == 0 {
      NothingYet(srv, batch, st);
    } else {
      BatchAccounting(srv, batch, st, n - 1);
      OneTurn(srv, batch, st, n - 1);
      forall i | 0 <= i < n && Answered(srv, batch, st, i)
        ensures Silent(srv, batch, st, i) <= i
      {
        SilentMonotone(srv, batch, st, 0, i);
      }
    }
  }

  /**
    Which request a response position belongs to: the entry at k is that of some
    request j, at or after k, with exactly j - k unanswered requests before it.
  */
  lemma {:induction false} EntryOwner<W>(srv: Server<W>, batch: seq<Request>, st: State<W>, n: nat, k: nat) returns (j: nat)
    requires n <= |batch| && k < |After(srv, batch, n, st).responses|
    ensures k <= j < n && Answered(srv, batch, st, j) && j - Silent(srv, batch, st, j) == k
    ensures After(srv, batch, n, st).responses[k] == Entry(srv, batch, st, j)
  {
    hide Answered, Entry, Step;
    OneTurn(srv, batch, st, n - 1);
    BatchAccounting(srv, batch, st, n - 1);
    if k < |After(srv, batch, n - 1, st).responses| {
      j := EntryOwner(srv, batch, st, n - 1, k);
    } else {
      j := n - 1;
    }
  }

  /** Request i as it is handled: with its reference resolved, if that is possible. */
  function AsHandled<W>(srv: Server<W>, batch: seq<Request>, st: State<W>, i: nat): Option<Request>
    requires i < |batch|
  {
    var req := batch[i];
    if !IsLocalRef(req.ref) then Some(req)
    else
      match Resolve(req.ref, i, After(srv, batch, i, st).responses)
      case To(ref) => Some(req.(ref := ref))
      case Bad(_) => None
  }

  /** Unanswered are exactly the notifications that name a method, reach their target and succeed. */
  lemma SilentExactly<W>(srv: Server<W>, batch: seq<Request>, st: State<W>, i: nat)
    requires i < |batch|
    ensures !Answered(srv, batch, st, i) <==>
            && batch[i].id.None? && batch[i].name != ""
            && var req := AsHandled(srv, batch, st, i);
               req.Some? && Call(srv, req.value.ref, req.value.name, req.value.params, After(srv, batch, i, st).st).1.Done?
  {
    hide Call, Walk, Resolve;
  }

  lemma {:induction false} NoneSilent<W>(srv: Server<W>, batch: seq<Request>, st: State<W>, n: nat)
    requires n <= |batch|
    ensures Silent(srv, batch, st, n) == 0 <==> forall j | 0 <= j < n :: Answered(srv, batch, st, j)
  {
    hide Answered;
    if n > 0 {
      NoneSilent(srv, batch, st, n - 1);
    }
  }

  /**
    Compaction: while request i is handled, position k of the list holds request k's own
    response if every request up to k was answered, and otherwise the response of a later
    request, if it holds any.
  */
  lemma CompactionShiftsReferences<W>(srv: Server<W>, batch: seq<Request>, st: State<W>, i: nat, k: nat)
    requires k < i < |batch|
    ensures var rs := After(srv, batch, i, st).responses;
            if forall j | 0 <= j <= k :: Answered(srv, batch, st, j) then k < |rs| && rs[k] == Entry(srv, batch, st, k)
            else k < |rs| ==> exists j | k < j < i :: Answered(srv, batch, st, j) && rs[k] == Entry(srv, batch, st, j)
  {
    hide After, Answered, Entry;
    NoneSilent(srv, batch, st, k + 1);
    if Silent(srv, batch, st, k + 1) == 0 {
      BatchAccounting(srv, batch, st, i);
    } else if k < |After(srv, batch, i, st).responses| {
      var j := EntryOwner(srv, batch, st, i, k);
    }
  }

  /**
    So `\k` resolves by request k's own response exactly as long as every request up to k was
    answered; after that it resolves by a later request's response, or is out of bounds.
  */
  lemma ShiftedReferences<W>(srv: Server<W>, batch: seq<Request>, st: State<W>, i: nat, k: nat)
    requires k < i < |batch| && k < TWO63
    ensures var to := Resolve(LocalRef(k), i, After(srv, batch, i, st).responses);
            if forall j | 0 <= j <= k :: Answered(srv, batch, st, j) then to == Reads(Entry(srv, batch, st, k))
            else to == Bad(INVALID_REFERENCE) ||
                 exists j | k < j < i :: Answered(srv, batch, st, j) && to == Reads(Entry(srv, batch, st, j))
  {
    hide After, Answered, Entry, Reads;
    LocalRefRoundTrip(k);
    CompactionShiftsReferences(srv, batch, st, i, k);
  }

  /** A server whose every method returns a reference named like the method. */
  function Echo(): Server<()> {
    Server(true,
           (target: Target, name: string, params: Value, st: State<()>) => (st, Done(RefTo(name))),
           (name: string, params: Value, t: Table) => (t, Fail(METHOD_NOT_FOUND)))
  }

  /** A notification, two calls, and a call on the result of request 1. */
  function ShiftedBatch(): seq<Request> {
    [Request(None, "", "note", Null), Request(Some(Num(1)), "", "first", Null),
     Request(Some(Num(2)), "", "second", Null), Request(Some(Num(3)), LocalRef(1), "use", Null)]
  }

  /** Request 1 returned `first`, but `\1` is read as `second`. */
  lemma ShiftHappens(st: State<()>)
    ensures After(Echo(), ShiftedBatch(), 3, st) ==
            Progress(st, [Response(Some(Num(1)), Done(RefTo("first"))), Response(Some(Num(2)), Done(RefTo("second")))])
    ensures Resolve(LocalRef(1), 3, After(Echo(), ShiftedBatch(), 3, st).responses) == To("second")
  {
    var (srv, batch) := (Echo(), ShiftedBatch());
    EchoHandles(batch[0], st);
    EchoHandles(batch[1], st);
    EchoHandles(batch[2], st);
    hide Handle, Echo;
    assert After(srv, batch, 0, st) == Progress(st, []);
    assert After(srv, batch, 1, st) == Progress(st, []);
    assert After(srv, batch, 2, st) == Progress(st, [Response(Some(Num(1)), Done(RefTo("first")))]);
    LocalRefRoundTrip(1);
  }

  lemma EchoHandles(req: Request, st: State<()>)
    requires req.ref == "" && req.name != ""
    ensures Handle(Echo(), req, st) == (st, if req.id.Some? then Some(Response(req.id, Done(RefTo(req.name)))) else None)
  {
  }

  /** Without notifications nothing shifts: entry i answers request i. */
  lemma {:induction false} NoNotificationsNoShift<W>(srv: Server<W>, batch: seq<Request>, st: State<W>, n: nat)
    requires n <= |batch| && forall i | 0 <= i < n :: batch[i].id.Some?
    ensures |After(srv, batch, n, st).responses| == n
    ensures forall i | 0 <= i < n :: After(srv, batch, n, st).responses[i].id == batch[i].id
    ensures forall i | 0 <= i <= n :: After(srv, batch, i, st).responses == After(srv, batch, n, st).responses[..i]
  {
    hide Answered, Entry, Step;
    if n > 0 {
      NoNotificationsNoShift(srv, batch, st, n - 1);
      OneTurn(srv, batch, st, n - 1);
    }
  }

  /** Nothing that cannot be serialised is ever sent: no response of a batch holds an object of the hosting process. */
  lemma {:induction false} NothingRawIsSent<W>(srv: Server<W>, batch: seq<Request>, st: State<W>, n: nat)
    requires n <= |batch|
    ensures forall r | r in After(srv, batch, n, st).responses && r.outcome.Done? :: Objects(r.outcome.v) == []
  {
    hide Step, Answered, Entry;
    if n > 0 {
      NothingRawIsSent(srv, batch, st, n - 1);
      StepSendsWalked(srv, batch[n - 1], n - 1, After(srv, batch, n - 1, st));
    }
  }

  lemma HandleSendsWalked<W>(srv: Server<W>, req: Request, st: State<W>)
    ensures var r := Handle(srv, req, st).1; r.Some? && r.value.outcome.Done? ==> Objects(r.value.outcome.v) == []
  {
    hide Walk, Objects;
    var (st', out) := Call(srv, req.ref, req.name, req.params, st);
    if out.Done? {
      WalkLeavesNoObjects(out.v, st'.table);
    }
    hide Call;
  }

  lemma StepSendsWalked<W>(srv: Server<W>, req: Request, i: nat, p: Progress<W>)
    ensures forall r | r in Step(srv, req, i, p).responses && r !in p.responses && r.outcome.Done? :: Objects(r.outcome.v) == []
  {
    hide Handle, Objects;
    HandleSendsWalked(srv, req, p.st);
    if IsLocalRef(req.ref) {
      match Resolve(req.ref, i, p.responses)
      case Bad(_) =>
      case To(ref) => HandleSendsWalked(srv, req.(ref := ref), p.st);
    }
  }

  /** The fixed words of the message neither contain the marker nor begin it. */
  lemma MarkerInText(ref: string)
    ensures Contains(BAD_FORMAT + ref, NOT_A_REFERENCE) <==> Contains(ref, NOT_A_REFERENCE)
  {
    var text := BAD_FORMAT + ref;
    if i :| 0 <= i <= |text| && NOT_A_REFERENCE <= text[i..] {
      assert text[i..][0] == 'i' && text[i..][1] == 's';
      assert text[i] == 'i' && text[i + 1] == 's';
      assert i >= |BAD_FORMAT|;
      assert text[i..] == ref[i - |BAD_FORMAT|..];
    }
    if i :| 0 <= i <= |ref| && NOT_A_REFERENCE <= ref[i..] {
      assert text[|BAD_FORMAT| + i..] == ref[i..];
    }
  }

  /**
    The code of a malformed reference: it should be that of an invalid reference, and is that
    of a type error if and only if the reference's own text contains the marker.
  */
  lemma FormatErrorMisfiled(ref: string, i: nat, responses: seq<Response>)
    requires ReadLocalRef(ref).None?
    ensures Resolve(ref, i, responses) == Bad(if Contains(ref, NOT_A_REFERENCE) then REFERENCE_TYPE_ERROR else INVALID_REFERENCE)
  {
    MarkerInText(ref);
  }

  /** Such a text. */
  lemma FormatErrorWitness()
    ensures ReadLocalRef("\\x is not a reference") == None && Contains("\\x is not a reference", NOT_A_REFERENCE)
  {
    var ref := "\\x is not a reference";
    assert NOT_A_REFERENCE <= ref[3..];
    assert !IsDigit(ref[1..][0]);
  }
}
