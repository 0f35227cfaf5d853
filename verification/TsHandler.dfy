/**
  TypeScript's request and batch handling: results are kept by request
  position, so a batch-local reference always means the request it names.
  On batches without notifications it agrees with Go's compacted list.
*/
module TsHandler {
  import opened Basics
  import opened Text
  import opened Values
  import opened Sessions
  import opened ResultWalk
  import opened Messages
  import Go = GoHandler

  /** `handleRequest`: always a response, and always a walked result. */
  function Handle<W>(srv: Server<W>, req: Request, st: State<W>): (State<W>, Response) {
    var (st', out) := Call(srv, req.ref, req.name, req.params, st);
    match out
    case Fail(code) => (st', Response(req.id, Fail(code)))
    case Done(v) =>
      var (w, t) := Walk(v, st'.table);
      (st'.(table := t), Response(req.id, Done(w)))
  }

  /** The longest prefix of digits. */
  function DigitRun(s: string): (r: string)
    ensures AllDigits(r)
    ensures AllDigits(s) ==> r == s
  {
    if s != [] && IsDigit(s[0]) then [s[0]] + DigitRun(s[1..]) else []
  }

  /** `parseInt(s, 10)`; None is NaN. */
  function ParseInt(s: string): Option<int> {
    var t := TrimStart(s);
    var negative := t != [] && t[0] == '-';
    var digits := DigitRun(if t != [] && (t[0] == '-' || t[0] == '+') then t[1..] else t);
    if digits == [] then None
    else
      var magnitude: int := ValueOf(digits);
      Some(if negative then -magnitude else magnitude)
  }

  function Resolve(ref: string, current: nat, results: seq<Value>): Go.Resolved
    requires IsLocalRef(ref)
  {
    match ParseInt(ref[1..])
    case None => Go.Bad(INVALID_REFERENCE)
    case Some(index) =>
      if index >= current then Go.Bad(INVALID_REFERENCE)
      else if index < 0 || index >= |results| then Go.Bad(INVALID_REFERENCE)
      else if results[index] == Absent then Go.Bad(INVALID_REFERENCE)
      else
        match TsRefText(results[index])
        case Some(s) => Go.To(s)
        case None => Go.Bad(REFERENCE_TYPE_ERROR)
  }

  /** `resp.result`: undefined on an error response. */
  function ResultOf(outcome: Outcome): Value {
    if outcome.Done? then outcome.v else Absent
  }

  datatype Progress<W> = Progress(st: State<W>, responses: seq<Response>, results: seq<Value>)

  function Push<W>(p: Progress<W>, req: Request, st: State<W>, resp: Response): Progress<W> {
    Progress(st,
             if req.id.Some? then p.responses + [resp] else p.responses,
             p.results + [ResultOf(resp.outcome)])
  }

  function Step<W>(srv: Server<W>, req: Request, i: nat, p: Progress<W>): Progress<W> {
    if IsLocalRef(req.ref) then
      match Resolve(req.ref, i, p.results)
      case Bad(code) => Push(p, req, p.st, Response(req.id, Fail(code)))
      case To(ref) =>
        // an empty resolved ref leaves the request's own ref in place
        var (st, resp) := Handle(srv, if ref != "" then req.(ref := ref) else req, p.st);
        Push(p, req, st, resp)
    else
      var (st, resp) := Handle(srv, req, p.st);
      Push(p, req, st, resp)
  }

  function After<W>(srv: Server<W>, batch: seq<Request>, n: nat, st: State<W>): Progress<W>
    requires n <= |batch|
  {
    if n == 0 then Progress(st, [], []) else Step(srv, batch[n - 1], n - 1, After(srv, batch, n - 1, st))
  }

  class Handler<W> {
    const srv: Server<W>
    const session: Session
    var world: W

    constructor (srv: Server<W>, session: Session, world: W)
      ensures this.srv == srv && this.session == session && this.world == world
    {
      this.srv, this.session, this.world := srv, session, world;
    }

    function Now(): State<W>
      reads this, session
    {
      State(world, session.State())
    }

    method HandleRequest(req: Request) returns (resp: Response)
      modifies this, session
      ensures (Now(), resp) == Handle(srv, req, old(Now()))
    {
      var (st, out) := Call(srv, req.ref, req.name, req.params, Now());
      world := st.world;
      session.Adopt(st.table);
      if out.Fail? {
        return Response(req.id, out);
      }
      var w := ProcessResult(session, out.v);
      return Response(req.id, Done(w));
    }

    method HandleBatch(batch: seq<Request>) returns (responses: seq<Response>)
      modifies this, session
      ensures var p := After(srv, batch, |batch|, old(Now())); Now() == p.st && responses == p.responses
    {
      responses := [];
      var batchResults: seq<Value> := [];
      for i := 0 to |batch|
        invariant Progress(Now(), responses, batchResults) == After(srv, batch, i, old(Now()))
      {
        var req := batch[i];
        var resolved := req;
        var failure: Option<int> := None;
        if IsLocalRef(req.ref) {
          match Resolve(req.ref, i, batchResults)
          case To(ref) => if ref != "" { resolved := req.(ref := ref); }
          case Bad(code) => failure := Some(code);
        }
        var resp;
        if failure.Some? {
          resp := Response(req.id, Fail(failure.value));
        } else {
          resp := HandleRequest(resolved);
        }
        batchResults := batchResults + [ResultOf(resp.outcome)];
        if req.id.Some? {
          responses := responses + [resp];
        }
      }
    }
  }

  // ----- what a single request comes to -----

  /** Here every request is answered, and every result walked, notification or not. */
  ghost predicate Replies<W>(req: Request, ran: (State<W>, Outcome), r: (State<W>, Response)) {
    var (s, out) := ran;
    match out
    case Fail(code) => r == (s, Response(req.id, Fail(code)))
    case Done(v) =>
      var ids := MintRange(s.table.prefix, s.table.counter, |Objects(v)|);
      r == (s.(table := Registered(s.table, Objects(v))), Response(req.id, Done(Fill(v, ids))))
  }

  /** A request through a bound reference runs the method on the object bound to it, and on nothing else. */
  lemma CallsTheObject<W>(srv: Server<W>, req: Request, st: State<W>)
    requires req.ref != "" && req.ref != RPC_REF && req.ref in st.table.local
    ensures Replies(req, srv.run(Object(st.table.local[req.ref]), req.name, req.params, st), Handle(srv, req, st))
  {
    hide Walk, Registered, Fill, Objects;
    var (s, out) := srv.run(Object(st.table.local[req.ref]), req.name, req.params, st);
    if out.Done? {
      WalkIsFill(out.v, s.table);
    }
  }

  /** A request without a reference runs the method on the root object. */
  lemma CallsTheRoot<W>(srv: Server<W>, req: Request, st: State<W>)
    requires req.ref == "" && srv.hasRoot
    ensures Replies(req, srv.run(Root, req.name, req.params, st), Handle(srv, req, st))
  {
    hide Walk, Registered, Fill, Objects;
    var (s, out) := srv.run(Root, req.name, req.params, st);
    if out.Done? {
      WalkIsFill(out.v, s.table);
    }
  }

  /** A request to `$rpc` runs the session's own method, whatever is bound under that name. */
  lemma CallsTheProtocol<W>(srv: Server<W>, req: Request, st: State<W>)
    requires req.ref == "$rpc"
    ensures var (t, out) := srv.protocol(req.name, req.params, st.table);
            Replies(req, (State(st.world, t), out), Handle(srv, req, st))
  {
    hide Walk, Registered, Fill, Objects;
    var (t, out) := srv.protocol(req.name, req.params, st.table);
    if out.Done? {
      WalkIsFill(out.v, t);
    }
  }

  /** A request through an unbound reference is refused and runs nothing. A handler always has a root object here. */
  lemma RefusedUnrun<W>(srv: Server<W>, req: Request, st: State<W>)
    requires req.ref !in ["", "$rpc"] && req.ref !in st.table.local
    ensures Handle(srv, req, st) == (st, Response(req.id, Fail(-32002)))
  {
  }

  /**
    Reading `\k` while request i is handled: a reference to itself or a later request, or to one whose
    result is undefined, is invalid; one to a result that is no reference is of the wrong type. Text
    without a number is always invalid.
  */
  lemma ReferencesRead(k: nat, i: nat, results: seq<Value>, ref: string)
    requires k < TWO63 && |results| == i
    ensures k >= i || results[k] == Absent ==> Resolve(LocalRef(k), i, results) == Go.Bad(-32001)
    ensures k < i && results[k] != Absent ==>
              var to := Resolve(LocalRef(k), i, results);
              && (!IsRef(results[k]) ==> to == Go.Bad(-32003))
              && (IsRef(results[k]) ==> to == Go.To(RefId(results[k])))
    ensures IsLocalRef(ref) && !StartsNumber(ref[1..]) ==> Resolve(ref, i, results) == Go.Bad(-32001)
  {
    ParsersAgree(k);
  }

  /** The requests handled one by one, outside any batch, and the answers of those that have an id. */
  function Singly<W>(srv: Server<W>, reqs: seq<Request>, st: State<W>): (State<W>, seq<Response>)
    decreases reqs
  {
    if reqs == [] then (st, [])
    else
      var (s, r) := Handle(srv, reqs[0], st);
      var (s', rs) := Singly(srv, reqs[1..], s);
      (s', (if reqs[0].id.Some? then [r] else []) + rs)
  }

  lemma {:induction false} SinglyThenOne<W>(srv: Server<W>, reqs: seq<Request>, last: Request, st: State<W>)
    ensures var (s, rs) := Singly(srv, reqs, st);
            var (s', r) := Handle(srv, last, s);
            Singly(srv, reqs + [last], st) == (s', rs + if last.id.Some? then [r] else [])
    decreases reqs
  {
    hide Handle;
    if reqs == [] {
      assert [] + [last] == [last] && [last][1..] == [];
      Go.NothingBeside(if last.id.Some? then [Handle(srv, last, st).1] else []);
    } else {
      var (s, r) := Handle(srv, reqs[0], st);
      SinglyThenOne(srv, reqs[1..], last, s);
      assert (reqs + [last])[1..] == reqs[1..] + [last];
      var (s', rs) := Singly(srv, reqs[1..], s);
      Go.ThreeParts(if reqs[0].id.Some? then [r] else [], rs, if last.id.Some? then [Handle(srv, last, s').1] else []);
    }
  }

  /** A batch that refers to none of its own results is handled exactly as its requests one by one would be, each at its own target. */
  lemma {:induction false} PlainBatchIsSingly<W>(srv: Server<W>, batch: seq<Request>, n: nat, st: State<W>)
    requires n <= |batch| && forall i | 0 <= i < n :: !IsLocalRef(batch[i].ref)
    ensures var p := After(srv, batch, n, st); (p.st, p.responses) == Singly(srv, batch[..n], st)
  {
    hide Handle, Singly;
    if n == 0 {
      NoneSingly(srv, st);
    } else {
      PlainBatchIsSingly(srv, batch, n - 1, st);
      assert batch[..n] == batch[..n - 1] + [batch[n - 1]];
      SinglyThenOne(srv, batch[..n - 1], batch[n - 1], st);
      Go.NothingBeside(Singly(srv, batch[..n - 1], st).1);
    }
  }

  lemma NoneSingly<W>(srv: Server<W>, st: State<W>)
    ensures Singly(srv, [], st) == (st, [])
  {
  }

  /**
    What pipelining is for: the request after one that returned an object, addressed to `\` and its position,
    runs its method on that very object, whichever of the batch's requests are notifications.
  */
  lemma ChainReachesTheObject<W>(srv: Server<W>, batch: seq<Request>, n: nat, st: State<W>, o: ObjId) returns (r: Response)
    requires n + 1 < |batch| && n < TWO63 && batch[n].ref == "" && srv.hasRoot && batch[n + 1].ref == LocalRef(n)
    requires srv.run(Root, batch[n].name, batch[n].params, After(srv, batch, n, st).st).1 == Done(Obj(o))
    ensures var s := srv.run(Root, batch[n].name, batch[n].params, After(srv, batch, n, st).st).0;
            var (id, t) := Register(s.table, o);
            var (p, second) := (After(srv, batch, n + 2, st), batch[n + 1]);
            && t.local[id] == o
            && Replies(second, srv.run(Object(o), second.name, second.params, s.(table := t)), (p.st, r))
            && p.responses == After(srv, batch, n + 1, st).responses + if second.id.Some? then [r] else []
  {
    hide Handle, Replies, Decimal, Resolve, Walk;
    var (first, second) := (batch[n], batch[n + 1]);
    var p := After(srv, batch, n, st);
    BatchAccounting(srv, batch, n, st);
    var s := srv.run(Root, first.name, first.params, p.st).0;
    var (id, t) := Register(s.table, o);
    RootReturnsObject(srv, first, p.st, o);
    var p1 := After(srv, batch, n + 1, st);
    assert p1.st == s.(table := t) && p1.results == p.results + [RefTo(id)];
    ReferencesRead(n, n + 1, p1.results, LocalRef(n));
    Go.MintedIsOrdinary(s.table.prefix, s.table.counter + 1);
    CallsTheObject(srv, second.(ref := id), p1.st);
    var s2 := Handle(srv, second.(ref := id), p1.st).0;
    r := Handle(srv, second.(ref := id), p1.st).1;
    RepliesIgnoreRef(second, id, srv.run(Object(o), second.name, second.params, s.(table := t)), (s2, r));
    assert After(srv, batch, n + 2, st) == Push(p1, second, s2, r);
    Go.NothingBeside(p1.responses);
  }

  lemma RootReturnsObject<W>(srv: Server<W>, req: Request, st: State<W>, o: ObjId)
    requires req.ref == "" && srv.hasRoot && srv.run(Root, req.name, req.params, st).1 == Done(Obj(o))
    ensures var s := srv.run(Root, req.name, req.params, st).0;
            var (id, t) := Register(s.table, o);
            Handle(srv, req, st) == (s.(table := t), Response(req.id, Done(RefTo(id))))
  {
  }

  lemma RepliesIgnoreRef<W>(req: Request, ref: string, ran: (State<W>, Outcome), r: (State<W>, Response))
    requires Replies(req.(ref := ref), ran, r)
    ensures Replies(req, ran, r)
  {
  }

  /** The ids of the requests that are not notifications, in order. */
  function IdsOf(batch: seq<Request>): seq<Option<Id>> {
    if batch == [] then []
    else IdsOf(batch[..|batch| - 1]) + if batch[|batch| - 1].id.Some? then [batch[|batch| - 1].id] else []
  }

  function ResponseIds(rs: seq<Response>): (ids: seq<Option<Id>>)
    ensures |ids| == |rs| && forall i | 0 <= i < |rs| :: ids[i] == rs[i].id
  {
    seq(|rs|, i requires 0 <= i < |rs| => rs[i].id)
  }

  lemma Turn<W>(srv: Server<W>, batch: seq<Request>, n: nat, st: State<W>)
    requires n < |batch|
    ensures var (was, now) := (After(srv, batch, n, st), After(srv, batch, n + 1, st));
            && |now.results| == |was.results| + 1
            && if batch[n].id.Some? then |now.responses| == |was.responses| + 1 && now.responses[..|was.responses|] == was.responses && now.responses[|was.responses|].id == batch[n].id
               else now.responses == was.responses
  {
  }

  /** Accounting: one result per request, and the responses are exactly those of the non-notifications, in order. */
  lemma {:induction false} BatchAccounting<W>(srv: Server<W>, batch: seq<Request>, n: nat, st: State<W>)
    requires n <= |batch|
    ensures |After(srv, batch, n, st).results| == n
    ensures ResponseIds(After(srv, batch, n, st).responses) == IdsOf(batch[..n])
  {
    hide Step;
    if n > 0 {
      BatchAccounting(srv, batch, n - 1, st);
      Turn(srv, batch, n - 1, st);
      assert batch[..n][..n - 1] == batch[..n - 1];
      var (was, now) := (After(srv, batch, n - 1, st).responses, After(srv, batch, n, st).responses);
      assert ResponseIds(now) == ResponseIds(was) + if batch[n - 1].id.Some? then [batch[n - 1].id] else [];
    }
  }

  /** Nothing that cannot be serialised is ever sent, nor kept for references to read. */
  lemma {:induction false} NothingRawIsSent<W>(srv: Server<W>, batch: seq<Request>, n: nat, st: State<W>)
    requires n <= |batch|
    ensures var p := After(srv, batch, n, st);
            && (forall r | r in p.responses && r.outcome.Done? :: Objects(r.outcome.v) == [])
            && (forall v | v in p.results :: Objects(v) == [])
  {
    hide Step;
    if n > 0 {
      NothingRawIsSent(srv, batch, n - 1, st);
      StepSendsWalked(srv, batch[n - 1], n - 1, After(srv, batch, n - 1, st));
    }
  }

  lemma HandleSendsWalked<W>(srv: Server<W>, req: Request, st: State<W>)
    ensures Objects(ResultOf(Handle(srv, req, st).1.outcome)) == []
  {
    hide Walk;
    var (st', out) := Call(srv, req.ref, req.name, req.params, st);
    if out.Done? {
      WalkLeavesNoObjects(out.v, st'.table);
    }
  }

  lemma StepSendsWalked<W>(srv: Server<W>, req: Request, i: nat, p: Progress<W>)
    requires forall r | r in p.responses && r.outcome.Done? :: Objects(r.outcome.v) == []
    requires forall v | v in p.results :: Objects(v) == []
    ensures var p' := Step(srv, req, i, p);
            && (forall r | r in p'.responses && r.outcome.Done? :: Objects(r.outcome.v) == [])
            && (forall v | v in p'.results :: Objects(v) == [])
  {
    hide Handle, Resolve;
    HandleSendsWalked(srv, req, p.st);
    if IsLocalRef(req.ref) {
      match Resolve(req.ref, i, p.results)
      case Bad(_) =>
      case To(ref) => HandleSendsWalked(srv, req.(ref := ref), p.st);
    }
  }

  /**
    The result of a notification goes nowhere. Go leaves it alone; TypeScript walks it all the
    same, so each object in it stays registered under an id that nobody is told. The two
    servers end in different states if and only if there is such an object.
  */
  lemma NotificationsRegister<W>(srv: Server<W>, req: Request, st: State<W>)
    requires req.id.None? && req.name != ""
    ensures var (st', out) := Call(srv, req.ref, req.name, req.params, st);
            && Go.Handle(srv, req, st).0 == st'
            && Handle(srv, req, st).0 == (if out.Done? then st'.(table := Registered(st'.table, Objects(out.v))) else st')
            && (Handle(srv, req, st).0 != Go.Handle(srv, req, st).0 <==> out.Done? && Objects(out.v) != [])
  {
    hide Call, Walk;
    var (st', out) := Call(srv, req.ref, req.name, req.params, st);
    if out.Done? {
      WalkIsFill(out.v, st'.table);
    }
  }

  /** Results stay where they are: while request i is handled, position k holds the result of request k, notification or not. */
  lemma {:induction false} PositionsNeverShift<W>(srv: Server<W>, batch: seq<Request>, st: State<W>, i: nat, k: nat)
    requires k < i <= |batch|
    ensures |After(srv, batch, i, st).results| == i && |After(srv, batch, k + 1, st).results| == k + 1
    ensures After(srv, batch, i, st).results[k] == After(srv, batch, k + 1, st).results[k]
    decreases i
  {
    hide Step;
    BatchAccounting(srv, batch, i, st);
    BatchAccounting(srv, batch, k + 1, st);
    if k + 1 < i {
      PositionsNeverShift(srv, batch, st, i - 1, k);
      BatchAccounting(srv, batch, i - 1, st);
      OneMoreResult(srv, batch[i - 1], i - 1, After(srv, batch, i - 1, st));
    }
  }

  lemma OneMoreResult<W>(srv: Server<W>, req: Request, i: nat, p: Progress<W>)
    ensures Step(srv, req, i, p).results[..|p.results|] == p.results
  {
    hide Handle, Resolve;
  }

  /** On the batch where Go's reference is shifted, TypeScript reads request 1's own result. */
  lemma NoShiftHere(st: State<()>)
    ensures After(Go.Echo(), Go.ShiftedBatch(), 3, st).results == [RefTo("note"), RefTo("first"), RefTo("second")]
    ensures Resolve(LocalRef(1), 3, After(Go.Echo(), Go.ShiftedBatch(), 3, st).results) == Go.To("first")
  {
    var (srv, batch) := (Go.Echo(), Go.ShiftedBatch());
    EchoHandles(batch[0], st);
    EchoHandles(batch[1], st);
    EchoHandles(batch[2], st);
    hide Handle, Go.Echo;
    assert After(srv, batch, 0, st) == Progress(st, [], []);
    assert After(srv, batch, 1, st) == Progress(st, [], [RefTo("note")]);
    assert After(srv, batch, 2, st).results == [RefTo("note"), RefTo("first")];
    ParsersAgree(1);
  }

  lemma EchoHandles(req: Request, st: State<()>)
    requires req.ref == ""
    ensures Handle(Go.Echo(), req, st) == (st, Response(req.id, Done(RefTo(req.name))))
  {
  }

  lemma {:induction false} TrimDigits(s: string)
    requires s != [] && AllDigits(s)
    ensures ParseInt(s) == Some(ValueOf(s))
  {
  }

  /** The text begins, after space and a sign, with a digit. */
  predicate StartsNumber(s: string) {
    var t := TrimStart(s);
    var u := if t != [] && (t[0] == '-' || t[0] == '+') then t[1..] else t;
    u != [] && IsDigit(u[0])
  }

  /**
    The texts after the backslash that the two parsers read alike: decimal digits, at least
    one, of a number below 2^63; or other texts in which TypeScript finds no number either.
  */
  lemma ParsersAgreeExactly(s: string)
    ensures ParseInt(s) == ReadLocalRef("\\" + s) <==>
            if AllDigits(s) then s != "" && ValueOf(s) < TWO63 else !StartsNumber(s)
  {
    assert ("\\" + s)[1..] == s;
    if AllDigits(s) && s != "" {
      TrimDigits(s);
    }
  }

  /** The two parsers agree on every canonical index that fits 64 bits. */
  lemma ParsersAgree(k: nat)
    requires k < TWO63
    ensures ParseInt(LocalRef(k)[1..]) == Some(k) == ReadLocalRef(LocalRef(k))
  {
    assert LocalRef(k)[1..] == Decimal(k);
    DecimalValue(k);
    TrimDigits(Decimal(k));
  }

  /**
    Beyond 64 bits they do not: TypeScript refuses the text of k + 2^64 as a
    forward reference, Go reads it as request k.
  */
  lemma ParsersDisagreeOnOverflow(k: nat, i: nat, responses: seq<Response>, results: seq<Value>)
    requires k < TWO63 && i < TWO63
    ensures Go.Resolve(LocalRef(k + TWO64), i, responses) == Go.Resolve(LocalRef(k), i, responses)
    ensures Resolve(LocalRef(k + TWO64), i, results) == Go.Bad(INVALID_REFERENCE)
  {
    var big := k + TWO64;
    OverflowAliases(k);
    LocalRefRoundTrip(k);
    assert LocalRef(big)[1..] == Decimal(big);
    DecimalValue(big);
    TrimDigits(Decimal(big));
  }

  /** The compacted list and the positional list tell the same story. */
  ghost predicate Match(responses: seq<Response>, results: seq<Value>) {
    && |responses| == |results|
    && forall i | 0 <= i < |results| :: results[i] == ResultOf(responses[i].outcome)
  }

  /** A result both sides read alike: defined, and no `$ref` beside other keys. */
  predicate Plain(outcome: Outcome) {
    outcome.Done? ==> outcome.v != Absent && GoRefText(outcome.v) == TsRefText(outcome.v)
  }

  /** An out-of-range index: neither side can reach this branch on a canonical reference. */
  predicate OutOfBounds(index: int, current: nat, length: nat) {
    index < current && (index < 0 || index >= length)
  }

  /** Compacted and positional lookup pick the same target or the same error code, exactly when the result is one both read alike. */
  lemma ResolutionAgrees(k: nat, i: nat, responses: seq<Response>, results: seq<Value>)
    requires k < TWO63 && |responses| == i && Match(responses, results)
    ensures Go.Resolve(LocalRef(k), i, responses) == Resolve(LocalRef(k), i, results) <==> (k < i ==> Plain(responses[k].outcome))
    ensures ReadLocalRef(LocalRef(k)).Some? && ParseInt(LocalRef(k)[1..]).Some?
    ensures !OutOfBounds(ReadLocalRef(LocalRef(k)).value, i, |responses|)
    ensures !OutOfBounds(ParseInt(LocalRef(k)[1..]).value, i, |results|)
  {
    ParsersAgree(k);
  }

  /** A request both implementations treat alike: it has an id, a method, and if its ref is batch-local, a canonical one. */
  predicate Ordinary(req: Request) {
    && req.id.Some? && req.name != ""
    && (IsLocalRef(req.ref) ==> exists k: nat :: k < TWO63 && req.ref == LocalRef(k))
  }

  /** No result names the empty reference, which Go sends to the root and TypeScript leaves unresolved. */
  predicate Named(outcome: Outcome) {
    outcome.Done? ==> GoRefText(outcome.v) != Some("")
  }

  /**
    A result naming the empty reference: Go calls the root object, TypeScript leaves the
    batch-local text as it is and looks for an object under that. From equal states the two
    steps agree if and only if the call on the root object happens to do what that does.
  */
  lemma EmptyReferenceDiverges<W>(srv: Server<W>, req: Request, k: nat, i: nat, g: Go.Progress<W>, p: Progress<W>)
    requires k < i == |g.responses| && k < TWO63 && req.ref == LocalRef(k) && req.id.Some? && req.name != ""
    requires g.st == p.st && g.responses == p.responses && Match(g.responses, p.results)
    requires g.responses[k].outcome == Done(RefTo(""))
    ensures var (g', p') := (Go.Step(srv, req, i, g), Step(srv, req, i, p));
            (g'.st == p'.st && g'.responses == p'.responses) <==>
            Go.Handle(srv, req.(ref := ""), p.st) ==
            if LocalRef(k) in p.st.table.local then Go.Handle(srv, req, p.st)
            else (p.st, Some(Response(req.id, Fail(REFERENCE_NOT_FOUND))))
  {
    hide Walk;
    ParsersAgree(k);
    assert Go.Resolve(LocalRef(k), i, g.responses) == Go.To("");
    assert Resolve(LocalRef(k), i, p.results) == Go.To("");
    HandlesAlike(srv, req, p.st);
    hide Go.Handle, Handle;
    var (got, other) := (Go.Handle(srv, req.(ref := ""), p.st), Handle(srv, req, p.st));
    NamedAnswered(srv, req.(ref := ""), p.st);
    assert Go.Step(srv, req, i, g) == Go.Append(g.responses, got);
    assert Step(srv, req, i, p).st == other.0 && Step(srv, req, i, p).responses == p.responses + [other.1];
    LastDiffers(p.responses, got.1.value, other.1);
  }

  lemma HandlesAlike<W>(srv: Server<W>, req: Request, st: State<W>)
    requires req.id.Some? && req.name != ""
    ensures Go.Handle(srv, req, st) == (Handle(srv, req, st).0, Some(Handle(srv, req, st).1))
    ensures req.ref != "" && req.ref != RPC_REF && req.ref !in st.table.local ==>
              Handle(srv, req, st) == (st, Response(req.id, Fail(REFERENCE_NOT_FOUND)))
  {
  }

  lemma NamedAnswered<W>(srv: Server<W>, req: Request, st: State<W>)
    requires req.id.Some?
    ensures Go.Handle(srv, req, st).1.Some?
  {
  }

  lemma LastDiffers(rs: seq<Response>, a: Response, b: Response)
    ensures rs + [a] == rs + [b] <==> a == b
  {
    assert (rs + [a])[|rs|] == a && (rs + [b])[|rs|] == b;
  }

  /** Where they differ: a method on the root object returns the empty reference, and is then called on it. */
  lemma EmptyReferenceWitness(st: State<()>)
    requires LocalRef(0) !in st.table.local
    ensures var batch := [Request(Some(Num(1)), "", "make", Null), Request(Some(Num(2)), LocalRef(0), "use", Null)];
            var first := Response(Some(Num(1)), Done(RefTo("")));
            && Go.After(Blank(), batch, 2, st).responses == [first, Response(Some(Num(2)), Done(RefTo("")))]
            && After(Blank(), batch, 2, st).responses == [first, Response(Some(Num(2)), Fail(REFERENCE_NOT_FOUND))]
  {
    var batch := [Request(Some(Num(1)), "", "make", Null), Request(Some(Num(2)), LocalRef(0), "use", Null)];
    ParsersAgree(0);
    var first := Response(Some(Num(1)), Done(RefTo("")));
    assert Go.After(Blank(), batch, 0, st) == Go.Progress(st, []);
    assert Go.After(Blank(), batch, 1, st) == Go.Progress(st, [first]);
    assert After(Blank(), batch, 0, st) == Progress(st, [], []);
    assert After(Blank(), batch, 1, st) == Progress(st, [first], [RefTo("")]);
    assert Go.Resolve(LocalRef(0), 1, [first]) == Go.To("");
    assert Resolve(LocalRef(0), 1, [RefTo("")]) == Go.To("");
  }

  /** A server whose every method returns the empty reference. */
  function Blank(): Server<()> {
    Server(true,
           (target: Target, name: string, params: Value, st: State<()>) => (st, Done(RefTo(""))),
           (name: string, params: Value, t: Table) => (t, Fail(METHOD_NOT_FOUND)))
  }

  lemma StepsAgree<W>(srv: Server<W>, req: Request, i: nat, g: Go.Progress<W>, p: Progress<W>)
    requires Ordinary(req) && |g.responses| == i
    requires g.st == p.st && g.responses == p.responses && Match(g.responses, p.results)
    requires forall j | 0 <= j < i :: Plain(g.responses[j].outcome) && Named(g.responses[j].outcome)
    ensures var (g', p') := (Go.Step(srv, req, i, g), Step(srv, req, i, p));
            g'.st == p'.st && g'.responses == p'.responses && |g'.responses| == i + 1 && Match(g'.responses, p'.results)
  {
    if IsLocalRef(req.ref) {
      var k: nat :| k < TWO63 && req.ref == LocalRef(k);
      ResolutionAgrees(k, i, g.responses, p.results);
      ParsersAgree(k);
    }
  }

  /**
    On a batch of ordinary requests whose results both sides read alike, Go's
    compacted run and TypeScript's positional run give the same responses and
    leave the same state.
  */
  lemma {:induction false} RunsAgree<W>(srv: Server<W>, batch: seq<Request>, n: nat, st: State<W>)
    requires n <= |batch| && forall i | 0 <= i < n :: Ordinary(batch[i])
    requires forall r | r in Go.After(srv, batch, n, st).responses :: Plain(r.outcome) && Named(r.outcome)
    ensures var (g, p) := (Go.After(srv, batch, n, st), After(srv, batch, n, st));
            g.st == p.st && g.responses == p.responses && |g.responses| == n && Match(g.responses, p.results)
  {
    hide Go.Step, Step, Plain, Named, Ordinary, Match;
    if n == 0 {
      NothingToMatch();
    } else {
      var g := Go.After(srv, batch, n - 1, st);
      Go.OneTurn(srv, batch, st, n - 1);
      assert forall r | r in g.responses :: r in Go.After(srv, batch, n, st).responses;
      RunsAgree(srv, batch, n - 1, st);
      StepsAgree(srv, batch[n - 1], n - 1, g, After(srv, batch, n - 1, st));
    }
  }

  lemma NothingToMatch()
    ensures Match([], [])
  {
  }
}
