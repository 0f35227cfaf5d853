/**
  Batch pipelining: a program of chained calls sent as one message gives the
  results, and leaves the session, that issuing the calls one at a time would.
*/
module Pipeline {
  import opened Basics
  import opened Text
  import opened Values
  import opened Sessions
  import opened Messages
  import opened Alignment
  import Go = GoHandler
  import Loop = ReadLoop
  import Ts = TsHandler

  /** One call of a builder program: on the root object, or on the result of an earlier call. */
  datatype Step =
    | Plain(name: string, params: Value)
    | Chained(k: nat, name: string, params: Value)

  /** A promise can only refer to a call already in the batch. */
  predicate WellBuilt(prog: seq<Step>) {
    forall i | 0 <= i < |prog| && prog[i].Chained? :: prog[i].k < i
  }

  function RefFor(s: Step): string {
    if s.Chained? then LocalRef(s.k) else ""
  }

  datatype BatchRequest = BatchRequest(ref: string, name: string, params: Value, isNotification: bool)

  function Converted(prog: seq<Step>): (r: seq<BatchRequest>)
    ensures |r| == |prog|
  {
    seq(|prog|, i requires 0 <= i < |prog| => BatchRequest(RefFor(prog[i]), prog[i].name, prog[i].params, false))
  }

  class BatchBuilder {
    var requests: seq<Request>
    var rawParams: seq<Value>
    var idCounter: nat
    ghost var program: seq<Step>

    ghost predicate Valid()
      reads this
    {
      && WellBuilt(program) && idCounter == |program| == |requests| == |rawParams|
      && forall i | 0 <= i < |program| ::
           && requests[i] == Request(Some(Num(i + 1)), RefFor(program[i]), program[i].name, Absent)
           && rawParams[i] == program[i].params
    }

    constructor ()
      ensures Valid() && program == []
    {
      requests, rawParams, idCounter, program := [], [], 0, [];
    }

    method Add(ref: string, name: string, params: Value, ghost s: Step) returns (index: nat)
      requires Valid() && WellBuilt(program + [s])
      requires ref == RefFor(s) && name == s.name && params == s.params
      modifies this
      ensures Valid() && program == old(program) + [s] && index == |old(program)|
    {
      idCounter := idCounter + 1;
      requests := requests + [Request(Some(Num(idCounter)), ref, name, Absent)];
      rawParams := rawParams + [params];
      program := program + [s];
      index := |requests| - 1;
    }

    /** `BatchBuilder.Call`. */
    method Call(name: string, params: Value) returns (p: BatchBuilderPromise)
      requires Valid()
      modifies this
      ensures Valid() && program == old(program) + [Plain(name, params)]
      ensures p.Valid() && p.batch == this && p.index == |old(program)|
    {
      var index := Add("", name, params, Plain(name, params));
      p := new BatchBuilderPromise(this, index);
    }

    /** The conversion loop of `ExecuteBatch`. */
    method ToBatchRequests() returns (r: seq<BatchRequest>)
      requires Valid()
      ensures r == Converted(program)
    {
      r := [];
      for i := 0 to |requests|
        invariant |r| == i && forall j | 0 <= j < i :: r[j] == Converted(program)[j]
      {
        r := r + [BatchRequest(requests[i].ref, requests[i].name, rawParams[i], requests[i].id == None)];
      }
    }
  }

  class BatchBuilderPromise {
    const batch: BatchBuilder
    const index: nat

    ghost predicate Valid()
      reads batch
    {
      batch.Valid() && index < |batch.program|
    }

    constructor (batch: BatchBuilder, index: nat)
      ensures this.batch == batch && this.index == index
    {
      this.batch, this.index := batch, index;
    }

    /** `BatchBuilderPromise.Call`: the new call is addressed to `\index`. */
    method Call(name: string, params: Value) returns (p: BatchBuilderPromise)
      requires Valid()
      modifies batch
      ensures batch.Valid() && batch.program == old(batch.program) + [Chained(index, name, params)]
      ensures p.Valid() && p.batch == batch && p.index == |old(batch.program)|
    {
      var i := batch.Add("\\" + Decimal(index), name, params, Chained(index, name, params));
      p := new BatchBuilderPromise(batch, i);
    }
  }

  /** The ids a peer's counter gives the non-notifications of a batch. */
  function Numbered(breqs: seq<BatchRequest>, base: nat): (nat, seq<Request>) {
    if breqs == [] then (base, [])
    else
      var (n, rs) := Numbered(breqs[..|breqs| - 1], base);
      var b := breqs[|breqs| - 1];
      if b.isNotification then (n, rs + [Request(None, b.ref, b.name, b.params)])
      else (n + 1, rs + [Request(Some(Num(n + 1)), b.ref, b.name, b.params)])
  }

  /** The first loop of `CallBatch`. */
  method NumberRequests(breqs: seq<BatchRequest>, nextID: nat) returns (nextID': nat, requests: seq<Request>)
    ensures (nextID', requests) == Numbered(breqs, nextID)
  {
    nextID', requests := nextID, [];
    for i := 0 to |breqs|
      invariant (nextID', requests) == Numbered(breqs[..i], nextID)
    {
      assert breqs[..i + 1][..i] == breqs[..i];
      var id: Option<Id> := None;
      if !breqs[i].isNotification {
        nextID' := nextID' + 1;
        id := Some(Num(nextID'));
      }
      requests := requests + [Request(id, breqs[i].ref, breqs[i].name, breqs[i].params)];
    }
    assert breqs[..|breqs|] == breqs;
  }

  /** How many of the requests ask for a response. */
  function Asking(breqs: seq<BatchRequest>): nat {
    if breqs == [] then 0
    else Asking(breqs[..|breqs| - 1]) + if breqs[|breqs| - 1].isNotification then 0 else 1
  }

  /** Each request keeps its place and contents; the j-th that asks for a response takes the j-th number after the counter, a notification none. */
  lemma {:induction false} NumberedIs(breqs: seq<BatchRequest>, base: nat, i: nat)
    requires i < |breqs|
    ensures Numbered(breqs, base).0 == base + Asking(breqs) && |Numbered(breqs, base).1| == |breqs|
    ensures var (b, id) := (breqs[i], base + Asking(breqs[..i]) + 1);
            Numbered(breqs, base).1[i] == Request(if b.isNotification then None else Some(Num(id)), b.ref, b.name, b.params)
    decreases breqs
  {
    var n := |breqs| - 1;
    NumberedTotals(breqs[..n], base);
    if i < n {
      NumberedIs(breqs[..n], base, i);
      assert breqs[..n][..i] == breqs[..i];
    }
  }

  lemma {:induction false} NumberedTotals(breqs: seq<BatchRequest>, base: nat)
    ensures Numbered(breqs, base).0 == base + Asking(breqs) && |Numbered(breqs, base).1| == |breqs|
    decreases breqs
  {
    if breqs != [] {
      NumberedTotals(breqs[..|breqs| - 1], base);
    }
  }

  /** What a builder program puts on the wire. */
  function Wire(prog: seq<Step>, base: nat): (r: seq<Request>)
    ensures |r| == |prog|
  {
    seq(|prog|, i requires 0 <= i < |prog| => Request(Some(Num(base + 1 + i)), RefFor(prog[i]), prog[i].name, prog[i].params))
  }

  lemma {:induction false} WireIsNumbered(prog: seq<Step>, base: nat)
    ensures Numbered(Converted(prog), base) == (base + |prog|, Wire(prog, base))
    decreases prog
  {
    if prog != [] {
      var init := prog[..|prog| - 1];
      WireIsNumbered(init, base);
      assert Converted(prog)[..|prog| - 1] == Converted(init);
      assert Wire(prog, base) == Wire(init, base) + [Wire(prog, base)[|prog| - 1]];
    } else {
      assert Wire(prog, base) == [];
    }
  }

  /** The message the response becomes still counts as a response. */
  predicate IsResponse(r: Response) {
    Loop.FromResponse(r).IsResponse()
  }

  /** The client's view of the reply: lost as a whole if any part of it is not a response. */
  function Delivered(requests: seq<Request>, rs: seq<Response>): Option<seq<Option<Response>>> {
    if forall r | r in rs :: IsResponse(r) then Some(Align(requests, rs, id => id, id => id)) else None
  }

  /**
    Issuing the calls one at a time: a chained call goes to the reference that
    actually came back, and is not issued when none did.
  */
  function OneByOne<W>(srv: Server<W>, prog: seq<Step>, n: nat, st: State<W>): (r: (State<W>, seq<Outcome>))
    requires WellBuilt(prog) && n <= |prog|
    ensures |r.1| == n
  {
    if n == 0 then (st, [])
    else
      var (s, outs) := OneByOne(srv, prog, n - 1, st);
      match prog[n - 1]
      case Plain(name, params) =>
        var (s', out) := Issue(srv, "", name, params, s);
        (s', outs + [out])
      case Chained(k, name, params) =>
        match outs[k]
        case Fail(_) => (s, outs + [Fail(INVALID_REFERENCE)])
        case Done(v) =>
          match GoRefText(v)
          case None => (s, outs + [Fail(REFERENCE_TYPE_ERROR)])
          case Some(ref) =>
            var (s', out) := Issue(srv, ref, name, params, s);
            (s', outs + [out])
  }

  /** A single call: one request, one response. */
  function Issue<W>(srv: Server<W>, ref: string, name: string, params: Value, st: State<W>): (State<W>, Outcome) {
    var (st', resp) := Go.Handle(srv, Request(Some(Num(0)), ref, name, params), st);
    (st', if resp.Some? then resp.value.outcome else Fail(INTERNAL_ERROR))
  }

  /** The number a request carries has no influence on what it does. */
  lemma IdIrrelevant<W>(srv: Server<W>, id: Id, ref: string, name: string, params: Value, st: State<W>)
    ensures var (st', out) := Issue(srv, ref, name, params, st);
            Go.Handle(srv, Request(Some(id), ref, name, params), st) == (st', Some(Response(Some(id), out)))
  {
  }

  /** The responses of a batch whose request i carries the number base + 1 + i. */
  function Replies(outs: seq<Outcome>, base: nat): (r: seq<Response>)
    ensures |r| == |outs|
  {
    seq(|outs|, i requires 0 <= i < |outs| => Response(Some(Num(base + 1 + i)), outs[i]))
  }

  lemma RepliesAppend(outs: seq<Outcome>, out: Outcome, base: nat)
    ensures Replies(outs + [out], base) == Replies(outs, base) + [Response(Some(Num(base + 1 + |outs|)), out)]
  {
  }

  /** One turn of the batch loop does what one call of the sequential client does. */
  lemma TurnsAgree<W>(srv: Server<W>, prog: seq<Step>, n: nat, st: State<W>, base: nat)
    requires WellBuilt(prog) && n < |prog| < TWO63
    requires var (s, outs) := OneByOne(srv, prog, n, st);
             Go.After(srv, Wire(prog, base), n, st) == Go.Progress(s, Replies(outs, base))
    ensures var (s, outs) := OneByOne(srv, prog, n + 1, st);
            Go.After(srv, Wire(prog, base), n + 1, st) == Go.Progress(s, Replies(outs, base))
  {
    hide Go.Handle, Issue, Decimal, GoRefText, ReadLocalRef;
    var (s, outs) := OneByOne(srv, prog, n, st);
    var (s', outs') := OneByOne(srv, prog, n + 1, st);
    var req := Wire(prog, base)[n];
    RepliesAppend(outs, outs'[n], base);
    assert outs' == outs + [outs'[n]];
    if prog[n].Chained? {
      LocalRefRoundTrip(prog[n].k);
      match Go.Resolve(req.ref, n, Replies(outs, base))
      case Bad(_) =>
      case To(ref) => IdIrrelevant(srv, Num(base + 1 + n), ref, req.name, req.params, s);
    } else {
      IdIrrelevant(srv, Num(base + 1 + n), "", req.name, req.params, s);
    }
  }

  lemma {:induction false} BatchIsOneByOne<W>(srv: Server<W>, prog: seq<Step>, n: nat, st: State<W>, base: nat)
    requires WellBuilt(prog) && n <= |prog| < TWO63
    ensures var (s, outs) := OneByOne(srv, prog, n, st);
            Go.After(srv, Wire(prog, base), n, st) == Go.Progress(s, Replies(outs, base))
  {
    if n == 0 {
      assert Replies([], base) == [];
    } else {
      BatchIsOneByOne(srv, prog, n - 1, st, base);
      TurnsAgree(srv, prog, n - 1, st, base);
    }
  }

  /** A result list with no gaps. */
  function Present(rs: seq<Response>): (r: seq<Option<Response>>)
    ensures |r| == |rs| && forall i | 0 <= i < |rs| :: r[i] == Some(rs[i])
  {
    seq(|rs|, i requires 0 <= i < |rs| => Some(rs[i]))
  }

  lemma AlignedReplies(prog: seq<Step>, outs: seq<Outcome>, base: nat)
    requires |outs| == |prog|
    ensures Align(Wire(prog, base), Replies(outs, base), id => id, id => id) == Present(Replies(outs, base))
  {
    var rs := Replies(outs, base);
    forall i | 0 <= i < |prog| ensures Align(Wire(prog, base), rs, id => id, id => id)[i] == Some(rs[i]) {
      AlignedEntries(Wire(prog, base), rs, id => id, id => id, i);
      assert rs[i] in rs;
    }
  }

  lemma LostIffNil(outs: seq<Outcome>, base: nat)
    ensures (forall r | r in Replies(outs, base) :: IsResponse(r)) <==> forall out | out in outs :: out != Done(Absent)
  {
    var rs := Replies(outs, base);
    if forall out | out in outs :: out != Done(Absent) {
      forall r | r in rs ensures IsResponse(r) {
        var i :| 0 <= i < |rs| && rs[i] == r;
        assert outs[i] in outs;
      }
    } else {
      var i :| 0 <= i < |outs| && outs[i] == Done(Absent);
      assert rs[i] in rs && !IsResponse(rs[i]);
    }
  }

  /** `ExecuteBatch` through a peer: nothing is sent for an empty program; otherwise one message out, one reply back. */
  function Execute<W>(srv: Server<W>, prog: seq<Step>, st: State<W>, base: nat): (State<W>, Option<seq<Option<Response>>>) {
    if prog == [] then (st, Some([]))
    else
      var requests := Numbered(Converted(prog), base).1;
      var reaction := Loop.React(srv, AsMessages(requests), true, st);
      (reaction.st, Delivered(requests, reaction.sent))
  }

  /** The message set of a batch. */
  function AsMessages(requests: seq<Request>): (ms: seq<Loop.Message>)
    ensures |ms| == |requests|
  {
    seq(|requests|, i requires 0 <= i < |requests| => Loop.FromRequest(requests[i]))
  }

  /**
    Pipelining preserves meaning. For every builder program, the batch leaves the
    state that issuing the calls one at a time leaves, and the client's result
    list, realigned by id, holds those calls' outcomes in order; it arrives if and
    only if none of them is a nil result.
  */
  lemma PipeliningPreservesMeaning<W>(srv: Server<W>, prog: seq<Step>, st: State<W>, base: nat)
    requires WellBuilt(prog) && |prog| < TWO63 && forall i | 0 <= i < |prog| :: prog[i].name != ""
    ensures var (s, outs) := OneByOne(srv, prog, |prog|, st);
            Execute(srv, prog, st, base) ==
            (s, if forall out | out in outs :: out != Done(Absent) then Some(Present(Replies(outs, base))) else None)
  {
    if prog == [] {
      assert Present(Replies([], base)) == [];
    } else {
      hide Go.Handle, Decimal;
      WireIsNumbered(prog, base);
      BatchIsOneByOne(srv, prog, |prog|, st, base);
      NamedArrive(prog, base);
      var outs := OneByOne(srv, prog, |prog|, st).1;
      AlignedReplies(prog, outs, base);
      LostIffNil(outs, base);
    }
  }

  /** Requests with method names arrive as they were sent. */
  lemma NamedArrive(prog: seq<Step>, base: nat)
    requires forall i | 0 <= i < |prog| :: prog[i].name != ""
    ensures var ms := AsMessages(Wire(prog, base)); Loop.AllRequests(ms) && Loop.Requests(ms) == Wire(prog, base)
  {
    var (ms, requests) := (AsMessages(Wire(prog, base)), Wire(prog, base));
    forall i | 0 <= i < |prog| ensures ms[i].IsRequest() && Loop.ToRequest(ms[i]) == Some(requests[i]) {
      Loop.RoundTrips(requests[i], Response(None, Fail(0)));
    }
    assert Loop.Requests(ms) == requests;
  }

  /** The results a client of the Go HTTP transport gets: those of the requests it numbered below one million. */
  function BelowMillion(rs: seq<Response>, base: nat): (r: seq<Option<Response>>)
    ensures |r| == |rs|
  {
    seq(|rs|, i requires 0 <= i < |rs| => if base + 1 + i < 1_000_000 then Some(rs[i]) else None)
  }

  /**
    `ExecuteBatch` through the HTTP client, over JSON: an empty program is an error; a call
    without a method name makes the server refuse the body with a single nil-id response;
    otherwise the batch is handled at once, and the reply aligned by printed ids.
  */
  function HttpExecute<W>(srv: Server<W>, prog: seq<Step>, st: State<W>, base: nat): (State<W>, Option<seq<Option<Response>>>) {
    if prog == [] then (st, None)
    else
      var requests := Numbered(Converted(prog), base).1;
      var p := if Loop.AllRequests(AsMessages(requests)) then Go.HandleAll(srv, requests, st)
               else Go.Progress(st, [Response(None, Fail(PARSE_ERROR))]);
      (p.st,
       if forall r | r in p.responses :: IsResponse(r) then Some(Align(requests, p.responses, DrawnText, DecodedText)) else None)
  }

  /**
    Over HTTP the state is still that of one call at a time; the results reach the caller if
    none is nil, each exactly as long as its request's number is below one million.
  */
  lemma PipeliningOverHttp<W>(srv: Server<W>, prog: seq<Step>, st: State<W>, base: nat)
    requires WellBuilt(prog) && 0 < |prog| < TWO63 && forall i | 0 <= i < |prog| :: prog[i].name != ""
    ensures var (s, outs) := OneByOne(srv, prog, |prog|, st);
            HttpExecute(srv, prog, st, base) ==
            (s, if forall out | out in outs :: out != Done(Absent) then Some(BelowMillion(Replies(outs, base), base)) else None)
  {
    hide Go.Handle, Decimal, DrawnText, DecodedText;
    WireIsNumbered(prog, base);
    NamedArrive(prog, base);
    BatchIsOneByOne(srv, prog, |prog|, st, base);
    var outs := OneByOne(srv, prog, |prog|, st).1;
    LostIffNil(outs, base);
    HttpAligned(prog, outs, base);
  }

  /** An empty program comes to nothing on either transport: an empty list over a stream, an error over HTTP. */
  lemma EmptyProgram<W>(srv: Server<W>, st: State<W>, base: nat)
    ensures Execute(srv, [], st, base) == (st, Some([])) && HttpExecute(srv, [], st, base) == (st, None)
  {
    assert Present(Replies([], base)) == [];
    PipeliningPreservesMeaning(srv, [], st, base);
  }

  /** A call without a method name spoils a batch over HTTP too: nothing is carried out and no result arrives. */
  lemma NamelessOverHttp<W>(srv: Server<W>, prog: seq<Step>, st: State<W>, base: nat, i: nat)
    requires i < |prog| && prog[i].name == ""
    ensures var (s, results) := HttpExecute(srv, prog, st, base);
            s == st && results.Some? && |results.value| == |prog| && forall r | r in results.value :: r == None
  {
    WireIsNumbered(prog, base);
    assert !AsMessages(Wire(prog, base))[i].IsRequest();
    var rs := [Response(None, Fail(PARSE_ERROR))];
    forall j | 0 <= j < |prog| ensures Align(Wire(prog, base), rs, DrawnText, DecodedText)[j] == None {
      AlignedEntries(Wire(prog, base), rs, DrawnText, DecodedText, j);
    }
  }

  lemma HttpAligned(prog: seq<Step>, outs: seq<Outcome>, base: nat)
    requires |outs| == |prog|
    ensures Align(Wire(prog, base), Replies(outs, base), DrawnText, DecodedText) == BelowMillion(Replies(outs, base), base)
  {
    hide DrawnText, DecodedText;
    var rs := Replies(outs, base);
    forall i | 0 <= i < |prog|
      ensures Align(Wire(prog, base), rs, DrawnText, DecodedText)[i] == if base + 1 + i < 1_000_000 then Some(rs[i]) else None
    {
      HttpAlignment(Wire(prog, base), rs, i, base + 1 + i, rs[i]);
    }
  }

  /** One call without a method name spoils the whole batch: nothing in it is carried out. */
  lemma NamelessCallSpoils<W>(srv: Server<W>, prog: seq<Step>, st: State<W>, base: nat, i: nat)
    requires i < |prog| && prog[i].name == ""
    ensures Execute(srv, prog, st, base).0 == st
    ensures forall r | r in Loop.React(srv, AsMessages(Wire(prog, base)), true, st).sent :: r.outcome == Fail(INVALID_REQUEST)
  {
    WireIsNumbered(prog, base);
    var ms := AsMessages(Wire(prog, base));
    assert !ms[i].IsRequest() && !ms[i].IsResponse();
    Loop.MixtureRefused(srv, ms, true, st);
  }

  /** A call chained on a failure, or on anything but a reference, is answered without being dispatched. */
  lemma BadChainNeverDispatched<W>(srv: Server<W>, prog: seq<Step>, i: nat, st: State<W>, base: nat)
    requires WellBuilt(prog) && i < |prog| < TWO63 && prog[i].Chained?
    ensures |Go.After(srv, Wire(prog, base), i, st).responses| == i
    ensures |Go.After(srv, Wire(prog, base), i + 1, st).responses| == i + 1
    ensures var (was, now) := (Go.After(srv, Wire(prog, base), i, st), Go.After(srv, Wire(prog, base), i + 1, st));
            var source := was.responses[prog[i].k].outcome;
            && (source.Fail? ==> now.st == was.st && now.responses[i].outcome == Fail(INVALID_REFERENCE))
            && (source.Done? && GoRefText(source.v).None? ==> now.st == was.st && now.responses[i].outcome == Fail(REFERENCE_TYPE_ERROR))
  {
    hide Go.Step, Go.Handle, Issue, Decimal;
    BatchIsOneByOne(srv, prog, i, st, base);
    BatchIsOneByOne(srv, prog, i + 1, st, base);
  }

  /** The same program on a TypeScript server, while both sides read its results alike. */
  lemma PipeliningOnTypeScript<W>(srv: Server<W>, prog: seq<Step>, st: State<W>, base: nat)
    requires WellBuilt(prog) && |prog| < TWO63
    requires forall i | 0 <= i < |prog| :: prog[i].name != ""
    requires forall out | out in OneByOne(srv, prog, |prog|, st).1 :: Ts.Plain(out) && Ts.Named(out)
    ensures var (s, outs) := OneByOne(srv, prog, |prog|, st);
            var run := Ts.After(srv, Wire(prog, base), |prog|, st);
            && run.st == s && run.responses == Replies(outs, base)
            && Align(Wire(prog, base), run.responses, id => id, id => id) == Present(Replies(outs, base))
  {
    BatchIsOneByOne(srv, prog, |prog|, st, base);
    var outs := OneByOne(srv, prog, |prog|, st).1;
    forall i | 0 <= i < |prog| ensures Ts.Ordinary(Wire(prog, base)[i]) {
    }
    forall r | r in Replies(outs, base) ensures Ts.Plain(r.outcome) && Ts.Named(r.outcome) {
      var i :| 0 <= i < |outs| && r == Replies(outs, base)[i];
      assert outs[i] in outs;
    }
    Ts.RunsAgree(srv, Wire(prog, base), |prog|, st);
    AlignedReplies(prog, outs, base);
  }
}
