/**
  What holds over whole runs of two connected peers: a call is completed at most
  once and by its own response, a waiting call is always in exactly one place,
  and unless new calls keep coming every call is completed.
*/
module PeerRuns {
  import opened Basics
  import opened PeerProtocol

  // ----- every call ever issued -----

  function IssuedBy(s: State, step: Step): seq<Call> {
    if step.Issue? then NewCalls(step.p, step.notify, Get(s, step.p).nextId, s.clock, step.parent) else []
  }

  /** All calls issued over a run, in order. */
  function History(s: State, steps: seq<Step>): seq<Call>
    requires Runs(s, steps)
    decreases steps
  {
    if steps == [] then [] else IssuedBy(s, steps[0]) + History(Apply(s, steps[0]), steps[1..])
  }

  ghost predicate NumberedOnce(cs: seq<Call>) {
    forall i, j | 0 <= i < j < |cs| && cs[i].owner == cs[j].owner && cs[i].id.Some? && cs[j].id.Some? ::
      cs[i].id != cs[j].id
  }

  lemma CounterGrows(s: State, step: Step, p: Side)
    requires Enabled(s, step)
    ensures Get(Apply(s, step), p).nextId == Get(s, p).nextId + if step.Issue? && step.p == p then Numbers(step.notify) else 0
  {
  }

  /** No number is handed out twice by the same peer, and all are above the counter the run started with. */
  lemma {:induction false} NumbersAreFresh(s: State, steps: seq<Step>)
    requires Runs(s, steps)
    ensures NumberedOnce(History(s, steps))
    ensures forall c | c in History(s, steps) && c.id.Some? :: c.id.value > Get(s, c.owner).nextId
    decreases steps
  {
    if steps != [] {
      var step := steps[0];
      var s' := Apply(s, step);
      NumbersAreFresh(s', steps[1..]);
      CounterGrows(s, step, A);
      CounterGrows(s, step, B);
      if step.Issue? {
        NewCallsAre(step.p, step.notify, Get(s, step.p).nextId, s.clock, step.parent);
      }
      FreshJoin(IssuedBy(s, step), History(s', steps[1..]), step.p, Get(s, A).nextId, Get(s, B).nextId,
                Get(s', A).nextId, Get(s', B).nextId) by { hide Apply, NewCalls, History; }
    }
  }

  lemma FreshJoin(early: seq<Call>, later: seq<Call>, p: Side, a: nat, b: nat, a': nat, b': nat)
    requires NumberedOnce(early) && NumberedOnce(later) && a <= a' && b <= b'
    requires forall c | c in early && c.id.Some? :: c.owner == p && (if p == A then a < c.id.value <= a' else b < c.id.value <= b')
    requires forall c | c in later && c.id.Some? :: c.id.value > if c.owner == A then a' else b'
    ensures NumberedOnce(early + later)
    ensures forall c | c in early + later && c.id.Some? :: c.id.value > if c.owner == A then a else b
  {
  }

  lemma HandledAfter(s: State, step: Step, c: Call)
    requires Enabled(s, step) && c in Apply(s, step).handled
    ensures c in s.handled || c in Travelling(s)
  {
    if c !in s.handled && step.Finish? {
      RunningTravels(s, step.p, step.i);
      assert c in multiset(Get(s, step.p).running[step.i].calls);
    }
  }

  lemma TravellingAfter(s: State, step: Step, c: Call)
    requires Enabled(s, step) && c in Travelling(Apply(s, step))
    ensures c in Travelling(s) || c in IssuedBy(s, step)
  {
    hide Travelling, Register, Answer, Apply, NewCalls;
    Moves(s, step);
    assert (Travelling(s) + Added(s, step))[c] == (Travelling(Apply(s, step)) + Taken(s, step))[c];
    if step.Finish? {
      var cs := Get(s, step.p).running[step.i].calls;
      KeptSome(cs, step.keep);
      RunningTravels(s, step.p, step.i);
      assert multiset(Kept(cs, step.keep))[c] <= multiset(cs)[c] <= Travelling(s)[c];
    }
  }

  /** Nothing is handled that was not there at the start or issued on the way. */
  lemma {:induction false} HandledWasIssued(s: State, steps: seq<Step>, c: Call)
    requires Runs(s, steps) && c in Final(s, steps).handled
    ensures c in s.handled || c in Travelling(s) || c in History(s, steps)
    decreases steps
  {
    if steps != [] {
      var (step, s') := (steps[0], Apply(s, steps[0]));
      HandledWasIssued(s', steps[1..], c);
      if c in s'.handled {
        HandledAfter(s, step, c);
      } else if c in Travelling(s') {
        TravellingAfter(s, step, c);
      }
    }
  }

  /** No run ever has more than a hundred messages in a write channel. */
  lemma {:induction false} ChannelBounded(s: State, steps: seq<Step>, p: Side)
    requires Runs(s, steps) && |Get(s, p).writeQ| <= 100
    ensures |Get(Final(s, steps), p).writeQ| <= 100
    decreases steps
  {
    if steps != [] {
      StepBounded(s, steps[0], p);
      ChannelBounded(Apply(s, steps[0]), steps[1..], p);
    }
  }

  lemma StepBounded(s: State, step: Step, p: Side)
    requires Enabled(s, step) && |Get(s, p).writeQ| <= 100
    ensures |Get(Apply(s, step), p).writeQ| <= 100
  {
    hide NewCalls, Register, Answer, Kept;
  }

  // ----- the order of arrival -----

  /** What a step admits to p's write channel, writes from it to the link, and reads from the link into p. */
  function Admits(s: State, step: Step, p: Side): seq<Msg>
    requires Enabled(s, step)
  {
    if step.Enqueue? && step.p == p then [Get(s, p).blocked[step.i]] else []
  }

  function Writes(s: State, step: Step, p: Side): seq<Msg>
    requires Enabled(s, step)
  {
    if step.Write? && step.p == p then [Get(s, p).writeQ[0]] else []
  }

  function Reads(s: State, step: Step, p: Side): seq<Msg>
    requires Enabled(s, step)
  {
    if step.Deliver? && step.p == p then [Get(s, p).inbox[0]] else []
  }

  /** The same over a run, in order. */
  function Admitted(s: State, steps: seq<Step>, p: Side): seq<Msg>
    requires Runs(s, steps)
    decreases steps
  {
    if steps == [] then [] else Admits(s, steps[0], p) + Admitted(Apply(s, steps[0]), steps[1..], p)
  }

  function Written(s: State, steps: seq<Step>, p: Side): seq<Msg>
    requires Runs(s, steps)
    decreases steps
  {
    if steps == [] then [] else Writes(s, steps[0], p) + Written(Apply(s, steps[0]), steps[1..], p)
  }

  function Read(s: State, steps: seq<Step>, p: Side): seq<Msg>
    requires Runs(s, steps)
    decreases steps
  {
    if steps == [] then [] else Reads(s, steps[0], p) + Read(Apply(s, steps[0]), steps[1..], p)
  }

  lemma QueuesStep(s: State, step: Step, p: Side)
    requires Enabled(s, step)
    ensures var s' := Apply(s, step);
            && Get(s, p).writeQ + Admits(s, step, p) == Writes(s, step, p) + Get(s', p).writeQ
            && Get(s, Other(p)).inbox + Writes(s, step, p) == Reads(s, step, Other(p)) + Get(s', Other(p)).inbox
  {
    hide NewCalls, Register, Answer, Kept;
    if step.Write? && step.p == p {
      assert Get(s, p).writeQ == [Get(s, p).writeQ[0]] + Get(s, p).writeQ[1..];
    }
    if step.Deliver? && step.p == Other(p) {
      var q := Get(s, Other(p)).inbox;
      assert q == [q[0]] + q[1..];
    }
  }

  lemma QueueChain(q: seq<Msg>, a: seq<Msg>, b: seq<Msg>, c: seq<Msg>, d: seq<Msg>, q1: seq<Msg>, q2: seq<Msg>)
    requires q + a == b + q1 && q1 + c == d + q2
    ensures q + (a + c) == (b + d) + q2
  {
    assert q + (a + c) == (q + a) + c == b + (q1 + c);
  }

  lemma {:induction false} QueuesKeepOrder(s: State, steps: seq<Step>, p: Side)
    requires Runs(s, steps)
    ensures Get(s, p).writeQ + Admitted(s, steps, p) == Written(s, steps, p) + Get(Final(s, steps), p).writeQ
    ensures Get(s, Other(p)).inbox + Written(s, steps, p) == Read(s, steps, Other(p)) + Get(Final(s, steps), Other(p)).inbox
    decreases steps
  {
    hide Apply, Enabled, Admits, Writes, Reads;
    if steps == [] {
      NothingMoved(Get(s, p).writeQ);
      NothingMoved(Get(s, Other(p)).inbox);
    } else {
      var (step, s') := (steps[0], Apply(s, steps[0]));
      QueuesStep(s, step, p);
      QueuesKeepOrder(s', steps[1..], p);
      var (end, o) := (Final(s', steps[1..]), Other(p));
      QueueChain(Get(s, p).writeQ, Admits(s, step, p), Writes(s, step, p), Admitted(s', steps[1..], p),
                 Written(s', steps[1..], p), Get(s', p).writeQ, Get(end, p).writeQ);
      QueueChain(Get(s, o).inbox, Writes(s, step, p), Reads(s, step, o), Written(s', steps[1..], p),
                 Read(s', steps[1..], o), Get(s', o).inbox, Get(end, o).inbox);
    }
  }

  lemma NothingMoved(q: seq<Msg>)
    ensures q + [] == [] + q
  {
  }

  /**
    The link keeps order. Over every run, what one side has read, then what has been written and not
    read, then what waits in the other's write channel, is together exactly what that channel
    admitted, in the order of admission.
  */
  lemma LinksKeepOrder(steps: seq<Step>, p: Side)
    requires Runs(START, steps)
    ensures var end := Final(START, steps);
            Read(START, steps, Other(p)) + Get(end, Other(p)).inbox + Get(end, p).writeQ == Admitted(START, steps, p)
  {
    QueuesKeepOrder(START, steps, p);
    assert Get(START, p).writeQ == [] && Get(START, Other(p)).inbox == [];
    assert [] + Admitted(START, steps, p) == Admitted(START, steps, p);
    assert [] + Written(START, steps, p) == Written(START, steps, p);
  }

  /**
    Correlation. Whatever the order of writes, deliveries and handlers, and although both
    sides use the same numbers: each number of each peer is completed at most once, and then
    with the response to the one call that peer ever issued under that number, after the
    other side handled that call.
  */
  lemma Correlation(steps: seq<Step>)
    requires Runs(START, steps)
    ensures var (s, h) := (Final(START, steps), History(START, steps));
            && (forall i, j | 0 <= i < j < |s.done| :: s.done[i].p != s.done[j].p || s.done[i].k != s.done[j].k)
            && (forall i | 0 <= i < |s.done| ::
                  var d := s.done[i];
                  && d.c in h && d.c.owner == d.p && d.c.id == Some(d.k) && d.c in s.handled
                  && forall c | c in h && c.owner == d.p && c.id == Some(d.k) :: c == d.c)
  {
    hide Directed, Counted, Apply, Enabled;
    InvAtStart();
    InvThroughout(START, steps);
    NumbersAreFresh(START, steps);
    var (s, h) := (Final(START, steps), History(START, steps));
    forall i | 0 <= i < |s.done| ensures s.done[i].c in h {
      NothingAtStart(s.done[i].c);
      HandledWasIssued(START, steps, s.done[i].c);
    }
    OnlyOneNumbered(h);
  }

  lemma NothingAtStart(c: Call)
    ensures c !in START.handled && c !in Travelling(START)
  {
  }

  lemma OnlyOneNumbered(cs: seq<Call>)
    requires NumberedOnce(cs)
    ensures forall c, d | c in cs && d in cs && c.owner == d.owner && c.id == d.id && c.id.Some? :: c == d
  {
  }

  /**
    Conservation. A waiting call without its response is in exactly one of the eight places a
    call can be; once its own response is in the channel it is in none of them.
  */
  lemma Conservation(steps: seq<Step>, p: Side, k: nat)
    requires Runs(START, steps) && k in Get(Final(START, steps), p).pending
    ensures var (a, b, w) := (Final(START, steps).a, Final(START, steps).b, Get(Final(START, steps), p).pending[k]);
            var c := w.call;
            && c.owner == p && c.id == Some(k) && (w.answer.Some? ==> w.answer.value == c)
            && CallsIn(a.blocked)[c] + CallsIn(a.writeQ)[c] + CallsIn(a.inbox)[c] + CallsIn(a.running)[c]
               + CallsIn(b.blocked)[c] + CallsIn(b.writeQ)[c] + CallsIn(b.inbox)[c] + CallsIn(b.running)[c]
               + (if w.answer.Some? then 1 else 0) == 1
  {
    hide CallsIn, Directed, Settled;
    InvAtStart();
    InvThroughout(START, steps);
    var s := Final(START, steps);
    assert k in Wait(View(s), p);
    assert WaitsOnce(View(s), p, k, Get(s, p).pending[k]);
  }

  // ----- every step but issuing brings the end nearer -----

  /** Messages weighed by how many steps they have before them. */
  function Load(q: seq<Msg>, request: nat, response: nat): nat {
    if q == [] then 0
    else Load(q[..|q| - 1], request, response) + if q[|q| - 1].Requests? then request else response
  }

  function LoadAt(x: Peer): nat {
    Load(x.blocked, 8, 4) + Load(x.writeQ, 7, 3) + Load(x.inbox, 6, 2) + Load(x.running, 5, 5) + |x.pending|
  }

  function Measure(s: State): nat {
    LoadAt(s.a) + LoadAt(s.b)
  }

  lemma LoadAppend(q: seq<Msg>, m: Msg, request: nat, response: nat)
    ensures Load(q + [m], request, response) == Load(q, request, response) + if m.Requests? then request else response
  {
  }

  lemma {:induction false} LoadRemove(q: seq<Msg>, i: nat, request: nat, response: nat)
    requires i < |q|
    ensures Load(q, request, response) == Load(Remove(q, i), request, response) + if q[i].Requests? then request else response
    decreases q
  {
    var n := |q| - 1;
    if i < n {
      LoadRemove(q[..n], i, request, response);
      assert Remove(q, i) == Remove(q[..n], i) + [q[n]];
      LoadAppend(Remove(q[..n], i), q[n], request, response);
    } else {
      assert Remove(q, i) == q[..n];
    }
  }

  lemma LoadTail(q: seq<Msg>, request: nat, response: nat)
    requires q != []
    ensures Load(q, request, response) == Load(q[1..], request, response) + if q[0].Requests? then request else response
  {
    LoadRemove(q, 0, request, response);
    assert Remove(q, 0) == q[1..];
  }

  lemma {:induction false} AnswerKeepsSize(pending: map<nat, Waiter>, cs: seq<Call>)
    ensures |Answer(pending, cs)| == |pending|
  {
    AnswerFills(pending, cs);
    assert |Answer(pending, cs)| == |Answer(pending, cs).Keys| && |pending| == |pending.Keys|;
  }

  lemma DropShrinks(pending: map<nat, Waiter>, k: nat)
    requires k in pending
    ensures |pending - {k}| < |pending|
  {
  }

  /** Every step other than a new call lowers the measure. */
  lemma MeasureDrops(s: State, step: Step)
    requires Enabled(s, step) && !step.Issue?
    ensures Measure(Apply(s, step)) < Measure(s)
  {
    hide Load, Answer, Kept;
    var (x, y) := (Get(s, step.p), Get(s, Other(step.p)));
    match step
    case Enqueue(_, i) =>
      LoadRemove(x.blocked, i, 8, 4);
      LoadAppend(x.writeQ, x.blocked[i], 7, 3);
    case Write(_) =>
      LoadTail(x.writeQ, 7, 3);
      LoadAppend(y.inbox, x.writeQ[0], 6, 2);
    case Deliver(_) =>
      LoadTail(x.inbox, 6, 2);
      LoadAppend(x.running, x.inbox[0], 5, 5);
      AnswerKeepsSize(x.pending, x.inbox[0].calls);
    case Finish(_, i, keep) =>
      LoadRemove(x.running, i, 5, 5);
      LoadAppend(x.blocked, Responses(Kept(x.running[i].calls, keep)), 8, 4);
    case Complete(_, k) => DropShrinks(x.pending, k);
    case Timeout(_, k) => DropShrinks(x.pending, k);
    case _ =>
  }

  /** A run without new calls is never longer than the measure. */
  lemma {:induction false} RunsAreShort(s: State, steps: seq<Step>)
    requires Runs(s, steps) && forall i | 0 <= i < |steps| :: !steps[i].Issue?
    ensures |steps| + Measure(Final(s, steps)) <= Measure(s)
    decreases steps
  {
    hide Enabled, Apply, Measure;
    if steps != [] {
      MeasureDrops(s, steps[0]);
      assert forall i | 0 <= i < |steps[1..]| :: steps[1..][i] == steps[i + 1];
      RunsAreShort(Apply(s, steps[0]), steps[1..]);
    }
  }

  // ----- progress -----

  ghost predicate QuietAt(x: Peer) {
    x.pending == map[] && x.blocked == [] && x.writeQ == [] && x.inbox == [] && x.running == []
  }

  /** Nothing is on its way and nobody waits. */
  ghost predicate Quiet(s: State) {
    QuietAt(s.a) && QuietAt(s.b)
  }

  /** No step is possible except new calls and timeouts. */
  ghost predicate Stuck(s: State) {
    forall step: Step | Enabled(s, step) :: step.Issue? || step.Timeout?
  }

  /** Only handlers are left to act at p. */
  ghost predicate AtRest(s: State, p: Side) {
    var x := Get(s, p);
    x.blocked == [] && x.writeQ == [] && x.inbox == [] && forall k | k in x.pending :: x.pending[k].answer.None?
  }

  lemma NotAtRest(s: State, p: Side) returns (step: Step)
    requires !AtRest(s, p)
    ensures Enabled(s, step) && !step.Issue? && !step.Timeout?
  {
    var x := Get(s, p);
    if x.writeQ != [] {
      step := Write(p);
    } else if x.blocked != [] {
      step := Enqueue(p, 0);
    } else if x.inbox != [] {
      step := Deliver(p);
    } else {
      var k :| k in x.pending && x.pending[k].answer.Some?;
      step := Complete(p, k);
    }
  }

  lemma HandlesTheOthers(s: State, p: Side)
    requires Inv(s)
    ensures forall c | c in CallsIn(Get(s, p).running) :: c.owner == Other(p)
  {
    hide Settled, Counted, CallsIn;
    forall c | c in CallsIn(Get(s, p).running) ensures c.owner == Other(p) {
      var j := Located(Get(s, p).running, c);
      assert Sent(Get(s, p).running[j], Other(p), {});
    }
  }

  /** A waiting call that is nowhere else is being handled by the other side. */
  lemma WaitsForHandler(s: State, p: Side, k: nat) returns (i: nat)
    requires Inv(s) && AtRest(s, A) && AtRest(s, B) && k in Get(s, p).pending
    ensures i < |Get(s, Other(p)).running| && Get(s, p).pending[k].call in Get(s, Other(p)).running[i].calls
    ensures Get(s, Other(p)).running[i].calls[0].stamp == Get(s, p).pending[k].call.stamp
    ensures Get(s, p).pending[k].call.stamp < s.clock
  {
    hide Settled, CallsIn;
    var c := Get(s, p).pending[k].call;
    assert k in Wait(View(s), p);
    assert WaitsOnce(View(s), p, k, Get(s, p).pending[k]);
    EmptyQueue();
    var (x, y) := (Get(s, p), Get(s, Other(p)));
    assert CallsIn(x.running)[c] + CallsIn(y.running)[c] == 1;
    HandlesTheOthers(s, p);
    i := Located(y.running, c);
    assert Sent(y.running[i], p, {});
  }

  lemma EmptyQueue()
    ensures CallsIn([]) == multiset{}
  {
  }

  /** The youngest message being handled waits for nothing, so it can finish. */
  lemma {:induction false} SomeHandlerFinishes(s: State, p: Side, i: nat) returns (step: Step)
    requires Inv(s) && AtRest(s, A) && AtRest(s, B) && i < |Get(s, p).running|
    ensures Enabled(s, step) && step.Finish?
    decreases s.clock - Get(s, p).running[i].calls[0].stamp
  {
    hide Inv, Runs, CallsIn, Apply;
    var x := Get(s, p);
    var m := x.running[i];
    RunningHasCalls(s, p, i);
    if k :| k in x.pending && x.pending[k].call.parent == Some(m.calls[0].stamp) {
      WaitingIsYounger(s, p, k);
      var j := WaitsForHandler(s, p, k);
      step := SomeHandlerFinishes(s, Other(p), j);
    } else {
      step := Finish(p, i, seq(|m.calls|, _ => true));
    }
  }

  lemma RunningHasCalls(s: State, p: Side, i: nat)
    requires Inv(s) && i < |Get(s, p).running|
    ensures Get(s, p).running[i].calls != []
  {
  }

  lemma WaitingIsYounger(s: State, p: Side, k: nat)
    requires Inv(s) && k in Get(s, p).pending
    ensures var c := Get(s, p).pending[k].call; c.parent.Some? ==> c.parent.value < c.stamp
  {
    assert k in Wait(View(s), p);
    assert WaitsOnce(View(s), p, k, Get(s, p).pending[k]);
  }

  /** The connection never deadlocks: while anything is under way some step other than a timeout is possible. */
  lemma Progress(s: State) returns (step: Step)
    requires Inv(s) && !Quiet(s)
    ensures Enabled(s, step) && !step.Issue? && !step.Timeout?
  {
    hide Inv, Enabled;
    var p := if QuietAt(s.a) then B else A;
    assert !QuietAt(Get(s, p));
    if !AtRest(s, A) {
      step := NotAtRest(s, A);
    } else if !AtRest(s, B) {
      step := NotAtRest(s, B);
    } else if Get(s, p).running != [] {
      step := SomeHandlerFinishes(s, p, 0);
    } else {
      var k :| k in Get(s, p).pending;
      var i := WaitsForHandler(s, p, k);
      step := SomeHandlerFinishes(s, Other(p), i);
    }
  }

  lemma MovesOn(s: State)
    requires Inv(s) && !Quiet(s)
    ensures !Stuck(s)
  {
    hide Inv, Quiet, Enabled;
    var step := Progress(s);
  }

  ghost predicate Completed(done: seq<Completion>, d: Completion) {
    d in done
  }

  /** Without timeouts a waiting call leaves the table only by being completed with its own response. */
  lemma {:induction false} WaitsUntilCompleted(s: State, steps: seq<Step>, p: Side, k: nat)
    requires Inv(s) && Runs(s, steps) && (forall i | 0 <= i < |steps| :: !steps[i].Issue? && !steps[i].Timeout?)
    requires k in Get(s, p).pending && k !in Get(Final(s, steps), p).pending
    ensures Completed(Final(s, steps).done, Completion(p, k, Get(s, p).pending[k].call))
    decreases steps
  {
    hide Inv;
    var s' := Apply(s, steps[0]);
    InvKept(s, steps[0]);
    assert forall i | 0 <= i < |steps[1..]| :: steps[1..][i] == steps[i + 1];
    OneStepWaits(s, steps[0], p, k);
    if k in Get(s', p).pending {
      WaitsUntilCompleted(s', steps[1..], p, k);
    } else {
      DoneGrows(s', steps[1..]);
    }
  }

  lemma OneStepWaits(s: State, step: Step, p: Side, k: nat)
    requires Inv(s) && Enabled(s, step) && !step.Issue? && !step.Timeout? && k in Get(s, p).pending
    ensures var (x, s') := (Get(s, p), Apply(s, step));
            if k in Get(s', p).pending then Get(s', p).pending[k].call == x.pending[k].call
            else Completed(s'.done, Completion(p, k, x.pending[k].call))
  {
    OwnAnswer(s, p, k);
    DoneAfter(s, step);
    PendingAfter(s, step, p);
    hide Inv, Apply, Answer;
    if step.Deliver? {
      AnswerFills(Get(s, step.p).pending, Get(s, step.p).inbox[0].calls);
    }
  }

  lemma OwnAnswer(s: State, p: Side, k: nat)
    requires Inv(s) && k in Get(s, p).pending
    ensures var w := Get(s, p).pending[k]; w.answer.Some? ==> w.answer.value == w.call
  {
    assert k in Wait(View(s), p);
    assert WaitsOnce(View(s), p, k, Get(s, p).pending[k]);
  }

  /** What a step other than a new call does to a table of waiting calls. */
  lemma PendingAfter(s: State, step: Step, p: Side)
    requires Enabled(s, step) && !step.Issue?
    ensures var x := Get(s, p);
            Get(Apply(s, step), p).pending ==
            match step
            case Deliver(q) => if q == p && x.inbox[0].Responses? then Answer(x.pending, x.inbox[0].calls) else x.pending
            case Complete(q, k) => if q == p then x.pending - {k} else x.pending
            case Timeout(q, k) => if q == p then x.pending - {k} else x.pending
            case _ => x.pending
  {
  }

  lemma {:induction false} DoneGrows(s: State, steps: seq<Step>)
    requires Runs(s, steps)
    ensures s.done <= Final(s, steps).done
    decreases steps
  {
    hide Enabled;
    if steps != [] {
      DoneAfter(s, steps[0]);
      hide Apply;
      DoneGrows(Apply(s, steps[0]), steps[1..]);
    }
  }

  /**
    Every call completes. From any reachable state, however the remaining steps are scheduled:
    if no new calls come and nothing times out, the traffic stops after a bounded number of
    steps, and then every call that was waiting has been completed with its own response.
  */
  lemma EveryCallCompletes(before: seq<Step>, steps: seq<Step>)
    requires Runs(START, before) && Runs(Final(START, before), steps)
    requires forall i | 0 <= i < |steps| :: !steps[i].Issue? && !steps[i].Timeout?
    ensures var s := Final(START, before);
            var s' := Final(s, steps);
            && |steps| <= Measure(s)
            && (Stuck(s') ==>
                  && Quiet(s')
                  && forall p: Side, k | k in Get(s, p).pending :: Completed(s'.done, Completion(p, k, Get(s, p).pending[k].call)))
  {
    hide Inv, Stuck, Measure, Runs, Final;
    InvAtStart();
    InvThroughout(START, before);
    var s := Final(START, before);
    InvThroughout(s, steps);
    var s' := Final(s, steps);
    RunsAreShort(s, steps);
    if Stuck(s') {
      if !Quiet(s') {
        MovesOn(s');
      }
      forall p: Side, k | k in Get(s, p).pending ensures Completed(s'.done, Completion(p, k, Get(s, p).pending[k].call)) {
        assert QuietAt(Get(s', p));
        WaitsUntilCompleted(s, steps, p, k);
      }
    }
  }
}
