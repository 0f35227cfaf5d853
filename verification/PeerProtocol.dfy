/**
  Two peers calling each other over one connection. Both number their calls
  from 1, handlers finish in any order and may call back, and a response is
  matched to a waiting call by its number alone.
*/
module PeerProtocol {
  import opened Basics

  datatype Side = A | B

  function Other(p: Side): Side {
    if p == A then B else A
  }

  /**
    One call of one message. The number is all that travels of its identity; the
    rest says which call it really is: who issued it, with which message, at
    which position, and from inside the handler of which message, if any.
  */
  datatype Call = Call(owner: Side, id: Option<nat>, stamp: nat, pos: nat, parent: Option<nat>)

  datatype Msg = Requests(calls: seq<Call>) | Responses(calls: seq<Call>)

  /** A call waiting for its response, with the one-place channel it waits on. */
  datatype Waiter = Waiter(call: Call, answer: Option<Call>)

  datatype Peer = Peer(
    nextId: nat,
    pending: map<nat, Waiter>,
    blocked: seq<Msg>,  // senders not yet admitted to the write channel
    writeQ: seq<Msg>,   // the write channel
    inbox: seq<Msg>,    // written by the other side, not yet read here
    running: seq<Msg>)  // requests being handled here

  /** Call number k of peer p was completed with the response to call c. */
  datatype Completion = Completion(p: Side, k: nat, c: Call)

  datatype State = State(a: Peer, b: Peer, clock: nat, handled: set<Call>, done: seq<Completion>)

  const WRITE_CAPACITY: nat := 100

  function Get(s: State, p: Side): Peer {
    if p == A then s.a else s.b
  }

  function Put(s: State, p: Side, x: Peer): State {
    if p == A then s.(a := x) else s.(b := x)
  }

  datatype Step =
    | Issue(p: Side, notify: seq<bool>, parent: Option<nat>)
    | Enqueue(p: Side, i: nat)
    | Write(p: Side)
    | Deliver(p: Side)
    | Finish(p: Side, i: nat, keep: seq<bool>)
    | Complete(p: Side, k: nat)
    | Timeout(p: Side, k: nat)

  /** The calls of a new message: numbered, unless they are notifications. */
  function NewCalls(p: Side, notify: seq<bool>, nextId: nat, stamp: nat, parent: Option<nat>): (cs: seq<Call>)
    ensures |cs| == |notify|
  {
    if notify == [] then []
    else
      var n := |notify| - 1;
      NewCalls(p, notify[..n], nextId, stamp, parent)
      + [Call(p, if notify[n] then None else Some(nextId + Numbers(notify)), stamp, n, parent)]
  }

  /** How many of the new calls take a number. */
  function Numbers(notify: seq<bool>): nat {
    if notify == [] then 0
    else Numbers(notify[..|notify| - 1]) + if notify[|notify| - 1] then 0 else 1
  }

  function Register(pending: map<nat, Waiter>, cs: seq<Call>): map<nat, Waiter> {
    if cs == [] then pending
    else
      var c := cs[|cs| - 1];
      var m := Register(pending, cs[..|cs| - 1]);
      if c.id.Some? then m[c.id.value := Waiter(c, None)] else m
  }

  function Remove<T>(q: seq<T>, i: nat): seq<T>
    requires i < |q|
  {
    q[..i] + q[i + 1..]
  }

  /** `handleIncomingResponse` for each response: by number, first come, never overfilling a channel. */
  function Answer(pending: map<nat, Waiter>, cs: seq<Call>): map<nat, Waiter> {
    if cs == [] then pending
    else
      var m := Answer(pending, cs[..|cs| - 1]);
      var c := cs[|cs| - 1];
      if c.id.Some? && c.id.value in m && m[c.id.value].answer.None?
      then m[c.id.value := m[c.id.value].(answer := Some(c))]
      else m
  }

  function Kept(cs: seq<Call>, keep: seq<bool>): seq<Call>
    requires |cs| == |keep|
  {
    if cs == [] then []
    else
      var n := |cs| - 1;
      Kept(cs[..n], keep[..n]) + if keep[n] then [cs[n]] else []
  }

  predicate Enabled(s: State, step: Step) {
    var x := Get(s, step.p);
    match step
    case Issue(_, notify, parent) =>
      notify != [] && (parent.Some? ==> exists i | 0 <= i < |x.running| :: x.running[i].calls != [] && x.running[i].calls[0].stamp == parent.value)
    case Enqueue(_, i) => i < |x.blocked| && |x.writeQ| < WRITE_CAPACITY
    case Write(_) => x.writeQ != []
    case Deliver(_) => x.inbox != []
    // a handler finishes once none of the calls it made is still waiting;
    // only a failing notification is answered although it has no number
    case Finish(_, i, keep) =>
      && i < |x.running| && |keep| == |x.running[i].calls|
      && (forall j | 0 <= j < |keep| && x.running[i].calls[j].id.Some? :: keep[j])
      && (x.running[i].calls != [] ==> forall k | k in x.pending :: x.pending[k].call.parent != Some(x.running[i].calls[0].stamp))
    case Complete(_, k) => k in x.pending && x.pending[k].answer.Some?
    case Timeout(_, k) => k in x.pending
  }

  function Apply(s: State, step: Step): State
    requires Enabled(s, step)
  {
    var p := step.p;
    var x := Get(s, p);
    match step
    case Issue(_, notify, parent) =>
      var cs := NewCalls(p, notify, x.nextId, s.clock, parent);
      Put(s, p, x.(nextId := x.nextId + Numbers(notify), pending := Register(x.pending, cs), blocked := x.blocked + [Requests(cs)]))
      .(clock := s.clock + 1)
    case Enqueue(_, i) =>
      Put(s, p, x.(blocked := Remove(x.blocked, i), writeQ := x.writeQ + [x.blocked[i]]))
    case Write(_) =>
      var y := Get(s, Other(p));
      Put(Put(s, p, x.(writeQ := x.writeQ[1..])), Other(p), y.(inbox := y.inbox + [x.writeQ[0]]))
    case Deliver(_) =>
      (match x.inbox[0]
       case Requests(_) => Put(s, p, x.(inbox := x.inbox[1..], running := x.running + [x.inbox[0]]))
       case Responses(cs) => Put(s, p, x.(inbox := x.inbox[1..], pending := Answer(x.pending, cs))))
    case Finish(_, i, keep) =>
      var cs := x.running[i].calls;
      var reply := Kept(cs, keep);
      Put(s, p, x.(running := Remove(x.running, i),
                   blocked := if reply == [] then x.blocked else x.blocked + [Responses(reply)]))
      .(handled := s.handled + (set c | c in cs))
    case Complete(_, k) =>
      Put(s, p, x.(pending := x.pending - {k})).(done := s.done + [Completion(p, k, x.pending[k].answer.value)])
    case Timeout(_, k) => Put(s, p, x.(pending := x.pending - {k}))
  }

  const IDLE: Peer := Peer(0, map[], [], [], [], [])
  const START: State := State(IDLE, IDLE, 0, {}, [])

  /** steps can be taken one after the other from s. */
  predicate Runs(s: State, steps: seq<Step>)
    decreases steps
  {
    steps == [] || (Enabled(s, steps[0]) && Runs(Apply(s, steps[0]), steps[1..]))
  }

  function Final(s: State, steps: seq<Step>): State
    requires Runs(s, steps)
    decreases steps
  {
    if steps == [] then s else Final(Apply(s, steps[0]), steps[1..])
  }

  // ----- where calls are -----

  function CallsIn(q: seq<Msg>): multiset<Call> {
    if q == [] then multiset{} else CallsIn(q[..|q| - 1]) + multiset(q[|q| - 1].calls)
  }

  function CallsAt(x: Peer): multiset<Call> {
    CallsIn(x.blocked) + CallsIn(x.writeQ) + CallsIn(x.inbox) + CallsIn(x.running)
  }

  /** Every call that sits in some queue, link or handler. */
  function Travelling(s: State): multiset<Call> {
    CallsAt(s.a) + CallsAt(s.b)
  }

  lemma CallsInAppend(q: seq<Msg>, m: Msg)
    ensures CallsIn(q + [m]) == CallsIn(q) + multiset(m.calls)
  {
  }

  lemma CallsInLast(q: seq<Msg>)
    requires q != []
    ensures CallsIn(q) == CallsIn(q[..|q| - 1]) + multiset(q[|q| - 1].calls)
  {
  }

  lemma RemoveLast<T>(q: seq<T>, i: nat)
    requires i < |q|
    ensures Remove(q, i) == if i < |q| - 1 then Remove(q[..|q| - 1], i) + [q[|q| - 1]] else q[..|q| - 1]
  {
  }

  lemma {:induction false} CallsInRemove(q: seq<Msg>, i: nat)
    requires i < |q|
    ensures CallsIn(q) == CallsIn(Remove(q, i)) + multiset(q[i].calls)
    decreases q
  {
    hide CallsIn, Remove;
    var n := |q| - 1;
    CallsInLast(q);
    RemoveLast(q, i);
    if i < n {
      CallsInRemove(q[..n], i);
      CallsInAppend(Remove(q[..n], i), q[n]);
      Balance(CallsIn(Remove(q[..n], i)), CallsIn(q[..n]), multiset(q[n].calls), multiset(q[i].calls), multiset{});
    }
  }

  lemma CallsInTail(q: seq<Msg>)
    requires q != []
    ensures CallsIn(q) == CallsIn(q[1..]) + multiset(q[0].calls)
  {
    CallsInRemove(q, 0);
    assert Remove(q, 0) == q[1..];
  }

  lemma {:induction false} Located(q: seq<Msg>, c: Call) returns (i: nat)
    requires c in CallsIn(q)
    ensures i < |q| && c in q[i].calls
    decreases q
  {
    var n := |q| - 1;
    if c in q[n].calls {
      i := n;
    } else {
      assert c !in multiset(q[n].calls);
      i := Located(q[..n], c);
    }
  }

  // ----- the invariant -----

  /** A message p has sent or is sending: its own requests, or responses to the other side's calls. */
  ghost predicate Sent(m: Msg, p: Side, handled: set<Call>) {
    && m.calls != []
    && (m.Requests? ==> forall c | c in m.calls :: c.owner == p && c.stamp == m.calls[0].stamp)
    && (m.Responses? ==> forall c | c in m.calls :: c.owner == Other(p) && c in handled)
  }

  ghost predicate Outgoing(q: seq<Msg>, p: Side, handled: set<Call>) {
    forall i | 0 <= i < |q| :: Sent(q[i], p, handled)
  }

  /** Requests being handled at p. */
  ghost predicate Handling(q: seq<Msg>, p: Side) {
    forall i | 0 <= i < |q| :: q[i].Requests? && Sent(q[i], Other(p), {})
  }

  ghost predicate DirectedAt(s: State, p: Side) {
    && Outgoing(Get(s, p).blocked, p, s.handled) && Outgoing(Get(s, p).writeQ, p, s.handled)
    && Outgoing(Get(s, Other(p)).inbox, p, s.handled) && Handling(Get(s, p).running, p)
  }

  ghost predicate Directed(s: State) {
    DirectedAt(s, A) && DirectedAt(s, B)
  }

  /** What the counting argument needs to know of a state. */
  datatype Books = Books(
    calls: multiset<Call>, clock: nat, handled: set<Call>,
    nextA: nat, nextB: nat, waitA: map<nat, Waiter>, waitB: map<nat, Waiter>)

  function View(s: State): Books {
    Books(Travelling(s), s.clock, s.handled, s.a.nextId, s.b.nextId, s.a.pending, s.b.pending)
  }

  function Next(b: Books, p: Side): nat {
    if p == A then b.nextA else b.nextB
  }

  function Wait(b: Books, p: Side): map<nat, Waiter> {
    if p == A then b.waitA else b.waitB
  }

  function With(b: Books, p: Side, next: nat, wait: map<nat, Waiter>): Books {
    if p == A then b.(nextA := next, waitA := wait) else b.(nextB := next, waitB := wait)
  }

  /** A call made by a handler is younger than the message being handled. */
  ghost predicate Known(b: Books, c: Call) {
    && c.stamp < b.clock && (c.parent.Some? ==> c.parent.value < c.stamp)
    && (c.id.Some? ==> 1 <= c.id.value <= Next(b, c.owner))
  }

  /** Each waiting call is in exactly one place: travelling, or in its own channel. */
  ghost predicate WaitsOnce(b: Books, p: Side, k: nat, w: Waiter) {
    && Known(b, w.call) && w.call.owner == p && w.call.id == Some(k)
    && (w.answer == None || w.answer == Some(w.call))
    && b.calls[w.call] == (if w.answer.None? then 1 else 0)
    && (w.answer.Some? ==> w.call in b.handled)
  }

  ghost predicate Counted(b: Books) {
    && (forall c | c in b.calls :: b.calls[c] == 1 && Known(b, c))
    && (forall p: Side, k | k in Wait(b, p) :: WaitsOnce(b, p, k, Wait(b, p)[k]))
    && (forall c | c in b.calls && c.id.Some? && c.id.value in Wait(b, c.owner) :: Wait(b, c.owner)[c.id.value].call == c)
  }

  /** Completed calls: each once, by the response to that very call, which is nowhere else. */
  ghost predicate Settled(b: Books, done: seq<Completion>) {
    && (forall i | 0 <= i < |done| ::
          var d := done[i];
          && d.c.owner == d.p && d.c.id == Some(d.k) && d.c in b.handled
          && d.k <= Next(b, d.p) && d.k !in Wait(b, d.p) && d.c !in b.calls)
    && (forall i, j | 0 <= i < j < |done| :: done[i].p != done[j].p || done[i].k != done[j].k)
  }

  ghost predicate Inv(s: State) {
    Directed(s) && Counted(View(s)) && Settled(View(s), s.done)
  }

  // ----- issuing -----

  /** Calls of one new message: alike but for position and number, with numbers just above the counter. */
  ghost predicate OneMessage(cs: seq<Call>, p: Side, nextId: nat, upTo: nat, stamp: nat, parent: Option<nat>) {
    && (forall i | 0 <= i < |cs| :: cs[i].owner == p && cs[i].stamp == stamp && cs[i].pos == i && cs[i].parent == parent)
    && (forall i | 0 <= i < |cs| && cs[i].id.Some? :: nextId < cs[i].id.value <= upTo)
    && (forall i, j | 0 <= i < j < |cs| && cs[i].id.Some? && cs[j].id.Some? :: cs[i].id != cs[j].id)
  }

  lemma {:induction false} NewCallsAre(p: Side, notify: seq<bool>, nextId: nat, stamp: nat, parent: Option<nat>)
    ensures OneMessage(NewCalls(p, notify, nextId, stamp, parent), p, nextId, nextId + Numbers(notify), stamp, parent)
    decreases notify
  {
    if notify != [] {
      NewCallsAre(p, notify[..|notify| - 1], nextId, stamp, parent);
    }
  }

  /** The j-th call that asks for a response takes the j-th number after the counter; the others take none. */
  lemma {:induction false} NewCallNumbered(p: Side, notify: seq<bool>, nextId: nat, stamp: nat, parent: Option<nat>, i: nat)
    requires i < |notify|
    ensures NewCalls(p, notify, nextId, stamp, parent)[i] ==
            Call(p, if notify[i] then None else Some(nextId + Numbers(notify[..i]) + 1), stamp, i, parent)
    decreases notify
  {
    var n := |notify| - 1;
    if i < n {
      NewCallNumbered(p, notify[..n], nextId, stamp, parent, i);
      assert notify[..n][..i] == notify[..i];
    }
  }

  lemma {:induction false} EachOnce(cs: seq<Call>)
    requires forall i, j | 0 <= i < j < |cs| :: cs[i] != cs[j]
    ensures forall c | c in cs :: multiset(cs)[c] == 1
    decreases cs
  {
    if cs != [] {
      var n := |cs| - 1;
      EachOnce(cs[..n]);
      assert cs == cs[..n] + [cs[n]];
      forall c | c in cs ensures multiset(cs)[c] == 1 {
        if c == cs[n] {
          assert c !in cs[..n];
          assert c !in multiset(cs[..n]);
        }
      }
    }
  }

  lemma {:induction false} RegisterAdds(pending: map<nat, Waiter>, cs: seq<Call>)
    requires forall i, j | 0 <= i < j < |cs| && cs[i].id.Some? && cs[j].id.Some? :: cs[i].id != cs[j].id
    ensures var m := Register(pending, cs);
            && (forall k :: k in m <==> k in pending || exists i | 0 <= i < |cs| :: cs[i].id == Some(k))
            && (forall i | 0 <= i < |cs| && cs[i].id.Some? :: m[cs[i].id.value] == Waiter(cs[i], None))
            && (forall k | k in pending && (forall i | 0 <= i < |cs| :: cs[i].id != Some(k)) :: m[k] == pending[k])
    decreases cs
  {
    if cs != [] {
      var n := |cs| - 1;
      var (init, last) := (cs[..n], cs[n]);
      RegisterAdds(pending, init);
      var m0, m := Register(pending, init), Register(pending, cs);
      forall k ensures k in m <==> k in pending || exists i | 0 <= i < |cs| :: cs[i].id == Some(k) {
        if i :| 0 <= i < |cs| && cs[i].id == Some(k) {
          if i < n {
            assert init[i].id == Some(k);
          }
        }
        if i :| 0 <= i < |init| && init[i].id == Some(k) {
          assert cs[i].id == Some(k);
        }
      }
      forall i | 0 <= i < |cs| && cs[i].id.Some? ensures m[cs[i].id.value] == Waiter(cs[i], None) {
        if i < n {
          assert init[i] == cs[i];
        }
      }
    }
  }

  // ----- answering -----

  /** Delivering responses fills the channels they name, and only with calls that carry the right number. */
  lemma {:induction false} AnswerFills(pending: map<nat, Waiter>, cs: seq<Call>)
    ensures var m := Answer(pending, cs);
            && m.Keys == pending.Keys
            && (forall k | k in pending :: m[k].call == pending[k].call)
            && (forall k | k in pending && pending[k].answer.Some? :: m[k] == pending[k])
            && (forall k | k in pending && pending[k].answer.None? && m[k].answer.Some? :: m[k].answer.value in cs && m[k].answer.value.id == Some(k))
            && (forall k | k in pending && pending[k].answer.None? && m[k].answer.None? :: forall c | c in cs :: c.id != Some(k))
    decreases cs
  {
    if cs != [] {
      var n := |cs| - 1;
      AnswerFills(pending, cs[..n]);
      assert cs == cs[..n] + [cs[n]];
    }
  }

  lemma {:induction false} KeptSome(cs: seq<Call>, keep: seq<bool>)
    requires |cs| == |keep|
    ensures multiset(Kept(cs, keep)) <= multiset(cs)
    ensures forall i | 0 <= i < |cs| && keep[i] :: cs[i] in Kept(cs, keep)
    decreases cs
  {
    if cs != [] {
      var n := |cs| - 1;
      KeptSome(cs[..n], keep[..n]);
      assert cs == cs[..n] + [cs[n]];
      forall i | 0 <= i < |cs| && keep[i] ensures cs[i] in Kept(cs, keep) {
        if i < n {
          assert cs[..n][i] == cs[i];
        }
      }
    }
  }

  // ----- every step moves calls in one way -----

  /** What a step adds to the travelling calls, and what it takes away. */
  function Added(s: State, step: Step): multiset<Call>
    requires Enabled(s, step)
  {
    var x := Get(s, step.p);
    match step
    case Issue(p, notify, parent) => multiset(NewCalls(p, notify, x.nextId, s.clock, parent))
    case Finish(_, i, keep) => multiset(Kept(x.running[i].calls, keep))
    case _ => multiset{}
  }

  function Taken(s: State, step: Step): multiset<Call>
    requires Enabled(s, step)
  {
    var x := Get(s, step.p);
    match step
    case Deliver(_) => if x.inbox[0].Responses? then multiset(x.inbox[0].calls) else multiset{}
    case Finish(_, i, keep) => multiset(x.running[i].calls)
    case _ => multiset{}
  }

  lemma IssueMoves(s: State, step: Step)
    requires Enabled(s, step) && step.Issue?
    ensures CallsAt(Get(s, step.p)) + Added(s, step) == CallsAt(Get(Apply(s, step), step.p))
  {
  }

  lemma EnqueueMoves(x: Peer, i: nat)
    requires i < |x.blocked|
    ensures CallsAt(x.(blocked := Remove(x.blocked, i), writeQ := x.writeQ + [x.blocked[i]])) == CallsAt(x)
  {
    CallsInRemove(x.blocked, i);
    CallsInAppend(x.writeQ, x.blocked[i]);
  }

  lemma WriteMoves(x: Peer, y: Peer)
    requires x.writeQ != []
    ensures CallsAt(x.(writeQ := x.writeQ[1..])) + CallsAt(y.(inbox := y.inbox + [x.writeQ[0]])) == CallsAt(x) + CallsAt(y)
    ensures CallsAt(y.(inbox := y.inbox + [x.writeQ[0]])) + CallsAt(x.(writeQ := x.writeQ[1..])) == CallsAt(y) + CallsAt(x)
  {
    hide CallsIn;
    CallsInTail(x.writeQ);
    CallsInAppend(y.inbox, x.writeQ[0]);
  }

  lemma ReadMoves(x: Peer)
    requires x.inbox != []
    ensures CallsAt(x.(inbox := x.inbox[1..])) + multiset(x.inbox[0].calls) == CallsAt(x)
    ensures CallsAt(x.(inbox := x.inbox[1..], running := x.running + [x.inbox[0]])) == CallsAt(x)
  {
    hide CallsIn;
    CallsInTail(x.inbox);
    CallsInAppend(x.running, x.inbox[0]);
  }

  lemma FinishMoves(x: Peer, i: nat, reply: seq<Call>)
    requires i < |x.running|
    ensures var y := x.(running := Remove(x.running, i), blocked := if reply == [] then x.blocked else x.blocked + [Responses(reply)]);
            CallsAt(x) + multiset(reply) == CallsAt(y) + multiset(x.running[i].calls)
  {
    hide CallsIn;
    CallsInRemove(x.running, i);
    CallsInAppend(x.blocked, Responses(reply));
  }

  /** What balances on one side balances with the other side added. */
  lemma Balance(x: multiset<Call>, y: multiset<Call>, other: multiset<Call>, add: multiset<Call>, take: multiset<Call>)
    requires x + add == y + take
    ensures x + other + add == y + other + take && other + x + add == other + y + take
  {
    forall c ensures (x + other + add)[c] == (y + other + take)[c] && (other + x + add)[c] == (other + y + take)[c] {
      assert (x + add)[c] == (y + take)[c];
    }
  }

  /** The whole traffic of one step. */
  lemma Moves(s: State, step: Step)
    requires Enabled(s, step)
    ensures Travelling(s) + Added(s, step) == Travelling(Apply(s, step)) + Taken(s, step)
  {
    hide CallsIn, CallsAt;
    var x, y := Get(s, step.p), Get(s, Other(step.p));
    var s' := Apply(s, step);
    match step {
      case Issue(_, _, _) => IssueMoves(s, step);
      case Enqueue(_, i) => EnqueueMoves(x, i);
      case Write(_) => WriteMoves(x, y);
      case Deliver(_) =>
        ReadMoves(x);
        PendingElsewhere(x.(inbox := x.inbox[1..]), if x.inbox[0].Responses? then Answer(x.pending, x.inbox[0].calls) else x.pending);
      case Finish(_, i, keep) => FinishMoves(x, i, Kept(x.running[i].calls, keep));
      case Complete(_, k) => PendingElsewhere(x, x.pending - {k});
      case Timeout(_, k) => PendingElsewhere(x, x.pending - {k});
    }
    if !step.Write? {
      Balance(CallsAt(x), CallsAt(Get(s', step.p)), CallsAt(y), Added(s, step), Taken(s, step));
    }
  }

  lemma PendingElsewhere(x: Peer, pending: map<nat, Waiter>)
    ensures CallsAt(x.(pending := pending)) == CallsAt(x)
  {
  }

  // ----- every step keeps the invariant -----

  lemma DirectedGrows(s: State, h: set<Call>)
    requires Directed(s) && s.handled <= h
    ensures Directed(s.(handled := h))
  {
  }

  lemma IssueDirected(s: State, step: Step)
    requires Enabled(s, step) && step.Issue? && Directed(s)
    ensures Directed(Apply(s, step))
  {
    var (p, x) := (step.p, Get(s, step.p));
    NewCallsAre(p, step.notify, x.nextId, s.clock, step.parent);
    assert Sent(Requests(NewCalls(p, step.notify, x.nextId, s.clock, step.parent)), p, s.handled);
  }

  lemma OutgoingAppends(q: seq<Msg>, m: Msg, p: Side, h: set<Call>)
    requires Outgoing(q, p, h) && Sent(m, p, h)
    ensures Outgoing(q + [m], p, h)
  {
  }

  lemma HandlingRemoves(q: seq<Msg>, i: nat, p: Side)
    requires Handling(q, p) && i < |q|
    ensures Handling(Remove(q, i), p)
  {
  }

  lemma ReplyIsSent(m: Msg, keep: seq<bool>, p: Side, h: set<Call>)
    requires m.Requests? && Sent(m, Other(p), {}) && |m.calls| == |keep| && Kept(m.calls, keep) != []
    requires forall c | c in m.calls :: c in h
    ensures Sent(Responses(Kept(m.calls, keep)), p, h)
  {
    KeptSome(m.calls, keep);
    forall c | c in Kept(m.calls, keep) ensures c in m.calls {
      assert c in multiset(Kept(m.calls, keep));
    }
  }

  lemma FinishDirected(s: State, step: Step)
    requires Enabled(s, step) && step.Finish? && Directed(s)
    ensures Directed(Apply(s, step))
  {
    hide Outgoing, Sent, Kept;
    var (p, x) := (step.p, Get(s, step.p));
    var m := x.running[step.i];
    var reply := Kept(m.calls, step.keep);
    var h := s.handled + (set c | c in m.calls);
    DirectedGrows(s, h);
    assert m.Requests? && Sent(m, Other(p), {});
    HandlingRemoves(x.running, step.i, p);
    if reply != [] {
      ReplyIsSent(m, step.keep, p, h);
      OutgoingAppends(x.blocked, Responses(reply), p, h);
    }
    hide Handling;
  }

  lemma DeliverDirected(s: State, step: Step)
    requires Enabled(s, step) && step.Deliver? && Directed(s)
    ensures Directed(Apply(s, step))
  {
  }

  lemma StepDirected(s: State, step: Step)
    requires Enabled(s, step) && Directed(s)
    ensures Directed(Apply(s, step))
  {
    hide Sent;
    match step
    case Issue(_, _, _) => IssueDirected(s, step);
    case Finish(_, _, _) => FinishDirected(s, step);
    case Deliver(_) => DeliverDirected(s, step);
    case _ =>
  }

  // ----- the books balance -----

  /** The books after a message of new calls. */
  function Issued(b: Books, p: Side, cs: seq<Call>, next: nat): Books {
    With(b, p, next, Register(Wait(b, p), cs)).(calls := b.calls + multiset(cs), clock := b.clock + 1)
  }

  ghost predicate NewMessage(b: Books, p: Side, cs: seq<Call>, next: nat, parent: Option<nat>) {
    && OneMessage(cs, p, Next(b, p), next, b.clock, parent) && next >= Next(b, p)
    && (parent.Some? ==> parent.value < b.clock)
  }

  lemma NewCallsOnce(b: Books, p: Side, cs: seq<Call>, next: nat, parent: Option<nat>)
    requires Counted(b) && NewMessage(b, p, cs, next, parent)
    ensures forall c | c in cs :: c !in b.calls && multiset(cs)[c] == 1
  {
    EachOnce(cs);
  }

  lemma IssuedCalls(b: Books, p: Side, cs: seq<Call>, next: nat, parent: Option<nat>, c: Call)
    requires Counted(b) && NewMessage(b, p, cs, next, parent) && c in Issued(b, p, cs, next).calls
    ensures var b' := Issued(b, p, cs, next);
            b'.calls[c] == 1 && Known(b', c) && (c !in cs ==> c in b.calls)
  {
    hide Register;
    NewCallsOnce(b, p, cs, next, parent);
    assert c in cs <==> c in multiset(cs);
  }

  lemma IssuedOld(b: Books, p: Side, cs: seq<Call>, next: nat, parent: Option<nat>, q: Side, k: nat)
    requires Counted(b) && NewMessage(b, p, cs, next, parent) && k in Wait(b, q)
    ensures var b' := Issued(b, p, cs, next);
            k in Wait(b', q) && Wait(b', q)[k] == Wait(b, q)[k] && WaitsOnce(b', q, k, Wait(b, q)[k])
  {
    hide Register;
    RegisterAdds(Wait(b, p), cs);
    assert WaitsOnce(b, q, k, Wait(b, q)[k]);
    assert Wait(b, q)[k].call !in multiset(cs);
  }

  lemma IssuedWait(b: Books, p: Side, cs: seq<Call>, next: nat, parent: Option<nat>, q: Side, k: nat)
    requires Counted(b) && NewMessage(b, p, cs, next, parent) && k in Wait(Issued(b, p, cs, next), q)
    ensures WaitsOnce(Issued(b, p, cs, next), q, k, Wait(Issued(b, p, cs, next), q)[k])
  {
    hide Register;
    RegisterAdds(Wait(b, p), cs);
    NewCallsOnce(b, p, cs, next, parent);
    if k in Wait(b, q) {
      IssuedOld(b, p, cs, next, parent, q, k);
    } else {
      var i :| 0 <= i < |cs| && cs[i].id == Some(k);
      assert cs[i] in cs;
      IssuedCalls(b, p, cs, next, parent, cs[i]) by { assert cs[i] in multiset(cs); }
    }
  }

  lemma IssuedNumbers(b: Books, p: Side, cs: seq<Call>, next: nat, parent: Option<nat>, c: Call)
    requires Counted(b) && NewMessage(b, p, cs, next, parent) && c in Issued(b, p, cs, next).calls
    requires c.id.Some? && c.id.value in Wait(Issued(b, p, cs, next), c.owner)
    ensures Wait(Issued(b, p, cs, next), c.owner)[c.id.value].call == c
  {
    hide Register;
    RegisterAdds(Wait(b, p), cs);
    IssuedCalls(b, p, cs, next, parent, c);
    if c in cs {
      var i :| 0 <= i < |cs| && cs[i] == c;
    } else {
      assert Known(b, c);
    }
  }

  lemma BooksIssue(b: Books, p: Side, cs: seq<Call>, next: nat, parent: Option<nat>)
    requires Counted(b) && NewMessage(b, p, cs, next, parent)
    ensures Counted(Issued(b, p, cs, next))
  {
    hide Register, Issued, NewMessage, Known, WaitsOnce;
    var b' := Issued(b, p, cs, next);
    forall c | c in b'.calls ensures b'.calls[c] == 1 && Known(b', c) {
      IssuedCalls(b, p, cs, next, parent, c);
    }
    forall q: Side, k | k in Wait(b', q) ensures WaitsOnce(b', q, k, Wait(b', q)[k]) {
      IssuedWait(b, p, cs, next, parent, q, k);
    }
    forall c | c in b'.calls && c.id.Some? && c.id.value in Wait(b', c.owner)
      ensures Wait(b', c.owner)[c.id.value].call == c
    {
      IssuedNumbers(b, p, cs, next, parent, c);
    }
  }

  /** The books after responses to p's calls were delivered. */
  function Answered(b: Books, p: Side, cs: seq<Call>): Books {
    With(b, p, Next(b, p), Answer(Wait(b, p), cs)).(calls := b.calls - multiset(cs))
  }

  ghost predicate OwnResponses(b: Books, p: Side, cs: seq<Call>) {
    multiset(cs) <= b.calls && forall c | c in cs :: c.owner == p && c in b.handled
  }

  lemma AnsweredCalls(b: Books, p: Side, cs: seq<Call>, c: Call)
    requires Counted(b) && OwnResponses(b, p, cs)
    ensures Answered(b, p, cs).calls[c] == if c in cs then 0 else b.calls[c]
  {
  }

  lemma WaitOf(b: Books, p: Side, k: nat)
    requires Counted(b) && k in Wait(b, p)
    ensures WaitsOnce(b, p, k, Wait(b, p)[k])
  {
  }

  lemma AnsweredWait(b: Books, p: Side, cs: seq<Call>, q: Side, k: nat)
    requires Counted(b) && OwnResponses(b, p, cs) && k in Wait(Answered(b, p, cs), q)
    ensures WaitsOnce(Answered(b, p, cs), q, k, Wait(Answered(b, p, cs), q)[k])
    ensures k in Wait(b, q) && Wait(Answered(b, p, cs), q)[k].call == Wait(b, q)[k].call
  {
    hide Answer, Counted;
    AnswerFills(Wait(b, p), cs);
    assert k in Wait(b, q);
    WaitOf(b, q, k);
    var (v, w) := (Wait(b, q)[k], Wait(Answered(b, p, cs), q)[k]);
    AnsweredCalls(b, p, cs, v.call);
    NothingNew(b, p, cs);
    if q == p && v.answer.None? {
      AnsweredOwn(b, p, cs, k, v, w);
    }
  }

  /** A channel that was empty is filled with its own call, if that call is among the responses. */
  lemma AnsweredOwn(b: Books, p: Side, cs: seq<Call>, k: nat, v: Waiter, w: Waiter)
    requires Counted(b) && OwnResponses(b, p, cs) && k in Wait(b, p) && Wait(b, p)[k] == v && v.answer.None?
    requires k in Answer(Wait(b, p), cs) && w == Answer(Wait(b, p), cs)[k]
    ensures w == v.(answer := if v.call in cs then Some(v.call) else None)
  {
    hide Answer;
    AnswerFills(Wait(b, p), cs);
    assert WaitsOnce(b, p, k, v);
    if w.answer.Some? {
      assert w.answer.value in multiset(cs);
      assert w.answer.value in b.calls;
    }
  }

  lemma BooksAnswer(b: Books, p: Side, cs: seq<Call>)
    requires Counted(b) && OwnResponses(b, p, cs)
    ensures Counted(Answered(b, p, cs))
  {
    hide Answered, Known, WaitsOnce;
    var b' := Answered(b, p, cs);
    forall c | c in b'.calls ensures c in b.calls && b'.calls[c] == 1 && Known(b', c) {
      AnsweredCalls(b, p, cs, c);
      KnownLater(b, b', c) by { hide *; NothingNew(b, p, cs); }
    }
    forall q: Side, k | k in Wait(b', q)
      ensures WaitsOnce(b', q, k, Wait(b', q)[k]) && k in Wait(b, q) && Wait(b', q)[k].call == Wait(b, q)[k].call
    {
      AnsweredWait(b, p, cs, q, k);
    }
  }

  lemma NothingNew(b: Books, p: Side, cs: seq<Call>)
    ensures var b' := Answered(b, p, cs); b'.clock == b.clock && b'.nextA == b.nextA && b'.nextB == b.nextB
  {
  }

  lemma KnownLater(b: Books, b': Books, c: Call)
    requires Known(b, c) && b.clock <= b'.clock && b.nextA <= b'.nextA && b.nextB <= b'.nextB
    ensures Known(b', c)
  {
  }

  /** The books after a message was handled and the replies in `reply` were sent off. */
  function Finished(b: Books, cs: seq<Call>, reply: seq<Call>): Books {
    b.(calls := b.calls + multiset(reply) - multiset(cs), handled := b.handled + (set c | c in cs))
  }

  ghost predicate Replies(b: Books, cs: seq<Call>, reply: seq<Call>) {
    && multiset(cs) <= b.calls && multiset(reply) <= multiset(cs)
    && forall c | c in cs && c.id.Some? :: c in reply
  }

  lemma FinishedCalls(b: Books, cs: seq<Call>, reply: seq<Call>, c: Call)
    requires Counted(b) && Replies(b, cs, reply)
    ensures Finished(b, cs, reply).calls[c] <= b.calls[c] <= 1
    ensures c.id.Some? ==> Finished(b, cs, reply).calls[c] == b.calls[c]
  {
  }

  lemma BooksFinish(b: Books, cs: seq<Call>, reply: seq<Call>)
    requires Counted(b) && Replies(b, cs, reply)
    ensures Counted(Finished(b, cs, reply))
  {
    hide Replies;
    var b' := Finished(b, cs, reply);
    forall c ensures b'.calls[c] <= b.calls[c] <= 1 && (c.id.Some? ==> b'.calls[c] == b.calls[c]) {
      FinishedCalls(b, cs, reply, c);
    }
    forall q: Side, k | k in Wait(b', q) ensures WaitsOnce(b', q, k, Wait(b', q)[k]) {
      assert WaitsOnce(b, q, k, Wait(b, q)[k]);
    }
  }

  /** The books after p stopped waiting for number k. */
  function Dropped(b: Books, p: Side, k: nat): Books {
    With(b, p, Next(b, p), Wait(b, p) - {k})
  }

  lemma BooksDrop(b: Books, p: Side, k: nat)
    requires Counted(b)
    ensures Counted(Dropped(b, p, k))
  {
    var b' := Dropped(b, p, k);
    forall q: Side, j | j in Wait(b', q) ensures WaitsOnce(b', q, j, Wait(b', q)[j]) {
      assert WaitsOnce(b, q, j, Wait(b, q)[j]);
    }
  }

  /** What a step does to the books. */
  function BooksAfter(s: State, step: Step): Books
    requires Enabled(s, step)
  {
    var x := Get(s, step.p);
    match step
    case Issue(p, notify, parent) =>
      Issued(View(s), p, NewCalls(p, notify, x.nextId, s.clock, parent), x.nextId + Numbers(notify))
    case Deliver(p) => if x.inbox[0].Responses? then Answered(View(s), p, x.inbox[0].calls) else View(s)
    case Finish(_, i, keep) => Finished(View(s), x.running[i].calls, Kept(x.running[i].calls, keep))
    case Complete(p, k) => Dropped(View(s), p, k)
    case Timeout(p, k) => Dropped(View(s), p, k)
    case _ => View(s)
  }

  lemma ViewAfter(s: State, step: Step)
    requires Enabled(s, step)
    ensures View(Apply(s, step)) == BooksAfter(s, step)
  {
    hide Travelling;
    Moves(s, step);
    Cancel(Travelling(s) + Added(s, step), Travelling(Apply(s, step)), Taken(s, step));
    RestAfter(s, step);
    CallsAfter(s, step);
    hide View, Apply, BooksAfter, Added, Taken;
  }

  lemma RestAfter(s: State, step: Step)
    requires Enabled(s, step)
    ensures View(Apply(s, step)) == BooksAfter(s, step).(calls := Travelling(Apply(s, step)))
  {
    hide Travelling, Register, Answer, Kept, NewCalls, Numbers;
  }

  lemma CallsAfter(s: State, step: Step)
    requires Enabled(s, step)
    ensures BooksAfter(s, step).calls == Travelling(s) + Added(s, step) - Taken(s, step)
  {
  }

  /** Everything being handled is travelling. */
  lemma RunningTravels(s: State, p: Side, i: nat)
    requires i < |Get(s, p).running|
    ensures multiset(Get(s, p).running[i].calls) <= Travelling(s)
  {
    CallsInRemove(Get(s, p).running, i);
    assert CallsIn(Get(s, p).running) <= CallsAt(Get(s, p));
  }

  lemma InboxTravels(s: State, p: Side)
    requires Get(s, p).inbox != []
    ensures multiset(Get(s, p).inbox[0].calls) <= Travelling(s)
  {
    CallsInTail(Get(s, p).inbox);
    assert CallsIn(Get(s, p).inbox) <= CallsAt(Get(s, p));
  }

  lemma Cancel(x: multiset<Call>, y: multiset<Call>, take: multiset<Call>)
    requires x == y + take
    ensures y == x - take
  {
  }

  lemma ParentIsOlder(s: State, step: Step)
    requires Enabled(s, step) && step.Issue? && Counted(View(s))
    ensures step.parent.Some? ==> step.parent.value < s.clock
  {
    var x := Get(s, step.p);
    if step.parent.Some? {
      var i :| 0 <= i < |x.running| && x.running[i].calls != [] && x.running[i].calls[0].stamp == step.parent.value;
      RunningTravels(s, step.p, i);
      var c := x.running[i].calls[0];
      assert c in multiset(x.running[i].calls);
      assert c in View(s).calls && Known(View(s), c);
    }
  }

  lemma IssueIsNew(s: State, step: Step)
    requires Enabled(s, step) && step.Issue? && Counted(View(s))
    ensures var x := Get(s, step.p);
            NewMessage(View(s), step.p, NewCalls(step.p, step.notify, x.nextId, s.clock, step.parent),
                       x.nextId + Numbers(step.notify), step.parent)
  {
    hide Counted, OneMessage;
    ParentIsOlder(s, step);
    NewCallsAre(step.p, step.notify, Get(s, step.p).nextId, s.clock, step.parent);
  }

  lemma ResponsesAreOurs(s: State, p: Side)
    requires Directed(s) && Get(s, p).inbox != [] && Get(s, p).inbox[0].Responses?
    ensures OwnResponses(View(s), p, Get(s, p).inbox[0].calls)
  {
    InboxTravels(s, p);
    assert Sent(Get(s, p).inbox[0], Other(p), s.handled);
  }

  lemma FinishReplies(s: State, step: Step)
    requires Enabled(s, step) && step.Finish?
    ensures var cs := Get(s, step.p).running[step.i].calls; Replies(View(s), cs, Kept(cs, step.keep))
  {
    RunningTravels(s, step.p, step.i);
    KeptSome(Get(s, step.p).running[step.i].calls, step.keep);
  }

  lemma StepCounted(s: State, step: Step)
    requires Enabled(s, step) && Directed(s) && Counted(View(s))
    ensures Counted(View(Apply(s, step)))
  {
    hide Counted, Directed, NewMessage, OwnResponses, Replies, View, Issued, Answered, Finished, Dropped, Apply;
    ViewAfter(s, step);
    var x := Get(s, step.p);
    match step
    case Issue(p, notify, parent) =>
      IssueIsNew(s, step);
      BooksIssue(View(s), p, NewCalls(p, notify, x.nextId, s.clock, parent), x.nextId + Numbers(notify), parent);
    case Deliver(p) =>
      if x.inbox[0].Responses? {
        ResponsesAreOurs(s, p);
        BooksAnswer(View(s), p, x.inbox[0].calls);
      }
    case Finish(_, i, keep) =>
      FinishReplies(s, step);
      BooksFinish(View(s), x.running[i].calls, Kept(x.running[i].calls, keep));
    case Complete(p, k) => BooksDrop(View(s), p, k);
    case Timeout(p, k) => BooksDrop(View(s), p, k);
    case _ =>
  }

  // ----- completed calls stay completed -----

  lemma SettledIssue(b: Books, done: seq<Completion>, p: Side, cs: seq<Call>, next: nat, parent: Option<nat>)
    requires Settled(b, done) && NewMessage(b, p, cs, next, parent)
    ensures Settled(Issued(b, p, cs, next), done)
  {
    hide Register;
    RegisterAdds(Wait(b, p), cs);
    assert forall c :: c in multiset(cs) <==> c in cs;
  }

  lemma SettledAnswer(b: Books, done: seq<Completion>, p: Side, cs: seq<Call>)
    requires Settled(b, done)
    ensures Settled(Answered(b, p, cs), done)
  {
    hide Answer;
    AnswerFills(Wait(b, p), cs);
  }

  lemma SettledFinish(b: Books, done: seq<Completion>, cs: seq<Call>, reply: seq<Call>)
    requires Settled(b, done) && Counted(b) && Replies(b, cs, reply)
    ensures Settled(Finished(b, cs, reply), done)
  {
  }

  lemma SettledDrop(b: Books, done: seq<Completion>, p: Side, k: nat)
    requires Settled(b, done)
    ensures Settled(Dropped(b, p, k), done)
  {
  }

  lemma SettledComplete(b: Books, done: seq<Completion>, p: Side, k: nat)
    requires Settled(b, done) && Counted(b) && k in Wait(b, p) && Wait(b, p)[k].answer.Some?
    ensures Settled(Dropped(b, p, k), done + [Completion(p, k, Wait(b, p)[k].answer.value)])
  {
  }

  lemma StepSettled(s: State, step: Step)
    requires Enabled(s, step) && Inv(s)
    ensures Settled(View(Apply(s, step)), Apply(s, step).done)
  {
    hide Counted, Settled, Directed, NewMessage, OwnResponses, Replies, View, Issued, Answered, Finished, Dropped;
    ViewAfter(s, step);
    DoneAfter(s, step);
    hide Apply;
    var x := Get(s, step.p);
    match step
    case Issue(p, notify, parent) =>
      IssueIsNew(s, step);
      SettledIssue(View(s), s.done, p, NewCalls(p, notify, x.nextId, s.clock, parent), x.nextId + Numbers(notify), parent);
    case Deliver(p) => SettledAnswer(View(s), s.done, p, x.inbox[0].calls);
    case Finish(_, i, keep) =>
      FinishReplies(s, step);
      SettledFinish(View(s), s.done, x.running[i].calls, Kept(x.running[i].calls, keep));
    case Complete(p, k) =>
      WaitsAre(s, p);
      SettledComplete(View(s), s.done, p, k);
    case Timeout(p, k) => SettledDrop(View(s), s.done, p, k);
    case _ =>
  }

  lemma WaitsAre(s: State, p: Side)
    ensures Wait(View(s), p) == Get(s, p).pending
  {
  }

  lemma DoneAfter(s: State, step: Step)
    requires Enabled(s, step)
    ensures Apply(s, step).done ==
            s.done + match step case Complete(p, k) => [Completion(p, k, Get(s, p).pending[k].answer.value)] case _ => []
  {
  }

  lemma InvKept(s: State, step: Step)
    requires Enabled(s, step) && Inv(s)
    ensures Inv(Apply(s, step))
  {
    hide Directed, Counted, Settled, View, Apply;
    StepDirected(s, step);
    StepCounted(s, step);
    StepSettled(s, step);
  }

  lemma InvAtStart()
    ensures Inv(START)
  {
  }

  lemma {:induction false} InvThroughout(s: State, steps: seq<Step>)
    requires Inv(s) && Runs(s, steps)
    ensures Inv(Final(s, steps))
    decreases steps
  {
    if steps != [] {
      InvKept(s, steps[0]);
      InvThroughout(Apply(s, steps[0]), steps[1..]);
    }
  }
}
