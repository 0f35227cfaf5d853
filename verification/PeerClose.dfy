/**
  A peer's table of waiting calls through its whole life (ts/src/peer.ts). Each
  synchronous stretch of the program is one event: a call or batch being issued,
  the turn of a write, an incoming response, a request being handled (which may change the
  session's tables in any way), the end of reading, a close.
*/
module PeerClose {
  import opened Basics
  import opened Values
  import opened Messages
  import Agreement
  import Sessions

  /** A request id; null is one like any other. */
  datatype Key = Plain(id: Id) | NullId

  /** How a promise was settled: with the response, or because the connection closed. */
  datatype Settlement = Answered(o: Outcome) | Cut

  /**
    Every promise handed to a caller has a ticket, counted from 0; `fates` is the
    list of settlements each ticket has received so far. `failed` stands for `connError`,
    `refs` for the tables of the peer's session.
  */
  datatype Table = Table(
    nextId: nat, waiting: map<Key, nat>, fates: seq<seq<Settlement>>, closed: bool, failed: bool, refs: Sessions.Table)

  datatype Event =
    | Issue
    | IssueBatch(ids: seq<Option<Key>>)
    | Respond(id: Key, o: Outcome)
    | Serve(refs: Sessions.Table)
    | WriteTurn(ok: bool)
    | ReadEnds(error: bool)
    | Shut

  /** A new promise waiting under an id; an id already waiting loses its promise. */
  function Enter(t: Table, id: Key): Table {
    t.(waiting := t.waiting[id := |t.fates|], fates := t.fates + [[]])
  }

  function EnterAll(t: Table, ids: seq<Option<Key>>): Table
    decreases ids
  {
    if ids == [] then t
    else EnterAll(if ids[0].Some? then Enter(t, ids[0].value) else t, ids[1..])
  }

  function Cuts(fates: seq<seq<Settlement>>, tickets: set<nat>): (r: seq<seq<Settlement>>)
    ensures |r| == |fates|
  {
    seq(|fates|, i requires 0 <= i < |fates| => if i in tickets then fates[i] + [Cut] else fates[i])
  }

  /** Everything still waiting is rejected and forgotten, and every reference of the session disposed. */
  function Closed(t: Table): Table {
    if t.closed then t
    else t.(closed := true, waiting := map[], fates := Cuts(t.fates, t.waiting.Values), refs := Sessions.Emptied(t.refs))
  }

  /** A result that reaches its call has its references recorded. */
  function Tracked(refs: Sessions.Table, o: Outcome): Sessions.Table {
    if o.Done? then refs.(remote := refs.remote + Agreement.Named(Refs(o.v))) else refs
  }

  function Step(t: Table, e: Event): Table
    requires Valid(t)
  {
    match e
    case Issue => if t.closed || t.failed then t else Enter(t, Plain(Num(t.nextId))).(nextId := t.nextId + 1)
    case IssueBatch(ids) => if t.closed || t.failed then t else EnterAll(t, ids)
    case Respond(id, o) =>
      if id in t.waiting
      then t.(waiting := t.waiting - {id}, fates := t.fates[t.waiting[id] := t.fates[t.waiting[id]] + [Answered(o)]],
              refs := Tracked(t.refs, o))
      else t
    case Serve(refs) => t.(refs := refs)
    case WriteTurn(ok) => if t.closed || ok then t else Closed(t.(failed := true))
    case ReadEnds(error) => Closed(if error && !t.closed then t.(failed := true) else t)
    case Shut => Closed(t)
  }

  /** Waiting tickets are distinct and unsettled, no ticket is settled twice, and a closed or failed table is empty. */
  ghost predicate Valid(t: Table) {
    && (forall id | id in t.waiting :: t.waiting[id] < |t.fates| && t.fates[t.waiting[id]] == [])
    && (forall id, jd | id in t.waiting && jd in t.waiting && t.waiting[id] == t.waiting[jd] :: id == jd)
    && (forall i | 0 <= i < |t.fates| :: |t.fates[i]| <= 1)
    && (t.closed ==> t.waiting == map[]) && (t.failed ==> t.closed)
  }

  function Start(refs: Sessions.Table): Table {
    Table(1, map[], [], false, false, refs)
  }

  lemma {:induction false} EnterAllValid(t: Table, ids: seq<Option<Key>>)
    requires Valid(t) && !t.closed
    ensures Valid(EnterAll(t, ids)) && !EnterAll(t, ids).closed
    decreases ids
  {
    hide Valid;
    if ids != [] {
      if ids[0].Some? {
        EnterValid(t, ids[0].value);
      }
      EnterAllValid(if ids[0].Some? then Enter(t, ids[0].value) else t, ids[1..]);
    }
  }

  lemma EnterValid(t: Table, id: Key)
    requires Valid(t) && !t.closed
    ensures Valid(Enter(t, id)) && Valid(Enter(t, id).(nextId := t.nextId + 1))
  {
  }

  lemma RespondValid(t: Table, id: Key, o: Outcome)
    requires Valid(t)
    ensures Valid(Step(t, Respond(id, o)))
  {
    hide Tracked, Closed, EnterAll;
  }

  lemma ClosedValid(t: Table, failed: bool)
    requires Valid(t)
    ensures !t.closed ==> Valid(Closed(t.(failed := failed)))
    ensures Valid(Closed(t))
  {
  }

  /** Every event keeps the table valid: at most one settlement each, and closed means empty. */
  lemma StepValid(t: Table, e: Event)
    requires Valid(t)
    ensures Valid(Step(t, e))
  {
    hide EnterAll, Closed, Enter, Tracked;
    match e
    case Issue => if !t.closed { EnterValid(t, Plain(Num(t.nextId))); }
    case Respond(id, o) => RespondValid(t, id, o);
    case IssueBatch(ids) => if !t.closed && !t.failed { EnterAllValid(t, ids); }
    case WriteTurn(ok) => ClosedValid(t, true);
    case ReadEnds(error) => ClosedValid(t, error || t.failed);
    case Shut => ClosedValid(t, t.failed);
    case _ =>
  }

  function Run(t: Table, es: seq<Event>): (r: Table)
    requires Valid(t)
    ensures Valid(r)
    decreases es
  {
    if es == [] then t
    else
      StepValid(t, es[0]);
      Run(Step(t, es[0]), es[1..])
  }

  /**
    Nothing that happens after a close settles anything or makes anyone wait; nor does it
    touch the session, unless a request is still being handled.
  */
  lemma {:induction false} NothingAfterClose(t: Table, es: seq<Event>)
    requires Valid(t) && t.closed
    ensures Run(t, es).fates == t.fates && Run(t, es).waiting == map[] && Run(t, es).closed
    ensures (forall i | 0 <= i < |es| :: !es[i].Serve?) ==> Run(t, es).refs == t.refs
    decreases es
  {
    if es != [] {
      StepValid(t, es[0]);
      assert forall i | 0 <= i < |es[1..]| :: es[1..][i] == es[i + 1];
      NothingAfterClose(Step(t, es[0]), es[1..]);
    }
  }

  /**
    Over every run, whichever event closes the peer: from then on its session stays empty,
    each reference it held at that moment disposed once, as long as no request that was
    already read is still being handled.
  */
  lemma ClosedSessionStaysEmpty(refs: Sessions.Table, before: seq<Event>, e: Event, later: seq<Event>)
    requires var t := Run(Start(refs), before); !t.closed && Run(t, [e]).closed
    requires forall i | 0 <= i < |later| :: !later[i].Serve?
    ensures var t := Run(Start(refs), before);
            var r := Run(Run(t, [e]), later).refs;
            && r.local == map[] && r.remote == {} && r.disposed == t.refs.disposed + multiset(t.refs.local.Items)
  {
    var t := Run(Start(refs), before);
    StepValid(t, e);
    assert [e][1..] == [] && Run(t, [e]) == Step(t, e);
    NothingAfterClose(Step(t, e), later);
    ClosesBy(t, e);
  }

  lemma ClosesBy(t: Table, e: Event)
    requires Valid(t) && !t.closed && Step(t, e).closed
    ensures Step(t, e).refs == Sessions.Emptied(t.refs)
  {
    if e.IssueBatch? {
      EnterAllValid(t, e.ids);
    }
  }

  // ----- nobody is left waiting, unless an id was used twice at once -----

  /** A ticket that is neither settled nor waiting can never be settled any more. */
  ghost predicate Lost(t: Table, i: nat) {
    i < |t.fates| && t.fates[i] == [] && forall id | id in t.waiting :: t.waiting[id] != i
  }

  ghost predicate SomeLost(t: Table) {
    exists i: nat :: Lost(t, i)
  }

  ghost predicate StaysLost(t: Table, t': Table) {
    forall i: nat | Lost(t, i) :: Lost(t', i)
  }

  /** The batch's ids are new: none is waiting already and none occurs twice. */
  predicate FreshIds(t: Table, ids: seq<Option<Key>>)
    decreases ids
  {
    if ids == [] then true
    else if ids[0].None? then FreshIds(t, ids[1..])
    else ids[0].value !in t.waiting && FreshIds(Enter(t, ids[0].value), ids[1..])
  }

  predicate Fresh(t: Table, e: Event) {
    match e
    case Issue => t.closed || Plain(Num(t.nextId)) !in t.waiting
    case IssueBatch(ids) => t.closed || FreshIds(t, ids)
    case _ => true
  }

  /** No id was put to use while still waiting, at any time of the run. */
  predicate AlwaysFresh(t: Table, es: seq<Event>)
    requires Valid(t)
    decreases es
  {
    if es == [] then true
    else
      StepValid(t, es[0]);
      Fresh(t, es[0]) && AlwaysFresh(Step(t, es[0]), es[1..])
  }

  lemma EnterLoses(t: Table, id: Key)
    requires Valid(t) && !t.closed
    ensures Valid(Enter(t, id)) && StaysLost(t, Enter(t, id))
    ensures SomeLost(Enter(t, id)) <==> SomeLost(t) || id in t.waiting
  {
    hide Valid, Lost;
    EnterValid(t, id);
    var t' := Enter(t, id);
    forall i: nat ensures Lost(t', i) <==> Lost(t, i) || (id in t.waiting && i == t.waiting[id]) {
      EnterLosesOne(t, id, i);
    }
    if id in t.waiting {
      assert Lost(t', t.waiting[id]);
    }
    if SomeLost(t) {
      var i: nat :| Lost(t, i);
      assert Lost(t', i);
    }
  }

  lemma EnterLosesOne(t: Table, id: Key, i: nat)
    requires Valid(t)
    ensures Lost(Enter(t, id), i) <==> Lost(t, i) || (id in t.waiting && i == t.waiting[id])
  {
    var t' := Enter(t, id);
    assert t'.waiting[id] == |t.fates|;
    assert forall jd | jd in t.waiting && jd != id :: t'.waiting[jd] == t.waiting[jd];
  }

  lemma {:induction false} EnterAllLoses(t: Table, ids: seq<Option<Key>>)
    requires Valid(t) && !t.closed
    ensures StaysLost(t, EnterAll(t, ids))
    ensures SomeLost(EnterAll(t, ids)) <==> SomeLost(t) || !FreshIds(t, ids)
    decreases ids
  {
    hide Valid, Lost, SomeLost;
    if ids != [] {
      if ids[0].Some? {
        EnterLoses(t, ids[0].value);
        EnterAllLoses(Enter(t, ids[0].value), ids[1..]);
      } else {
        EnterAllLoses(t, ids[1..]);
      }
    }
  }

  lemma StillLost(t: Table, t': Table)
    requires StaysLost(t, t') && SomeLost(t)
    ensures SomeLost(t')
  {
  }

  lemma ClosedLoses(t: Table)
    requires Valid(t)
    ensures StaysLost(t, Closed(t)) && (SomeLost(Closed(t)) <==> SomeLost(t))
  {
    var t' := Closed(t);
    forall i: nat ensures Lost(t', i) <==> Lost(t, i) {
    }
    if SomeLost(t) {
      StillLost(t, t');
    }
  }

  lemma RespondLoses(t: Table, id: Key, o: Outcome)
    requires Valid(t) && id in t.waiting
    ensures var t' := Step(t, Respond(id, o)); StaysLost(t, t') && (SomeLost(t') <==> SomeLost(t))
  {
    var t' := Step(t, Respond(id, o));
    forall i: nat ensures Lost(t', i) <==> Lost(t, i) {
      assert forall jd | jd in t'.waiting :: jd in t.waiting && t.waiting[jd] == t'.waiting[jd];
      assert forall jd | jd in t.waiting && jd != id :: jd in t'.waiting;
    }
    if SomeLost(t) {
      StillLost(t, t');
    }
  }

  lemma FailedClose(t: Table)
    requires Valid(t) && !t.closed
    ensures var t' := Closed(t.(failed := true)); StaysLost(t, t') && (SomeLost(t') <==> SomeLost(t))
  {
    ClosedLoses(t);
    var t' := Closed(t.(failed := true));
    assert t' == Closed(t).(failed := true);
    assert forall i: nat :: Lost(t', i) <==> Lost(Closed(t), i);
    if SomeLost(Closed(t)) {
      StillLost(Closed(t), t');
    }
  }

  lemma StepLoses(t: Table, e: Event)
    requires Valid(t)
    ensures StaysLost(t, Step(t, e)) && (SomeLost(Step(t, e)) <==> SomeLost(t) || !Fresh(t, e))
  {
    hide Closed, Lost, EnterAll;
    match e
    case Issue =>
      if !t.closed {
        EnterLoses(t, Plain(Num(t.nextId)));
        CounterAside(Enter(t, Plain(Num(t.nextId))), t.nextId + 1);
      }
    case IssueBatch(ids) => if !t.closed { EnterAllLoses(t, ids); }
    case Respond(id, o) => if id in t.waiting { RespondLoses(t, id, o); }
    case WriteTurn(ok) => if !t.closed && !ok { FailedClose(t); }
    case ReadEnds(error) => if error && !t.closed { FailedClose(t); } else { ClosedLoses(t); }
    case Shut => ClosedLoses(t);
    case Serve(refs) => RefsAside(t, refs);
  }

  lemma RefsAside(t: Table, refs: Sessions.Table)
    ensures StaysLost(t, t.(refs := refs)) && (SomeLost(t.(refs := refs)) <==> SomeLost(t))
  {
    assert forall i: nat :: Lost(t.(refs := refs), i) <==> Lost(t, i);
  }

  lemma CounterAside(t: Table, n: nat)
    ensures StaysLost(t, t.(nextId := n)) && (SomeLost(t.(nextId := n)) <==> SomeLost(t))
  {
    assert forall i: nat :: Lost(t.(nextId := n), i) <==> Lost(t, i);
  }

  lemma {:induction false} RunLoses(t: Table, es: seq<Event>)
    requires Valid(t)
    ensures SomeLost(Run(t, es)) <==> SomeLost(t) || !AlwaysFresh(t, es)
    decreases es
  {
    hide SomeLost, StaysLost, Step, Fresh, Valid;
    if es != [] {
      StepValid(t, es[0]);
      StepLoses(t, es[0]);
      RunLoses(Step(t, es[0]), es[1..]);
    }
  }

  /**
    Closing settles everything exactly once, precisely when no id was put to use again while
    it was still waiting. Otherwise the promise that lost its place in the table stays open for ever.
  */
  lemma CloseSettlesAll(refs: Sessions.Table, es: seq<Event>)
    requires Run(Start(refs), es).closed
    ensures var t := Run(Start(refs), es);
            (forall i | 0 <= i < |t.fates| :: |t.fates[i]| == 1) <==> AlwaysFresh(Start(refs), es)
  {
    hide Step, Fresh;
    var s := Start(refs);
    RunLoses(s, es);
    assert forall i: nat :: !Lost(s, i);
    var t := Run(s, es);
    assert forall i: nat :: Lost(t, i) <==> i < |t.fates| && |t.fates[i]| == 0;
    if SomeLost(t) {
      var i: nat :| Lost(t, i);
      assert |t.fates[i]| != 1;
    }
  }

  /** Such a run: a batch uses one id twice, and only the later promise is settled by the close. */
  lemma LostWitness(refs: Sessions.Table, id: Key)
    ensures var es := [IssueBatch([Some(id), Some(id)]), Shut];
            Run(Start(refs), es).closed && Run(Start(refs), es).fates == [[], [Cut]]
  {
    var (s, ids) := (Start(refs), [Some(id), Some(id)]);
    var t := Enter(Enter(s, id), id);
    assert ids[1..] == [Some(id)] && [Some(id)][1..] == [];
    assert EnterAll(Enter(Enter(s, id), id), []) == t;
    assert EnterAll(Enter(s, id), [Some(id)]) == t;
    assert Step(s, IssueBatch(ids)) == t;
    StepValid(s, IssueBatch(ids));
    assert t.waiting == map[id := 1] && t.fates == [[], []];
    assert id in t.waiting && t.waiting.Values == {1};
    assert Cuts([[], []], {1}) == [[], [Cut]] by { assert [] + [Cut] == [Cut]; }
    assert Step(t, Shut).fates == [[], [Cut]];
    assert [IssueBatch(ids), Shut][1..] == [Shut] && [Shut][1..] == [];
  }

  // ----- single calls use the counter, so theirs are always fresh -----

  ghost predicate Counted(t: Table) {
    && t.nextId == |t.fates| + 1
    && forall id | id in t.waiting :: id == Plain(Num(t.waiting[id] + 1))
  }

  lemma StepCounted(t: Table, e: Event)
    requires Valid(t) && Counted(t) && !e.IssueBatch?
    ensures Counted(Step(t, e)) && Fresh(t, e)
  {
    hide Cuts, Tracked;
  }

  /** Who settled ticket i: the close, or a response to that very call. */
  ghost predicate OwnFate(fate: seq<Settlement>, i: nat, es: seq<Event>) {
    fate != [] && fate[0].Answered? ==> Respond(Plain(Num(i + 1)), fate[0].o) in es
  }

  lemma StepFates(t: Table, e: Event, i: nat)
    requires Valid(t) && Counted(t) && !e.IssueBatch? && i < |t.fates|
    ensures i < |Step(t, e).fates|
    ensures t.fates[i] != [] ==> Step(t, e).fates[i] == t.fates[i]
    ensures t.fates[i] == [] ==> OwnFate(Step(t, e).fates[i], i, [e])
  {
  }

  /** Without batches every call is settled by the response that carries its own number, or by the close; exactly once. */
  lemma {:induction false} SingleCalls(t: Table, es: seq<Event>)
    requires Valid(t) && Counted(t) && forall j | 0 <= j < |es| :: !es[j].IssueBatch?
    ensures AlwaysFresh(t, es) && |t.fates| <= |Run(t, es).fates|
    ensures forall i: nat | i < |t.fates| && t.fates[i] != [] :: Run(t, es).fates[i] == t.fates[i]
    ensures forall i: nat | i < |Run(t, es).fates| && (i < |t.fates| ==> t.fates[i] == []) ::
              OwnFate(Run(t, es).fates[i], i, es)
    decreases es
  {
    hide Step, Fresh, Valid, Counted;
    if es != [] {
      var (e, t') := (es[0], Step(t, es[0]));
      StepValid(t, e);
      StepCounted(t, e);
      assert forall j | 0 <= j < |es[1..]| :: es[1..][j] == es[j + 1];
      SingleCalls(t', es[1..]);
      forall i: nat | i < |t.fates| ensures i < |t'.fates| && (t.fates[i] != [] ==> t'.fates[i] == t.fates[i])
                                            && (t.fates[i] == [] ==> OwnFate(t'.fates[i], i, [e])) {
        StepFates(t, e, i);
      }
      NewFates(t, e);
      assert es == [e] + es[1..];
    }
  }

  /** A new promise starts out unsettled. */
  lemma NewFates(t: Table, e: Event)
    requires Valid(t) && !e.IssueBatch?
    ensures |t.fates| <= |Step(t, e).fates|
    ensures forall i: nat | |t.fates| <= i < |Step(t, e).fates| :: Step(t, e).fates[i] == []
  {
  }

  // ----- what a waiting call receives -----

  /** A failed write, the end of reading, a close. */
  predicate Closes(e: Event) {
    e == WriteTurn(false) || e.ReadEnds? || e.Shut?
  }

  /** A run leaves the peer closed exactly when it was so before or one of these happened in it. */
  lemma {:induction false} ClosedExactly(t: Table, es: seq<Event>)
    requires Valid(t)
    ensures Run(t, es).closed <==> t.closed || exists e :: e in es && Closes(e)
    decreases es
  {
    hide Valid, Step;
    if es != [] {
      StepValid(t, es[0]);
      StepCloses(t, es[0]);
      ClosedExactly(Step(t, es[0]), es[1..]);
      assert es == [es[0]] + es[1..];
    }
  }

  lemma StepCloses(t: Table, e: Event)
    requires Valid(t)
    ensures Step(t, e).closed <==> t.closed || Closes(e)
  {
    if e.IssueBatch? && !t.closed {
      EnterAllValid(t, e.ids);
    }
  }

  /** A call on an open peer waits under the counter's number, with a ticket of its own and nothing received yet. */
  lemma CallWaits(t: Table)
    requires Valid(t) && !t.closed
    ensures var (t', id) := (Step(t, Issue), Plain(Num(t.nextId)));
            && t'.nextId == t.nextId + 1 && t'.fates == t.fates + [[]]
            && id in t'.waiting && t'.waiting[id] == |t.fates|
            && (forall jd | jd != id :: jd in t'.waiting <==> jd in t.waiting)
            && (forall jd | jd != id && jd in t.waiting :: t'.waiting[jd] == t.waiting[jd])
  {
  }

  /** How many of the ids ask for a promise. */
  function Askers(ids: seq<Option<Key>>): nat
    decreases ids
  {
    if ids == [] then 0 else (if ids[0].Some? then 1 else 0) + Askers(ids[1..])
  }

  /** A batch of new ids has each of them wait, in order, each with a ticket of its own; those that waited before are left alone. */
  lemma {:induction false} BatchWaits(t: Table, ids: seq<Option<Key>>)
    requires Valid(t) && !t.closed && FreshIds(t, ids)
    ensures var t' := EnterAll(t, ids);
            && |t'.fates| == |t.fates| + Askers(ids) && t'.fates[..|t.fates|] == t.fates
            && (forall i | |t.fates| <= i < |t'.fates| :: t'.fates[i] == [])
            && (forall jd | jd in t.waiting :: jd in t'.waiting && t'.waiting[jd] == t.waiting[jd])
            && (forall i | 0 <= i < |ids| && ids[i].Some? ::
                  ids[i].value in t'.waiting && t'.waiting[ids[i].value] == |t.fates| + Askers(ids[..i]))
    decreases ids
  {
    hide Valid;
    if ids != [] {
      var t1 := if ids[0].Some? then Enter(t, ids[0].value) else t;
      EnterAllValid(t, [ids[0]]);
      assert [ids[0]][1..] == [] && EnterAll(t, [ids[0]]) == t1;
      BatchWaits(t1, ids[1..]);
      var t' := EnterAll(t1, ids[1..]);
      assert t1.fates[..|t.fates|] == t.fates;
      assert t'.fates[..|t.fates|] == t'.fates[..|t1.fates|][..|t.fates|];
      forall i | 0 <= i < |ids| && ids[i].Some?
        ensures ids[i].value in t'.waiting && t'.waiting[ids[i].value] == |t.fates| + Askers(ids[..i])
      {
        if i > 0 {
          assert ids[1..][i - 1] == ids[i] && ids[..i][1..] == ids[1..][..i - 1];
        }
      }
    }
  }

  /**
    A response settles the promise waiting under its id with exactly its own outcome, and no other;
    the references of a result are known afterwards. A response to no waiting id does nothing.
  */
  lemma ResponseSettles(t: Table, id: Key, o: Outcome)
    requires Valid(t)
    ensures id !in t.waiting ==> Step(t, Respond(id, o)) == t
    ensures id in t.waiting ==>
              var (t', ticket) := (Step(t, Respond(id, o)), t.waiting[id]);
              && id !in t'.waiting && t'.closed == t.closed
              && |t'.fates| == |t.fates| && t'.fates[ticket] == [Answered(o)]
              && (forall i | 0 <= i < |t.fates| && i != ticket :: t'.fates[i] == t.fates[i])
              && (forall jd | jd in t.waiting && jd != id :: jd in t'.waiting && t'.waiting[jd] == t.waiting[jd])
              && t'.refs.local == t.refs.local
              && (forall s :: s in t'.refs.remote <==> s in t.refs.remote || (o.Done? && s in Refs(o.v)))
  {
  }

  /** Nothing in the run answers the id or closes the peer. */
  predicate Untouched(es: seq<Event>, id: Key) {
    forall e | e in es :: !Closes(e) && !(e.Respond? && e.id == id)
  }

  /** A promise keeps waiting through what does not concern it. */
  lemma StepWaits(t: Table, e: Event, id: Key)
    requires Valid(t) && id in t.waiting && Fresh(t, e) && !Closes(e) && !(e.Respond? && e.id == id)
    ensures id in Step(t, e).waiting && Step(t, e).waiting[id] == t.waiting[id]
  {
    hide Tracked, EnterAll;
    if e.IssueBatch? {
      BatchWaits(t, e.ids);
    }
  }

  /** What a promise has received is never added to. */
  lemma StepSettled(t: Table, e: Event, i: nat)
    requires Valid(t) && i < |t.fates| && t.fates[i] != []
    ensures i < |Step(t, e).fates| && Step(t, e).fates[i] == t.fates[i]
  {
    hide Tracked, EnterAll;
    if e.IssueBatch? {
      EnterAllKeeps(t, e.ids, i);
    }
  }

  lemma {:induction false} EnterAllKeeps(t: Table, ids: seq<Option<Key>>, i: nat)
    requires i < |t.fates|
    ensures i < |EnterAll(t, ids).fates| && EnterAll(t, ids).fates[i] == t.fates[i]
    decreases ids
  {
    if ids != [] {
      EnterAllKeeps(if ids[0].Some? then Enter(t, ids[0].value) else t, ids[1..], i);
    }
  }

  lemma {:induction false} StaysSettled(t: Table, es: seq<Event>, i: nat)
    requires Valid(t) && i < |t.fates| && t.fates[i] != []
    ensures i < |Run(t, es).fates| && Run(t, es).fates[i] == t.fates[i]
    decreases es
  {
    hide Valid, Step;
    if es != [] {
      StepValid(t, es[0]);
      StepSettled(t, es[0], i);
      StaysSettled(Step(t, es[0]), es[1..], i);
    }
  }

  lemma CloseCuts(t: Table, e: Event, id: Key)
    requires Valid(t) && id in t.waiting && Closes(e)
    ensures |Step(t, e).fates| == |t.fates| && Step(t, e).fates[t.waiting[id]] == [Cut]
  {
    hide Tracked;
    assert t.waiting[id] in t.waiting.Values;
  }

  /** Until it is answered or the peer closed, a promise waits under its id and has received nothing. */
  lemma {:induction false} StillWaiting(t: Table, id: Key, es: seq<Event>)
    requires Valid(t) && id in t.waiting && AlwaysFresh(t, es) && Untouched(es, id)
    ensures var t' := Run(t, es); id in t'.waiting && t'.waiting[id] == t.waiting[id] && t'.fates[t.waiting[id]] == []
    decreases es
  {
    hide Step, Fresh, Closes;
    if es != [] {
      StepValid(t, es[0]);
      assert es[0] in es;
      StepWaits(t, es[0], id);
      StillWaiting(Step(t, es[0]), id, es[1..]);
    }
  }

  /**
    Whatever else happens: of the events that answer a waiting promise's id or close the peer, the
    first decides. A response gives the promise exactly its own outcome, a close rejects it, and
    nothing that follows changes that.
  */
  lemma {:induction false} FirstDecides(t: Table, id: Key, es: seq<Event>, k: nat)
    requires Valid(t) && id in t.waiting && AlwaysFresh(t, es) && k < |es| && Untouched(es[..k], id)
    requires Closes(es[k]) || (es[k].Respond? && es[k].id == id)
    ensures var (fates, ticket) := (Run(t, es).fates, t.waiting[id]);
            ticket < |fates| && fates[ticket] == [if es[k].Respond? then Answered(es[k].o) else Cut]
    decreases k
  {
    hide Step, Fresh, Closes;
    var t' := Step(t, es[0]);
    StepValid(t, es[0]);
    if k == 0 {
      NeverBoth(es[0]);
      if es[0].Respond? {
        assert es[0] == Respond(id, es[0].o);
        ResponseSettles(t, id, es[0].o);
      } else {
        CloseCuts(t, es[0], id);
      }
      StaysSettled(t', es[1..], t.waiting[id]);
    } else {
      assert es[0] in es[..k];
      StepWaits(t, es[0], id);
      assert es[1..][..k - 1] == es[..k][1..];
      FirstDecides(t', id, es[1..], k - 1);
    }
  }

  function Calls(es: seq<Event>): nat {
    if es == [] then 0 else Calls(es[1..]) + if es[0].Issue? then 1 else 0
  }

  lemma {:induction false} CallsCounted(t: Table, es: seq<Event>)
    requires Valid(t) && Counted(t) && forall e | e in es :: !e.IssueBatch?
    ensures Counted(Run(t, es)) && (!Run(t, es).closed ==> |Run(t, es).fates| == |t.fates| + Calls(es))
    ensures t.closed ==> Run(t, es).closed
    decreases es
  {
    hide Valid, Counted, Step, Cuts;
    if es != [] {
      StepValid(t, es[0]);
      assert es[0] in es;
      StepCounted(t, es[0]);
      StepCloses(t, es[0]);
      StepNumbers(t, es[0]);
      CallsCounted(Step(t, es[0]), es[1..]);
    }
  }

  lemma StepNumbers(t: Table, e: Event)
    requires Valid(t) && !e.IssueBatch?
    ensures |Step(t, e).fates| == |t.fates| + if e.Issue? && !t.closed then 1 else 0
  {
  }

  lemma {:induction false} RunOn(t: Table, a: seq<Event>, b: seq<Event>)
    requires Valid(t)
    ensures Run(t, a + b) == Run(Run(t, a), b)
    decreases a
  {
    hide Valid, Step;
    if a == [] {
      assert a + b == b;
    } else {
      StepValid(t, a[0]);
      assert (a + b)[0] == a[0] && (a + b)[1..] == a[1..] + b;
      RunOn(Step(t, a[0]), a[1..], b);
    }
  }

  /**
    What promise i, waiting under an id, has received after the given events: exactly the outcome
    of the first response with its id, if that comes before any close; exactly the
    rejection, if a close comes before; and nothing until then.
  */
  predicate Receives(fates: seq<seq<Settlement>>, i: nat, id: Key, es: seq<Event>) {
    && i < |fates|
    && (Untouched(es, id) ==> fates[i] == [])
    && (forall k | 0 <= k < |es| && Untouched(es[..k], id) ::
          && (Closes(es[k]) ==> fates[i] == [Cut])
          && (es[k].Respond? && es[k].id == id ==> fates[i] == [Answered(es[k].o)]))
  }

  lemma WaitingReceives(t: Table, id: Key, es: seq<Event>)
    requires Valid(t) && id in t.waiting && AlwaysFresh(t, es)
    ensures Receives(Run(t, es).fates, t.waiting[id], id, es)
  {
    hide Step, Valid, Untouched, Closes, Fresh, AlwaysFresh, Run;
    var (i, fates) := (t.waiting[id], Run(t, es).fates);
    StillThere(t, es, i);
    forall k | 0 <= k < |es| && Untouched(es[..k], id)
      ensures Closes(es[k]) ==> fates[i] == [Cut]
      ensures es[k].Respond? && es[k].id == id ==> fates[i] == [Answered(es[k].o)]
    {
      NeverBoth(es[k]);
      if Closes(es[k]) || (es[k].Respond? && es[k].id == id) {
        FirstDecides(t, id, es, k);
      }
    }
    if Untouched(es, id) {
      StillWaiting(t, id, es);
    }
  }

  lemma {:induction false} StillThere(t: Table, es: seq<Event>, i: nat)
    requires Valid(t) && (i < |t.fates| || i in t.waiting.Values)
    ensures i < |Run(t, es).fates|
    decreases es
  {
    hide Step;
    if es != [] {
      StepValid(t, es[0]);
      FatesGrow(t, es[0]);
      StillThere(Step(t, es[0]), es[1..], i);
    }
  }

  lemma FatesGrow(t: Table, e: Event)
    requires Valid(t)
    ensures |t.fates| <= |Step(t, e).fates|
  {
    hide EnterAll, Tracked;
    if e.IssueBatch? && t.fates != [] {
      EnterAllKeeps(t, e.ids, |t.fates| - 1);
    }
  }

  /** The life of a call, in any run of single calls: the n-th, issued before anything closes the peer, receives what is sent for the number n. */
  lemma CallReceives(refs: Sessions.Table, before: seq<Event>, later: seq<Event>)
    requires forall e | e in before + later :: !e.IssueBatch?
    requires forall e | e in before :: !Closes(e)
    ensures var (n, t) := (Calls(before) + 1, Run(Start(refs), before + ([Issue] + later)));
            Receives(t.fates, n - 1, Plain(Num(n)), later)
  {
    hide Step, Valid, Counted, Untouched, Closes, Fresh, AlwaysFresh, Run, Receives;
    var n, t := Issued(refs, before, later);
    WaitingReceives(t, Plain(Num(n)), later);
  }

  /** The n-th call, as it is issued. */
  lemma Issued(refs: Sessions.Table, before: seq<Event>, later: seq<Event>) returns (n: nat, t: Table)
    requires forall e | e in before + later :: !e.IssueBatch?
    requires forall e | e in before :: !Closes(e)
    ensures n == Calls(before) + 1 && Valid(t) && AlwaysFresh(t, later)
    ensures Run(Start(refs), before + ([Issue] + later)) == Run(t, later)
    ensures Plain(Num(n)) in t.waiting && t.waiting[Plain(Num(n))] == n - 1
  {
    hide Step, Closes, Fresh, AlwaysFresh;
    var s := Start(refs);
    CallsCounted(s, before);
    ClosedExactly(s, before);
    RunOn(s, before, [Issue] + later);
    var t0 := Run(s, before);
    n := Calls(before) + 1;
    StepValid(t0, Issue);
    CallWaits(t0);
    StepCounted(t0, Issue);
    t := Step(t0, Issue);
    assert ([Issue] + later)[1..] == later;
    assert forall i | 0 <= i < |later| :: later[i] in before + later;
    SingleCalls(t, later);
  }

  lemma NeverBoth(e: Event)
    ensures Closes(e) ==> !e.Respond?
  {
  }

  /** The peer object. `fates` records what its callers' promises have received. */
  class Peer {
    var nextId: nat
    var pendingRequests: map<Key, nat>
    var fates: seq<seq<Settlement>>
    var closed: bool
    var connError: bool
    const session: Sessions.Session

    function State(): Table
      reads this, session
    {
      Table(nextId, pendingRequests, fates, closed, connError, session.State())
    }

    constructor (session: Sessions.Session)
      ensures this.session == session && State() == Start(session.State()) && Valid(State())
    {
      nextId, pendingRequests, fates, closed, connError := 1, map[], [], false, false;
      this.session := session;
    }

    method Call() returns (ticket: Option<nat>)
      requires Valid(State())
      modifies this, session
      ensures State() == Step(old(State()), Issue) && Valid(State())
      ensures ticket == if old(closed || connError) then None else Some(old(|fates|))
    {
      StepValid(State(), Issue);
      if closed || connError {
        return None;
      }
      var id := nextId;
      nextId := nextId + 1;
      pendingRequests := pendingRequests[Plain(Num(id)) := |fates|];
      ticket := Some(|fates|);
      fates := fates + [[]];
    }

    method Batch(ids: seq<Option<Key>>)
      requires Valid(State())
      modifies this, session
      ensures State() == Step(old(State()), IssueBatch(ids)) && Valid(State())
    {
      ghost var t := State();
      StepValid(t, IssueBatch(ids));
      if closed || connError {
        return;
      }
      var i := 0;
      while i < |ids|
        invariant 0 <= i <= |ids|
        invariant EnterAll(t, ids) == EnterAll(State(), ids[i..])
      {
        assert ids[i..][1..] == ids[i + 1..];
        if ids[i].Some? {
          pendingRequests := pendingRequests[ids[i].value := |fates|];
          fates := fates + [[]];
        }
        i := i + 1;
      }
    }

    method Close()
      requires Valid(State().(failed := false))
      modifies this, session
      ensures State() == Closed(old(State()))
    {
      if closed {
        return;
      }
      closed := true;
      fates := RejectPending(pendingRequests, fates);
      pendingRequests := map[];
      var _, _ := session.DisposeAll();
    }

    /** One turn of the write queue. */
    method WriteMessage(ok: bool)
      requires Valid(State())
      modifies this, session
      ensures State() == Step(old(State()), WriteTurn(ok)) && Valid(State())
    {
      StepValid(State(), WriteTurn(ok));
      if closed {
        return;
      }
      if !ok {
        connError := true;
        Close();
      }
    }

    method HandleIncomingResponse(id: Key, o: Outcome)
      requires Valid(State())
      modifies this, session
      ensures State() == Step(old(State()), Respond(id, o)) && Valid(State())
    {
      StepValid(State(), Respond(id, o));
      if id !in pendingRequests {
        return;
      }
      var ticket := pendingRequests[id];
      pendingRequests := pendingRequests - {id};
      if o.Done? {
        Agreement.TrackRemoteReferences(session, o.v);
      }
      fates := fates[ticket := fates[ticket] + [Answered(o)]];
    }

    /** The read loop leaves, by the end of the stream or by an error. */
    method ReadLoopEnds(error: bool)
      requires Valid(State())
      modifies this, session
      ensures State() == Step(old(State()), ReadEnds(error)) && Valid(State())
    {
      StepValid(State(), ReadEnds(error));
      if error && !closed {
        connError := true;
      }
      Close();
    }
  }

  /** Distinct tickets, all of them handed out. */
  ghost predicate OwnTickets(waiting: map<Key, nat>, n: nat) {
    && (forall id | id in waiting :: waiting[id] < n)
    && (forall i, j | i in waiting && j in waiting && waiting[i] == waiting[j] :: i == j)
  }

  /** The loop of `close`: reject each waiting promise and forget it. */
  method RejectPending(waiting: map<Key, nat>, fates: seq<seq<Settlement>>) returns (r: seq<seq<Settlement>>)
    requires OwnTickets(waiting, |fates|)
    ensures r == Cuts(fates, waiting.Values)
  {
    hide *;
    var pending := waiting;
    r := fates;
    ghost var tickets: set<nat> := {};
    CutNone(fates);
    NoneRejected(waiting);
    while pending != map[]
      invariant Rejected(waiting, pending, tickets)
      invariant r == Cuts(fates, tickets)
      decreases |pending|
    {
      var id :| id in pending;
      RejectOne(waiting, |fates|, pending, tickets, id);
      var ticket := pending[id];
      CutOne(fates, tickets, ticket);
      r := r[ticket := r[ticket] + [Cut]];
      DropOne(pending, id);
      pending := pending - {id};
      tickets := tickets + {ticket};
    }
    AllRejected(waiting, tickets);
  }

  /** The tickets rejected so far are those of the ids no longer in the table. */
  ghost predicate Rejected(was: map<Key, nat>, left: map<Key, nat>, tickets: set<nat>) {
    && (forall id | id in left :: id in was && left[id] == was[id])
    && (forall id | id in was :: id in left <==> was[id] !in tickets)
    && tickets <= was.Values
  }

  lemma NoneRejected(was: map<Key, nat>)
    ensures Rejected(was, was, {})
  {
  }

  lemma RejectOne(was: map<Key, nat>, n: nat, left: map<Key, nat>, tickets: set<nat>, id: Key)
    requires Rejected(was, left, tickets) && OwnTickets(was, n) && id in left
    ensures left[id] !in tickets && left[id] < n && Rejected(was, left - {id}, tickets + {left[id]})
  {
  }

  lemma AllRejected(was: map<Key, nat>, tickets: set<nat>)
    requires Rejected(was, map[], tickets)
    ensures tickets == was.Values
  {
  }

  lemma CutNone(fates: seq<seq<Settlement>>)
    ensures Cuts(fates, {}) == fates
  {
  }

  lemma CutOne(fates: seq<seq<Settlement>>, tickets: set<nat>, ticket: nat)
    requires ticket < |fates| && ticket !in tickets
    ensures Cuts(fates, tickets + {ticket}) == Cuts(fates, tickets)[ticket := Cuts(fates, tickets)[ticket] + [Cut]]
  {
  }

  lemma DropOne(m: map<Key, nat>, id: Key)
    requires id in m
    ensures |m - {id}| < |m|
  {
  }
}
