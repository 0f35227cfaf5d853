/**
  What two peers agree on about references: a client records the references it
  sees in replies (ts/src/peer.ts), the server holds what they name.
*/
module Agreement {
  import opened Text
  import opened Values
  import opened Sessions
  import opened ResultWalk

  function Named(ids: seq<string>): set<string> {
    set id | id in ids
  }

  /** `trackRemoteReferences`, on a live session. */
  method TrackRemoteReferences(session: Session, v: Value)
    modifies session
    ensures session.State() == old(session.State()).(remote := old(session.remoteRefs) + Named(Refs(v)))
    decreases v, 0
  {
    if IsRef(v) {
      session.AddRemoteRef(RefId(v));
      return;
    }
    match v
    case Arr(items) => TrackEach(session, items);
    case Rec(_, vals) => TrackEach(session, vals);
    case _ =>
  }

  method TrackEach(session: Session, vs: seq<Value>)
    modifies session
    ensures session.State() == old(session.State()).(remote := old(session.remoteRefs) + Named(RefsSeq(vs)))
    decreases vs, 1
  {
    if vs != [] {
      TrackRemoteReferences(session, vs[0]);
      TrackEach(session, vs[1..]);
      assert Named(RefsSeq(vs)) == Named(Refs(vs[0])) + Named(RefsSeq(vs[1..]));
    }
  }

  // ----- promotion -----

  /** A result as the caller sees it: references have become objects to call methods on. */
  datatype Seen = Proxy(ref: string) | Leaf(v: Value) | List(items: seq<Seen>) | Record(keys: seq<string>, vals: seq<Seen>)

  /** `promoteReferences`. */
  function Promote(v: Value): Seen
    decreases v, 0
  {
    match v
    case Arr(items) => List(PromoteSeq(items))
    case Rec(keys, vals) => if IsRef(v) then Proxy(RefId(v)) else Record(keys, PromoteSeq(vals))
    case _ => Leaf(v)
  }

  function PromoteSeq(vs: seq<Value>): (r: seq<Seen>)
    ensures |r| == |vs|
    decreases vs, 1
  {
    if vs == [] then [] else [Promote(vs[0])] + PromoteSeq(vs[1..])
  }

  /** A proxy sent back becomes its reference again. */
  function Demote(s: Seen): Value
    decreases s, 0
  {
    match s
    case Proxy(ref) => RefTo(ref)
    case Leaf(v) => v
    case List(items) => Arr(DemoteSeq(items))
    case Record(keys, vals) => Rec(keys, DemoteSeq(vals))
  }

  function DemoteSeq(ss: seq<Seen>): (r: seq<Value>)
    ensures |r| == |ss|
    decreases ss, 1
  {
    if ss == [] then [] else [Demote(ss[0])] + DemoteSeq(ss[1..])
  }

  function Proxies(s: Seen): seq<string>
    decreases s, 0
  {
    match s
    case Proxy(ref) => [ref]
    case Leaf(_) => []
    case List(items) => ProxiesSeq(items)
    case Record(_, vals) => ProxiesSeq(vals)
  }

  function ProxiesSeq(ss: seq<Seen>): seq<string>
    decreases ss, 1
  {
    if ss == [] then [] else Proxies(ss[0]) + ProxiesSeq(ss[1..])
  }

  /** Promotion loses nothing, and makes one proxy for each reference that is tracked. */
  lemma {:induction false} PromoteFaithful(v: Value)
    ensures Demote(Promote(v)) == v && Proxies(Promote(v)) == Refs(v)
    decreases v, 0
  {
    match v
    case Arr(items) => PromoteFaithfulSeq(items);
    case Rec(_, vals) => PromoteFaithfulSeq(vals);
    case _ =>
  }

  lemma {:induction false} PromoteFaithfulSeq(vs: seq<Value>)
    ensures DemoteSeq(PromoteSeq(vs)) == vs && ProxiesSeq(PromoteSeq(vs)) == RefsSeq(vs)
    decreases vs, 1
  {
    hide Promote, Demote, Proxies, Refs;
    if vs != [] {
      PromoteFaithful(vs[0]);
      PromoteFaithfulSeq(vs[1..]);
      var ss := PromoteSeq(vs);
      assert ss[0] == Promote(vs[0]) && ss[1..] == PromoteSeq(vs[1..]);
      assert DemoteSeq(ss) == [Demote(ss[0])] + DemoteSeq(ss[1..]);
      assert vs == [vs[0]] + vs[1..];
    }
  }

  // ----- agreement -----

  /**
    A server session, the results on their way, the client's remote table, and the
    references method authors have written into results themselves.
  */
  datatype Net = Net(server: Table, flight: seq<Value>, client: set<string>, byHand: set<string>)

  datatype Event =
    | Reply(v: Value)           // a method returns v; its processed form is sent
    | Arrive                    // the client receives the next result
    | OnServer(op: Op)          // registrations and disposals on the server's session
    | Forgotten(ref: string)    // the client drops a remote reference

  ghost predicate Possible(n: Net, e: Event) {
    e.Arrive? ==> n.flight != []
  }

  ghost function Step(n: Net, e: Event): Net
    requires Possible(n, e)
  {
    match e
    case Reply(v) =>
      var (w, t) := Walk(v, n.server);
      Net(t, n.flight + [w], n.client, n.byHand + Named(Refs(v)))
    case Arrive => n.(flight := n.flight[1..], client := n.client + Named(Refs(n.flight[0])))
    case OnServer(op) => n.(server := Apply(op, Ledger(n.server, multiset{}, multiset{})).table)
    case Forgotten(ref) => n.(client := n.client - {ref})
  }

  ghost predicate Minted(t: Table, id: string) {
    exists k: nat | 1 <= k <= t.counter :: id == Mint(t.prefix, k)
  }

  /** The server handed the id out, and still holds it unless it has disposed of it since. */
  ghost predicate Held(t: Table, id: string) {
    Minted(t, id) && (id in t.local || exists o: ObjId :: (id, o) in t.disposed)
  }

  ghost predicate Agreed(n: Net) {
    && (forall id | id in n.client :: id in n.byHand || Held(n.server, id))
    && (forall i, id | 0 <= i < |n.flight| && id in Refs(n.flight[i]) :: id in n.byHand || Held(n.server, id))
  }

  lemma {:induction false} BindAllKeys(m: map<string, ObjId>, ids: seq<string>, objs: seq<ObjId>)
    requires |ids| == |objs|
    ensures BindAll(m, ids, objs).Keys == m.Keys + Named(ids)
    decreases ids
  {
    if ids != [] {
      BindAllKeys(m[ids[0] := objs[0]], ids[1..], objs[1..]);
      assert ids == [ids[0]] + ids[1..];
    }
  }

  lemma WalkKeepsHeld(v: Value, t: Table, id: string)
    requires Held(t, id)
    ensures Held(Walk(v, t).1, id)
  {
    WalkIsFill(v, t);
    BindAllKeys(t.local, MintRange(t.prefix, t.counter, |Objects(v)|), Objects(v));
    var t' := Walk(v, t).1;
    var k: nat :| 1 <= k <= t.counter && id == Mint(t.prefix, k);
    assert 1 <= k <= t'.counter && id == Mint(t'.prefix, k);
    if id in t.local {
      assert id in t'.local.Keys;
    } else {
      var o: ObjId :| (id, o) in t.disposed;
      assert (id, o) in t'.disposed;
    }
  }

  /** What a processed result refers to: its author's own references, and ids just minted and bound. */
  lemma WalkHolds(v: Value, t: Table, id: string)
    requires id in Refs(Walk(v, t).0)
    ensures id in Refs(v) || Held(Walk(v, t).1, id)
  {
    WalkRefs(v, t);
    WalkIsFill(v, t);
    var ids := MintRange(t.prefix, t.counter, |Objects(v)|);
    BindAllKeys(t.local, ids, Objects(v));
    assert id in multiset(Refs(Walk(v, t).0));
    if id !in Refs(v) {
      assert id in ids;
      var i :| 0 <= i < |ids| && ids[i] == id;
      var t' := Walk(v, t).1;
      assert id == Mint(t'.prefix, t.counter + 1 + i);
      assert id in t'.local.Keys;
    }
  }

  lemma OpKeepsHeld(op: Op, t: Table, id: string)
    requires Held(t, id)
    ensures Held(Apply(op, Ledger(t, multiset{}, multiset{})).table, id)
  {
    var t' := Apply(op, Ledger(t, multiset{}, multiset{})).table;
    var k: nat :| 1 <= k <= t.counter && id == Mint(t.prefix, k);
    assert 1 <= k <= t'.counter && id == Mint(t'.prefix, k);
    if id in t.local {
      if id !in t'.local {
        ItemsAre(t.local);
        assert (id, t.local[id]) in t.local.Items;
        assert (id, t.local[id]) in t'.disposed;
      }
    } else {
      var o: ObjId :| (id, o) in t.disposed;
      assert (id, o) in t'.disposed;
    }
  }

  lemma StepAgrees(n: Net, e: Event)
    requires Agreed(n) && Possible(n, e)
    ensures Agreed(Step(n, e))
  {
    hide Held, Walk, Apply, Refs;
    var n' := Step(n, e);
    match e {
      case Reply(v) =>
        forall id | Held(n.server, id) ensures Held(n'.server, id) {
          WalkKeepsHeld(v, n.server, id);
        }
        forall id | id in Refs(Walk(v, n.server).0) ensures id in n'.byHand || Held(n'.server, id) {
          WalkHolds(v, n.server, id);
        }
      case Arrive =>
        assert forall i | 0 <= i < |n'.flight| :: n'.flight[i] == n.flight[i + 1];
      case OnServer(op) =>
        forall id | Held(n.server, id) ensures Held(n'.server, id) {
          OpKeepsHeld(op, n.server, id);
        }
      case Forgotten(_) =>
    }
  }

  ghost predicate Runs(n: Net, es: seq<Event>)
    decreases es
  {
    es == [] || (Possible(n, es[0]) && Runs(Step(n, es[0]), es[1..]))
  }

  ghost function Final(n: Net, es: seq<Event>): Net
    requires Runs(n, es)
    decreases es
  {
    if es == [] then n else Final(Step(n, es[0]), es[1..])
  }

  /**
    Over every run, every id in the client's table was minted by the server and is still bound
    there unless disposed since; or it was written into a result by hand.
  */
  lemma {:induction false} AgreementThroughout(n: Net, es: seq<Event>)
    requires Agreed(n) && Runs(n, es)
    ensures Agreed(Final(n, es))
    decreases es
  {
    hide Agreed, Step, Possible;
    if es != [] {
      StepAgrees(n, es[0]);
      AgreementThroughout(Step(n, es[0]), es[1..]);
    }
  }

  // ----- and nothing that is sent escapes the client -----

  function Together(ws: seq<Value>): set<string> {
    Named(RefsSeq(ws))
  }

  /** The references in everything that methods reply with over a run, as it is sent. */
  ghost function SentRefs(n: Net, es: seq<Event>): set<string>
    requires Runs(n, es)
    decreases es
  {
    if es == [] then {}
    else (if es[0].Reply? then Named(Refs(Walk(es[0].v, n.server).0)) else {}) + SentRefs(Step(n, es[0]), es[1..])
  }

  lemma {:induction false} TogetherAppend(ws: seq<Value>, w: Value)
    ensures Together(ws + [w]) == Together(ws) + Named(Refs(w))
    decreases ws
  {
    hide Refs;
    if ws == [] {
      assert [] + [w] == [w] && [w][1..] == [];
    } else {
      TogetherAppend(ws[1..], w);
      assert (ws + [w])[1..] == ws[1..] + [w];
      TogetherFirst(ws);
      TogetherFirst(ws + [w]);
    }
  }

  lemma TogetherFirst(ws: seq<Value>)
    requires ws != []
    ensures Together(ws) == Named(Refs(ws[0])) + Together(ws[1..])
  {
    hide Refs;
  }

  /**
    Unless the client drops some itself, what it knows and what is named on the way to it are together, at any
    time, exactly what it knew or was named on the way at first and the references of every reply sent since.
  */
  lemma {:induction false} EverythingSentIsKnown(n: Net, es: seq<Event>)
    requires Runs(n, es) && forall e | e in es :: !e.Forgotten?
    ensures Final(n, es).client + Together(Final(n, es).flight) == n.client + Together(n.flight) + SentRefs(n, es)
    decreases es
  {
    hide Walk, Apply, Together, Refs, Named;
    if es != [] {
      var (e, n') := (es[0], Step(n, es[0]));
      assert e in es;
      EverythingSentIsKnown(n', es[1..]);
      match e
      case Reply(v) => TogetherAppend(n.flight, Walk(v, n.server).0);
      case Arrive => TogetherFirst(n.flight);
      case _ =>
    }
  }

  lemma {:induction false} NothingByHand(n: Net, es: seq<Event>)
    requires Runs(n, es) && n.byHand == {} && forall i | 0 <= i < |es| && es[i].Reply? :: Refs(es[i].v) == []
    ensures Final(n, es).byHand == {}
    decreases es
  {
    hide Walk, Apply;
    if es != [] {
      assert forall i | 0 <= i < |es[1..]| :: es[1..][i] == es[i + 1];
      NothingByHand(Step(n, es[0]), es[1..]);
    }
  }

  /** If no method returns references of its own making, the client only ever holds ids the server minted. */
  lemma ClientHoldsMinted(prefix: string, es: seq<Event>, id: string)
    requires var n := Net(Table(prefix, 0, map[], {}, multiset{}), [], {}, {});
             Runs(n, es) && id in Final(n, es).client
    requires forall i | 0 <= i < |es| && es[i].Reply? :: Refs(es[i].v) == []
    ensures var n := Net(Table(prefix, 0, map[], {}, multiset{}), [], {}, {});
            Held(Final(n, es).server, id)
  {
    hide Held;
    var n := Net(Table(prefix, 0, map[], {}, multiset{}), [], {}, {});
    AgreementThroughout(n, es);
    NothingByHand(n, es);
  }

  /** An id about to be minted has not been minted before. */
  lemma MintedLater(t: Table, id: string, k: nat)
    requires k > t.counter && id == Mint(t.prefix, k)
    ensures !Minted(t, id)
  {
    hide Mint;
    forall j: nat | 1 <= j <= t.counter ensures id != Mint(t.prefix, j) {
      MintInjective(t.prefix, j, k);
    }
  }

  lemma MintedRefs(v: Value, t: Table)
    requires Refs(v) == []
    ensures Named(Refs(Walk(v, t).0)) == Named(MintRange(t.prefix, t.counter, |Objects(v)|))
  {
    hide Walk, Refs, Objects, MintRange;
    var (r, s) := (Refs(Walk(v, t).0), MintRange(t.prefix, t.counter, |Objects(v)|));
    WalkRefs(v, t);
    assert multiset(r) == multiset(s);
    forall id ensures id in r <==> id in s {
      assert id in multiset(r) <==> id in multiset(s);
    }
  }

  /** A reply that arrives adds exactly the ids minted for it, and no earlier one is among them. */
  lemma ReplyAddsExactly(v: Value, t: Table, client: set<string>)
    requires FreshAbove(t) && Refs(v) == [] && forall id | id in client :: Minted(t, id)
    ensures var ids := Named(MintRange(t.prefix, t.counter, |Objects(v)|));
            Named(Refs(Walk(v, t).0)) == ids && client !! ids && t.local.Keys !! ids && ids <= Walk(v, t).1.local.Keys
  {
    hide Walk, Refs, Objects, Mint, Minted;
    var r := MintRange(t.prefix, t.counter, |Objects(v)|);
    MintedRefs(v, t);
    WalkRegistersExactly(v, t);
    forall id | id in r ensures id !in client && id !in t.local && id in Walk(v, t).1.local {
      var i :| 0 <= i < |r| && r[i] == id;
      MintedLater(t, id, t.counter + 1 + i);
    }
  }
}
