/**
  The HTTP handler's sessions and their expiry (go/jsonrpc3/http_server.go).
  Times are in nanoseconds.
*/
module Expiry {
  import opened Values
  import opened Sessions

  const SECOND: nat := 1_000_000_000
  const DEFAULT_SESSION_TTL: nat := 5 * 60 * SECOND
  const STATELESS_SESSION_TTL: nat := 30 * SECOND

  /** A session without local references lives for the smaller of the two limits. */
  function Ttl(configured: int, t: Table): int {
    if t.local == map[] && STATELESS_SESSION_TTL < configured then STATELESS_SESSION_TTL else configured
  }

  datatype Entry = Entry(lastAccessed: int, table: Table)

  predicate Expired(e: Entry, now: int, configured: int) {
    now - e.lastAccessed > Ttl(configured, e.table)
  }

  /** Live sessions, and what is left of the ones removed. */
  datatype Store = Store(sessions: map<string, Entry>, retired: map<string, Table>)

  /** Sessions leave the store with all their references disposed. */
  function Retire(s: Store, ids: set<string>): Store
    requires ids <= s.sessions.Keys
  {
    Store(s.sessions - ids, s.retired + map id | id in ids :: Emptied(s.sessions[id].table))
  }

  function ExpiredIds(sessions: map<string, Entry>, now: int, ttl: int): set<string> {
    set id | id in sessions && Expired(sessions[id], now, ttl)
  }

  function Sweep(s: Store, now: int, ttl: int): Store {
    Retire(s, ExpiredIds(s.sessions, now, ttl))
  }

  /**
    What a request body turned out to be: undecodable; a batch whose reply cannot be
    encoded; a single request whose parameters refer to the client's own objects, answered
    as a stream of events; a single request for the protocol object; anything else.
  */
  datatype Kind = Garbled | Unsent | Streamed | Protocol | Other

  /** `hasClientRefsInValue`. */
  predicate HasClientRefs(v: Value)
    decreases v, 0
  {
    match v
    case Arr(items) => AnyClientRefs(items)
    case Rec(_, vals) => (IsRef(v) && RefId(v) != "") || AnyClientRefs(vals)
    case _ => false
  }

  predicate AnyClientRefs(vs: seq<Value>)
    decreases vs, 1
  {
    vs != [] && (HasClientRefs(vs[0]) || AnyClientRefs(vs[1..]))
  }

  /** The scan finds exactly the references that name something. */
  lemma {:induction false} ScanFindsReferences(v: Value)
    ensures HasClientRefs(v) <==> exists id :: id in Refs(v) && id != ""
    decreases v, 0
  {
    match v
    case Arr(items) => ScanFindsAny(items);
    case Rec(_, vals) =>
      ScanFindsAny(vals);
      if IsRef(v) {
        assert vals == [vals[0]] && RefsSeq(vals) == [];
        assert RefId(v) in Refs(v);
      }
    case _ =>
  }

  lemma {:induction false} ScanFindsAny(vs: seq<Value>)
    ensures AnyClientRefs(vs) <==> exists id :: id in RefsSeq(vs) && id != ""
    decreases vs, 1
  {
    if vs != [] {
      ScanFindsReferences(vs[0]);
      ScanFindsAny(vs[1..]);
      assert forall id :: id in RefsSeq(vs) <==> id in Refs(vs[0]) || id in RefsSeq(vs[1..]);
    }
  }

  function KindOf(decoded: bool, isBatch: bool, encodes: bool, protocolCall: bool, params: Value): Kind {
    if !decoded then Garbled
    else if isBatch then (if encodes then Other else Unsent)
    else if HasClientRefs(params) then Streamed
    else if protocolCall then Protocol
    else Other
  }

  /**
    One request: an existing session is touched when it is found, even if the body is
    garbled; a new one is kept if it was streamed to, asked for by a protocol call, or left
    with references. `table` is what the request left.
  */
  function Serve(s: Store, id: string, now: int, table: Table, kind: Kind): Store {
    if id in s.sessions
    then s.(sessions := s.sessions[id := Entry(now, if kind.Garbled? then s.sessions[id].table else table)])
    else if kind.Streamed? || kind.Protocol? || (kind.Other? && table.local != map[])
    then s.(sessions := s.sessions[id := Entry(now, table)])
    else s
  }

  /** A sweep keeps exactly the sessions idle no longer than their limit, unchanged, and empties the others. */
  lemma SweepIsExact(s: Store, now: int, ttl: int)
    ensures var s' := Sweep(s, now, ttl);
            && (forall id :: id in s'.sessions <==>
                  id in s.sessions && now - s.sessions[id].lastAccessed <=
                    if s.sessions[id].table.local == map[] && STATELESS_SESSION_TTL < ttl then STATELESS_SESSION_TTL else ttl)
            && (forall id | id in s'.sessions :: s'.sessions[id] == s.sessions[id])
            && (forall id | id in s.sessions && id !in s'.sessions ::
                  id in s'.retired && s'.retired[id].local == map[]
                  && s'.retired[id].disposed == s.sessions[id].table.disposed + multiset(s.sessions[id].table.local.Items))
            && (forall id | id in s.retired && id !in s.sessions :: id in s'.retired && s'.retired[id] == s.retired[id])
  {
  }

  function AsSet(ids: seq<string>): set<string> {
    set id | id in ids
  }

  class HTTPHandler {
    var sessions: map<string, Entry>
    var retired: map<string, Table>
    const sessionTTL: int

    constructor (ttl: int)
      ensures State() == Store(map[], map[]) && sessionTTL == ttl
    {
      sessions, retired, sessionTTL := map[], map[], ttl;
    }

    function State(): Store
      reads this
    {
      Store(sessions, retired)
    }

    method StoreSession(id: string, now: int, table: Table)
      modifies this
      ensures State() == old(State()).(sessions := old(sessions)[id := Entry(now, table)])
    {
      sessions := sessions[id := Entry(now, table)];
    }

    /**
      `ServeHTTP` as far as sessions go: find the session and touch it, or make a new one;
      stop at a body that does not decode; let the request leave its table; stop if a batch
      reply does not encode; store a new session if it is worth keeping.
    */
    method ServeRequest(clientSessionID: string, newId: string, now: int,
                        decoded: bool, isBatch: bool, encodes: bool, protocolCall: bool, params: Value, table: Table)
      returns (id: string, stored: bool)
      requires newId !in sessions
      modifies this
      ensures id == if clientSessionID != "" && clientSessionID in old(sessions) then clientSessionID else newId
      ensures State() == Serve(old(State()), id, now, table, KindOf(decoded, isBatch, encodes, protocolCall, params))
      ensures stored == (id in sessions)
    {
      var wasExisting := clientSessionID != "" && clientSessionID in sessions;
      id := if wasExisting then clientSessionID else newId;
      if wasExisting {
        sessions := sessions[id := sessions[id].(lastAccessed := now)];
      }
      stored := wasExisting;
      if !decoded {
        return;
      }
      if isBatch && !encodes {
        // the batch was handled, but nothing is sent and no new session stored
      } else if !isBatch && HasClientRefs(params) {
        if !wasExisting {
          StoreSession(id, now, table);
          stored := true;
        }
      } else if !wasExisting {
        var isProtocolMethod := !isBatch && protocolCall;
        var hasRefs := table.local != map[];
        if isProtocolMethod || hasRefs {
          StoreSession(id, now, table);
          stored := true;
        }
      }
      if wasExisting {
        sessions := sessions[id := sessions[id].(table := table)];
      }
    }

    method DisposeSession(id: string)
      requires id in sessions
      modifies this
      ensures State() == Retire(old(State()), {id})
    {
      retired := retired[id := Emptied(sessions[id].table)];
      sessions := sessions - {id};
    }

    method DeleteSession(id: string)
      modifies this
      ensures State() == if id in old(sessions) then Retire(old(State()), {id}) else old(State())
    {
      if id in sessions {
        DisposeSession(id);
      }
    }

    method FindExpired(now: int) returns (toDelete: seq<string>)
      ensures forall id :: id in toDelete <==> id in ExpiredIds(sessions, now, sessionTTL)
      ensures forall i, j | 0 <= i < j < |toDelete| :: toDelete[i] != toDelete[j]
    {
      toDelete := [];
      var todo := sessions.Keys;
      while todo != {}
        invariant todo <= sessions.Keys
        invariant forall id :: id in toDelete <==> id in sessions && id !in todo && Expired(sessions[id], now, sessionTTL)
        invariant forall i, j | 0 <= i < j < |toDelete| :: toDelete[i] != toDelete[j]
        decreases todo
      {
        var id :| id in todo;
        var ttl := sessionTTL;
        if sessions[id].table.local == map[] && STATELESS_SESSION_TTL < ttl {
          ttl := STATELESS_SESSION_TTL;
        }
        if now - sessions[id].lastAccessed > ttl {
          toDelete := toDelete + [id];
        }
        todo := todo - {id};
      }
    }

    /** The second loop. */
    method DeleteEach(toDelete: seq<string>)
      requires forall id | id in toDelete :: id in sessions
      requires forall i, j | 0 <= i < j < |toDelete| :: toDelete[i] != toDelete[j]
      modifies this
      ensures State() == Retire(old(State()), AsSet(toDelete))
    {
      hide Retire, Emptied;
      ghost var s := State();
      RetireNone(s);
      assert AsSet(toDelete[..0]) == {};
      for i := 0 to |toDelete|
        invariant AsSet(toDelete[..i]) <= s.sessions.Keys
        invariant State() == Retire(s, AsSet(toDelete[..i]))
      {
        OneMore(toDelete, i);
        assert toDelete[i] in s.sessions && toDelete[i] !in AsSet(toDelete[..i]);
        RetireOneMore(s, AsSet(toDelete[..i]), toDelete[i]);
        DisposeSession(toDelete[i]);
      }
      assert toDelete[..|toDelete|] == toDelete;
    }

    method CleanupExpiredSessions(now: int)
      modifies this
      ensures State() == Sweep(old(State()), now, sessionTTL)
    {
      var toDelete := FindExpired(now);
      DeleteEach(toDelete);
      assert AsSet(toDelete) == ExpiredIds(old(sessions), now, sessionTTL);
    }
  }

  lemma OneMore(ids: seq<string>, i: nat)
    requires i < |ids| && forall i, j | 0 <= i < j < |ids| :: ids[i] != ids[j]
    ensures ids[i] !in ids[..i] && AsSet(ids[..i + 1]) == AsSet(ids[..i]) + {ids[i]}
  {
  }

  lemma RetireNone(s: Store)
    ensures Retire(s, {}) == s
  {
  }

  /** Retiring, id by id. */
  lemma Retired(s: Store, ids: set<string>, id: string)
    requires ids <= s.sessions.Keys
    ensures var s' := Retire(s, ids);
            && (id in s'.sessions <==> id in s.sessions && id !in ids)
            && (id in s'.sessions ==> s'.sessions[id] == s.sessions[id])
            && (id in s'.retired <==> id in s.retired || id in ids)
            && (id in s'.retired ==> s'.retired[id] == if id in ids then Emptied(s.sessions[id].table) else s.retired[id])
  {
  }

  lemma SameStore(s: Store, t: Store)
    requires forall id :: id in s.sessions <==> id in t.sessions
    requires forall id | id in s.sessions :: s.sessions[id] == t.sessions[id]
    requires forall id :: id in s.retired <==> id in t.retired
    requires forall id | id in s.retired :: s.retired[id] == t.retired[id]
    ensures s == t
  {
  }

  lemma RetireOneMore(s: Store, ids: set<string>, id: string)
    requires ids <= s.sessions.Keys && id in s.sessions && id !in ids
    ensures id in Retire(s, ids).sessions && ids + {id} <= s.sessions.Keys
    ensures Retire(s, ids + {id}) == Retire(Retire(s, ids), {id})
  {
    hide Retire, Emptied;
    var s1 := Retire(s, ids);
    Retired(s, ids, id);
    var (one, two) := (Retire(s, ids + {id}), Retire(s1, {id}));
    forall jd ensures && (jd in one.sessions <==> jd in two.sessions) && (jd in one.retired <==> jd in two.retired)
                      && (jd in one.sessions ==> one.sessions[jd] == two.sessions[jd])
                      && (jd in one.retired ==> one.retired[jd] == two.retired[jd])
    {
      Retired(s, ids, jd);
      Retired(s, ids + {id}, jd);
      Retired(s1, {id}, jd);
    }
    SameStore(one, two);
  }

  // ----- runs -----

  datatype Event =
    | Request(id: string, now: int, table: Table, kind: Kind)
    | Delete(id: string)
    | Tick(now: int)

  function Step(s: Store, e: Event, ttl: int): Store {
    match e
    case Request(id, now, table, kind) => Serve(s, id, now, table, kind)
    case Delete(id) => if id in s.sessions then Retire(s, {id}) else s
    case Tick(now) => Sweep(s, now, ttl)
  }

  function Run(s: Store, es: seq<Event>, ttl: int): Store
    decreases es
  {
    if es == [] then s else Run(Step(s, es[0], ttl), es[1..], ttl)
  }

  /** What one session becomes through its own requests alone. */
  function Own(e: Entry, id: string, es: seq<Event>): Entry
    decreases es
  {
    if es == [] then e
    else
      Own(if es[0].Request? && es[0].id == id then Touched(e, es[0]) else e, id, es[1..])
  }

  function Touched(e: Entry, r: Event): Entry
    requires r.Request?
  {
    Entry(r.now, if r.kind.Garbled? then e.table else r.table)
  }

  /** Nobody deletes the session, and no sweep finds it idle for too long. */
  predicate Spared(e: Entry, id: string, es: seq<Event>, ttl: int)
    decreases es
  {
    if es == [] then true
    else
      match es[0]
      case Request(jd, _, _, _) => Spared(if jd == id then Touched(e, es[0]) else e, id, es[1..], ttl)
      case Delete(jd) => jd != id && Spared(e, id, es[1..], ttl)
      case Tick(now) => !Expired(e, now, ttl) && Spared(e, id, es[1..], ttl)
  }

  /** No request revives the id of a session that is gone: ids are never reused. */
  predicate NoneRevived(s: Store, id: string, es: seq<Event>, ttl: int)
    decreases es
  {
    if es == [] then true
    else
      && (es[0].Request? && es[0].id == id ==> id in s.sessions)
      && NoneRevived(Step(s, es[0], ttl), id, es[1..], ttl)
  }

  lemma {:induction false} StaysGone(s: Store, id: string, es: seq<Event>, ttl: int)
    requires id !in s.sessions && NoneRevived(s, id, es, ttl)
    ensures id !in Run(s, es, ttl).sessions
    decreases es
  {
    if es != [] {
      StaysGone(Step(s, es[0], ttl), id, es[1..], ttl);
    }
  }

  /**
    Over every run of requests to any sessions, deletions and sweeps: a session is still
    there at the end exactly when it was spared, and is then what its own requests made of it.
  */
  lemma {:induction false} SurvivesExactlyWhenSpared(s: Store, id: string, es: seq<Event>, ttl: int)
    requires id in s.sessions && NoneRevived(s, id, es, ttl)
    ensures id in Run(s, es, ttl).sessions <==> Spared(s.sessions[id], id, es, ttl)
    ensures id in Run(s, es, ttl).sessions ==> Run(s, es, ttl).sessions[id] == Own(s.sessions[id], id, es)
    decreases es
  {
    if es != [] {
      var s' := Step(s, es[0], ttl);
      if id in s'.sessions {
        SurvivesExactlyWhenSpared(s', id, es[1..], ttl);
      } else {
        StaysGone(s', id, es[1..], ttl);
      }
    }
  }

  // ----- from the first request on -----

  /** One request as it arrives, and the table it leaves. */
  datatype Incoming = Incoming(
    id: string, now: int, decoded: bool, isBatch: bool, encodes: bool, protocolCall: bool, params: Value, table: Table)

  function AsEvent(r: Incoming): Event {
    Request(r.id, r.now, r.table, KindOf(r.decoded, r.isBatch, r.encodes, r.protocolCall, r.params))
  }

  /**
    What makes a new session worth keeping: a body that decodes, and a single request that names one of the
    client's own references or calls the protocol object, or any request that leaves references
    behind, unless it is a batch whose reply does not encode.
  */
  predicate WorthKeeping(r: Incoming) {
    r.decoded &&
    (if r.isBatch then r.encodes && r.table.local != map[]
     else r.protocolCall || r.table.local != map[] || NamesAnObject(r.params))
  }

  predicate NamesAnObject(params: Value) {
    exists ref :: ref in Refs(params) && ref != ""
  }

  /** A request under an unknown id leaves a session, just accessed and with its own table, exactly when it is worth keeping; no other session is touched. */
  lemma NewSessionKept(s: Store, r: Incoming, ttl: int)
    requires r.id !in s.sessions
    ensures Step(s, AsEvent(r), ttl) == if WorthKeeping(r) then s.(sessions := s.sessions[r.id := Entry(r.now, r.table)]) else s
  {
    hide Refs, HasClientRefs;
    ScanFindsReferences(r.params);
    if HasClientRefs(r.params) {
      var ref :| ref in Refs(r.params) && ref != "";
      assert NamesAnObject(r.params);
    }
  }

  /** A request under a known id is an access, even if nothing of it decodes, and otherwise leaves its table there. */
  lemma KnownSessionTouched(s: Store, r: Incoming, ttl: int)
    requires r.id in s.sessions
    ensures Step(s, AsEvent(r), ttl) ==
            s.(sessions := s.sessions[r.id := Entry(r.now, if r.decoded then r.table else s.sessions[r.id].table)])
  {
  }

  /**
    The life of a session, from the request that might have created it through any run: it is there at
    the end exactly when that request was worth it and nothing since deleted it or found it
    idle for too long, and is then what its own requests made of it.
  */
  lemma LifeOfASession(s: Store, r: Incoming, es: seq<Event>, ttl: int)
    requires r.id !in s.sessions && NoneRevived(Step(s, AsEvent(r), ttl), r.id, es, ttl)
    ensures var (end, first) := (Run(s, [AsEvent(r)] + es, ttl), Entry(r.now, r.table));
            && (r.id in end.sessions <==> WorthKeeping(r) && Spared(first, r.id, es, ttl))
            && (r.id in end.sessions ==> end.sessions[r.id] == Own(first, r.id, es))
  {
    hide Step, WorthKeeping;
    NewSessionKept(s, r, ttl);
    var s' := Step(s, AsEvent(r), ttl);
    assert ([AsEvent(r)] + es)[1..] == es;
    if WorthKeeping(r) {
      SurvivesExactlyWhenSpared(s', r.id, es, ttl);
    } else {
      StaysGone(s', r.id, es, ttl);
    }
  }

  /** In particular one that leaves references and is then used often enough is never lost. */
  lemma TendedFromTheStart(s: Store, r: Incoming, es: seq<Event>, ttl: int)
    requires r.id !in s.sessions && NoneRevived(Step(s, AsEvent(r), ttl), r.id, es, ttl)
    requires r.decoded && (r.isBatch ==> r.encodes) && r.table.local != map[] && Tended(r.now, r.id, es, ttl)
    ensures r.id in Run(s, [AsEvent(r)] + es, ttl).sessions
  {
    LifeOfASession(s, r, es, ttl);
    TendedIsSpared(Entry(r.now, r.table), r.id, es, ttl);
  }

  /** Deleting a session disposes each of its references once, and touches no other session. */
  lemma DeletionIsExact(s: Store, id: string, ttl: int)
    ensures id !in s.sessions ==> Step(s, Delete(id), ttl) == s
    ensures id in s.sessions ==>
              var (s', t) := (Step(s, Delete(id), ttl), s.sessions[id].table);
              && s'.sessions == s.sessions - {id} && s'.retired.Keys == s.retired.Keys + {id}
              && s'.retired[id].local == map[] && s'.retired[id].remote == {}
              && s'.retired[id].disposed == t.disposed + multiset(t.local.Items)
              && (forall jd | jd in s.retired && jd != id :: s'.retired[jd] == s.retired[jd])
  {
  }

  /** Requests and sweeps keep coming at most a limit after the session's last request, which leaves it references. */
  predicate Tended(last: int, id: string, es: seq<Event>, ttl: int)
    decreases es
  {
    if es == [] then true
    else
      match es[0]
      case Request(jd, now, table, kind) =>
        if jd == id then (kind.Garbled? || table.local != map[]) && Tended(now, id, es[1..], ttl)
        else Tended(last, id, es[1..], ttl)
      case Delete(jd) => jd != id && Tended(last, id, es[1..], ttl)
      case Tick(now) => now - last <= ttl && Tended(last, id, es[1..], ttl)
  }

  /** A session that holds references and is used often enough survives every run of sweeps. */
  lemma {:induction false} TendedSessionsSurvive(s: Store, id: string, es: seq<Event>, ttl: int)
    requires id in s.sessions && s.sessions[id].table.local != map[] && NoneRevived(s, id, es, ttl)
    requires Tended(s.sessions[id].lastAccessed, id, es, ttl)
    ensures id in Run(s, es, ttl).sessions && Run(s, es, ttl).sessions[id] == Own(s.sessions[id], id, es)
  {
    TendedIsSpared(s.sessions[id], id, es, ttl);
    SurvivesExactlyWhenSpared(s, id, es, ttl);
  }

  lemma {:induction false} TendedIsSpared(e: Entry, id: string, es: seq<Event>, ttl: int)
    requires e.table.local != map[] && Tended(e.lastAccessed, id, es, ttl)
    ensures Spared(e, id, es, ttl)
    decreases es
  {
    if es != [] {
      var e' := if es[0].Request? && es[0].id == id then Touched(e, es[0]) else e;
      TendedIsSpared(e', id, es[1..], ttl);
    }
  }
}
