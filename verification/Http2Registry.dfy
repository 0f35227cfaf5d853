/**
  The HTTP/2 server's sessions and their connections
  (go/jsonrpc3/http2_server.go). Session entries and connections are numbered in
  the order they are created; a number stands for the pointer.
*/
module Http2Registry {
  import opened Basics
  import opened Values
  import opened Sessions
  import Expiry

  datatype Entry = Entry(id: string, table: Table, lastAccessed: int, conn: Option<nat>)

  /** `queued`: taken out of its entry, with a close under way. */
  datatype Conn = Conn(entry: nat, closed: bool, queued: bool)

  datatype Registry = Registry(sessions: map<string, nat>, entries: seq<Entry>, conns: seq<Conn>)

  const EMPTY: Registry := Registry(map[], [], [])

  predicate Registered(s: Registry, e: nat) {
    e < |s.entries| && s.entries[e].id in s.sessions && s.sessions[s.entries[e].id] == e
  }

  /** Indices are in range, a slot holds an open connection of its own entry, entry ids are distinct. */
  ghost predicate Valid(s: Registry) {
    && (forall id | id in s.sessions :: s.sessions[id] < |s.entries| && s.entries[s.sessions[id]].id == id)
    && (forall c | 0 <= c < |s.conns| :: s.conns[c].entry < |s.entries|)
    && (forall e | 0 <= e < |s.entries| && s.entries[e].conn.Some? ::
          var c := s.entries[e].conn.value;
          c < |s.conns| && s.conns[c] == Conn(e, false, false))
    && (forall e, f | 0 <= e < f < |s.entries| :: s.entries[e].id != s.entries[f].id)
  }

  predicate Live(s: Registry, c: nat) {
    c < |s.conns| && !s.conns[c].closed && !s.conns[c].queued
  }

  /** Take the connection out of its slot and send it to be closed. */
  function Detach(s: Registry, e: nat): Registry
    requires e < |s.entries|
  {
    match s.entries[e].conn
    case Some(c) =>
      s.(entries := s.entries[e := s.entries[e].(conn := None)],
         conns := if c < |s.conns| then s.conns[c := s.conns[c].(queued := true)] else s.conns)
    case None => s
  }

  /** `getOrCreateSession`; `newId` and `table` are what a new session would get. */
  function Acquire(s: Registry, sid: string, newId: string, table: Table, now: int): (Registry, nat)
    requires Valid(s)
  {
    if sid != "" && sid in s.sessions then
      var e := s.sessions[sid];
      (Detach(s.(entries := s.entries[e := s.entries[e].(lastAccessed := now)]), e), e)
    else
      (s.(sessions := s.sessions[newId := |s.entries|], entries := s.entries + [Entry(newId, table, now, None)]), |s.entries|)
  }

  /** A new connection takes the entry's slot, whatever was in it. */
  function Attach(s: Registry, e: nat): Registry
    requires e < |s.entries|
  {
    s.(entries := s.entries[e := s.entries[e].(conn := Some(|s.conns|))], conns := s.conns + [Conn(e, false, false)])
  }

  function CloseConn(s: Registry, c: nat): Registry
    requires Valid(s) && c < |s.conns|
  {
    if s.conns[c].closed then s
    else
      var e := s.conns[c].entry;
      s.(conns := s.conns[c := s.conns[c].(closed := true)],
         entries := if s.entries[e].conn == Some(c) then s.entries[e := s.entries[e].(conn := None)] else s.entries)
  }

  /** The sessions under these ids leave the registry, disposed, and their connections are sent to be closed. */
  function Remove(s: Registry, ids: set<string>): Registry
    requires Valid(s)
  {
    Registry(
      s.sessions - ids,
      seq(|s.entries|, e requires 0 <= e < |s.entries| =>
        if Registered(s, e) && s.entries[e].id in ids then s.entries[e].(table := Emptied(s.entries[e].table), conn := None)
        else s.entries[e]),
      seq(|s.conns|, c requires 0 <= c < |s.conns| =>
        if Holds(s, c) && s.entries[s.conns[c].entry].id in ids then s.conns[c].(queued := true) else s.conns[c]))
  }

  /** The connection is the one in its entry's slot, and the entry is registered. */
  predicate Holds(s: Registry, c: nat)
    requires c < |s.conns|
  {
    Registered(s, s.conns[c].entry) && s.entries[s.conns[c].entry].conn == Some(c)
  }

  predicate Expired(e: Entry, now: int) {
    now - e.lastAccessed > Expiry.Ttl(Expiry.DEFAULT_SESSION_TTL, e.table)
  }

  function ExpiredIds(s: Registry, now: int): set<string>
    requires Valid(s)
  {
    set id | id in s.sessions && Expired(s.entries[s.sessions[id]], now)
  }

  /** A request over connection c leaves its session's tables changed, and nothing else. */
  function Serve(s: Registry, c: nat, table: Table): Registry
    requires Valid(s) && c < |s.conns|
  {
    var e := s.conns[c].entry;
    s.(entries := s.entries[e := s.entries[e].(table := table)])
  }

  // ----- one connection per session -----

  /** Every live connection is the one its registered session knows. */
  ghost predicate OneEach(s: Registry) {
    forall c: nat | Live(s, c) :: s.conns[c].entry < |s.entries| && Holds(s, c)
  }

  /** No two live connections serve the same session. */
  lemma AtMostOneLive(s: Registry, c: nat, d: nat)
    requires Valid(s) && OneEach(s) && Live(s, c) && Live(s, d)
    requires s.entries[s.conns[c].entry].id == s.entries[s.conns[d].entry].id
    ensures c == d
  {
  }

  ghost predicate FreshId(s: Registry, id: string) {
    id != "" && id !in s.sessions && forall e | 0 <= e < |s.entries| :: s.entries[e].id != id
  }

  lemma AcquireValid(s: Registry, sid: string, newId: string, table: Table, now: int)
    requires Valid(s) && FreshId(s, newId)
    ensures var (t, e) := Acquire(s, sid, newId, table, now);
            && Valid(t) && Registered(t, e) && t.entries[e].conn == None
            && (OneEach(s) ==> OneEach(t))
  {
    if sid != "" && sid in s.sessions {
      var e := s.sessions[sid];
      var s1 := s.(entries := s.entries[e := s.entries[e].(lastAccessed := now)]);
      TouchValid(s, e, now);
      DetachValid(s1, e);
    } else {
      var t := Acquire(s, sid, newId, table, now).0;
      forall c: nat | OneEach(s) && Live(t, c) ensures t.conns[c].entry < |t.entries| && Holds(t, c) {
        assert Live(s, c) && Holds(s, c);
      }
    }
  }

  lemma TouchValid(s: Registry, e: nat, now: int)
    requires Valid(s) && e < |s.entries|
    ensures var t := s.(entries := s.entries[e := s.entries[e].(lastAccessed := now)]);
            Valid(t) && (OneEach(s) ==> OneEach(t)) && (Registered(s, e) ==> Registered(t, e))
  {
  }

  lemma DetachValid(s: Registry, e: nat)
    requires Valid(s) && e < |s.entries|
    ensures var t := Detach(s, e);
            && Valid(t) && (OneEach(s) ==> OneEach(t)) && (Registered(s, e) ==> Registered(t, e))
            && |t.entries| == |s.entries| && t.entries[e].conn == None
  {
  }

  /**
    Attaching in a step of its own: the rule survives exactly when the slot is empty and the
    session still registered at that moment.
  */
  lemma AttachSafeWhen(s: Registry, e: nat)
    requires Valid(s) && OneEach(s) && e < |s.entries|
    ensures Valid(Attach(s, e))
    ensures OneEach(Attach(s, e)) <==> s.entries[e].conn == None && Registered(s, e)
  {
    var t := Attach(s, e);
    assert Live(t, |s.conns|);
    if s.entries[e].conn.Some? {
      assert Live(t, s.entries[e].conn.value) && !Holds(t, s.entries[e].conn.value);
    } else {
      forall c: nat | c < |s.conns| && Live(t, c) ensures Holds(t, c) {
        assert Live(s, c) && Holds(s, c);
      }
    }
  }

  lemma CloseValid(s: Registry, c: nat)
    requires Valid(s) && c < |s.conns|
    ensures Valid(CloseConn(s, c)) && (OneEach(s) ==> OneEach(CloseConn(s, c)))
  {
  }

  lemma RemoveValid(s: Registry, ids: set<string>)
    requires Valid(s)
    ensures Valid(Remove(s, ids)) && (OneEach(s) ==> OneEach(Remove(s, ids)))
  {
  }

  lemma ServeValid(s: Registry, c: nat, table: Table)
    requires Valid(s) && c < |s.conns|
    ensures Valid(Serve(s, c, table)) && (OneEach(s) ==> OneEach(Serve(s, c, table)))
  {
  }

  datatype Event =
    | Connect(sid: string, newId: string, table: Table, now: int)
    | Close(c: nat)
    | Request(c: nat, table: Table)
    | Delete(sid: string)
    | Tick(now: int)
    | Shutdown

  ghost predicate Possible(s: Registry, e: Event) {
    match e
    case Connect(_, newId, _, _) => FreshId(s, newId)
    case Close(c) => c < |s.conns|
    case Request(c, _) => c < |s.conns|
    case _ => true
  }

  /** Finding the session and attaching the connection as one step. */
  ghost function Step(s: Registry, e: Event): Registry
    requires Valid(s) && Possible(s, e)
  {
    match e
    case Connect(sid, newId, table, now) =>
      AcquireValid(s, sid, newId, table, now);
      var (t, entry) := Acquire(s, sid, newId, table, now);
      Attach(t, entry)
    case Close(c) => CloseConn(s, c)
    case Request(c, table) => Serve(s, c, table)
    case Delete(sid) => Remove(s, {sid})
    case Tick(now) => Remove(s, ExpiredIds(s, now))
    case Shutdown => Remove(s, s.sessions.Keys)
  }

  lemma StepValid(s: Registry, e: Event)
    requires Valid(s) && Possible(s, e)
    ensures Valid(Step(s, e)) && (OneEach(s) ==> OneEach(Step(s, e)))
  {
    hide Valid, OneEach, Acquire, Attach, CloseConn, Serve, Remove;
    match e
    case Connect(sid, newId, table, now) => ConnectValid(s, sid, newId, table, now);
    case Close(c) => CloseValid(s, c);
    case Request(c, table) => ServeValid(s, c, table);
    case Delete(sid) => RemoveValid(s, {sid});
    case Tick(now) => RemoveValid(s, ExpiredIds(s, now));
    case Shutdown => RemoveValid(s, s.sessions.Keys);
  }

  lemma ConnectValid(s: Registry, sid: string, newId: string, table: Table, now: int)
    requires Valid(s) && FreshId(s, newId)
    ensures var (t, e) := Acquire(s, sid, newId, table, now);
            e < |t.entries| && Valid(Attach(t, e)) && (OneEach(s) ==> OneEach(Attach(t, e)))
  {
    hide Acquire, Attach;
    AcquireValid(s, sid, newId, table, now);
    var (t, e) := Acquire(s, sid, newId, table, now);
    AttachValid(t, e);
    if OneEach(s) {
      AttachSafeWhen(t, e);
    }
  }

  lemma AttachValid(s: Registry, e: nat)
    requires Valid(s) && e < |s.entries|
    ensures Valid(Attach(s, e))
  {
  }

  ghost predicate Runs(s: Registry, es: seq<Event>)
    requires Valid(s)
    decreases es
  {
    es == [] || (Possible(s, es[0]) && (StepValid(s, es[0]); Runs(Step(s, es[0]), es[1..])))
  }

  ghost function Final(s: Registry, es: seq<Event>): (r: Registry)
    requires Valid(s) && Runs(s, es)
    ensures Valid(r)
    decreases es
  {
    if es == [] then s
    else
      StepValid(s, es[0]);
      Final(Step(s, es[0]), es[1..])
  }

  lemma {:induction false} OneEachThroughout(s: Registry, es: seq<Event>)
    requires Valid(s) && OneEach(s) && Runs(s, es)
    ensures OneEach(Final(s, es))
    decreases es
  {
    hide Valid, OneEach, Step, Possible;
    if es != [] {
      StepValid(s, es[0]);
      OneEachThroughout(Step(s, es[0]), es[1..]);
    }
  }

  /**
    One connection per session, over every run of connects, closes in any order, requests,
    deletions, sweeps and shutdowns: no two live connections belong to the same session, and
    each serves a session that is still registered.
  */
  lemma OneConnectionPerSession(es: seq<Event>, c: nat, d: nat)
    requires Runs(EMPTY, es) && Live(Final(EMPTY, es), c) && Live(Final(EMPTY, es), d)
    ensures var s := Final(EMPTY, es);
            && Holds(s, c)
            && (s.entries[s.conns[c].entry].id == s.entries[s.conns[d].entry].id ==> c == d)
  {
    OneEachThroughout(EMPTY, es);
    var s := Final(EMPTY, es);
    if s.entries[s.conns[c].entry].id == s.entries[s.conns[d].entry].id {
      AtMostOneLive(s, c, d);
    }
  }

  // ----- closing -----

  /** No close of a connection touches any session's tables or registration; a superseded one does not even empty the slot. */
  lemma CloseKeepsSessions(s: Registry, c: nat)
    requires Valid(s) && c < |s.conns|
    ensures var t := CloseConn(s, c);
            && t.sessions == s.sessions && |t.entries| == |s.entries|
            && (forall e | 0 <= e < |s.entries| :: t.entries[e].(conn := None) == s.entries[e].(conn := None))
            && (forall e | 0 <= e < |s.entries| && s.entries[e].conn != Some(c) :: t.entries[e] == s.entries[e])
            && (s.conns[c].queued ==> t.entries == s.entries)
  {
  }

  /** Afterwards the connection is closed and out of its slot, and no other connection has changed. */
  lemma CloseCloses(s: Registry, c: nat)
    requires Valid(s) && c < |s.conns|
    ensures var t := Step(s, Close(c));
            && |t.conns| == |s.conns| && t.conns[c].closed && t.entries[t.conns[c].entry].conn != Some(c)
            && (forall d | 0 <= d < |s.conns| && d != c :: t.conns[d] == s.conns[d])
  {
  }

  // ----- connecting and leaving -----

  /**
    Connecting under a registered id leads to that session: its tables are as they were, its idle time
    starts again, the connection it had is sent to be closed, and no other session or connection is touched.
  */
  lemma ReconnectFinds(s: Registry, sid: string, newId: string, table: Table, now: int)
    requires Valid(s) && FreshId(s, newId) && sid != "" && sid in s.sessions
    ensures var (t, e, c) := (Step(s, Connect(sid, newId, table, now)), s.sessions[sid], |s.conns|);
            && t.sessions == s.sessions && |t.entries| == |s.entries| && |t.conns| == c + 1
            && t.entries[e] == Entry(sid, s.entries[e].table, now, Some(c)) && t.conns[c] == Conn(e, false, false)
            && (forall f | 0 <= f < |s.entries| && f != e :: t.entries[f] == s.entries[f])
            && (forall d | 0 <= d < c :: t.conns[d] == if s.entries[e].conn == Some(d) then s.conns[d].(queued := true) else s.conns[d])
  {
    hide FreshId;
    AcquireValid(s, sid, newId, table, now);
  }

  /** Connecting under any other id, or under none, registers a new session and touches no other. */
  lemma ConnectCreates(s: Registry, sid: string, newId: string, table: Table, now: int)
    requires Valid(s) && FreshId(s, newId) && (sid == "" || sid !in s.sessions)
    ensures var (t, e, c) := (Step(s, Connect(sid, newId, table, now)), |s.entries|, |s.conns|);
            && newId !in s.sessions && t.sessions == s.sessions[newId := e]
            && t.entries == s.entries + [Entry(newId, table, now, Some(c))] && t.conns == s.conns + [Conn(e, false, false)]
  {
  }

  /** A request leaves its session with the table it made, and everything else alone. */
  lemma RequestLeavesItsTable(s: Registry, c: nat, table: Table)
    requires Valid(s) && c < |s.conns|
    ensures var (t, e) := (Step(s, Request(c, table)), s.conns[c].entry);
            && t.sessions == s.sessions && t.conns == s.conns && |t.entries| == |s.entries|
            && t.entries[e].table == table && t.entries[e].(table := s.entries[e].table) == s.entries[e]
            && (forall f | 0 <= f < |s.entries| && f != e :: t.entries[f] == s.entries[f])
  {
  }

  /** The session is gone, each of its references disposed once, its connection sent to be closed. */
  ghost predicate LeavesDisposed(s: Registry, t: Registry, id: string)
    requires Valid(s) && id in s.sessions
  {
    var (e, was) := (s.sessions[id], s.entries[s.sessions[id]]);
    && id !in t.sessions && |t.entries| == |s.entries| && |t.conns| == |s.conns|
    && t.entries[e].conn == None && t.entries[e].table.local == map[] && t.entries[e].table.remote == {}
    && t.entries[e].table.disposed == was.table.disposed + multiset(was.table.local.Items)
    && (was.conn.Some? ==> t.conns[was.conn.value].queued)
  }

  /** A session is as it was, and so is its connection. */
  ghost predicate IsKept(s: Registry, t: Registry, id: string)
    requires Valid(s) && id in s.sessions
  {
    var (e, was) := (s.sessions[id], s.entries[s.sessions[id]]);
    && id in t.sessions && t.sessions[id] == e && |t.entries| == |s.entries| && |t.conns| == |s.conns|
    && t.entries[e] == was
    && (was.conn.Some? ==> t.conns[was.conn.value] == s.conns[was.conn.value])
  }

  lemma RemoveIsExact(s: Registry, ids: set<string>, id: string)
    requires Valid(s) && id in s.sessions
    ensures if id in ids then LeavesDisposed(s, Remove(s, ids), id) else IsKept(s, Remove(s, ids), id)
    ensures Remove(s, ids).sessions.Keys == s.sessions.Keys - ids
  {
  }

  /** A deletion removes that session and keeps every other; a shutdown removes them all. */
  lemma DeletionAndShutdown(s: Registry, sid: string, id: string)
    requires Valid(s) && id in s.sessions
    ensures if id == sid then LeavesDisposed(s, Step(s, Delete(sid)), id) else IsKept(s, Step(s, Delete(sid)), id)
    ensures LeavesDisposed(s, Step(s, Shutdown), id) && Step(s, Shutdown).sessions == map[]
  {
    hide LeavesDisposed, IsKept, Valid, Remove;
    RemoveIsExact(s, {sid}, id);
    RemoveIsExact(s, s.sessions.Keys, id);
    assert Step(s, Shutdown).sessions.Keys == {};
  }

  // ----- what goes wrong when attaching is a step of its own -----

  /** Two requests for one session, each finding it before either attaches: both connections stay live. */
  lemma TwoAttachBoth(s: Registry, sid: string, newId: string, table: Table, now: int)
    requires Valid(s) && FreshId(s, newId) && sid != "" && sid in s.sessions
    ensures var (s1, e1) := Acquire(s, sid, newId, table, now);
            Valid(s1) && e1 < |s1.entries|
    ensures var (s1, e1) := Acquire(s, sid, newId, table, now);
            var (s2, e2) := Acquire(s1, sid, newId, table, now);
            && e1 == e2 < |s2.entries|
            && var s4 := Attach(Attach(s2, e1), e2);
               Live(s4, |s.conns|) && Live(s4, |s.conns| + 1)
               && s4.conns[|s.conns|].entry == s4.conns[|s.conns| + 1].entry
  {
    AcquireValid(s, sid, newId, table, now);
  }

  /** Live on a session that is no longer registered. */
  predicate Stray(s: Registry, c: nat) {
    Live(s, c) && s.conns[c].entry < |s.entries| && !Registered(s, s.conns[c].entry)
  }

  /** A session deleted between being found and being attached to leaves a stray connection. */
  lemma DeletedInBetween(s: Registry, sid: string, newId: string, table: Table, now: int)
    requires Valid(s) && FreshId(s, newId) && sid != "" && sid in s.sessions
    ensures var (s1, e) := Acquire(s, sid, newId, table, now);
            Valid(s1) && e < |Remove(s1, {sid}).entries|
            && Stray(Attach(Remove(s1, {sid}), e), |s.conns|)
  {
    AcquireValid(s, sid, newId, table, now);
  }

  lemma StrayStays(s: Registry, e: Event, c: nat)
    requires Valid(s) && Possible(s, e) && Stray(s, c) && e != Close(c)
    ensures Stray(Step(s, e), c)
  {
  }

  /** Nothing the server does closes a stray connection: no deletion, no sweep, not even its shutdown. */
  lemma {:induction false} StrayForEver(s: Registry, es: seq<Event>, c: nat)
    requires Valid(s) && Runs(s, es) && Stray(s, c) && forall i | 0 <= i < |es| :: es[i] != Close(c)
    ensures Stray(Final(s, es), c)
    decreases es
  {
    hide Valid, Stray, Step, Possible;
    if es != [] {
      StepValid(s, es[0]);
      StrayStays(s, es[0], c);
      assert forall i | 0 <= i < |es[1..]| :: es[1..][i] == es[i + 1];
      StrayForEver(Step(s, es[0]), es[1..], c);
    }
  }

  // ----- expiry -----

  lemma {:induction false} RequestsDoNotTouch(s: Registry, es: seq<Event>, e: nat)
    requires Valid(s) && Runs(s, es) && e < |s.entries| && forall i | 0 <= i < |es| :: es[i].Request?
    ensures var t := Final(s, es);
            && t.sessions == s.sessions && t.conns == s.conns && |t.entries| == |s.entries|
            && t.entries[e].(table := s.entries[e].table) == s.entries[e]
    decreases es
  {
    if es != [] {
      StepValid(s, es[0]);
      assert forall i | 0 <= i < |es[1..]| :: es[1..][i] == es[i + 1];
      RequestsDoNotTouch(Step(s, es[0]), es[1..], e);
    }
  }

  /**
    Only connecting counts as access: however busy its connection has been, a session is
    removed and its connection closed by the first sweep more than the limit after it connected.
  */
  lemma BusyConnectionExpires(s: Registry, es: seq<Event>, c: nat, now: int)
    requires Valid(s) && Runs(s, es) && (forall i | 0 <= i < |es| :: es[i].Request?)
    requires c < |s.conns| && Holds(s, c) && now - s.entries[s.conns[c].entry].lastAccessed > Expiry.DEFAULT_SESSION_TTL
    ensures var t := Step(Final(s, es), Tick(now));
            c < |t.conns| && t.conns[c].queued && s.entries[s.conns[c].entry].id !in t.sessions
  {
    hide Valid, Remove, Emptied;
    RequestsDoNotTouch(s, es, s.conns[c].entry);
    SweepIsExact(Final(s, es), now, s.entries[s.conns[c].entry].id);
  }

  /**
    A sweep removes exactly the sessions idle for more than five minutes, or thirty seconds if they have no
    local references, disposes all their references, and leaves the others as they were.
  */
  lemma SweepIsExact(s: Registry, now: int, id: string)
    requires Valid(s) && id in s.sessions
    ensures var (t, e) := (Step(s, Tick(now)), s.entries[s.sessions[id]]);
            if now - e.lastAccessed > (if e.table.local == map[] then 30_000_000_000 else 300_000_000_000)
            then LeavesDisposed(s, t, id) else IsKept(s, t, id)
    ensures Step(s, Tick(now)).sessions.Keys <= s.sessions.Keys
  {
    hide LeavesDisposed, IsKept, Valid, Remove;
    RemoveIsExact(s, ExpiredIds(s, now), id);
  }

  /** The server object. */
  class HTTP2Server {
    var sessions: map<string, nat>
    var entries: seq<Entry>
    var conns: seq<Conn>

    constructor ()
      ensures State() == EMPTY && Valid(State())
    {
      sessions, entries, conns := map[], [], [];
    }

    function State(): Registry
      reads this
    {
      Registry(sessions, entries, conns)
    }

    method DetachConn(e: nat)
      requires Valid(State()) && e < |entries|
      modifies this
      ensures State() == Detach(old(State()), e)
    {
      if entries[e].conn.Some? {
        var oldConn := entries[e].conn.value;
        entries := entries[e := entries[e].(conn := None)];
        conns := conns[oldConn := conns[oldConn].(queued := true)];
      }
    }

    method GetOrCreateSession(clientSessionID: string, newId: string, table: Table, now: int) returns (e: nat, existed: bool)
      requires Valid(State()) && FreshId(State(), newId)
      modifies this
      ensures (State(), e) == Acquire(old(State()), clientSessionID, newId, table, now)
      ensures existed == (clientSessionID != "" && clientSessionID in old(sessions))
      ensures Valid(State())
    {
      AcquireValid(State(), clientSessionID, newId, table, now);
      if clientSessionID != "" && clientSessionID in sessions {
        e := sessions[clientSessionID];
        entries := entries[e := entries[e].(lastAccessed := now)];
        DetachConn(e);
        return e, true;
      }
      e, existed := |entries|, false;
      entries := entries + [Entry(newId, table, now, None)];
      sessions := sessions[newId := e];
    }

    method AttachConn(e: nat) returns (c: nat)
      requires Valid(State()) && e < |entries|
      modifies this
      ensures State() == Attach(old(State()), e) && c == old(|conns|) && Valid(State())
    {
      AttachValid(State(), e);
      c := |conns|;
      conns := conns + [Conn(e, false, false)];
      entries := entries[e := entries[e].(conn := Some(c))];
    }

    method CloseConnection(c: nat)
      requires Valid(State()) && c < |conns|
      modifies this
      ensures State() == CloseConn(old(State()), c) && Valid(State())
    {
      CloseValid(State(), c);
      if conns[c].closed {
        return;
      }
      conns := conns[c := conns[c].(closed := true)];
      var e := conns[c].entry;
      if entries[e].conn == Some(c) {
        entries := entries[e := entries[e].(conn := None)];
      }
    }

    method RemoveSession(id: string)
      requires Valid(State()) && id in sessions
      modifies this
      ensures State() == Remove(old(State()), {id}) && Valid(State())
    {
      RemoveValid(State(), {id});
      ghost var s := State();
      var e := sessions[id];
      DetachConn(e);
      entries := entries[e := entries[e].(table := Emptied(entries[e].table))];
      sessions := sessions - {id};
      RemoveOneIs(s, id);
    }

    method HandleDeleteSession(sessionID: string)
      requires Valid(State())
      modifies this
      ensures State() == Remove(old(State()), {sessionID}) && Valid(State())
    {
      if sessionID in sessions {
        RemoveSession(sessionID);
      } else {
        RemoveNothing(State(), sessionID);
      }
    }

    method CleanupExpiredSessions(now: int)
      requires Valid(State())
      modifies this
      ensures State() == Remove(old(State()), ExpiredIds(old(State()), now)) && Valid(State())
    {
      ghost var s, done: set<string> := State(), {};
      var todo := sessions.Keys;
      RemoveNone(s);
      hide Remove;
      while todo != {}
        invariant Valid(State()) && Valid(s) && todo <= s.sessions.Keys
        invariant done == set id | id in s.sessions && id !in todo && Expired(s.entries[s.sessions[id]], now)
        invariant State() == Remove(s, done)
        decreases todo
      {
        var id :| id in todo;
        Untouched(s, done, id);
        RemoveOneMore(s, done, id);
        if Expired(entries[sessions[id]], now) {
          RemoveSession(id);
          done := done + {id};
        }
        todo := todo - {id};
      }
      assert done == ExpiredIds(s, now);
    }

    method CloseServer()
      requires Valid(State())
      modifies this
      ensures State() == Remove(old(State()), old(sessions).Keys) && Valid(State())
    {
      hide Remove, Valid;
      ghost var s, done: set<string> := State(), {};
      var todo := sessions.Keys;
      RemoveNone(s);
      while todo != {}
        invariant Valid(State()) && Valid(s) && todo <= s.sessions.Keys
        invariant done == s.sessions.Keys - todo
        invariant State() == Remove(s, done)
        decreases todo
      {
        var id :| id in todo;
        Untouched(s, done, id);
        RemoveOneMore(s, done, id);
        RemoveSession(id);
        done := done + {id};
        todo := todo - {id};
      }
      assert done == s.sessions.Keys;
    }
  }

  lemma RemoveOneIs(s: Registry, id: string)
    requires Valid(s) && id in s.sessions
    ensures var e := s.sessions[id];
            var t := Detach(s, e);
            Remove(s, {id}) == t.(entries := t.entries[e := t.entries[e].(table := Emptied(t.entries[e].table))], sessions := s.sessions - {id})
  {
  }

  lemma RemoveNothing(s: Registry, id: string)
    requires Valid(s) && id !in s.sessions
    ensures Remove(s, {id}) == s
  {
  }

  lemma RemoveNone(s: Registry)
    requires Valid(s)
    ensures Remove(s, {}) == s
  {
  }

  /** A session is not touched by the removal of others. */
  lemma Untouched(s: Registry, ids: set<string>, id: string)
    requires Valid(s) && id in s.sessions && id !in ids
    ensures var t := Remove(s, ids);
            && Valid(t) && id in t.sessions && t.sessions[id] == s.sessions[id]
            && t.entries[t.sessions[id]] == s.entries[s.sessions[id]]
  {
    hide Valid, Remove;
    RemoveValid(s, ids);
    RemoveIsExact(s, ids, id);
  }

  lemma RemoveEntries(s: Registry, ids: set<string>, id: string)
    requires Valid(s) && Valid(Remove(s, ids)) && id in s.sessions && id !in ids
    ensures Remove(Remove(s, ids), {id}).entries == Remove(s, ids + {id}).entries
  {
    hide Emptied, Valid;
    var t := Remove(s, ids);
    var (one, two) := (Remove(t, {id}), Remove(s, ids + {id}));
    forall e | 0 <= e < |s.entries| ensures one.entries[e] == two.entries[e] {
      assert Registered(t, e) <==> Registered(s, e) && s.entries[e].id !in ids;
    }
  }

  lemma RemoveConns(s: Registry, ids: set<string>, id: string)
    requires Valid(s) && Valid(Remove(s, ids)) && id in s.sessions && id !in ids
    ensures Remove(Remove(s, ids), {id}).conns == Remove(s, ids + {id}).conns
  {
    hide Emptied;
    var t := Remove(s, ids);
    var (one, two) := (Remove(t, {id}), Remove(s, ids + {id}));
    forall c | 0 <= c < |s.conns| ensures one.conns[c] == two.conns[c] {
      assert Holds(t, c) <==> Holds(s, c) && s.entries[s.conns[c].entry].id !in ids;
    }
  }

  lemma RemoveSessions(s: Registry, ids: set<string>, id: string)
    requires Valid(s) && Valid(Remove(s, ids))
    ensures Remove(Remove(s, ids), {id}).sessions == Remove(s, ids + {id}).sessions
  {
    hide Emptied, Valid;
  }

  /** Removing sessions one by one. */
  lemma RemoveOneMore(s: Registry, ids: set<string>, id: string)
    requires Valid(s) && id in s.sessions && id !in ids
    ensures Valid(Remove(s, ids)) && Remove(Remove(s, ids), {id}) == Remove(s, ids + {id})
  {
    hide Remove, Valid;
    RemoveValid(s, ids);
    RemoveSessions(s, ids, id);
    RemoveEntries(s, ids, id);
    RemoveConns(s, ids, id);
  }
}
