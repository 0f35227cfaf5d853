/** The session's own methods, called on `$rpc` (go/jsonrpc3/protocol.go): disposal of references. */
module Protocol {
  import opened Basics
  import opened Text
  import opened Values
  import opened Sessions
  import opened Messages

  const TRUE: Value := Prim(1)

  /** `dispose`: the local table first, then the remote one. None stands for parameters that do not decode. */
  function Dispose(ref: Option<string>, t: Table): (Table, Outcome) {
    if ref.None? || ref.value == "" then (t, Fail(INVALID_PARAMS))
    else if ref.value in t.local then (Unbind(t, ref.value), Done(TRUE))
    else if ref.value in t.remote then (Forget(t, ref.value), Done(TRUE))
    else (t, Fail(REFERENCE_NOT_FOUND))
  }

  function CountsResult(localCount: nat, remoteCount: nat): Value {
    Rec(["local_count", "remote_count"], [Prim(localCount), Prim(remoteCount)])
  }

  function DisposeAllCall(t: Table): (Table, Outcome) {
    (Emptied(t), Done(CountsResult(|t.local|, |t.remote|)))
  }

  /** The methods of `$rpc`. Decoding the `ref` parameter and the methods that only report are left open. */
  function CallMethod(decode: Value -> Option<string>, report: (string, Value, Table) -> Outcome): (string, Value, Table) -> (Table, Outcome) {
    (name: string, params: Value, t: Table) =>
      if name == "dispose" then Dispose(decode(params), t)
      else if name == "dispose_all" then DisposeAllCall(t)
      else if name in ["session_id", "list_refs", "ref_info", "mimetypes", "capabilities"] then (t, report(name, params, t))
      else (t, Fail(METHOD_NOT_FOUND))
  }

  class ProtocolHandler {
    const session: Session

    constructor (session: Session)
      ensures this.session == session
    {
      this.session := session;
    }

    method HandleDispose(ref: Option<string>) returns (out: Outcome)
      modifies session
      ensures (session.State(), out) == Dispose(ref, old(session.State()))
    {
      if ref.None? || ref.value == "" {
        return Fail(INVALID_PARAMS);
      }
      var removed := session.RemoveLocalRef(ref.value);
      if !removed {
        removed := session.RemoveRemoteRef(ref.value);
      }
      if !removed {
        assert session.State() == old(session.State());
        return Fail(REFERENCE_NOT_FOUND);
      }
      return Done(TRUE);
    }

    method HandleDisposeAll() returns (out: Outcome)
      modifies session
      ensures (session.State(), out) == DisposeAllCall(old(session.State()))
    {
      var localCount, remoteCount := session.DisposeAll();
      return Done(CountsResult(localCount, remoteCount));
    }
  }

  /** Parameters that do not decode, or name nothing, change nothing and are reported as invalid. */
  lemma BadParamsChangeNothing(t: Table)
    ensures Dispose(None, t) == Dispose(Some(""), t) == (t, Fail(-32602))
  {
  }

  /** `dispose_all` empties both tables, disposes every object once, and says how many references of either kind there were. */
  lemma DisposeAllReports(t: Table)
    ensures var (t', out) := DisposeAllCall(t);
            && t'.local == map[] && t'.remote == {} && t'.disposed == t.disposed + multiset(t.local.Items)
            && out.Done? && out.v.Rec? && |out.v.keys| == 2
            && Lookup(out.v.keys, out.v.vals, "local_count") == Some(Prim(|t.local|))
            && Lookup(out.v.keys, out.v.vals, "remote_count") == Some(Prim(|t.remote|))
  {
    var out := DisposeAllCall(t).1;
    assert WellKeyed(out.v.keys, out.v.vals) && out.v.keys[0] == "local_count" && out.v.keys[1] == "remote_count";
    LookupFinds(out.v.keys, out.v.vals, "local_count");
    LookupFinds(out.v.keys, out.v.vals, "remote_count");
  }

  /** Of the methods of `$rpc` only the two that dispose change anything, and any other name is refused. */
  lemma OnlyDisposalChanges(decode: Value -> Option<string>, report: (string, Value, Table) -> Outcome, name: string, params: Value, t: Table)
    ensures name !in ["dispose", "dispose_all"] ==> CallMethod(decode, report)(name, params, t).0 == t
    ensures name !in ["dispose", "dispose_all", "session_id", "list_refs", "ref_info", "mimetypes", "capabilities"] ==>
              CallMethod(decode, report)(name, params, t).1 == Fail(-32601)
  {
  }

  /** Disposing a list of references, one call each. */
  function DisposeEach(refs: seq<string>, t: Table): (r: (Table, seq<Outcome>))
    ensures |r.1| == |refs|
    decreases refs
  {
    if refs == [] then (t, [])
    else
      var (t1, out) := Dispose(Some(refs[0]), t);
      var (t2, outs) := DisposeEach(refs[1..], t1);
      (t2, [out] + outs)
  }

  lemma EmptiedAfterUnbind(t: Table, ref: string)
    ensures Emptied(Unbind(t, ref)) == Emptied(t)
  {
    if ref in t.local {
      UnbindItems(t.local, ref);
    }
  }

  /** The two tables together, an id in both counted twice. */
  function Entries(t: Table): multiset<string> {
    multiset(t.local.Keys) + multiset(t.remote)
  }

  /** A call of `dispose` takes exactly one entry away, if there is one; only then does it succeed. */
  lemma DisposeTakesOne(ref: string, t: Table)
    requires ref != ""
    ensures var (t', out) := Dispose(Some(ref), t);
            && (ref in Entries(t) ==> out == Done(TRUE) && Entries(t) == Entries(t') + multiset{ref})
            && (ref !in Entries(t) ==> out == Fail(REFERENCE_NOT_FOUND) && t' == t)
            && Emptied(t') == Emptied(t)
  {
    EmptiedAfterUnbind(t, ref);
    var t' := Dispose(Some(ref), t).0;
    if ref in t.local {
      assert t'.local.Keys == t.local.Keys - {ref};
    }
  }

  /**
    Disposing every entry one by one, in any order, succeeds each time and ends where
    `dispose_all` does: the same tables, every object disposed once.
  */
  lemma {:induction false} DisposeEachIsDisposeAll(refs: seq<string>, t: Table)
    requires multiset(refs) == Entries(t) && "" !in refs
    ensures DisposeEach(refs, t).0 == DisposeAllCall(t).0
    ensures forall out | out in DisposeEach(refs, t).1 :: out == Done(TRUE)
    decreases refs
  {
    if refs == [] {
      forall ref ensures ref !in t.local.Keys && ref !in t.remote {
        assert Entries(t)[ref] == multiset(refs)[ref];
      }
      assert t.local.Keys == {} && t.remote == {};
      assert t.local == map[];
    } else {
      var t1 := Dispose(Some(refs[0]), t).0;
      assert refs == [refs[0]] + refs[1..];
      assert refs[0] in multiset(refs);
      DisposeTakesOne(refs[0], t);
      forall s ensures multiset(refs[1..])[s] == Entries(t1)[s] {
        assert multiset(refs)[s] == multiset{refs[0]}[s] + multiset(refs[1..])[s];
      }
      DisposeEachIsDisposeAll(refs[1..], t1);
    }
  }

  /** How often `dispose` of one id can succeed before it reports the reference unknown: once for each table that has it. */
  lemma DisposeTwice(ref: string, t: Table)
    requires ref != ""
    ensures var outs := DisposeEach([ref, ref, ref], t).1;
            && outs[0].Done? == (ref in t.local || ref in t.remote)
            && outs[1].Done? == (ref in t.local && ref in t.remote)
            && outs[2] == Fail(REFERENCE_NOT_FOUND)
  {
    var t1 := Dispose(Some(ref), t).0;
    var t2 := Dispose(Some(ref), t1).0;
    assert [ref, ref, ref][1..] == [ref, ref] && [ref, ref][1..] == [ref] && [ref][1..] == [];
    assert DisposeEach([ref], t2).1 == [Dispose(Some(ref), t2).1];
    assert DisposeEach([ref, ref], t1).1 == [Dispose(Some(ref), t1).1] + DisposeEach([ref], t2).1;
    assert DisposeEach([ref, ref, ref], t).1 == [Dispose(Some(ref), t).1] + DisposeEach([ref, ref], t1).1;
  }

  /** A dispose call through a request removes the binding and disposes its object; the next call through it fails. */
  lemma DisposedIsUnreachable<W>(srv: Server<W>, decode: Value -> Option<string>, report: (string, Value, Table) -> Outcome,
                                 st: State<W>, ref: string, params: Value, name: string, args: Value)
    requires srv.protocol == CallMethod(decode, report) && decode(params) == Some(ref) && ref in st.table.local
    requires ref != "" && ref != RPC_REF
    ensures var (st', out) := Call(srv, RPC_REF, "dispose", params, st);
            && out == Done(TRUE) && (ref, st.table.local[ref]) in st'.table.disposed
            && Call(srv, ref, name, args, st') == (st', Fail(REFERENCE_NOT_FOUND))
  {
    assert srv.protocol("dispose", params, st.table) == Dispose(Some(ref), st.table);
  }

  /**
    And it stays so: whatever registrations under generated ids, removals and disposals
    follow, calls through a generated reference that was disposed fail with
    reference-not-found, unless its id is registered by hand.
  */
  lemma DisposedForEver<W>(srv: Server<W>, st: State<W>, k: nat, ops: seq<Op>, name: string, args: Value, world: W)
    requires var ref := Mint(st.table.prefix, k);
             && k <= st.table.counter && ref in st.table.local && ref != "" && ref != RPC_REF
             && forall i | 0 <= i < |ops| :: !(ops[i].Explicit? && ops[i].ref == ref)
    ensures var ref := Mint(st.table.prefix, k);
            var after := Run(ops, Ledger(Dispose(Some(ref), st.table).0, multiset{}, multiset{})).table;
            Call(srv, ref, name, args, State(world, after)) == (State(world, after), Fail(REFERENCE_NOT_FOUND))
  {
    hide Mint;
    var ref := Mint(st.table.prefix, k);
    var t := Dispose(Some(ref), st.table).0;
    MintedIsSpent(t, k);
    SpentForEver(ops, Ledger(t, multiset{}, multiset{}), ref);
  }
}
