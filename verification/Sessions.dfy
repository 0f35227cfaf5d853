/**
  A session's two reference tables: generated identifiers, registration,
  removal and disposal.
*/
module Sessions {
  import opened Text
  import opened Values

  /** A reference id together with the object it is bound to. */
  type Binding = (string, ObjId)

  /**
    The abstract content of a session. `disposed` records every call of an
    object's Dispose or Close, with the binding that was being removed.
  */
  datatype Table = Table(
    prefix: string,
    counter: nat,
    local: map<string, ObjId>,
    remote: set<string>,
    disposed: multiset<Binding>)

  /** No id the session can still generate is taken. */
  ghost predicate FreshAbove(t: Table) {
    forall n: nat | n > t.counter :: Mint(t.prefix, n) !in t.local
  }

  /** Bind under an explicit id; an earlier binding is silently replaced. */
  function Bind(t: Table, ref: string, o: ObjId): Table {
    t.(local := t.local[ref := o])
  }

  /** Bind under the next generated id. */
  function Register(t: Table, o: ObjId): (r: (string, Table))
    ensures r.0 == Mint(t.prefix, t.counter + 1)
  {
    var id := Mint(t.prefix, t.counter + 1);
    (id, Bind(t.(counter := t.counter + 1), id, o))
  }

  function Unbind(t: Table, ref: string): Table {
    if ref in t.local then
      t.(local := t.local - {ref}, disposed := t.disposed + multiset{(ref, t.local[ref])})
    else t
  }

  function Forget(t: Table, ref: string): Table {
    t.(remote := t.remote - {ref})
  }

  function Emptied(t: Table): Table {
    t.(local := map[], remote := {}, disposed := t.disposed + multiset(t.local.Items))
  }

  class Session {
    var prefix: string
    var localRefs: map<string, ObjId>
    var remoteRefs: set<string>
    var refCounter: nat
    var disposals: multiset<Binding>

    function State(): Table
      reads this
    {
      Table(prefix, refCounter, localRefs, remoteRefs, disposals)
    }

    constructor (prefix: string)
      ensures State() == Table(prefix, 0, map[], {}, multiset{})
      ensures FreshAbove(State())
    {
      this.prefix := prefix;
      localRefs, remoteRefs, refCounter, disposals := map[], {}, 0, multiset{};
    }

    /** Whatever a method body did to the session on its own. */
    method Adopt(t: Table)
      modifies this
      ensures State() == t
    {
      prefix, refCounter, localRefs, remoteRefs, disposals := t.prefix, t.counter, t.local, t.remote, t.disposed;
    }

    method GenerateRefID() returns (id: string)
      modifies this`refCounter
      ensures State() == old(State()).(counter := old(refCounter) + 1)
      ensures id == Mint(prefix, refCounter)
    {
      refCounter := refCounter + 1;
      return Mint(prefix, refCounter);
    }

    method AddLocalRef(ref: string, o: ObjId) returns (id: string)
      modifies this`refCounter, this`localRefs
      ensures ref == "" ==> (id, State()) == Register(old(State()), o)
      ensures ref != "" ==> id == ref && State() == Bind(old(State()), ref, o)
    {
      id := ref;
      if id == "" {
        id := GenerateRefID();
      }
      localRefs := localRefs[id := o];
    }

    method DisposeObject(ref: string, o: ObjId)
      modifies this`disposals
      ensures disposals == old(disposals) + multiset{(ref, o)}
    {
      disposals := disposals + multiset{(ref, o)};
    }

    method RemoveLocalRef(ref: string) returns (existed: bool)
      modifies this`localRefs, this`disposals
      ensures State() == Unbind(old(State()), ref) && existed == (ref in old(localRefs))
    {
      if ref in localRefs {
        DisposeObject(ref, localRefs[ref]);
        localRefs := localRefs - {ref};
        return true;
      }
      return false;
    }

    /** Removes one binding of the object; map iteration decides which. */
    method RemoveObject(o: ObjId) returns (existed: bool, ghost picked: string)
      modifies this`localRefs, this`disposals
      ensures existed == (o in old(localRefs).Values)
      ensures existed ==> picked in old(localRefs) && old(localRefs)[picked] == o
      ensures State() == if existed then Unbind(old(State()), picked) else old(State())
    {
      var todo := localRefs.Keys;
      picked := "";
      while todo != {}
        invariant todo <= localRefs.Keys
        invariant forall ref | ref in localRefs && ref !in todo :: localRefs[ref] != o
        decreases todo
      {
        var ref :| ref in todo;
        if localRefs[ref] == o {
          DisposeObject(ref, o);
          localRefs := localRefs - {ref};
          return true, ref;
        }
        todo := todo - {ref};
      }
      return false, picked;
    }

    method AddRemoteRef(ref: string)
      modifies this`remoteRefs
      ensures State() == old(State()).(remote := old(remoteRefs) + {ref})
    {
      remoteRefs := remoteRefs + {ref};
    }

    method RemoveRemoteRef(ref: string) returns (existed: bool)
      modifies this`remoteRefs
      ensures State() == Forget(old(State()), ref) && existed == (ref in old(remoteRefs))
    {
      existed := ref in remoteRefs;
      remoteRefs := remoteRefs - {ref};
    }

    method DisposeAll() returns (localCount: nat, remoteCount: nat)
      modifies this`localRefs, this`remoteRefs, this`disposals
      ensures State() == Emptied(old(State()))
      ensures localCount == |old(localRefs)| && remoteCount == |old(remoteRefs)|
    {
      localCount, remoteCount := |localRefs|, |remoteRefs|;
      var todo := localRefs.Items;
      while todo != {}
        invariant todo <= localRefs.Items
        invariant localRefs == old(localRefs) && remoteRefs == old(remoteRefs)
        invariant disposals + multiset(todo) == old(disposals) + multiset(localRefs.Items)
        decreases todo
      {
        var b :| b in todo;
        DisposeObject(b.0, b.1);
        todo := todo - {b};
      }
      localRefs, remoteRefs := map[], {};
    }
  }

  /** What a session can be asked to do with its local references. */
  datatype Op =
    | Generated(o: ObjId)
    | Explicit(ref: string, o: ObjId)
    | RemoveRef(ref: string)
    | RemoveObj(o: ObjId, picked: string)
    | ForgetRemote(ref: string)
    | DisposeEverything

  /** A session with the history of its registrations. */
  datatype Ledger = Ledger(table: Table, registered: multiset<Binding>, overwritten: multiset<Binding>)

  function Displaced(t: Table, ref: string): multiset<Binding> {
    if ref in t.local then multiset{(ref, t.local[ref])} else multiset{}
  }

  ghost function Apply(op: Op, l: Ledger): Ledger {
    var t := l.table;
    match op
    case Generated(o) =>
      var (id, t') := Register(t, o);
      Ledger(t', l.registered + multiset{(id, o)}, l.overwritten + Displaced(t, id))
    case Explicit(ref, o) =>
      Ledger(Bind(t, ref, o), l.registered + multiset{(ref, o)}, l.overwritten + Displaced(t, ref))
    case RemoveRef(ref) => l.(table := Unbind(t, ref))
    case RemoveObj(o, picked) =>
      if picked in t.local && t.local[picked] == o then l.(table := Unbind(t, picked)) else l
    case ForgetRemote(ref) => l.(table := Forget(t, ref))
    case DisposeEverything => l.(table := Emptied(t))
  }

  ghost function Run(ops: seq<Op>, l: Ledger): Ledger {
    if ops == [] then l else Run(ops[1..], Apply(ops[0], l))
  }

  /** Every registration is still live, or was disposed, or was overwritten: exactly one of the three. */
  ghost predicate Conserved(l: Ledger) {
    l.registered == multiset(l.table.local.Items) + l.table.disposed + l.overwritten
  }

  lemma ItemsAre(m: map<string, ObjId>)
    ensures forall b: Binding :: b in m.Items <==> b.0 in m && m[b.0] == b.1
  {
  }

  lemma UnbindItems(m: map<string, ObjId>, ref: string)
    requires ref in m
    ensures multiset(m.Items) == multiset((m - {ref}).Items) + multiset{(ref, m[ref])}
  {
    ItemsAre(m);
    ItemsAre(m - {ref});
    assert m.Items == (m - {ref}).Items + {(ref, m[ref])};
  }

  lemma BindItems(t: Table, ref: string, o: ObjId)
    ensures multiset(Bind(t, ref, o).local.Items) + Displaced(t, ref) == multiset(t.local.Items) + multiset{(ref, o)}
  {
    var m := t.local;
    UnbindItems(m[ref := o], ref);
    assert m[ref := o] - {ref} == m - {ref};
    if ref in m {
      UnbindItems(m, ref);
    } else {
      assert m - {ref} == m;
    }
  }

  lemma BindConserves(l: Ledger, counter: nat, ref: string, o: ObjId)
    requires Conserved(l)
    ensures Conserved(Ledger(Bind(l.table.(counter := counter), ref, o), l.registered + multiset{(ref, o)}, l.overwritten + Displaced(l.table, ref)))
  {
    BindItems(l.table, ref, o);
    Gained(l.registered, multiset(l.table.local.Items), l.table.disposed, l.overwritten,
           multiset(Bind(l.table, ref, o).local.Items), multiset{(ref, o)}, Displaced(l.table, ref));
  }

  lemma Gained(registered: multiset<Binding>, live: multiset<Binding>, disposed: multiset<Binding>, overwritten: multiset<Binding>,
               live': multiset<Binding>, gain: multiset<Binding>, lost: multiset<Binding>)
    requires registered == live + disposed + overwritten && live' + lost == live + gain
    ensures registered + gain == live' + disposed + (overwritten + lost)
  {
    forall b ensures (registered + gain)[b] == (live' + disposed + (overwritten + lost))[b] {
      assert (live' + lost)[b] == (live + gain)[b];
    }
  }

  lemma UnbindConserves(l: Ledger, ref: string)
    requires Conserved(l)
    ensures Conserved(l.(table := Unbind(l.table, ref)))
  {
    if ref in l.table.local {
      UnbindItems(l.table.local, ref);
    }
  }

  lemma ApplyConserves(op: Op, l: Ledger)
    requires Conserved(l)
    ensures Conserved(Apply(op, l))
  {
    hide Conserved, Bind, Unbind, Mint, Displaced;
    var t := l.table;
    match op
    case Generated(o) =>
      BindConserves(l, t.counter + 1, Register(t, o).0, o);
    case Explicit(ref, o) => BindConserves(l, t.counter, ref, o);
    case RemoveRef(ref) => UnbindConserves(l, ref);
    case RemoveObj(_, picked) => UnbindConserves(l, picked);
    case ForgetRemote(ref) => RemoteAside(l, Forget(t, ref));
    case DisposeEverything => EmptiedConserves(l);
  }

  lemma RemoteAside(l: Ledger, t: Table)
    requires Conserved(l) && t.local == l.table.local && t.disposed == l.table.disposed
    ensures Conserved(l.(table := t))
  {
  }

  lemma EmptiedConserves(l: Ledger)
    requires Conserved(l)
    ensures Conserved(l.(table := Emptied(l.table)))
  {
  }

  /** Disposal is conserved over every run of session operations. */
  lemma {:induction false} RunConserves(ops: seq<Op>, l: Ledger)
    requires Conserved(l)
    ensures Conserved(Run(ops, l))
  {
    if ops != [] {
      ApplyConserves(ops[0], l);
      RunConserves(ops[1..], Apply(ops[0], l));
    }
  }

  /** After dispose-all nothing is live and everything registered is accounted for. */
  lemma EmptiedSettles(ops: seq<Op>, prefix: string)
    ensures var l := Apply(DisposeEverything, Run(ops, Ledger(Table(prefix, 0, map[], {}, multiset{}), multiset{}, multiset{})));
            l.table.local == map[] && l.registered == l.table.disposed + l.overwritten
  {
    var start := Ledger(Table(prefix, 0, map[], {}, multiset{}), multiset{}, multiset{});
    RunConserves(ops, start);
    ApplyConserves(DisposeEverything, Run(ops, start));
  }

  /** An explicit id endangers future generated ids exactly when it is one of them. */
  ghost predicate Harmless(op: Op, t: Table) {
    op.Explicit? ==> forall n: nat | n > t.counter :: op.ref != Mint(t.prefix, n)
  }

  /** Generated ids stay fresh after an operation if and only if it did not take one of them by hand. */
  lemma FreshnessKept(op: Op, l: Ledger)
    requires FreshAbove(l.table)
    ensures FreshAbove(Apply(op, l).table) <==> Harmless(op, l.table)
  {
    var t := l.table;
    var t' := Apply(op, l).table;
    if op.Explicit? && !Harmless(op, t) {
      var n: nat :| n > t.counter && op.ref == Mint(t.prefix, n);
      assert Mint(t'.prefix, n) in t'.local;
    }
    if op.Generated? {
      forall n: nat | n > t'.counter ensures Mint(t.prefix, n) !in t'.local {
        MintInjective(t.prefix, n, t'.counter);
      }
    }
  }

  /** Objects a connection registers under ids of its own keep the session's generated ids free. */
  lemma ConnectionIdsAreHarmless(connId: string, m: nat, o: ObjId, l: Ledger)
    requires |connId| == 4 && forall i | 0 <= i < 4 :: IsHex(connId[i])
    requires l.table.prefix == "ref-" && FreshAbove(l.table)
    ensures FreshAbove(Apply(Explicit(Mint(connId + "-", m), o), l).table)
  {
    hide Mint;
    var op := Explicit(Mint(connId + "-", m), o);
    forall n: nat | n > l.table.counter ensures op.ref != Mint(l.table.prefix, n) {
      SessionAndConnectionIdsDiffer(connId, m, n);
    }
    FreshnessKept(op, l);
  }

  /** A generated registration never displaces an earlier binding of a fresh session. */
  lemma GeneratedNeverOverwrites(o: ObjId, l: Ledger)
    requires FreshAbove(l.table)
    ensures Apply(Generated(o), l).overwritten == l.overwritten
    ensures l.table.local.Items < Apply(Generated(o), l).table.local.Items
  {
    var id := Register(l.table, o).0;
    assert id !in l.table.local;
    var m := l.table.local;
    ItemsAre(m);
    UnbindItems(m[id := o], id);
    assert m[id := o] - {id} == m;
    assert (id, o) !in m.Items;
  }

  /** An id that is neither bound nor still to be generated. */
  ghost predicate Spent(t: Table, ref: string) {
    ref !in t.local && forall n: nat | n > t.counter :: ref != Mint(t.prefix, n)
  }

  /** Every id the session has generated is spent once it is no longer bound. */
  lemma MintedIsSpent(t: Table, k: nat)
    requires k <= t.counter && Mint(t.prefix, k) !in t.local
    ensures Spent(t, Mint(t.prefix, k))
  {
    forall n: nat | n > t.counter ensures Mint(t.prefix, k) != Mint(t.prefix, n) {
      MintInjective(t.prefix, k, n);
    }
  }

  /** A spent id is never bound again, over any run of operations, unless one of them binds it by hand. */
  lemma {:induction false} SpentForEver(ops: seq<Op>, l: Ledger, ref: string)
    requires Spent(l.table, ref) && forall i | 0 <= i < |ops| :: !(ops[i].Explicit? && ops[i].ref == ref)
    ensures Spent(Run(ops, l).table, ref)
    decreases ops
  {
    if ops != [] {
      StepSpent(ops[0], l, ref);
      assert forall i | 0 <= i < |ops[1..]| :: ops[1..][i] == ops[i + 1];
      SpentForEver(ops[1..], Apply(ops[0], l), ref);
    }
  }

  lemma StepSpent(op: Op, l: Ledger, ref: string)
    requires Spent(l.table, ref) && !(op.Explicit? && op.ref == ref)
    ensures Spent(Apply(op, l).table, ref)
  {
    hide Mint;
  }
}
