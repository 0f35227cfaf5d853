/**
  The result walk: every object in a method's result is registered under a
  fresh id and replaced by a reference.
*/
module ResultWalk {
  import opened Text
  import opened Values
  import opened Sessions

  function Walk(v: Value, t: Table): (Value, Table)
    decreases v, 0
  {
    match v
    case Obj(o) =>
      var (id, t') := Register(t, o);
      (RefTo(id), t')
    case Arr(items) =>
      var (r, t') := WalkSeq(items, t);
      (Arr(r), t')
    case Rec(keys, vals) =>
      if IsRef(v) then (v, t)
      else
        var (r, t') := WalkSeq(vals, t);
        (Rec(keys, r), t')
    case _ => (v, t)
  }

  function WalkSeq(vs: seq<Value>, t: Table): (seq<Value>, Table)
    decreases vs, 1
  {
    if vs == [] then ([], t)
    else
      var (r, t1) := Walk(vs[0], t);
      var (rs, t2) := WalkSeq(vs[1..], t1);
      ([r] + rs, t2)
  }

  /** `processResult`, on a live session. */
  method ProcessResult(session: Session, v: Value) returns (r: Value)
    modifies session
    ensures (r, session.State()) == Walk(v, old(session.State()))
    decreases v, 0
  {
    if IsRef(v) {
      return v;
    }
    match v
    case Obj(o) =>
      var ref := session.AddLocalRef("", o);
      r := RefTo(ref);
    case Arr(items) =>
      var rs := ProcessEach(session, items);
      r := Arr(rs);
    case Rec(keys, vals) =>
      var rs := ProcessEach(session, vals);
      r := Rec(keys, rs);
    case _ =>
      r := v;
  }

  method ProcessEach(session: Session, vs: seq<Value>) returns (rs: seq<Value>)
    modifies session
    ensures (rs, session.State()) == WalkSeq(vs, old(session.State()))
    decreases vs, 1
  {
    if vs == [] {
      return [];
    }
    var r := ProcessResult(session, vs[0]);
    var rest := ProcessEach(session, vs[1..]);
    return [r] + rest;
  }

  /** The next n ids a session will generate after the counter value c. */
  function MintRange(prefix: string, c: nat, n: nat): (ids: seq<string>)
    ensures |ids| == n
  {
    seq(n, i requires 0 <= i < n => Mint(prefix, c + 1 + i))
  }

  function BindAll(m: map<string, ObjId>, ids: seq<string>, objs: seq<ObjId>): map<string, ObjId>
    requires |ids| == |objs|
    decreases ids
  {
    if ids == [] then m else BindAll(m[ids[0] := objs[0]], ids[1..], objs[1..])
  }

  lemma {:induction false} BindAllConcat(m: map<string, ObjId>, ids: seq<string>, objs: seq<ObjId>, ids': seq<string>, objs': seq<ObjId>)
    requires |ids| == |objs| && |ids'| == |objs'|
    ensures BindAll(m, ids + ids', objs + objs') == BindAll(BindAll(m, ids, objs), ids', objs')
    decreases ids
  {
    if ids == [] {
      assert ids + ids' == ids' && objs + objs' == objs';
    } else {
      assert (ids + ids')[1..] == ids[1..] + ids' && (objs + objs')[1..] == objs[1..] + objs';
      BindAllConcat(m[ids[0] := objs[0]], ids[1..], objs[1..], ids', objs');
    }
  }

  /** Binding distinct ids adds exactly those bindings, in place of earlier ones under the same ids. */
  lemma {:induction false} BindAllDistinct(m: map<string, ObjId>, ids: seq<string>, objs: seq<ObjId>)
    requires |ids| == |objs|
    requires forall i, j | 0 <= i < j < |ids| :: ids[i] != ids[j]
    ensures var m' := BindAll(m, ids, objs);
            && m'.Keys == m.Keys + (set s | s in ids)
            && Bound(m', ids, objs)
            && forall k | k in m && k !in ids :: m'[k] == m[k]
    decreases ids
  {
    if ids != [] {
      BindAllDistinct(m[ids[0] := objs[0]], ids[1..], objs[1..]);
      assert ids == [ids[0]] + ids[1..];
      var m' := BindAll(m, ids, objs);
      assert ids[0] !in ids[1..];
      forall k | 0 <= k < |ids| ensures ids[k] in m' && m'[ids[k]] == objs[k] {
        if k > 0 {
          assert ids[k] == ids[1..][k - 1];
        }
      }
    }
  }

  /** The table after registering objs in order. */
  function Registered(t: Table, objs: seq<ObjId>): Table {
    t.(counter := t.counter + |objs|,
       local := BindAll(t.local, MintRange(t.prefix, t.counter, |objs|), objs))
  }

  lemma RegisteredConcat(t: Table, a: seq<ObjId>, b: seq<ObjId>)
    ensures Registered(t, a + b) == Registered(Registered(t, a), b)
    ensures MintRange(t.prefix, t.counter, |a + b|) ==
            MintRange(t.prefix, t.counter, |a|) + MintRange(t.prefix, t.counter + |a|, |b|)
  {
    assert MintRange(t.prefix, t.counter, |a + b|) ==
           MintRange(t.prefix, t.counter, |a|) + MintRange(t.prefix, t.counter + |a|, |b|);
    BindAllConcat(t.local, MintRange(t.prefix, t.counter, |a|), a, MintRange(t.prefix, t.counter + |a|, |b|), b);
  }

  /**
    The walk computes exactly this: the k-th object, in walk order, is bound to
    and replaced by the k-th id after the counter; nothing else changes.
  */
  lemma {:induction false} WalkIsFill(v: Value, t: Table)
    ensures Walk(v, t) == (Fill(v, MintRange(t.prefix, t.counter, |Objects(v)|)), Registered(t, Objects(v)))
    decreases v, 0
  {
    match v
    case Obj(o) =>
      var ids := MintRange(t.prefix, t.counter, 1);
      assert BindAll(t.local[ids[0] := o], ids[1..], [o][1..]) == t.local[ids[0] := o];
    case Arr(items) => WalkSeqIsFill(items, t);
    case Rec(keys, vals) =>
      if IsRef(v) {
        assert vals == [vals[0]] && ObjectsSeq(vals) == Objects(vals[0]) + ObjectsSeq(vals[1..]);
        FillIsRef(v, []);
      } else {
        WalkSeqIsFill(vals, t);
      }
    case _ =>
  }

  lemma {:induction false} WalkSeqIsFill(vs: seq<Value>, t: Table)
    ensures WalkSeq(vs, t) == (FillSeq(vs, MintRange(t.prefix, t.counter, |ObjectsSeq(vs)|)), Registered(t, ObjectsSeq(vs)))
    decreases vs, 1
  {
    if vs != [] {
      var (a, b) := (Objects(vs[0]), ObjectsSeq(vs[1..]));
      WalkIsFill(vs[0], t);
      WalkSeqIsFill(vs[1..], Registered(t, a));
      RegisteredConcat(t, a, b);
      var ids := MintRange(t.prefix, t.counter, |a + b|);
      assert ids[..|a|] == MintRange(t.prefix, t.counter, |a|);
      assert ids[|a|..] == MintRange(t.prefix, t.counter + |a|, |b|);
    }
  }

  /** The next ids are distinct, and none is taken while generated ids are free. */
  lemma MintRangeFresh(t: Table, n: nat)
    ensures var ids := MintRange(t.prefix, t.counter, n);
            && (forall i, j | 0 <= i < j < n :: ids[i] != ids[j])
            && (FreshAbove(t) ==> forall i | 0 <= i < n :: ids[i] !in t.local)
  {
    var ids := MintRange(t.prefix, t.counter, n);
    forall i, j | 0 <= i < j < n ensures ids[i] != ids[j] {
      MintInjective(t.prefix, t.counter + 1 + i, t.counter + 1 + j);
    }
  }

  /** Just the bindings a walk of v adds. */
  function NewBindings(v: Value, t: Table): map<string, ObjId> {
    var t' := Walk(v, t).1;
    map id | id in t'.local && id !in t.local :: t'.local[id]
  }

  /** What one walk does to the table, told without the walk. */
  ghost predicate RegistersExactly(v: Value, t: Table, t': Table) {
    var n := |Objects(v)|;
    var ids := MintRange(t.prefix, t.counter, n);
    && t'.counter == t.counter + n
    && t'.prefix == t.prefix && t'.remote == t.remote && t'.disposed == t.disposed
    && (forall i, j | 0 <= i < j < n :: ids[i] != ids[j])
    && (forall i | 0 <= i < n :: ids[i] !in t.local)
    && Bound(t'.local, ids, Objects(v))
    && t'.local.Keys == t.local.Keys + (set s | s in ids)
    && (forall id | id in t.local :: t'.local[id] == t.local[id])
  }

  /**
    Each object occurrence gets its own fresh id, no earlier binding is lost,
    the counter rises by the number of occurrences, and ids stay fresh.
  */
  lemma WalkRegistersExactly(v: Value, t: Table)
    requires FreshAbove(t)
    ensures RegistersExactly(v, t, Walk(v, t).1)
    ensures FreshAbove(Walk(v, t).1)
  {
    hide Walk, Objects, Mint;
    WalkIsFill(v, t);
    var n := |Objects(v)|;
    var ids := MintRange(t.prefix, t.counter, n);
    MintRangeFresh(t, n);
    BindAllDistinct(t.local, ids, Objects(v));
    var t' := Walk(v, t).1;
    forall m: nat | m > t'.counter ensures Mint(t.prefix, m) !in t'.local {
      if Mint(t.prefix, m) in ids {
        var i :| 0 <= i < n && ids[i] == Mint(t.prefix, m);
        MintInjective(t.prefix, t.counter + 1 + i, m);
      }
    }
  }

  lemma NewBindingsBound(v: Value, t: Table)
    requires FreshAbove(t)
    ensures Bound(NewBindings(v, t), MintRange(t.prefix, t.counter, |Objects(v)|), Objects(v))
    ensures NewBindings(v, t).Keys == (set s | s in MintRange(t.prefix, t.counter, |Objects(v)|))
  {
    WalkRegistersExactly(v, t);
  }

  /**
    Invertibility: the output holds no object, and putting the bound objects
    back gives the input, if and only if the author wrote no reference by hand
    that is named like one of the ids this walk generated.
  */
  lemma WalkInvertible(v: Value, t: Table)
    requires FreshAbove(t)
    ensures Objects(Walk(v, t).0) == []
    ensures Restore(Walk(v, t).0, NewBindings(v, t)) == v <==>
            forall id | id in MintRange(t.prefix, t.counter, |Objects(v)|) :: id !in Refs(v)
  {
    var ids := MintRange(t.prefix, t.counter, |Objects(v)|);
    WalkIsFill(v, t);
    FillRefs(v, ids);
    NewBindingsBound(v, t);
    RestoreFill(v, ids, NewBindings(v, t));
  }

  /** A tree without objects walks to itself and registers nothing. */
  lemma {:induction false} NothingToWalk(v: Value, t: Table)
    requires Objects(v) == []
    ensures Walk(v, t) == (v, t)
    decreases v, 0
  {
    match v
    case Arr(items) => NothingToWalkSeq(items, t);
    case Rec(_, vals) => NothingToWalkSeq(vals, t);
    case _ =>
  }

  lemma {:induction false} NothingToWalkSeq(vs: seq<Value>, t: Table)
    requires ObjectsSeq(vs) == []
    ensures WalkSeq(vs, t) == (vs, t)
    decreases vs, 1
  {
    if vs != [] {
      assert |Objects(vs[0])| + |ObjectsSeq(vs[1..])| == 0;
      NothingToWalk(vs[0], t);
      NothingToWalkSeq(vs[1..], t);
      assert vs == [vs[0]] + vs[1..];
    }
  }

  /** A second pass changes nothing, in the value or in the session. */
  lemma WalkIdempotent(v: Value, t: Table)
    ensures var (r, t') := Walk(v, t); Walk(r, t') == (r, t')
  {
    var ids := MintRange(t.prefix, t.counter, |Objects(v)|);
    WalkIsFill(v, t);
    FillRefs(v, ids);
    NothingToWalk(Walk(v, t).0, Walk(v, t).1);
  }

  /** The references of a reply are those written by hand plus exactly those minted for it. */
  lemma WalkRefs(v: Value, t: Table)
    ensures multiset(Refs(Walk(v, t).0)) ==
            multiset(Refs(v)) + multiset(MintRange(t.prefix, t.counter, |Objects(v)|))
  {
    WalkIsFill(v, t);
    FillRefs(v, MintRange(t.prefix, t.counter, |Objects(v)|));
  }

  lemma WalkLeavesNoObjects(v: Value, t: Table)
    ensures Objects(Walk(v, t).0) == []
  {
    WalkIsFill(v, t);
    FillRefs(v, MintRange(t.prefix, t.counter, |Objects(v)|));
  }
}
