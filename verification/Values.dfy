/**
  Value trees: what a method hands back, and what travels as JSON.
  An `Obj` leaf is an object of the hosting process that must never be
  serialised; it has to become a reference first.
*/
module Values {
  import opened Basics

  type ObjId = nat

  /**
    `Absent` is Go's nil result and JavaScript's undefined; `Prim` is any
    boolean or number, kept opaque. A record is two parallel sequences, in the
    order its entries are enumerated.
  */
  datatype Value =
    | Absent
    | Null
    | Prim(code: int)
    | Str(text: string)
    | Arr(items: seq<Value>)
    | Rec(keys: seq<string>, vals: seq<Value>)
    | Obj(o: ObjId)

  const REF_KEY: string := "$ref"

  /** The reference `{"$ref": id}`. */
  function RefTo(id: string): Value {
    Rec([REF_KEY], [Str(id)])
  }

  /** `isReference`: a record whose only key is `$ref`, bound to a string. */
  predicate IsRef(v: Value) {
    v.Rec? && v.keys == [REF_KEY] && |v.vals| == 1 && v.vals[0].Str?
  }

  function RefId(v: Value): (id: string)
    requires IsRef(v)
    ensures v == RefTo(id)
  {
    v.vals[0].text
  }

  /** The value under a key of a record, if the key is there. */
  function Lookup(keys: seq<string>, vals: seq<Value>, key: string): Option<Value> {
    if keys == [] || vals == [] then None
    else if keys[0] == key then Some(vals[0])
    else Lookup(keys[1..], vals[1..], key)
  }

  /** Go's reading: any map whose `$ref` is a string counts. */
  function GoRefText(v: Value): Option<string> {
    if v.Rec? then
      match Lookup(v.keys, v.vals, REF_KEY)
      case Some(Str(s)) => Some(s)
      case _ => None
    else None
  }

  /** TypeScript's reading: `$ref` must also be the only key. */
  function TsRefText(v: Value): Option<string> {
    if IsRef(v) then Some(RefId(v)) else None
  }

  /** A record as it is decoded: a value for every key, and no key twice. */
  predicate WellKeyed(keys: seq<string>, vals: seq<Value>) {
    |keys| == |vals| && forall i, j | 0 <= i < j < |keys| :: keys[i] != keys[j]
  }

  /** Looking a key up finds the value beside it, and nothing under any other key. */
  lemma {:induction false} LookupFinds(keys: seq<string>, vals: seq<Value>, key: string)
    requires WellKeyed(keys, vals)
    ensures forall k | 0 <= k < |keys| && keys[k] == key :: Lookup(keys, vals, key) == Some(vals[k])
    ensures key !in keys ==> Lookup(keys, vals, key) == None
    decreases keys
  {
    if keys != [] {
      LookupFinds(keys[1..], vals[1..], key);
      forall k | 0 <= k < |keys| && keys[k] == key ensures Lookup(keys, vals, key) == Some(vals[k]) {
        if k > 0 {
          assert keys[1..][k - 1] == key && vals[1..][k - 1] == vals[k];
        }
      }
    }
  }

  /** Go takes a record for a reference to s exactly when the text s stands under `$ref`, whatever else the record holds. */
  lemma GoReads(keys: seq<string>, vals: seq<Value>, s: string)
    requires WellKeyed(keys, vals)
    ensures GoRefText(Rec(keys, vals)) == Some(s) <==> exists k :: 0 <= k < |keys| && keys[k] == "$ref" && vals[k] == Str(s)
  {
    LookupFinds(keys, vals, "$ref");
    if "$ref" in keys {
      var k :| 0 <= k < |keys| && keys[k] == "$ref";
    }
  }

  /** TypeScript takes exactly `{"$ref": s}` for one. */
  lemma TsReads(keys: seq<string>, vals: seq<Value>, s: string)
    requires WellKeyed(keys, vals)
    ensures TsRefText(Rec(keys, vals)) == Some(s) <==> keys == ["$ref"] && vals == [Str(s)]
  {
  }

  /** Nothing but a record is a reference to either. */
  lemma OnlyRecordsRefer(v: Value)
    requires !v.Rec?
    ensures GoRefText(v) == None == TsRefText(v)
  {
  }

  /** The two readings part company exactly on a record that has a text under `$ref` and another key. */
  lemma RefReadings(keys: seq<string>, vals: seq<Value>)
    requires WellKeyed(keys, vals)
    ensures GoRefText(Rec(keys, vals)) != TsRefText(Rec(keys, vals)) <==>
            |keys| > 1 && exists k :: 0 <= k < |keys| && keys[k] == "$ref" && vals[k].Str?
  {
    var v := Rec(keys, vals);
    if k :| 0 <= k < |keys| && keys[k] == "$ref" && vals[k].Str? {
      GoReads(keys, vals, vals[k].text);
      TsReads(keys, vals, vals[k].text);
      if |keys| == 1 {
        assert keys == ["$ref"] && vals == [vals[k]];
      }
    } else if GoRefText(v).Some? {
      GoReads(keys, vals, GoRefText(v).value);
    }
  }

  /** The objects of a tree in walk order, one entry per occurrence. */
  function Objects(v: Value): seq<ObjId>
    decreases v, 0
  {
    match v
    case Obj(o) => [o]
    case Arr(items) => ObjectsSeq(items)
    case Rec(_, vals) => ObjectsSeq(vals)
    case _ => []
  }

  function ObjectsSeq(vs: seq<Value>): seq<ObjId>
    decreases vs, 1
  {
    if vs == [] then [] else Objects(vs[0]) + ObjectsSeq(vs[1..])
  }

  /** The references of a tree in walk order, one entry per occurrence. */
  function Refs(v: Value): seq<string>
    decreases v, 0
  {
    match v
    case Arr(items) => RefsSeq(items)
    case Rec(_, vals) => if IsRef(v) then [RefId(v)] else RefsSeq(vals)
    case _ => []
  }

  function RefsSeq(vs: seq<Value>): seq<string>
    decreases vs, 1
  {
    if vs == [] then [] else Refs(vs[0]) + RefsSeq(vs[1..])
  }

  /** The tree with its k-th object replaced by a reference to ids[k]. */
  function Fill(v: Value, ids: seq<string>): Value
    requires |ids| == |Objects(v)|
    decreases v, 0
  {
    match v
    case Obj(_) => RefTo(ids[0])
    case Arr(items) => Arr(FillSeq(items, ids))
    case Rec(keys, vals) => Rec(keys, FillSeq(vals, ids))
    case _ => v
  }

  function FillSeq(vs: seq<Value>, ids: seq<string>): (r: seq<Value>)
    requires |ids| == |ObjectsSeq(vs)|
    ensures |r| == |vs|
    decreases vs, 1
  {
    if vs == [] then []
    else
      var n := |Objects(vs[0])|;
      [Fill(vs[0], ids[..n])] + FillSeq(vs[1..], ids[n..])
  }

  /** The tree with every reference named in b replaced by the object b gives it. */
  function Restore(v: Value, b: map<string, ObjId>): Value
    decreases v, 0
  {
    match v
    case Arr(items) => Arr(RestoreSeq(items, b))
    case Rec(keys, vals) =>
      if IsRef(v) then (if RefId(v) in b then Obj(b[RefId(v)]) else v)
      else Rec(keys, RestoreSeq(vals, b))
    case _ => v
  }

  function RestoreSeq(vs: seq<Value>, b: map<string, ObjId>): (r: seq<Value>)
    ensures |r| == |vs|
    decreases vs, 1
  {
    if vs == [] then [] else [Restore(vs[0], b)] + RestoreSeq(vs[1..], b)
  }

  /** ids[k] is bound to objs[k] throughout. */
  predicate Bound(b: map<string, ObjId>, ids: seq<string>, objs: seq<ObjId>) {
    |ids| == |objs| && forall k | 0 <= k < |ids| :: ids[k] in b && b[ids[k]] == objs[k]
  }

  lemma FillIsRef(v: Value, ids: seq<string>)
    requires |ids| == |Objects(v)|
    ensures !v.Obj? ==> IsRef(Fill(v, ids)) == IsRef(v)
    ensures IsRef(v) ==> ids == [] && Fill(v, ids) == v
  {
    if v.Rec? {
      if |v.vals| == 1 {
        assert v.vals[1..] == [];
        assert ObjectsSeq(v.vals) == Objects(v.vals[0]);
        assert ids[..|ids|] == ids;
        var w := v.vals[0];
        if w.Obj? {
          assert Fill(w, ids) == RefTo(ids[0]);
        }
        assert FillSeq(v.vals, ids) == [Fill(w, ids)];
      }
      if IsRef(v) {
        assert v.vals == [v.vals[0]];
      }
    }
  }

  /**
    Filling is undone by restoring, and only the references the author of the
    tree wrote by hand can spoil it: the tree comes back if and only if none of
    them is named like one of the bound ids.
  */
  lemma {:induction false} RestoreFill(v: Value, ids: seq<string>, b: map<string, ObjId>)
    requires Bound(b, ids, Objects(v))
    ensures Restore(Fill(v, ids), b) == v <==> forall s | s in Refs(v) :: s !in b
    decreases v, 1
  {
    match v
    case Obj(o) => RestoreFillObject(o, ids, b);
    case Arr(items) => RestoreFillSeq(items, ids, b);
    case Rec(keys, vals) => RestoreFillRecord(keys, vals, ids, b);
    case _ =>
  }

  lemma RestoreFillObject(o: ObjId, ids: seq<string>, b: map<string, ObjId>)
    requires Bound(b, ids, [o])
    ensures Restore(Fill(Obj(o), ids), b) == Obj(o) && Refs(Obj(o)) == []
  {
  }

  lemma {:induction false} RestoreFillRecord(keys: seq<string>, vals: seq<Value>, ids: seq<string>, b: map<string, ObjId>)
    requires Bound(b, ids, ObjectsSeq(vals))
    ensures var v := Rec(keys, vals); Restore(Fill(v, ids), b) == v <==> forall s | s in Refs(v) :: s !in b
    decreases Rec(keys, vals), 0
  {
    hide ObjectsSeq, FillSeq, RestoreSeq, RefsSeq;
    var v := Rec(keys, vals);
    FillIsRef(v, ids);
    if !IsRef(v) {
      RestoreFillSeq(vals, ids, b);
    }
  }

  lemma {:induction false} RestoreFillSeq(vs: seq<Value>, ids: seq<string>, b: map<string, ObjId>)
    requires Bound(b, ids, ObjectsSeq(vs))
    ensures RestoreSeq(FillSeq(vs, ids), b) == vs <==> forall s | s in RefsSeq(vs) :: s !in b
    decreases vs, 1
  {
    hide Objects, Fill, Restore, Refs;
    if vs != [] {
      var n := |Objects(vs[0])|;
      var (l, r) := (ids[..n], ids[n..]);
      assert forall k | 0 <= k < |ObjectsSeq(vs[1..])| :: ObjectsSeq(vs)[n + k] == ObjectsSeq(vs[1..])[k];
      assert forall k | 0 <= k < n :: ObjectsSeq(vs)[k] == Objects(vs[0])[k];
      RestoreFill(vs[0], l, b);
      RestoreFillSeq(vs[1..], r, b);
      var filled := FillSeq(vs, ids);
      assert filled[1..] == FillSeq(vs[1..], r);
      assert vs == [vs[0]] + vs[1..];
      var restored := RestoreSeq(filled, b);
      assert restored == [Restore(filled[0], b)] + RestoreSeq(filled[1..], b);
      assert restored == vs <==> restored[0] == vs[0] && restored[1..] == vs[1..];
    }
  }

  /** Filling leaves no object behind and adds exactly the given references. */
  lemma {:induction false} FillRefs(v: Value, ids: seq<string>)
    requires |ids| == |Objects(v)|
    ensures Objects(Fill(v, ids)) == []
    ensures multiset(Refs(Fill(v, ids))) == multiset(Refs(v)) + multiset(ids)
    decreases v, 0
  {
    FillIsRef(v, ids);
    match v
    case Obj(o) => FillRefsObject(o, ids);
    case Arr(items) => FillRefsSeq(items, ids);
    case Rec(keys, vals) =>
      FillRefsSeq(vals, ids);
      RefsOfRecord(keys, vals);
      RefsOfRecord(keys, FillSeq(vals, ids));
    case _ =>
  }

  lemma FillRefsObject(o: ObjId, ids: seq<string>)
    requires |ids| == 1
    ensures Objects(Fill(Obj(o), ids)) == []
    ensures multiset(Refs(Fill(Obj(o), ids))) == multiset(Refs(Obj(o))) + multiset(ids)
  {
    assert ids == [ids[0]];
    assert ObjectsSeq([Str(ids[0])]) == Objects(Str(ids[0])) + ObjectsSeq([]);
  }

  lemma RefsOfRecord(keys: seq<string>, vals: seq<Value>)
    ensures var v := Rec(keys, vals);
            Objects(v) == ObjectsSeq(vals) && Refs(v) == if IsRef(v) then [RefId(v)] else RefsSeq(vals)
  {
  }

  lemma {:induction false} FillRefsSeq(vs: seq<Value>, ids: seq<string>)
    requires |ids| == |ObjectsSeq(vs)|
    ensures ObjectsSeq(FillSeq(vs, ids)) == []
    ensures multiset(RefsSeq(FillSeq(vs, ids))) == multiset(RefsSeq(vs)) + multiset(ids)
    decreases vs, 1
  {
    hide Objects, Fill, Refs;
    if vs != [] {
      var n := |Objects(vs[0])|;
      FillRefs(vs[0], ids[..n]);
      FillRefsSeq(vs[1..], ids[n..]);
      assert ids == ids[..n] + ids[n..];
      assert FillSeq(vs, ids)[1..] == FillSeq(vs[1..], ids[n..]);
    }
  }

  /** The tree with its references renamed. */
  function Rename(v: Value, re: map<string, string>): Value
    decreases v, 0
  {
    match v
    case Arr(items) => Arr(RenameSeq(items, re))
    case Rec(keys, vals) =>
      if IsRef(v) then (if RefId(v) in re then RefTo(re[RefId(v)]) else v)
      else Rec(keys, RenameSeq(vals, re))
    case _ => v
  }

  function RenameSeq(vs: seq<Value>, re: map<string, string>): (r: seq<Value>)
    ensures |r| == |vs|
    decreases vs, 1
  {
    if vs == [] then [] else [Rename(vs[0], re)] + RenameSeq(vs[1..], re)
  }

  lemma {:induction false} RenameFill(v: Value, ids: seq<string>, ids': seq<string>, re: map<string, string>)
    requires |ids| == |ids'| == |Objects(v)|
    requires forall k | 0 <= k < |ids| :: ids[k] in re && re[ids[k]] == ids'[k]
    requires forall s | s in Refs(v) :: s !in re
    ensures Rename(Fill(v, ids), re) == Fill(v, ids')
    decreases v, 0
  {
    FillIsRef(v, ids);
    FillIsRef(v, ids');
    match v
    case Arr(items) => RenameFillSeq(items, ids, ids', re);
    case Rec(_, vals) => if !IsRef(v) { RenameFillSeq(vals, ids, ids', re); }
    case _ =>
  }

  lemma {:induction false} RenameFillSeq(vs: seq<Value>, ids: seq<string>, ids': seq<string>, re: map<string, string>)
    requires |ids| == |ids'| == |ObjectsSeq(vs)|
    requires forall k | 0 <= k < |ids| :: ids[k] in re && re[ids[k]] == ids'[k]
    requires forall s | s in RefsSeq(vs) :: s !in re
    ensures RenameSeq(FillSeq(vs, ids), re) == FillSeq(vs, ids')
    decreases vs, 1
  {
    if vs != [] {
      var n := |Objects(vs[0])|;
      RenameFill(vs[0], ids[..n], ids'[..n], re);
      RenameFillSeq(vs[1..], ids[n..], ids'[n..], re);
      assert FillSeq(vs, ids)[1..] == FillSeq(vs[1..], ids[n..]);
    }
  }
}
