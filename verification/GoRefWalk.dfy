/**
  Go's result walk over untyped slices and maps on the heap: it copies a
  container only when something inside changed, never writes to an input
  container, and visits map entries in whatever order the runtime picks.
*/
module GoRefWalk {
  import opened Text
  import opened Values
  import opened Sessions
  import opened ResultWalk

  /** An `any` holding nil, a scalar, a Reference, an Object, a `[]any` or a `map[string]any`. */
  datatype GoValue =
    | GNil
    | GPrim(code: int)
    | GStr(text: string)
    | GRef(id: string)
    | GObj(o: ObjId)
    | GSlice(a: array<GoValue>)
    | GMap(m: GoMap)

  class GoMap {
    var entries: map<string, GoValue>

    constructor ()
      ensures entries == map[]
    {
      entries := map[];
    }
  }

  /** v is a tree of containers drawn from F, nested at most d deep. */
  ghost predicate Tree(v: GoValue, d: nat, F: set<object>)
    reads F
    decreases d
  {
    match v
    case GSlice(a) => a in F && d > 0 && forall i | 0 <= i < a.Length :: Tree(a[i], d - 1, F)
    case GMap(m) => m in F && d > 0 && forall k | k in m.entries :: Tree(m.entries[k], d - 1, F)
    case _ => true
  }

  /** One fixed enumeration of a finite set of keys. */
  ghost function Enum(s: set<string>): (r: seq<string>)
    ensures forall k :: k in r <==> k in s
    ensures forall i, j | 0 <= i < j < |r| :: r[i] != r[j]
  {
    if s == {} then []
    else
      var k :| k in s;
      [k] + Enum(s - {k})
  }

  ghost function Select(m: map<string, GoValue>, ks: seq<string>): (r: seq<GoValue>)
    requires forall k | k in ks :: k in m
    ensures |r| == |ks| && forall i | 0 <= i < |ks| :: r[i] == m[ks[i]]
  {
    seq(|ks|, i requires 0 <= i < |ks| => m[ks[i]])
  }

  /** The value tree a heap value stands for. */
  ghost function Abs(v: GoValue, d: nat, F: set<object>): Value
    requires Tree(v, d, F)
    reads F
    decreases d, 0, 0
  {
    match v
    case GNil => Null
    case GPrim(c) => Prim(c)
    case GStr(s) => Str(s)
    case GRef(id) => RefTo(id)
    case GObj(o) => Obj(o)
    case GSlice(a) => Arr(AbsSeq(a[..], d - 1, F))
    case GMap(m) =>
      var ks := Enum(m.entries.Keys);
      Rec(ks, AbsSeq(Select(m.entries, ks), d - 1, F))
  }

  ghost function AbsSeq(vs: seq<GoValue>, d: nat, F: set<object>): (r: seq<Value>)
    requires forall i | 0 <= i < |vs| :: Tree(vs[i], d, F)
    reads F
    ensures |r| == |vs| && forall i | 0 <= i < |vs| :: r[i] == Abs(vs[i], d, F)
    decreases d, 1, |vs|
  {
    if vs == [] then [] else AbsSeq(vs[..|vs| - 1], d, F) + [Abs(vs[|vs| - 1], d, F)]
  }

  lemma {:induction false} Grow(v: GoValue, d: nat, F: set<object>, F': set<object>)
    requires Tree(v, d, F) && F <= F'
    ensures Tree(v, d, F') && Abs(v, d, F') == Abs(v, d, F)
    decreases d
  {
    hide Enum, Select, AbsSeq;
    match v
    case GSlice(a) =>
      forall i | 0 <= i < a.Length ensures Tree(a[i], d - 1, F') && Abs(a[i], d - 1, F') == Abs(a[i], d - 1, F) {
        Grow(a[i], d - 1, F, F');
      }
    case GMap(m) =>
      forall k | k in m.entries ensures Tree(m.entries[k], d - 1, F') && Abs(m.entries[k], d - 1, F') == Abs(m.entries[k], d - 1, F) {
        Grow(m.entries[k], d - 1, F, F');
      }
    case _ =>
  }

  /** `reflect.DeepEqual` on untyped trees. */
  function DeepEqual(x: GoValue, y: GoValue, ghost d: nat, ghost F: set<object>): bool
    requires Tree(x, d, F) && Tree(y, d, F)
    reads F
    decreases d
  {
    match (x, y)
    case (GSlice(a), GSlice(b)) =>
      a.Length == b.Length && forall i | 0 <= i < a.Length :: DeepEqual(a[i], b[i], d - 1, F)
    case (GMap(m), GMap(n)) =>
      m.entries.Keys == n.entries.Keys &&
      forall k | k in m.entries.Keys :: DeepEqual(m.entries[k], n.entries[k], d - 1, F)
    case _ => x == y
  }

  lemma {:induction false} DeepEqualRefl(x: GoValue, d: nat, F: set<object>)
    requires Tree(x, d, F)
    ensures DeepEqual(x, x, d, F)
    decreases d
  {
    match x
    case GSlice(a) =>
      forall i | 0 <= i < a.Length ensures DeepEqual(a[i], a[i], d - 1, F) {
        DeepEqualRefl(a[i], d - 1, F);
      }
    case GMap(m) =>
      forall k | k in m.entries.Keys ensures DeepEqual(m.entries[k], m.entries[k], d - 1, F) {
        DeepEqualRefl(m.entries[k], d - 1, F);
      }
    case _ =>
  }

  lemma AbsSeqEqual(xs: seq<GoValue>, ys: seq<GoValue>, d: nat, F: set<object>)
    requires |xs| == |ys|
    requires forall i | 0 <= i < |xs| :: Tree(xs[i], d, F) && Tree(ys[i], d, F) && Abs(xs[i], d, F) == Abs(ys[i], d, F)
    ensures AbsSeq(xs, d, F) == AbsSeq(ys, d, F)
  {
  }

  /** Deeply equal heap values stand for the same tree. */
  lemma {:induction false} DeepEqualSound(x: GoValue, y: GoValue, d: nat, F: set<object>)
    requires Tree(x, d, F) && Tree(y, d, F) && DeepEqual(x, y, d, F)
    ensures Abs(x, d, F) == Abs(y, d, F)
    decreases d, 1
  {
    if x.GSlice? && y.GSlice? {
      DeepEqualSlices(x.a, y.a, d, F);
    } else if x.GMap? && y.GMap? {
      DeepEqualMaps(x.m, y.m, d, F);
    }
  }

  lemma {:induction false} DeepEqualSlices(a: array<GoValue>, b: array<GoValue>, d: nat, F: set<object>)
    requires Tree(GSlice(a), d, F) && Tree(GSlice(b), d, F) && DeepEqual(GSlice(a), GSlice(b), d, F)
    ensures Abs(GSlice(a), d, F) == Abs(GSlice(b), d, F)
    decreases d, 0
  {
    forall i | 0 <= i < a.Length ensures Abs(a[i], d - 1, F) == Abs(b[i], d - 1, F) {
      DeepEqualSound(a[i], b[i], d - 1, F);
    }
    AbsSeqEqual(a[..], b[..], d - 1, F);
  }

  lemma {:induction false} DeepEqualMaps(m: GoMap, n: GoMap, d: nat, F: set<object>)
    requires Tree(GMap(m), d, F) && Tree(GMap(n), d, F) && DeepEqual(GMap(m), GMap(n), d, F)
    ensures Abs(GMap(m), d, F) == Abs(GMap(n), d, F)
    decreases d, 0
  {
    var ks := Enum(m.entries.Keys);
    var xs, ys := Select(m.entries, ks), Select(n.entries, ks);
    forall i | 0 <= i < |ks|
      ensures Tree(xs[i], d - 1, F) && Tree(ys[i], d - 1, F) && Abs(xs[i], d - 1, F) == Abs(ys[i], d - 1, F)
    {
      assert ks[i] in m.entries.Keys;
      DeepEqualSound(m.entries[ks[i]], n.entries[ks[i]], d - 1, F);
    }
    AbsSeqEqual(xs, ys, d - 1, F);
  }

  /**
    From t to t' the session generated exactly |ids| ids, in some order the list ids, bound
    them, and changed no binding under any other id.
  */
  ghost predicate Minted(t: Table, t': Table, ids: seq<string>) {
    && t'.counter == t.counter + |ids|
    && multiset(ids) == multiset(MintRange(t.prefix, t.counter, |ids|))
    && t'.prefix == t.prefix && t'.remote == t.remote && t'.disposed == t.disposed
    && (forall id :: id in t'.local <==> id in t.local || id in multiset(ids))
    && (forall id | id in t.local && id !in multiset(ids) :: t'.local[id] == t.local[id])
  }

  /** While generated ids are free, that overwrites nothing and keeps them free. */
  lemma MintedKeeps(t: Table, t': Table, ids: seq<string>)
    requires Minted(t, t', ids) && FreshAbove(t)
    ensures FreshAbove(t') && forall id | id in t.local :: id in t'.local && t'.local[id] == t.local[id]
  {
    hide Mint;
    MintRangeFresh(t, |ids|);
    SameIdSet(ids, MintRange(t.prefix, t.counter, |ids|));
    assert forall id :: id in multiset(ids) <==> id in ids;
    forall n: nat | n > t'.counter ensures Mint(t.prefix, n) !in ids {
      NotInRange(t, |ids|, n);
    }
  }

  lemma NotInRange(t: Table, n: nat, k: nat)
    requires k > t.counter + n
    ensures Mint(t.prefix, k) !in MintRange(t.prefix, t.counter, n)
  {
    hide Mint;
    var range := MintRange(t.prefix, t.counter, n);
    forall i | 0 <= i < n ensures range[i] != Mint(t.prefix, k) {
      MintInjective(t.prefix, t.counter + 1 + i, k);
    }
  }

  /** Ids generated one after the other are different ids. */
  lemma MintedApart(t: Table, t1: Table, t2: Table, a: seq<string>, b: seq<string>)
    requires Minted(t, t1, a) && Minted(t1, t2, b)
    ensures forall id | id in a :: id !in b
  {
    var (first, second) := (MintRange(t.prefix, t.counter, |a|), MintRange(t.prefix, t1.counter, |b|));
    SameIdSet(a, first);
    SameIdSet(b, second);
    forall id | id in first ensures id !in second {
      var i :| 0 <= i < |a| && first[i] == id;
      forall j | 0 <= j < |b| ensures second[j] != id {
        MintInjective(t.prefix, t.counter + 1 + i, t1.counter + 1 + j);
      }
    }
  }

  lemma RangeConcat(t: Table, a: nat, b: nat)
    ensures MintRange(t.prefix, t.counter, a + b) == MintRange(t.prefix, t.counter, a) + MintRange(t.prefix, t.counter + a, b)
  {
  }

  lemma MintedTrans(t: Table, t1: Table, t2: Table, a: seq<string>, b: seq<string>, c: seq<string>)
    requires Minted(t, t1, a) && Minted(t1, t2, b)
    requires multiset(c) == multiset(a) + multiset(b)
    ensures Minted(t, t2, c)
  {
    hide MintRange;
    assert |c| == |multiset(c)| == |a| + |b|;
    RangeConcat(t, |a|, |b|);
  }

  lemma MintedOne(t: Table, o: ObjId)
    ensures var (id, t') := Register(t, o); Minted(t, t', [id])
  {
    assert MintRange(t.prefix, t.counter, 1) == [Register(t, o).0];
  }

  /** Cutting the id list by child: filling child by child is filling the whole. */
  ghost function Flat(part: seq<seq<string>>): seq<string> {
    if part == [] then [] else part[0] + Flat(part[1..])
  }

  ghost predicate Fits(vs: seq<Value>, part: seq<seq<string>>) {
    |part| == |vs| && forall i | 0 <= i < |vs| :: |part[i]| == |Objects(vs[i])|
  }

  lemma {:induction false} FillParts(vs: seq<Value>, part: seq<seq<string>>, b: map<string, ObjId>)
    requires Fits(vs, part)
    ensures |Flat(part)| == |ObjectsSeq(vs)|
    ensures forall i | 0 <= i < |vs| :: FillSeq(vs, Flat(part))[i] == Fill(vs[i], part[i])
    ensures (forall i | 0 <= i < |vs| :: Bound(b, part[i], Objects(vs[i]))) ==> Bound(b, Flat(part), ObjectsSeq(vs))
    decreases vs
  {
    if vs != [] {
      FillParts(vs[1..], part[1..], b);
      var n := |Objects(vs[0])|;
      assert Flat(part)[..n] == part[0] && Flat(part)[n..] == Flat(part[1..]);
      var filled := FillSeq(vs, Flat(part));
      forall i | 0 <= i < |vs| ensures filled[i] == Fill(vs[i], part[i]) {
        if i > 0 {
          assert filled[i] == FillSeq(vs[1..], Flat(part[1..]))[i - 1];
        }
      }
      if forall i | 0 <= i < |vs| :: Bound(b, part[i], Objects(vs[i])) {
        assert Bound(b, part[0], Objects(vs[0]));
        assert forall i | 0 <= i < |vs[1..]| :: Bound(b, part[1..][i], Objects(vs[1..][i]));
      }
    }
  }

  lemma {:induction false} FlatUpdate(part: seq<seq<string>>, i: nat, x: seq<string>)
    requires i < |part| && part[i] == []
    ensures multiset(Flat(part[i := x])) == multiset(Flat(part)) + multiset(x)
    decreases part
  {
    if i == 0 {
      assert part[i := x][1..] == part[1..];
    } else {
      FlatUpdate(part[1..], i - 1, x);
      assert part[i := x][1..] == part[1..][i - 1 := x];
    }
  }

  lemma {:induction false} FlatEmpty(n: nat)
    ensures Flat(seq(n, i => [])) == []
    decreases n
  {
    if n > 0 {
      var part: seq<seq<string>> := seq(n, i => []);
      var rest: seq<seq<string>> := seq(n - 1, i => []);
      assert part[1..] == rest;
      FlatEmpty(n - 1);
    }
  }

  /** Filling, total in the ids. */
  ghost function Fill'(v: Value, ids: seq<string>): Value {
    if |ids| == |Objects(v)| then Fill(v, ids) else v
  }

  /** v became w while the session went from t to t', generating ids. */
  ghost predicate Walked(v: Value, w: Value, t: Table, t': Table, ids: seq<string>) {
    && |ids| == |Objects(v)| && w == Fill(v, ids)
    && Minted(t, t', ids) && Bound(t'.local, ids, Objects(v))
  }

  /** The same for a run of elements. */
  ghost predicate WalkedSeq(vs: seq<Value>, ws: seq<Value>, t: Table, t': Table, ids: seq<string>) {
    && |ids| == |ObjectsSeq(vs)| && ws == FillSeq(vs, ids)
    && Minted(t, t', ids) && Bound(t'.local, ids, ObjectsSeq(vs))
  }

  /** The elements whose index is in done have been walked, in some order. */
  ghost predicate WalkedSome(vs: seq<Value>, done: set<int>, part: seq<seq<string>>, t: Table, t': Table) {
    && |part| == |vs|
    && (forall j | 0 <= j < |vs| && j !in done :: part[j] == [])
    && (forall j | 0 <= j < |vs| && j in done :: |part[j]| == |Objects(vs[j])| && Bound(t'.local, part[j], Objects(vs[j])))
    && Minted(t, t', Flat(part))
  }

  lemma BoundKept(b: map<string, ObjId>, b': map<string, ObjId>, ids: seq<string>, objs: seq<ObjId>, changed: seq<string>)
    requires Bound(b, ids, objs) && forall id | id in b && id !in changed :: id in b' && b'[id] == b[id]
    requires forall id | id in ids :: id !in changed
    ensures Bound(b', ids, objs)
  {
  }

  lemma {:induction false} FlatHas(part: seq<seq<string>>, j: nat, id: string)
    requires j < |part| && id in part[j]
    ensures id in Flat(part)
    decreases part
  {
    if j > 0 {
      FlatHas(part[1..], j - 1, id);
    }
  }

  lemma WalkedSomeStep(vs: seq<Value>, done: set<int>, part: seq<seq<string>>, t: Table, t1: Table, n: nat, w: Value, t2: Table, e: seq<string>)
    requires WalkedSome(vs, done, part, t, t1) && n < |vs| && n !in done && Walked(vs[n], w, t1, t2, e)
    ensures WalkedSome(vs, done + {n}, part[n := e], t, t2)
  {
    hide Flat, Objects, Fill, MintRange;
    var part' := part[n := e];
    MintedApart(t, t1, t2, Flat(part), e);
    assert forall id :: id in e <==> id in multiset(e);
    forall j | 0 <= j < |vs| && j in done + {n}
      ensures |part'[j]| == |Objects(vs[j])| && Bound(t2.local, part'[j], Objects(vs[j]))
    {
      if j != n {
        forall id | id in part[j] ensures id !in e {
          FlatHas(part, j, id);
        }
        BoundKept(t1.local, t2.local, part[j], Objects(vs[j]), e);
      }
    }
    assert Minted(t, t2, Flat(part')) by {
      FlatUpdate(part, n, e);
      MintedTrans(t, t1, t2, Flat(part), e, Flat(part'));
    }
  }

  lemma WalkedAll(vs: seq<Value>, done: set<int>, part: seq<seq<string>>, t: Table, t': Table) returns (ws: seq<Value>)
    requires WalkedSome(vs, done, part, t, t') && forall j | 0 <= j < |vs| :: j in done
    ensures WalkedSeq(vs, ws, t, t', Flat(part)) && Fits(vs, part) && |ws| == |vs|
    ensures forall j | 0 <= j < |vs| :: ws[j] == Fill'(vs[j], part[j])
  {
    FillParts(vs, part, t'.local);
    ws := FillSeq(vs, Flat(part));
  }

  /** An unchanged tree had no object in it. */
  lemma UnchangedMeansNoObjects(vs: seq<Value>, ids: seq<string>)
    requires |ids| == |ObjectsSeq(vs)| && FillSeq(vs, ids) == vs
    ensures ObjectsSeq(vs) == [] && ids == []
  {
    FillRefsSeq(vs, ids);
  }

  lemma {:induction false} ChildHasObjects(vs: seq<Value>, j: nat)
    requires j < |vs| && Objects(vs[j]) != []
    ensures ObjectsSeq(vs) != []
    decreases vs
  {
    if j > 0 {
      ChildHasObjects(vs[1..], j - 1);
      assert |ObjectsSeq(vs)| == |Objects(vs[0])| + |ObjectsSeq(vs[1..])|;
    }
  }

  /** The heap value x stands for the tree v. */
  ghost predicate Elem(x: GoValue, v: Value, d: nat, F: set<object>)
    reads F
  {
    Tree(x, d, F) && Abs(x, d, F) == v
  }

  /** The first n heap values of xs stand for the filled trees. */
  ghost predicate Holds(xs: seq<GoValue>, n: nat, vs: seq<Value>, part: seq<seq<string>>, d: nat, F: set<object>)
    requires n <= |xs|
    reads F
  {
    && |xs| == |vs| == |part|
    && forall j | 0 <= j < n :: |part[j]| == |Objects(vs[j])| && Elem(xs[j], Fill'(vs[j], part[j]), d, F)
  }

  lemma HoldsGrow(xs: seq<GoValue>, n: nat, vs: seq<Value>, part: seq<seq<string>>, d: nat, F: set<object>, F': set<object>)
    requires n <= |xs| && Holds(xs, n, vs, part, d, F) && F <= F'
    ensures Holds(xs, n, vs, part, d, F')
  {
    forall j | 0 <= j < n ensures Elem(xs[j], Fill'(vs[j], part[j]), d, F') {
      assert Elem(xs[j], Fill'(vs[j], part[j]), d, F);
      Grow(xs[j], d, F, F');
    }
  }

  lemma HoldsStep(xs: seq<GoValue>, n: nat, vs: seq<Value>, part: seq<seq<string>>, d: nat, F: set<object>, x: GoValue, e: seq<string>)
    requires n < |xs| && Holds(xs, n, vs, part, d, F)
    requires |e| == |Objects(vs[n])| && Elem(x, Fill'(vs[n], e), d, F)
    ensures Holds(xs[n := x], n + 1, vs, part[n := e], d, F)
  {
  }

  lemma AbsSeqIs(xs: seq<GoValue>, vs: seq<Value>, d: nat, F: set<object>)
    requires |xs| == |vs| && forall j | 0 <= j < |xs| :: Elem(xs[j], vs[j], d, F)
    ensures forall j | 0 <= j < |xs| :: Tree(xs[j], d, F)
    ensures AbsSeq(xs, d, F) == vs
  {
  }

  ghost predicate HoldsSome(m: map<string, GoValue>, ks: seq<string>, done: set<int>, vs: seq<Value>, part: seq<seq<string>>, d: nat, F: set<object>)
    reads F
  {
    && |ks| == |vs| == |part|
    && forall j | 0 <= j < |ks| && j in done ::
         && ks[j] in m && |part[j]| == |Objects(vs[j])| && Elem(m[ks[j]], Fill'(vs[j], part[j]), d, F)
  }

  lemma HoldsSomeGrow(m: map<string, GoValue>, ks: seq<string>, done: set<int>, vs: seq<Value>, part: seq<seq<string>>, d: nat, F: set<object>, F': set<object>)
    requires HoldsSome(m, ks, done, vs, part, d, F) && F <= F'
    ensures HoldsSome(m, ks, done, vs, part, d, F')
  {
    forall j | 0 <= j < |ks| && j in done
      ensures Elem(m[ks[j]], Fill'(vs[j], part[j]), d, F')
    {
      assert Elem(m[ks[j]], Fill'(vs[j], part[j]), d, F);
      Grow(m[ks[j]], d, F, F');
    }
  }

  lemma HoldsSomeStep(m: map<string, GoValue>, ks: seq<string>, done: set<int>, vs: seq<Value>, part: seq<seq<string>>, d: nat, F: set<object>, n: nat, x: GoValue, e: seq<string>)
    requires HoldsSome(m, ks, done, vs, part, d, F)
    requires n < |ks| && n !in done && ks[n] !in m
    requires |e| == |Objects(vs[n])| && Elem(x, Fill'(vs[n], e), d, F)
    ensures HoldsSome(m[ks[n] := x], ks, done + {n}, vs, part[n := e], d, F)
  {
  }

  /** The filled copy of a slice, once its own cell joins the footprint. */
  lemma SliceCopied(a: array<GoValue>, src: seq<Value>, ws: seq<Value>, part: seq<seq<string>>, d: nat, F: set<object>, F': set<object>)
    requires d > 0 && F <= F' && a in F' && |ws| == |src|
    requires Holds(a[..], a.Length, src, part, d - 1, F)
    requires forall j | 0 <= j < |src| :: ws[j] == Fill'(src[j], part[j])
    ensures Elem(GSlice(a), Arr(ws), d, F')
  {
    HoldsGrow(a[..], a.Length, src, part, d - 1, F, F');
    assert forall j | 0 <= j < a.Length :: Elem(a[..][j], Fill'(src[j], part[j]), d - 1, F');
    AbsSeqIs(a[..], ws, d - 1, F');
  }

  lemma MapCopied(m: GoMap, done: set<int>, src: seq<Value>, ws: seq<Value>, part: seq<seq<string>>, d: nat, F: set<object>, F': set<object>)
    requires d > 0 && F <= F' && m in F' && |ws| == |src|
    requires HoldsSome(m.entries, Enum(m.entries.Keys), done, src, part, d - 1, F)
    requires forall j | 0 <= j < |src| :: j in done
    requires forall j | 0 <= j < |src| :: ws[j] == Fill'(src[j], part[j])
    ensures Elem(GMap(m), Rec(Enum(m.entries.Keys), ws), d, F')
  {
    var ks := Enum(m.entries.Keys);
    HoldsSomeGrow(m.entries, ks, done, src, part, d - 1, F, F');
    forall k | k in m.entries ensures Tree(m.entries[k], d - 1, F') {
      assert k in ks;
      var j :| 0 <= j < |ks| && ks[j] == k;
      assert Elem(m.entries[ks[j]], Fill'(src[j], part[j]), d - 1, F');
    }
    assert forall j | 0 <= j < |ks| :: Elem(m.entries[ks[j]], Fill'(src[j], part[j]), d - 1, F');
    AbsSeqIs(Select(m.entries, ks), ws, d - 1, F');
  }

  lemma AllVisited(ks: seq<string>, done: set<int>)
    requires Visited(ks, done, {})
    ensures forall j | 0 <= j < |ks| :: j in done
  {
  }

  lemma {:induction false} SomeObject(vs: seq<Value>)
    requires HasObject(vs)
    ensures ObjectsSeq(vs) != []
  {
    var j :| 0 <= j < |vs| && Objects(vs[j]) != [];
    ChildHasObjects(vs, j);
  }

  lemma WalkedContainer(vs: seq<Value>, ws: seq<Value>, t: Table, t': Table, ids: seq<string>, ks: seq<string>)
    requires WalkedSeq(vs, ws, t, t', ids)
    ensures Walked(Arr(vs), Arr(ws), t, t', ids) && Arr(ws) == Fill'(Arr(vs), ids)
    ensures Walked(Rec(ks, vs), Rec(ks, ws), t, t', ids) && Rec(ks, ws) == Fill'(Rec(ks, vs), ids)
  {
  }

  /** When no element changed, nothing was registered and the filled tree is the source. */
  lemma NothingChanged(src: seq<Value>, ws: seq<Value>, done: set<int>, part: seq<seq<string>>, t: Table, t': Table)
    requires WalkedSeq(src, ws, t, t', Flat(part)) && |ws| == |src| == |part|
    requires Same(src, done, part) && forall j | 0 <= j < |src| :: j in done
    requires forall j | 0 <= j < |src| :: ws[j] == Fill'(src[j], part[j])
    ensures ObjectsSeq(src) == [] && ws == src
  {
    assert ws == src;
    UnchangedMeansNoObjects(src, Flat(part));
  }

  /**
    The head of both loops: walk an element and compare it with the result.
    `modified` is set exactly when the element held an object.
  */
  method WalkElement(session: Session, x: GoValue, ghost v: Value, ghost d: nat, ghost F: set<object>, ghost G: set<object>)
    returns (y: GoValue, differs: bool, ghost G': set<object>, ghost e: seq<string>)
    requires Elem(x, v, d, F) && session !in F
    modifies session
    ensures G <= G' && fresh(G' - G)
    ensures Walked(v, Fill'(v, e), old(session.State()), session.State(), e)
    ensures Elem(y, Fill'(v, e), d, F + G') && |e| == |Objects(v)|
    ensures differs <==> Objects(v) != []
    ensures !differs ==> Fill'(v, e) == v
    decreases d, 2
  {
    hide Walked, Objects, Tree, Abs, DeepEqual;
    ghost var g;
    y, g, e := WalkValue(session, x, v, d, F);
    WalkedIs(v, Fill'(v, e), old(session.State()), session.State(), e);
    G' := G + g;
    Grow(x, d, F, F + G');
    Grow(y, d, F + g, F + G');
    differs := !DeepEqual(x, y, d, F + G');
    if x == y {
      DeepEqualRefl(x, d, F + G');
    }
    if !differs {
      DeepEqualSound(x, y, d, F + G');
      FillRefs(v, e);
    }
  }

  /** The loop of `walkSlice`: a fresh slice with every element walked. */
  method WalkItems(session: Session, a: array<GoValue>, ghost src: seq<Value>, ghost d: nat, ghost F: set<object>)
    returns (newSlice: array<GoValue>, modified: bool, ghost G: set<object>, ghost done: set<int>, ghost part: seq<seq<string>>)
    requires a in F && session !in F
    requires |src| == a.Length && forall i | 0 <= i < a.Length :: Elem(a[i], src[i], d, F)
    modifies session
    ensures fresh(G) && fresh(newSlice) && newSlice.Length == a.Length
    ensures Holds(newSlice[..], a.Length, src, part, d, F + G)
    ensures forall j | 0 <= j < a.Length :: j in done
    ensures WalkedSome(src, done, part, old(session.State()), session.State())
    ensures !modified ==> Same(src, done, part)
    ensures modified ==> HasObject(src)
    decreases d, 3
  {
    hide *;
    ghost var before := session.State();
    ghost var elems := a[..];
    newSlice := new GoValue[a.Length](_ => GNil);
    ghost var cells := newSlice[..];
    modified, G, done, part := false, {}, {}, seq(a.Length, i => []);
    NothingWalkedYet(src, part, before);
    NothingHeldYetSeq(cells, src, part, d, F + G);
    for i := 0 to a.Length
      invariant fresh(G) && newSlice !in G && session !in G && a[..] == elems && newSlice[..] == cells
      invariant forall j | 0 <= j < a.Length :: Elem(elems[j], src[j], d, F)
      invariant Holds(cells, i, src, part, d, F + G)
      invariant forall j :: j in done <==> 0 <= j < i
      invariant WalkedSome(src, done, part, before, session.State()) && |part| == |src|
      invariant !modified ==> Same(src, done, part)
      invariant modified ==> HasObject(src)
    {
      ghost var mid := session.State();
      var newElem, differs, G', e := WalkElement(session, a[i], src[i], d, F, G);
      modified := modified || differs;
      SameStep(src, done, part, i, e);
      HoldsGrow(cells, i, src, part, d, F + G, F + G');
      WalkedSomeStep(src, done, part, before, mid, i, Fill'(src[i], e), session.State(), e);
      HoldsStep(cells, i, src, part, d, F + G', newElem, e);
      newSlice[i] := newElem;
      cells := cells[i := newElem];
      part, done, G := part[i := e], done + {i}, G';
    }
  }

  /** The entries of a map, listed in the order ks, stand for the trees src. */
  ghost predicate Source(m: map<string, GoValue>, ks: seq<string>, src: seq<Value>, d: nat, F: set<object>)
    reads F
  {
    && |src| == |ks| && (forall i, j | 0 <= i < j < |ks| :: ks[i] != ks[j])
    && forall i | 0 <= i < |ks| :: ks[i] in m && Elem(m[ks[i]], src[i], d, F)
  }

  /** Exactly the entries still in todo have not been visited. */
  ghost predicate Visited(ks: seq<string>, done: set<int>, todo: set<string>) {
    && (forall k | k in todo :: k in ks)
    && forall j | 0 <= j < |ks| :: j in done <==> ks[j] !in todo
  }

  ghost predicate Same(src: seq<Value>, done: set<int>, part: seq<seq<string>>) {
    |part| == |src| && forall j | 0 <= j < |src| && j in done :: Fill'(src[j], part[j]) == src[j]
  }

  ghost predicate HasObject(src: seq<Value>) {
    exists j | 0 <= j < |src| :: Objects(src[j]) != []
  }

  lemma VisitOne(m: map<string, GoValue>, ks: seq<string>, src: seq<Value>, d: nat, F: set<object>, done: set<int>, todo: set<string>, key: string) returns (n: nat)
    requires Source(m, ks, src, d, F) && Visited(ks, done, todo) && key in todo
    ensures n < |ks| && ks[n] == key && n !in done && Visited(ks, done + {n}, todo - {key})
    ensures n < |src| && key in m && Elem(m[key], src[n], d, F)
  {
    n :| n < |ks| && ks[n] == key;
  }

  lemma SameStep(src: seq<Value>, done: set<int>, part: seq<seq<string>>, n: nat, e: seq<string>)
    requires n < |src| && n !in done && |part| == |src|
    ensures Same(src, done, part) && Fill'(src[n], e) == src[n] ==> Same(src, done + {n}, part[n := e])
    ensures Objects(src[n]) != [] ==> HasObject(src)
  {
  }

  /** The loop of `walkMap`: a fresh map with every entry walked, in the order the runtime offers them. */
  method WalkEntries(session: Session, m: GoMap, ghost ks: seq<string>, ghost src: seq<Value>, ghost d: nat, ghost F: set<object>)
    returns (newMap: GoMap, modified: bool, ghost G: set<object>, ghost done: set<int>, ghost part: seq<seq<string>>)
    requires m in F && session !in F
    requires Source(m.entries, ks, src, d, F) && Visited(ks, {}, m.entries.Keys) && |ks| == |src|
    modifies session
    ensures fresh(G) && fresh(newMap) && newMap.entries.Keys == m.entries.Keys
    ensures HoldsSome(newMap.entries, ks, done, src, part, d, F + G) && Visited(ks, done, {})
    ensures WalkedSome(src, done, part, old(session.State()), session.State())
    ensures !modified ==> Same(src, done, part)
    ensures modified ==> HasObject(src)
    decreases d, 3
  {
    hide *;
    ghost var before := session.State();
    var entries := m.entries;
    newMap := new GoMap();
    var todo := entries.Keys;
    modified, G, done, part := false, {}, {}, seq(|src|, i => []);
    NothingWalkedYet(src, part, before);
    NothingHeldYet(newMap.entries, ks, src, part, d, F + G);
    while todo != {}
      invariant fresh(G) && newMap !in G && session !in G && m.entries == entries
      invariant Source(entries, ks, src, d, F) && Visited(ks, done, todo)
      invariant todo <= entries.Keys && newMap.entries.Keys == entries.Keys - todo
      invariant WalkedSome(src, done, part, before, session.State()) && |part| == |src|
      invariant HoldsSome(newMap.entries, ks, done, src, part, d, F + G)
      invariant !modified ==> Same(src, done, part)
      invariant modified ==> HasObject(src)
      decreases todo
    {
      var key :| key in todo;
      ghost var n := VisitOne(entries, ks, src, d, F, done, todo, key);
      ghost var mid := session.State();
      var newVal, differs, G', e := WalkElement(session, entries[key], src[n], d, F, G);
      modified := modified || differs;
      SameStep(src, done, part, n, e);
      HoldsSomeGrow(newMap.entries, ks, done, src, part, d, F + G, F + G');
      WalkedSomeStep(src, done, part, before, mid, n, Fill'(src[n], e), session.State(), e);
      HoldsSomeStep(newMap.entries, ks, done, src, part, d, F + G', n, newVal, e);
      newMap.entries := newMap.entries[key := newVal];
      part, done, todo, G := part[n := e], done + {n}, todo - {key}, G';
    }
  }

  lemma NothingHeldYetSeq(xs: seq<GoValue>, src: seq<Value>, part: seq<seq<string>>, d: nat, F: set<object>)
    requires |xs| == |src| == |part|
    ensures Holds(xs, 0, src, part, d, F) && Same(src, {}, part)
  {
  }

  lemma NothingHeldYet(m: map<string, GoValue>, ks: seq<string>, src: seq<Value>, part: seq<seq<string>>, d: nat, F: set<object>)
    requires |ks| == |src| == |part|
    ensures HoldsSome(m, ks, {}, src, part, d, F) && Same(src, {}, part)
  {
  }

  lemma NothingWalkedYet(src: seq<Value>, part: seq<seq<string>>, t: Table)
    requires part == seq(|src|, i => [])
    ensures WalkedSome(src, {}, part, t, t)
  {
    FlatEmpty(|src|);
    assert MintRange(t.prefix, t.counter, 0) == [];
  }

  lemma LeafHasNoObjects(v: GoValue, d: nat, F: set<object>)
    requires !v.GObj? && !v.GSlice? && !v.GMap? && Tree(v, d, F)
    ensures Objects(Abs(v, d, F)) == []
  {
    if v.GRef? {
      FillIsRef(Obj(0), [v.id]);
      FillRefs(Obj(0), [v.id]);
    }
  }

  lemma NoObjectsMeansUnchanged(v: Value)
    requires Objects(v) == []
    ensures Fill(v, []) == v
  {
    var t := Table("", 0, map[], {}, multiset{});
    WalkIsFill(v, t);
    NothingToWalk(v, t);
    assert MintRange("", 0, 0) == [];
  }

  lemma OpenSlice(a: array<GoValue>, v: Value, d: nat, F: set<object>) returns (src: seq<Value>)
    requires Elem(GSlice(a), v, d, F)
    ensures d > 0 && a in F && v == Arr(src) && |src| == a.Length
    ensures forall i | 0 <= i < a.Length :: Elem(a[i], src[i], d - 1, F)
    ensures Objects(v) == ObjectsSeq(src)
  {
    src := AbsSeq(a[..], d - 1, F);
  }

  lemma OpenMap(m: GoMap, v: Value, d: nat, F: set<object>) returns (ks: seq<string>, src: seq<Value>)
    requires Elem(GMap(m), v, d, F)
    ensures d > 0 && m in F && ks == Enum(m.entries.Keys) && v == Rec(ks, src) && |ks| == |src|
    ensures Source(m.entries, ks, src, d - 1, F) && Visited(ks, {}, m.entries.Keys)
    ensures Objects(v) == ObjectsSeq(src)
  {
    hide Enum, Select, AbsSeq;
    ks := Enum(m.entries.Keys);
    var xs := Select(m.entries, ks);
    src := AbsSeq(xs, d - 1, F);
    assert forall i | 0 <= i < |ks| :: ks[i] in ks && xs[i] == m.entries[ks[i]] && Tree(xs[i], d - 1, F);
    hide Tree, Abs;
  }

  lemma ElemGrow(x: GoValue, v: Value, d: nat, F: set<object>, F': set<object>)
    requires Elem(x, v, d, F) && F <= F'
    ensures Elem(x, v, d, F')
  {
    Grow(x, d, F, F');
  }

  lemma EmptyHasNoObjects(x: GoValue, v: Value, d: nat, F: set<object>, t: Table)
    requires Elem(x, v, d, F)
    requires x.GSlice? ==> x.a.Length == 0
    requires x.GMap? ==> x.m.entries == map[]
    requires !x.GObj?
    ensures Objects(v) == [] && Walked(v, Fill'(v, []), t, t, []) && Elem(x, Fill'(v, []), d, F + {})
  {
    if !x.GSlice? && !x.GMap? {
      LeafHasNoObjects(x, d, F);
    }
    NoObjectsMeansUnchanged(v);
    assert MintRange(t.prefix, t.counter, 0) == [];
    assert F + {} == F;
  }

  lemma ObjectWalked(o: ObjId, v: Value, t: Table, d: nat, F: set<object>)
    requires Elem(GObj(o), v, d, F)
    ensures var (id, t') := Register(t, o);
            && Walked(v, Fill'(v, [id]), t, t', [id]) && Elem(GRef(id), Fill'(v, [id]), d, F + {}) && Objects(v) != []
  {
    MintedOne(t, o);
  }

  /** `walkValue`. Only the session is modified: no input container is ever written. */
  method WalkValue(session: Session, x: GoValue, ghost v: Value, ghost d: nat, ghost F: set<object>)
    returns (r: GoValue, ghost G: set<object>, ghost ids: seq<string>)
    requires Elem(x, v, d, F) && session !in F
    modifies session
    ensures fresh(G) && Elem(r, Fill'(v, ids), d, F + G)
    ensures Walked(v, Fill'(v, ids), old(session.State()), session.State(), ids)
    ensures r == x <==> Objects(v) == []
    decreases d, 1
  {
    hide *;
    match x
    case GObj(o) =>
      ObjectWalked(o, v, session.State(), d, F);
      var ref := session.AddLocalRef("", o);
      r, G, ids := GRef(ref), {}, [ref];
    case GSlice(a) =>
      r, G, ids := WalkSlice(session, a, v, d, F);
    case GMap(m) =>
      r, G, ids := WalkMap(session, m, v, d, F);
    case _ =>
      r, G, ids := x, {}, [];
      EmptyHasNoObjects(x, v, d, F, session.State());
  }

  method WalkSlice(session: Session, a: array<GoValue>, ghost v: Value, ghost d: nat, ghost F: set<object>)
    returns (r: GoValue, ghost G: set<object>, ghost ids: seq<string>)
    requires Elem(GSlice(a), v, d, F) && session !in F
    modifies session
    ensures fresh(G) && Elem(r, Fill'(v, ids), d, F + G)
    ensures Walked(v, Fill'(v, ids), old(session.State()), session.State(), ids)
    ensures r == GSlice(a) <==> Objects(v) == []
    decreases d, 0
  {
    hide *;
    if a.Length == 0 {
      EmptyHasNoObjects(GSlice(a), v, d, F, session.State());
      return GSlice(a), {}, [];
    }
    ghost var before := session.State();
    ghost var src := OpenSlice(a, v, d, F);
    var newSlice, modified;
    ghost var done, part;
    newSlice, modified, G, done, part := WalkItems(session, a, src, d - 1, F);
    ids := Flat(part);
    ghost var ws := WalkedAll(src, done, part, before, session.State());
    WalkedContainer(src, ws, before, session.State(), ids, []);
    if modified {
      SliceCopied(newSlice, src, ws, part, d, F + G, F + (G + {newSlice}));
      SomeObject(src);
      return GSlice(newSlice), G + {newSlice}, ids;
    }
    NothingChanged(src, ws, done, part, before, session.State());
    ElemGrow(GSlice(a), v, d, F, F + G);
    return GSlice(a), G, ids;
  }

  method WalkMap(session: Session, m: GoMap, ghost v: Value, ghost d: nat, ghost F: set<object>)
    returns (r: GoValue, ghost G: set<object>, ghost ids: seq<string>)
    requires Elem(GMap(m), v, d, F) && session !in F
    modifies session
    ensures fresh(G) && Elem(r, Fill'(v, ids), d, F + G)
    ensures Walked(v, Fill'(v, ids), old(session.State()), session.State(), ids)
    ensures r == GMap(m) <==> Objects(v) == []
    decreases d, 0
  {
    hide *;
    if m.entries == map[] {
      EmptyHasNoObjects(GMap(m), v, d, F, session.State());
      return GMap(m), {}, [];
    }
    ghost var before := session.State();
    ghost var ks, src := OpenMap(m, v, d, F);
    var newMap, modified;
    ghost var done, part;
    newMap, modified, G, done, part := WalkEntries(session, m, ks, src, d - 1, F);
    AllVisited(ks, done);
    ids := Flat(part);
    ghost var ws := WalkedAll(src, done, part, before, session.State());
    WalkedContainer(src, ws, before, session.State(), ids, ks);
    if modified {
      MapCopied(newMap, done, src, ws, part, d, F + G, F + (G + {newMap}));
      SomeObject(src);
      return GMap(newMap), G + {newMap}, ids;
    }
    NothingChanged(src, ws, done, part, before, session.State());
    ElemGrow(GMap(m), v, d, F, F + G);
    return GMap(m), G, ids;
  }

  /** Ids as a dictionary: the k-th of one list becomes the k-th of the other. */
  ghost function Renaming(ids: seq<string>, ids': seq<string>): map<string, string>
    requires |ids| == |ids'|
  {
    if ids == [] then map[] else Renaming(ids[1..], ids'[1..])[ids[0] := ids'[0]]
  }

  lemma {:induction false} RenamingMaps(ids: seq<string>, ids': seq<string>)
    requires |ids| == |ids'| && forall i, j | 0 <= i < j < |ids| :: ids[i] != ids[j]
    ensures Renaming(ids, ids').Keys == set s | s in ids
    ensures forall k | 0 <= k < |ids| :: Renaming(ids, ids')[ids[k]] == ids'[k]
    decreases ids
  {
    if ids != [] {
      RenamingMaps(ids[1..], ids'[1..]);
      assert ids == [ids[0]] + ids[1..];
      forall k | 0 <= k < |ids| ensures Renaming(ids, ids')[ids[k]] == ids'[k] {
        if k > 0 {
          assert ids[k] == ids[1..][k - 1];
        }
      }
    }
  }

  /** A list with the same ids as one without repetitions has none either. */
  lemma SameIdsDistinct(ids: seq<string>, ids': seq<string>)
    requires multiset(ids) == multiset(ids') && forall i, j | 0 <= i < j < |ids'| :: ids'[i] != ids'[j]
    ensures forall i, j | 0 <= i < j < |ids| :: ids[i] != ids[j]
  {
    forall i, j | 0 <= i < j < |ids| ensures ids[i] != ids[j] {
      if ids[i] == ids[j] {
        assert ids == ids[..i] + [ids[i]] + ids[i + 1..j] + [ids[j]] + ids[j + 1..];
        assert multiset(ids)[ids[i]] >= 2;
        OncePerId(ids', ids[i]);
      }
    }
  }

  lemma {:induction false} OncePerId(ids: seq<string>, id: string)
    requires forall i, j | 0 <= i < j < |ids| :: ids[i] != ids[j]
    ensures multiset(ids)[id] <= 1
    decreases ids
  {
    if ids != [] {
      OncePerId(ids[1..], id);
      assert ids == [ids[0]] + ids[1..];
      if ids[0] == id {
        assert id !in ids[1..];
      }
    }
  }

  lemma RenamingValues(ids: seq<string>, ids': seq<string>)
    requires |ids| == |ids'| && forall i, j | 0 <= i < j < |ids| :: ids[i] != ids[j]
    ensures Renaming(ids, ids').Values == set s | s in ids'
  {
    RenamingMaps(ids, ids');
    var re := Renaming(ids, ids');
    forall s | s in ids' ensures s in re.Values {
      var k :| 0 <= k < |ids'| && ids'[k] == s;
      assert ids[k] in re && re[ids[k]] == s;
    }
    forall s | s in re.Values ensures s in ids' {
      var id :| id in re && re[id] == s;
      var k :| 0 <= k < |ids| && ids[k] == id;
    }
  }

  lemma SameIdSet(ids: seq<string>, ids': seq<string>)
    requires multiset(ids) == multiset(ids')
    ensures forall id :: id in ids <==> id in ids'
  {
    assert forall id :: id in ids <==> id in multiset(ids);
  }

  /** The renaming between the ids of the heap walk and those of the plain walk. */
  lemma RenamingBetween(ids: seq<string>, ids0: seq<string>, re: map<string, string>)
    requires multiset(ids) == multiset(ids0) && |ids| == |ids0|
    requires forall i, j | 0 <= i < j < |ids0| :: ids0[i] != ids0[j]
    requires re == Renaming(ids, ids0)
    ensures forall k | 0 <= k < |ids| :: ids[k] in re && re[ids[k]] == ids0[k]
    ensures re.Keys == re.Values == set s | s in ids0
    ensures forall id | id in re :: id in ids
  {
    SameIdsDistinct(ids, ids0);
    SameIdSet(ids, ids0);
    RenamingMaps(ids, ids0);
    RenamingValues(ids, ids0);
  }

  /** The renaming re carries the heap walk's outcome to the plain walk's. */
  ghost predicate RenamesTo(w: Value, t': Table, r: Value, plain: Table, re: map<string, string>) {
    && t'.counter == plain.counter && t'.local.Keys == plain.local.Keys
    && re.Keys == re.Values
    && Rename(w, re) == r
    && (forall id | id in re :: id in t'.local && re[id] in plain.local && plain.local[re[id]] == t'.local[id])
    && (forall id | id in t'.local && id !in re :: plain.local[id] == t'.local[id])
  }

  /**
    Copy-on-write refines the plain walk: whatever order the maps were visited
    in, the heap walk and the plain walk use the same ids, and one renaming of
    them turns the heap walk's result into the plain one's and its bindings into
    the plain bindings, and no other binding differs. A reference the author wrote
    by hand must not be named like one of them.
  */
  lemma CopyOnWriteRefinesWalk(v: Value, w: Value, t: Table, t': Table, ids: seq<string>)
    requires Walked(v, w, t, t', ids)
    requires forall id | id in MintRange(t.prefix, t.counter, |Objects(v)|) :: id !in Refs(v)
    ensures var ids0 := MintRange(t.prefix, t.counter, |ids|);
            var re := Renaming(ids, ids0);
            re.Keys == (set id | id in ids0) && RenamesTo(w, t', Walk(v, t).0, Walk(v, t).1, re)
  {
    hide *;
    var ids0 := MintRange(t.prefix, t.counter, |ids|);
    var re := Renaming(ids, ids0);
    MintRangeFresh(t, |ids|);
    WalkedIs(v, w, t, t', ids);
    RenamingBetween(ids, ids0, re);
    PlainTable(v, t, ids0);
    HeapTable(t, t', ids, re);
    RenamedValue(v, t, ids, ids0, re);
    BindingsAgree(t'.local, Walk(v, t).1.local, ids, ids0, Objects(v), re);
    OthersAgree(t, t', Walk(v, t).1, re);
    RenamesAll(w, t', Walk(v, t).0, Walk(v, t).1, re);
  }

  lemma WalkedIs(v: Value, w: Value, t: Table, t': Table, ids: seq<string>)
    requires Walked(v, w, t, t', ids)
    ensures |ids| == |Objects(v)| && w == Fill(v, ids) && Minted(t, t', ids) && Bound(t'.local, ids, Objects(v))
    ensures t'.counter == t.counter + |ids| && multiset(ids) == multiset(MintRange(t.prefix, t.counter, |ids|))
  {
  }

  lemma OthersAgree(t: Table, t': Table, plain: Table, re: map<string, string>)
    requires t'.local.Keys == t.local.Keys + re.Keys == plain.local.Keys
    requires forall id | id in t'.local && id !in re :: id in t.local && t'.local[id] == t.local[id]
    requires forall id | id in t.local && id !in re :: id in plain.local && plain.local[id] == t.local[id]
    ensures forall id | id in t'.local && id !in re :: id in plain.local && plain.local[id] == t'.local[id]
  {
  }

  lemma RenamesAll(w: Value, t': Table, r: Value, plain: Table, re: map<string, string>)
    requires t'.counter == plain.counter && t'.local.Keys == plain.local.Keys && re.Keys == re.Values && Rename(w, re) == r
    requires forall id | id in re :: id in t'.local && re[id] in plain.local && plain.local[re[id]] == t'.local[id]
    requires forall id | id in t'.local && id !in re :: id in plain.local && plain.local[id] == t'.local[id]
    ensures RenamesTo(w, t', r, plain, re)
  {
  }

  lemma RenamedValue(v: Value, t: Table, ids: seq<string>, ids0: seq<string>, re: map<string, string>)
    requires |ids| == |Objects(v)| && ids0 == MintRange(t.prefix, t.counter, |ids|)
    requires forall k | 0 <= k < |ids| :: ids[k] in re && re[ids[k]] == ids0[k]
    requires re.Keys == (set s | s in ids0) && forall id | id in ids0 :: id !in Refs(v)
    ensures Rename(Fill(v, ids), re) == Walk(v, t).0
  {
    WalkIsFill(v, t);
    RenameFill(v, ids, ids0, re);
  }

  lemma PlainTable(v: Value, t: Table, ids0: seq<string>)
    requires ids0 == MintRange(t.prefix, t.counter, |Objects(v)|)
    ensures var plain := Walk(v, t).1;
            && plain.counter == t.counter + |ids0|
            && plain.local.Keys == t.local.Keys + (set s | s in ids0)
            && Bound(plain.local, ids0, Objects(v))
            && forall id | id in t.local && id !in ids0 :: plain.local[id] == t.local[id]
  {
    WalkIsFill(v, t);
    MintRangeFresh(t, |ids0|);
    BindAllDistinct(t.local, ids0, Objects(v));
  }

  lemma HeapTable(t: Table, t': Table, ids: seq<string>, re: map<string, string>)
    requires Minted(t, t', ids)
    requires re.Keys == set s | s in MintRange(t.prefix, t.counter, |ids|)
    ensures t'.local.Keys == t.local.Keys + re.Keys
    ensures forall id | id in t'.local && id !in re :: id in t.local && t'.local[id] == t.local[id]
  {
    SameIdSet(ids, MintRange(t.prefix, t.counter, |ids|));
    assert forall id :: id in multiset(ids) <==> id in re.Keys;
  }

  lemma BindingsAgree(heap: map<string, ObjId>, plain: map<string, ObjId>, ids: seq<string>, ids0: seq<string>, objs: seq<ObjId>, re: map<string, string>)
    requires Bound(heap, ids, objs) && Bound(plain, ids0, objs)
    requires forall k | 0 <= k < |ids| :: ids[k] in re && re[ids[k]] == ids0[k]
    requires forall id | id in re :: id in ids
    ensures forall id | id in re :: id in heap && re[id] in plain && plain[re[id]] == heap[id]
  {
  }
}
