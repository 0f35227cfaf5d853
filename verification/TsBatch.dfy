/**
  `executeBatch` over a TypeScript peer (ts/src/batch.ts, ts/src/peer.ts). The peer's
  `batch` hands back the results of the calls where the aligning loops expect responses.
*/
module TsBatch {
  import opened Basics
  import opened Text
  import opened Values
  import opened Messages
  import opened Pipeline
  import Ts = TsHandler

  /** `Promise.all` over the calls of a batch: their results in order, or a rejection if one of them failed. */
  function PeerBatch(outs: seq<Outcome>): Option<seq<Value>> {
    if outs == [] then Some([])
    else
      var (init, last) := (PeerBatch(outs[..|outs| - 1]), outs[|outs| - 1]);
      if init.Some? && last.Done? then Some(init.value + [last.v]) else None
  }

  /** The `id` property of a result, if it is one a request could carry. A reference has none, and most results have none. */
  function OwnId(v: Value, asId: Value -> Option<Id>): Option<Id> {
    if v.Rec? then
      match Lookup(v.keys, v.vals, "id")
      case Some(x) => asId(x)
      case None => None
    else None
  }

  /** The result listed last that carries the id itself. */
  function Find(values: seq<Value>, asId: Value -> Option<Id>, id: Id): Option<Value> {
    if values == [] then None
    else
      var v := values[|values| - 1];
      if OwnId(v, asId) == Some(id) then Some(v) else Find(values[..|values| - 1], asId, id)
  }

  /** A property of null or undefined cannot be read. */
  predicate Readable(values: seq<Value>) {
    forall i | 0 <= i < |values| :: values[i] != Null && values[i] != Absent
  }

  function Entries(requests: seq<Request>, values: seq<Value>, asId: Value -> Option<Id>): (r: seq<Option<Value>>)
    ensures |r| == |requests|
  {
    seq(|requests|, i requires 0 <= i < |requests| =>
      if requests[i].id.None? then None else Find(values, asId, requests[i].id.value))
  }

  /** The two loops; None when they throw. */
  method AlignValues(requests: seq<Request>, values: seq<Value>, asId: Value -> Option<Id>) returns (r: Option<seq<Option<Value>>>)
    ensures r == if Readable(values) then Some(Entries(requests, values, asId)) else None
  {
    var responseMap: map<Id, Value> := map[];
    for i := 0 to |values|
      invariant Readable(values[..i])
      invariant forall k :: k in responseMap <==> Find(values[..i], asId, k).Some?
      invariant forall k | k in responseMap :: Find(values[..i], asId, k) == Some(responseMap[k])
    {
      assert values[..i + 1][..i] == values[..i];
      if values[i] == Null || values[i] == Absent {
        return None;
      }
      var id := OwnId(values[i], asId);
      if id.Some? {
        responseMap := responseMap[id.value := values[i]];
      }
    }
    assert values[..|values|] == values;
    var aligned: seq<Option<Value>> := [];
    for i := 0 to |requests|
      invariant |aligned| == i && forall j | 0 <= j < i :: aligned[j] == Entries(requests, values, asId)[j]
    {
      if requests[i].id.None? {
        aligned := aligned + [None];
      } else {
        var k := requests[i].id.value;
        aligned := aligned + [if k in responseMap then Some(responseMap[k]) else None];
      }
    }
    assert aligned == Entries(requests, values, asId);
    return Some(aligned);
  }

  lemma {:induction false} FindExactly(values: seq<Value>, asId: Value -> Option<Id>, id: Id)
    ensures Find(values, asId, id).Some? <==> exists v :: v in values && OwnId(v, asId) == Some(id)
    ensures Find(values, asId, id).Some? ==> Find(values, asId, id).value in values && OwnId(Find(values, asId, id).value, asId) == Some(id)
    decreases values
  {
    if values != [] {
      var (init, last) := (values[..|values| - 1], values[|values| - 1]);
      FindExactly(init, asId, id);
      assert values == init + [last];
    }
  }

  /** Of several results that carry one id the last one counts. */
  lemma {:induction false} LastCarrierWins(values: seq<Value>, asId: Value -> Option<Id>, id: Id, k: nat)
    requires k < |values| && OwnId(values[k], asId) == Some(id)
    requires forall j | k < j < |values| :: OwnId(values[j], asId) != Some(id)
    ensures Find(values, asId, id) == Some(values[k])
    decreases values
  {
    if k < |values| - 1 {
      LastCarrierWins(values[..|values| - 1], asId, id, k);
    }
  }

  /** A record carries the id that stands under its key `id`. */
  lemma RecordCarries(keys: seq<string>, vals: seq<Value>, k: nat, asId: Value -> Option<Id>)
    requires WellKeyed(keys, vals) && k < |keys| && keys[k] == "id"
    ensures OwnId(Rec(keys, vals), asId) == asId(vals[k])
  {
    LookupFinds(keys, vals, "id");
  }

  /** Only by such a record does a call come to have an entry: here the second call's result is handed to the first. */
  lemma CarrierWitness(asId: Value -> Option<Id>)
    requires asId(Prim(1)) == Some(Num(1))
    ensures var requests := [Request(Some(Num(1)), "", "a", Null), Request(Some(Num(2)), "", "b", Null)];
            var record := Rec(["id"], [Prim(1)]);
            Received(requests, [Done(Prim(7)), Done(record)], asId) == Some([Some(record), None])
  {
    var requests := [Request(Some(Num(1)), "", "a", Null), Request(Some(Num(2)), "", "b", Null)];
    var record := Rec(["id"], [Prim(1)]);
    var outs := [Done(Prim(7)), Done(record)];
    RecordCarries(["id"], [Prim(1)], 0, asId);
    PeerBatchResults(outs);
    var values := PeerBatch(outs).value;
    assert outs[0] == Done(values[0]) && outs[1] == Done(values[1]);
    LastCarrierWins(values, asId, Num(1), 1);
    FindExactly(values, asId, Num(2));
    forall v | v in values ensures OwnId(v, asId) != Some(Num(2)) {
    }
    assert Entries(requests, values, asId) == [Some(record), None];
  }

  lemma {:induction false} PeerBatchResults(outs: seq<Outcome>)
    ensures PeerBatch(outs).Some? <==> forall out | out in outs :: out.Done?
    ensures PeerBatch(outs).Some? ==>
              |PeerBatch(outs).value| == |outs| && forall i | 0 <= i < |outs| :: Done(PeerBatch(outs).value[i]) == outs[i]
    decreases outs
  {
    if outs != [] {
      var (init, last) := (outs[..|outs| - 1], outs[|outs| - 1]);
      PeerBatchResults(init);
      assert outs == init + [last];
    }
  }

  /** What the caller of `executeBatch` gets over a peer: nothing at all, or an entry for each request. */
  function Received(requests: seq<Request>, outs: seq<Outcome>, asId: Value -> Option<Id>): Option<seq<Option<Value>>> {
    match PeerBatch(outs)
    case None => None
    case Some(values) => if Readable(values) then Some(Entries(requests, values, asId)) else None
  }

  /**
    The whole batch throws if and only if a call failed or returned null or undefined.
    Otherwise request i has an entry if and only if some call's result is a record whose own
    `id` reads as the request's id, and that record is the entry, never the response.
  */
  lemma PeerBatchLosesResults(requests: seq<Request>, outs: seq<Outcome>, asId: Value -> Option<Id>)
    ensures Received(requests, outs, asId).None? <==> exists out :: out in outs && (out.Fail? || out == Done(Null) || out == Done(Absent))
    ensures Received(requests, outs, asId).Some? ==>
              forall i | 0 <= i < |requests| ::
                var entry := Received(requests, outs, asId).value[i];
                && (entry.Some? <==> requests[i].id.Some? && exists v :: Done(v) in outs && OwnId(v, asId) == requests[i].id)
                && (entry.Some? ==> Done(entry.value) in outs && OwnId(entry.value, asId) == requests[i].id)
  {
    PeerBatchResults(outs);
    if PeerBatch(outs).Some? {
      var values := PeerBatch(outs).value;
      forall v ensures v in values <==> Done(v) in outs {
        InResults(outs, values, v);
      }
      assert Readable(values) <==> Null !in values && Absent !in values;
      forall i | 0 <= i < |requests| && requests[i].id.Some?
        ensures var entry := Entries(requests, values, asId)[i];
                && (entry.Some? <==> exists v :: Done(v) in outs && OwnId(v, asId) == requests[i].id)
                && (entry.Some? ==> Done(entry.value) in outs && OwnId(entry.value, asId) == requests[i].id)
      {
        FindExactly(values, asId, requests[i].id.value);
      }
    }
  }

  lemma InResults(outs: seq<Outcome>, values: seq<Value>, v: Value)
    requires |values| == |outs| && forall i | 0 <= i < |outs| :: Done(values[i]) == outs[i]
    ensures v in values <==> Done(v) in outs
  {
    if v in values {
      var i :| 0 <= i < |values| && values[i] == v;
      assert outs[i] == Done(v);
    }
  }

  /** Results that carry no ids leave every request without an entry. */
  lemma NothingReceived(requests: seq<Request>, outs: seq<Outcome>, asId: Value -> Option<Id>)
    requires forall out | out in outs :: out.Done? && out.v != Null && out.v != Absent && OwnId(out.v, asId) == None
    ensures Received(requests, outs, asId) == Some(seq(|requests|, i => None))
  {
    PeerBatchLosesResults(requests, outs, asId);
    forall v | Done(v) in outs ensures OwnId(v, asId) == None {
      assert Done(v) in outs;
    }
    assert Received(requests, outs, asId).value == seq(|requests|, i => None);
  }

  /** A call that returns a reference succeeds, and its caller is given nothing. */
  lemma ReferenceIsLost(id: Id, ref: string, asId: Value -> Option<Id>)
    ensures Received([Request(Some(id), "", "make", Null)], [Done(RefTo(ref))], asId) == Some([None])
  {
    assert Lookup([REF_KEY][1..], [Str(ref)][1..], "id") == None;
    NothingReceived([Request(Some(id), "", "make", Null)], [Done(RefTo(ref))], asId);
    var none: seq<Option<Value>> := seq(1, i => None);
    assert none == [None];
  }

  /**
    Pipelining between TypeScript peers: the server does its part as one call at a time
    would, but as long as the results carry no ids themselves the client is given none of them.
  */
  lemma PipeliningOverPeer<W>(srv: Server<W>, prog: seq<Step>, st: State<W>, asId: Value -> Option<Id>)
    requires WellBuilt(prog) && |prog| < TWO63 && forall i | 0 <= i < |prog| :: prog[i].name != ""
    requires forall out | out in OneByOne(srv, prog, |prog|, st).1 ::
               out.Done? && out.v != Null && Ts.Plain(out) && Ts.Named(out) && OwnId(out.v, asId) == None
    ensures var (s, outs) := OneByOne(srv, prog, |prog|, st);
            && Ts.After(srv, Wire(prog, 0), |prog|, st).st == s
            && Received(Wire(prog, 0), outs, asId) == Some(seq(|prog|, i => None))
  {
    hide OneByOne, OwnId, Received, Ts.After;
    PipeliningOnTypeScript(srv, prog, st, 0);
    NothingReceived(Wire(prog, 0), OneByOne(srv, prog, |prog|, st).1, asId);
  }
}
