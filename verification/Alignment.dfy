/**
  Putting the responses of a batch back in request order by id, whatever order
  they arrived in. Ids are compared through keys, one for the requests' side and
  one for the responses': TypeScript compares the ids themselves, the Go HTTP
  client the texts it prints of an integer it drew and of a number it decoded.
*/
module Alignment {
  import opened Basics
  import opened Text
  import opened Values
  import opened Messages

  /** The response listed last under a key. */
  function Find<K(==)>(rs: seq<Response>, key: Id -> K, k: K): Option<Response> {
    if rs == [] then None
    else
      var r := rs[|rs| - 1];
      if r.id.Some? && key(r.id.value) == k then Some(r) else Find(rs[..|rs| - 1], key, k)
  }

  function Align<K(==)>(requests: seq<Request>, rs: seq<Response>, reqKey: Id -> K, respKey: Id -> K): (out: seq<Option<Response>>)
    ensures |out| == |requests|
  {
    seq(|requests|, i requires 0 <= i < |requests| =>
      if requests[i].id.None? then None else Find(rs, respKey, reqKey(requests[i].id.value)))
  }

  /** The client's two loops. */
  method AlignResponses<K(==)>(requests: seq<Request>, rs: seq<Response>, reqKey: Id -> K, respKey: Id -> K)
    returns (responses: seq<Option<Response>>)
    ensures responses == Align(requests, rs, reqKey, respKey)
  {
    var respMap: map<K, Response> := map[];
    for i := 0 to |rs|
      invariant forall k :: k in respMap <==> Find(rs[..i], respKey, k).Some?
      invariant forall k | k in respMap :: Find(rs[..i], respKey, k) == Some(respMap[k])
    {
      assert rs[..i + 1][..i] == rs[..i];
      if rs[i].id.Some? {
        respMap := respMap[respKey(rs[i].id.value) := rs[i]];
      }
    }
    assert rs[..|rs|] == rs;
    responses := [];
    for i := 0 to |requests|
      invariant |responses| == i && forall j | 0 <= j < i :: responses[j] == Align(requests, rs, reqKey, respKey)[j]
    {
      var req := requests[i];
      if req.id.None? {
        responses := responses + [None];
      } else {
        var k := reqKey(req.id.value);
        var found := if k in respMap then Some(respMap[k]) else None;
        assert found == Find(rs, respKey, k);
        responses := responses + [found];
      }
    }
  }

  /** No two identified responses share a key; nil-id error responses do not count. */
  ghost predicate Distinct<K>(rs: seq<Response>, key: Id -> K) {
    forall i, j | 0 <= i < j < |rs| && rs[i].id.Some? && rs[j].id.Some? :: key(rs[i].id.value) != key(rs[j].id.value)
  }

  /** With distinct keys, looking up is membership. */
  lemma {:induction false} FindIsMembership<K>(rs: seq<Response>, key: Id -> K, r: Response)
    requires Distinct(rs, key) && r.id.Some?
    ensures Find(rs, key, key(r.id.value)) == Some(r) <==> r in rs
    decreases rs
  {
    if rs != [] {
      var init := rs[..|rs| - 1];
      FindIsMembership(init, key, r);
      assert rs == init + [rs[|rs| - 1]];
    }
  }

  lemma {:induction false} FindFinds<K>(rs: seq<Response>, key: Id -> K, k: K)
    ensures var f := Find(rs, key, k);
            f.Some? ==> f.value in rs && f.value.id.Some? && key(f.value.id.value) == k
    decreases rs
  {
    if rs != [] {
      FindFinds(rs[..|rs| - 1], key, k);
    }
  }

  lemma {:induction false} DistinctOnce<K>(rs: seq<Response>, key: Id -> K, r: Response)
    requires Distinct(rs, key) && r.id.Some?
    ensures multiset(rs)[r] <= 1
    decreases rs
  {
    if rs != [] {
      var init := rs[..|rs| - 1];
      DistinctOnce(init, key, r);
      assert rs == init + [rs[|rs| - 1]];
      if rs[|rs| - 1] == r {
        assert r !in init;
      }
    }
  }

  lemma DistinctKept<K>(rs: seq<Response>, rs': seq<Response>, key: Id -> K)
    requires Distinct(rs, key) && multiset(rs) == multiset(rs')
    ensures Distinct(rs', key)
  {
    forall i, j | 0 <= i < j < |rs'| && rs'[i].id.Some? && rs'[j].id.Some?
      ensures key(rs'[i].id.value) != key(rs'[j].id.value)
    {
      var (a, b) := (rs'[i], rs'[j]);
      if a == b {
        assert rs' == rs'[..i] + [a] + rs'[i + 1..j] + [b] + rs'[j + 1..];
        assert multiset(rs')[a] >= 2;
        DistinctOnce(rs, key, a);
      } else {
        assert a in multiset(rs) && b in multiset(rs);
        var m, n :| 0 <= m < |rs| && rs[m] == a && 0 <= n < |rs| && rs[n] == b;
      }
    }
  }

  /** Alignment does not depend on the order in which the responses arrived. */
  lemma OrderBlind<K>(requests: seq<Request>, rs: seq<Response>, rs': seq<Response>, reqKey: Id -> K, respKey: Id -> K)
    requires Distinct(rs, respKey) && multiset(rs) == multiset(rs')
    ensures Align(requests, rs, reqKey, respKey) == Align(requests, rs', reqKey, respKey)
  {
    DistinctKept(rs, rs', respKey);
    forall i | 0 <= i < |requests| && requests[i].id.Some?
      ensures Find(rs, respKey, reqKey(requests[i].id.value)) == Find(rs', respKey, reqKey(requests[i].id.value))
    {
      var k := reqKey(requests[i].id.value);
      FindFinds(rs, respKey, k);
      FindFinds(rs', respKey, k);
      var (f, f') := (Find(rs, respKey, k), Find(rs', respKey, k));
      if f.Some? {
        assert f.value in multiset(rs');
        FindIsMembership(rs', respKey, f.value);
      } else if f'.Some? {
        assert f'.value in multiset(rs);
        FindIsMembership(rs, respKey, f'.value);
      }
    }
  }

  /** What alignment puts under a request: the response with its key, if one was received. */
  ghost predicate Delivers<K(!new)>(entry: Option<Response>, req: Request, rs: seq<Response>, reqKey: Id -> K, respKey: Id -> K) {
    if req.id.Some? && exists r :: r in rs && r.id.Some? && respKey(r.id.value) == reqKey(req.id.value) then
      entry.Some? && entry.value in rs && entry.value.id.Some? && respKey(entry.value.id.value) == reqKey(req.id.value)
    else entry == None
  }

  /**
    What alignment delivers: as many entries as requests, and each entry is a received
    response with its request's key, or nothing if and only if the request is a notification
    or no received response has that key. With distinct keys that response is the only one.
  */
  lemma AlignedEntries<K(!new)>(requests: seq<Request>, rs: seq<Response>, reqKey: Id -> K, respKey: Id -> K, i: nat)
    requires i < |requests|
    ensures Delivers(Align(requests, rs, reqKey, respKey)[i], requests[i], rs, reqKey, respKey)
    ensures Distinct(rs, respKey) && requests[i].id.Some? ==>
              forall r | r in rs && r.id.Some? ::
                Align(requests, rs, reqKey, respKey)[i] == Some(r) <==> respKey(r.id.value) == reqKey(requests[i].id.value)
  {
    if requests[i].id.Some? {
      var k := reqKey(requests[i].id.value);
      FindFinds(rs, respKey, k);
      forall r | r in rs && r.id.Some? && respKey(r.id.value) == k ensures Find(rs, respKey, k).Some? {
        FindSome(rs, respKey, r);
      }
      if Distinct(rs, respKey) {
        forall r | r in rs && r.id.Some?
          ensures Align(requests, rs, reqKey, respKey)[i] == Some(r) <==> respKey(r.id.value) == k
        {
          FindIsMembership(rs, respKey, r);
        }
      }
    }
  }

  lemma {:induction false} FindSome<K>(rs: seq<Response>, key: Id -> K, r: Response)
    requires r in rs && r.id.Some?
    ensures Find(rs, key, key(r.id.value)).Some?
    decreases rs
  {
    var init := rs[..|rs| - 1];
    assert rs == init + [rs[|rs| - 1]];
    if r in init {
      FindSome(init, key, r);
    }
  }

  /** Of several responses under one key the request is given the one listed last. */
  lemma {:induction false} LastWins<K>(requests: seq<Request>, rs: seq<Response>, reqKey: Id -> K, respKey: Id -> K, i: nat, k: nat)
    requires i < |requests| && requests[i].id.Some? && k < |rs| && rs[k].id.Some?
    requires respKey(rs[k].id.value) == reqKey(requests[i].id.value)
    requires forall j | k < j < |rs| && rs[j].id.Some? :: respKey(rs[j].id.value) != reqKey(requests[i].id.value)
    ensures Align(requests, rs, reqKey, respKey)[i] == Some(rs[k])
    decreases rs
  {
    if k < |rs| - 1 {
      LastWins(requests, rs[..|rs| - 1], reqKey, respKey, i, k);
    }
  }

  // ----- the Go HTTP client over JSON -----

  /** The text of an id the client drew itself: an integer. */
  function DrawnText(id: Id): string {
    match id
    case Num(n) => Decimal(n)
    case Name(s) => s
  }

  /** The text of an id decoded from a JSON reply: a number has become a floating-point number. */
  function DecodedText(id: Id): string {
    match id
    case Num(n) => FloatText(Float64(n))
    case Name(s) => s
  }

  /** A reply whose responses carry numbers, all different. */
  ghost predicate NumberedReply(rs: seq<Response>) {
    && (forall i | 0 <= i < |rs| && rs[i].id.Some? :: rs[i].id.value.Num?)
    && (forall i, j | 0 <= i < j < |rs| && rs[i].id.Some? && rs[j].id.Some? :: rs[i].id != rs[j].id)
  }

  lemma TextsMeet(m: nat, n: nat)
    ensures DecodedText(Num(m)) == DrawnText(Num(n)) <==> m == n && n < 1_000_000
  {
    hide Decimal, FloatText, Float64;
    FloatTextMeets(m, n);
  }

  /** Ids that are text meet exactly when they are the same text; one of them also meets the number it spells. */
  lemma NamesMeet(s: string, t: string, n: nat)
    ensures DecodedText(Name(s)) == DrawnText(Name(t)) <==> s == t
    ensures DecodedText(Name(s)) == DrawnText(Num(n)) <==> AllDigits(s) && Decimal(ValueOf(s)) == s && ValueOf(s) == n
  {
    DecimalValue(n);
  }

  /**
    The Go HTTP client finds the response of a request it numbered n in a JSON reply if and
    only if n is below one million: from then on the two sides print the number differently,
    and the response is received but never handed on.
  */
  lemma HttpAlignment(requests: seq<Request>, rs: seq<Response>, i: nat, n: nat, r: Response)
    requires i < |requests| && requests[i].id == Some(Num(n))
    requires NumberedReply(rs) && r in rs && r.id == Some(Num(n))
    ensures Align(requests, rs, DrawnText, DecodedText)[i] == if n < 1_000_000 then Some(r) else None
  {
    hide DrawnText, DecodedText;
    var k := DrawnText(Num(n));
    forall q | q in rs && q.id.Some? && DecodedText(q.id.value) == k ensures q == r && n < 1_000_000 {
      var m := q.id.value.n;
      TextsMeet(m, n);
      var a, b :| 0 <= a < |rs| && rs[a] == q && 0 <= b < |rs| && rs[b] == r;
    }
    TextsMeet(n, n);
    AlignedEntries(requests, rs, DrawnText, DecodedText, i);
  }

  /** The first number that is lost. */
  lemma MillionthIsLost(r: Response)
    requires r.id == Some(Num(1_000_000))
    ensures DrawnText(Num(1_000_000)) == "1000000" && DecodedText(Num(1_000_000)) == "1e+06"
    ensures Align([Request(r.id, "", "work", Null)], [r], DrawnText, DecodedText) == [None]
  {
    MillionPrinted();
    Float64Exact(1_000_000);
    assert DecodedText(Num(1_000_000)) == FloatText(1_000_000);
    hide DrawnText, DecodedText;
    HttpAlignment([Request(r.id, "", "work", Null)], [r], 0, 1_000_000, r);
  }
}
