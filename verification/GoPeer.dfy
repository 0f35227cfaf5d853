/**
  The Go peer object (go/jsonrpc3/peer.go): its methods and loops take one end of the
  connection exactly where the steps of PeerProtocol take it.
*/
module GoPeer {
  import opened Basics
  import opened PeerProtocol

  /**
    One end of the connection. A sender blocked on the full write channel waits in
    `senders`; messages that have arrived wait in `incoming`; each entry of `handlers` is
    a goroutine serving one message.
  */
  class Endpoint {
    const side: Side
    var nextID: nat
    var pendingReqs: map<nat, Waiter>
    var senders: seq<Msg>
    var writeChan: seq<Msg>
    var incoming: seq<Msg>
    var handlers: seq<Msg>

    function Now(): Peer
      reads this
    {
      Peer(nextID, pendingReqs, senders, writeChan, incoming, handlers)
    }

    constructor (side: Side)
      ensures this.side == side && Now() == Get(START, side)
    {
      this.side := side;
      nextID, pendingReqs, senders, writeChan, incoming, handlers := 0, map[], [], [], [], [];
    }

    /** The sending half of `Call` and `CallBatch`: number the requests, open their channels, queue the message. */
    method SendBatch(ghost s: State, notify: seq<bool>, stamp: nat, parent: Option<nat>)
      requires Enabled(s, Issue(side, notify, parent)) && Get(s, side) == Now() && stamp == s.clock
      modifies this
      ensures Now() == Get(Apply(s, Issue(side, notify, parent)), side)
    {
      var requests: seq<Call> := [];
      for i := 0 to |notify|
        invariant Now() == old(Now()).(nextId := nextID)
        invariant nextID == old(nextID) + Numbers(notify[..i])
        invariant requests == NewCalls(side, notify[..i], old(nextID), stamp, parent)
      {
        assert notify[..i + 1][..i] == notify[..i];
        var id: Option<nat> := None;
        if !notify[i] {
          nextID := nextID + 1;
          id := Some(nextID);
        }
        requests := requests + [Call(side, id, stamp, i, parent)];
      }
      assert notify[..|notify|] == notify;
      OpenChannels(requests);
      senders := senders + [Requests(requests)];
    }

    method OpenChannels(requests: seq<Call>)
      modifies this
      ensures Now() == old(Now()).(pending := Register(old(pendingReqs), requests))
    {
      for i := 0 to |requests|
        invariant Now() == old(Now()).(pending := Register(old(pendingReqs), requests[..i]))
      {
        assert requests[..i + 1][..i] == requests[..i];
        if requests[i].id.Some? {
          pendingReqs := pendingReqs[requests[i].id.value := Waiter(requests[i], None)];
        }
      }
      assert requests[..|requests|] == requests;
    }

    /** A blocked sender gets its message into the write channel. */
    method Send(ghost s: State, i: nat)
      requires Enabled(s, Enqueue(side, i)) && Get(s, side) == Now()
      modifies this
      ensures Now() == Get(Apply(s, Enqueue(side, i)), side)
    {
      writeChan := writeChan + [senders[i]];
      senders := senders[..i] + senders[i + 1..];
    }

    /** One turn of `writeLoop`, all the way to the other end. */
    method WriteOne(ghost s: State, other: Endpoint)
      requires other != this && other.side == Other(side)
      requires Enabled(s, Write(side)) && Get(s, side) == Now() && Get(s, Other(side)) == other.Now()
      modifies this, other
      ensures Now() == Get(Apply(s, Write(side)), side)
      ensures other.Now() == Get(Apply(s, Write(side)), Other(side))
    {
      var item := writeChan[0];
      writeChan := writeChan[1..];
      other.incoming := other.incoming + [item];
    }

    /** One turn of `readLoop`: requests start a handler, responses go to the calls waiting for them. */
    method ReadOne(ghost s: State)
      requires Enabled(s, Deliver(side)) && Get(s, side) == Now()
      modifies this
      ensures Now() == Get(Apply(s, Deliver(side)), side)
    {
      var m := incoming[0];
      incoming := incoming[1..];
      if m.Requests? {
        handlers := handlers + [m];
      } else {
        ghost var x := Now();
        for i := 0 to |m.calls|
          invariant Now() == x.(pending := Answer(x.pending, m.calls[..i]))
        {
          assert m.calls[..i + 1][..i] == m.calls[..i];
          HandleIncomingResponse(m.calls[i]);
        }
        assert m.calls[..|m.calls|] == m.calls;
      }
    }

    method HandleIncomingResponse(resp: Call)
      modifies this
      ensures Now() == old(Now()).(pending :=
        if resp.id.Some? && resp.id.value in old(pendingReqs) && old(pendingReqs)[resp.id.value].answer.None?
        then old(pendingReqs)[resp.id.value := old(pendingReqs)[resp.id.value].(answer := Some(resp))]
        else old(pendingReqs))
    {
      if resp.id.Some? && resp.id.value in pendingReqs {
        var ch := pendingReqs[resp.id.value];
        if ch.answer.None? {
          pendingReqs := pendingReqs[resp.id.value := ch.(answer := Some(resp))];
        }
      }
    }

    /** A handler is done: what it answers goes out as one message, if it answers anything. */
    method FinishHandler(ghost s: State, i: nat, keep: seq<bool>)
      requires Enabled(s, Finish(side, i, keep)) && Get(s, side) == Now()
      modifies this
      ensures Now() == Get(Apply(s, Finish(side, i, keep)), side)
    {
      var calls := handlers[i].calls;
      var responses: seq<Call> := [];
      for j := 0 to |calls|
        invariant responses == Kept(calls[..j], keep[..j]) && Now() == old(Now())
      {
        assert calls[..j + 1][..j] == calls[..j] && keep[..j + 1][..j] == keep[..j];
        if keep[j] {
          responses := responses + [calls[j]];
        }
      }
      assert calls[..|calls|] == calls && keep[..|calls|] == keep;
      handlers := handlers[..i] + handlers[i + 1..];
      if |responses| > 0 {
        senders := senders + [Responses(responses)];
      }
    }

    /** The waiting half of a call: its channel is read, then forgotten. */
    method Receive(ghost s: State, k: nat) returns (resp: Call)
      requires Enabled(s, Complete(side, k)) && Get(s, side) == Now()
      modifies this
      ensures Now() == Get(Apply(s, Complete(side, k)), side)
      ensures Apply(s, Complete(side, k)).done == s.done + [Completion(side, k, resp)]
    {
      resp := pendingReqs[k].answer.value;
      pendingReqs := pendingReqs - {k};
    }

    method GiveUp(ghost s: State, k: nat)
      requires Enabled(s, Timeout(side, k)) && Get(s, side) == Now()
      modifies this
      ensures Now() == Get(Apply(s, Timeout(side, k)), side)
    {
      pendingReqs := pendingReqs - {k};
    }
  }
}
