/** Moving an exact number of bytes through a descriptor that moves as many as it likes per call: the
    send/recv loops of the TCP transport and the write/read loops of the replay files. */
module ExactIo {
  import opened Bytes

  /** How many bytes call number i is willing to move; 0 or less is an error. */
  type Plan = nat -> int

  /** None of the calls numbered from..to errs. Sizes are still arbitrary. */
  ghost predicate Smooth(plan: Plan, from: nat, to: nat) {
    forall i :: from <= i < to ==> plan(i) > 0
  }

  /** What has gone out through the descriptor, and what will come in before the other end stops. The plan
      is fixed but arbitrary, so a statement about a descriptor is one about every choice of partial sizes
      and every place an error may strike, with bytes outstanding or not. */
  class Descriptor {
    const plan: Plan
    var calls: nat
    var outgoing: seq<byte>
    var incoming: seq<byte>

    constructor (incoming: seq<byte>, plan: Plan)
      ensures outgoing == [] && this.incoming == incoming && this.plan == plan && calls == 0
    {
      this.plan := plan;
      calls, outgoing := 0, [];
      this.incoming := incoming;
    }

    method Send(data: seq<byte>) returns (n: int)
      modifies this`outgoing, this`calls
      ensures calls == old(calls) + 1 && n == (if plan(old(calls)) < |data| then plan(old(calls)) else |data|)
      ensures outgoing == old(outgoing) + if n > 0 then data[..n] else []
    {
      n := plan(calls);
      calls := calls + 1;
      if n > |data| { n := |data|; }
      if n > 0 { outgoing := outgoing + data[..n]; }
    }

    /** 0 once nothing is left, which no plan changes, so only calls with bytes outstanding are counted; before that an error, or some of what is asked for. */
    method Receive(limit: nat) returns (n: int, data: seq<byte>)
      requires limit > 0
      modifies this`incoming, this`calls
      ensures calls == old(calls) + (if old(incoming) == [] then 0 else 1) && old(incoming) == data + incoming
      ensures n <= 0 <==> old(incoming) == [] || plan(old(calls)) <= 0
      ensures if n <= 0 then data == [] else n == |data| <= limit
    {
      if incoming == [] { return 0, []; }
      n, data := plan(calls), [];
      calls := calls + 1;
      if n <= 0 { return n, []; }
      if n > limit { n := limit; }
      if n > |incoming| { n := |incoming|; }
      data := incoming[..n];
      incoming := incoming[n..];
    }

    /** All of the data goes out exactly if no call errs; otherwise a part of it. */
    method SendExact(data: seq<byte>) returns (ok: bool)
      modifies this`outgoing, this`calls
      ensures ok <==> Smooth(plan, old(calls), calls)
      ensures old(calls) <= calls <= old(calls) + |data|
      ensures old(outgoing) <= outgoing <= old(outgoing) + data
      ensures ok ==> outgoing == old(outgoing) + data
    {
      var sent := 0;
      assert data[..0] == [];
      while sent < |data|
        invariant 0 <= sent <= |data| && old(calls) <= calls <= old(calls) + sent && Smooth(plan, old(calls), calls)
        invariant outgoing == old(outgoing) + data[..sent]
        decreases |data| - sent
      {
        var n := Send(data[sent..]);
        if n <= 0 { return false; }
        assert data[..sent] + data[sent..][..n] == data[..sent + n];
        sent := sent + n;
      }
      assert data[..sent] == data;
      return true;
    }

    /** A header and then a payload: together all of both exactly if no call errs, or else a part. */
    method SendBoth(header: seq<byte>, payload: seq<byte>) returns (ok: bool)
      modifies this`outgoing, this`calls
      ensures ok <==> Smooth(plan, old(calls), calls)
      ensures old(calls) <= calls <= old(calls) + |header| + |payload|
      ensures old(outgoing) <= outgoing <= old(outgoing) + (header + payload)
      ensures ok ==> outgoing == old(outgoing) + (header + payload)
    {
      ok := SendExact(header);
      if ok {
        ok := SendExact(payload);
        assert old(outgoing) + header + payload == old(outgoing) + (header + payload);
      }
    }

    /** Exactly len bytes, however they are chunked, exactly if that many come and no call errs. */
    method ReceiveExact(len: nat) returns (ok: bool, data: seq<byte>)
      modifies this`incoming, this`calls
      ensures old(calls) <= calls
      ensures ok <==> len <= |old(incoming)| && Smooth(plan, old(calls), calls)
      ensures ok ==> data == old(incoming)[..len] && incoming == old(incoming)[len..]
      ensures |incoming| <= |old(incoming)| && calls <= old(calls) + |old(incoming)|
      ensures ok ==> calls <= old(calls) + len
    {
      data := [];
      while |data| < len
        invariant |data| <= len && old(incoming) == data + incoming
        invariant old(calls) <= calls <= old(calls) + |data| && Smooth(plan, old(calls), calls)
        decreases len - |data|
      {
        var n, chunk := Receive(len - |data|);
        if n <= 0 { return false, data; }
        data := data + chunk;
      }
      return true, data;
    }
  }
}
