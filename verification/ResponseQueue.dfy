/** The bounded queue on which responses are offered: a channel that is written
    blocking or not, as configured, and read by the user of the library. */
module ResponseQueue {
  import opened Bytes
  import opened Types

  /** What became of an offered response. */
  datatype Fate = Kept | Dropped

  function KeptOf(offered: seq<Response>, fates: seq<Fate>): seq<Response>
    requires |offered| == |fates|
  {
    if fates == [] then []
    else
      var n := |fates| - 1;
      KeptOf(offered[..n], fates[..n]) + (if fates[n] == Kept then [offered[n]] else [])
  }

  function Drops(fates: seq<Fate>): nat
  {
    if fates == [] then 0
    else Drops(fates[..|fates| - 1]) + (if fates[|fates| - 1] == Dropped then 1 else 0)
  }

  /** The positions of the kept ones. */
  function Places(fates: seq<Fate>): seq<nat>
  {
    if fates == [] then []
    else
      var n := |fates| - 1;
      Places(fates[..n]) + (if fates[n] == Kept then [n] else [])
  }

  lemma KeptMore(offered: seq<Response>, fates: seq<Fate>, r: Response, fate: Fate)
    requires |offered| == |fates|
    ensures KeptOf(offered + [r], fates + [fate]) == KeptOf(offered, fates) + (if fate == Kept then [r] else [])
    ensures Drops(fates + [fate]) == Drops(fates) + (if fate == Dropped then 1 else 0)
  {
    assert (offered + [r])[..|offered|] == offered && (fates + [fate])[..|fates|] == fates;
  }

  predicate Increasing(ps: seq<nat>, bound: nat)
  {
    (forall i, j :: 0 <= i < j < |ps| ==> ps[i] < ps[j]) && forall i :: 0 <= i < |ps| ==> ps[i] < bound
  }

  /** The kept responses stand in the order of their offers. */
  lemma {:induction false} KeptInOrder(offered: seq<Response>, fates: seq<Fate>)
    requires |offered| == |fates|
    ensures Increasing(Places(fates), |fates|) && |Places(fates)| == |KeptOf(offered, fates)|
    ensures forall i :: 0 <= i < |Places(fates)| ==> KeptOf(offered, fates)[i] == offered[Places(fates)[i]]
    ensures |KeptOf(offered, fates)| + Drops(fates) == |offered|
  {
    if fates != [] {
      var n := |fates| - 1;
      KeptInOrder(offered[..n], fates[..n]);
    }
  }

  /** Without drops everything is kept. */
  lemma {:induction false} AllKept(offered: seq<Response>, fates: seq<Fate>)
    requires |offered| == |fates|
    ensures Drops(fates) == 0 <==> KeptOf(offered, fates) == offered
  {
    KeptInOrder(offered, fates);
    if fates != [] && Drops(fates) == 0 {
      var n := |fates| - 1;
      AllKept(offered[..n], fates[..n]);
      assert offered == offered[..n] + [offered[n]];
    }
  }

  datatype Op = Offer(r: Response) | Take

  function OffersIn(ops: seq<Op>): seq<Response>
  {
    if ops == [] then []
    else
      var op := ops[|ops| - 1];
      OffersIn(ops[..|ops| - 1]) + (if op.Offer? then [op.r] else [])
  }

  lemma {:induction false} OffersUpTo(ops: seq<Op>, i: nat)
    requires i <= |ops|
    ensures |OffersIn(ops[..i])| <= |OffersIn(ops)|
    ensures i < |ops| ==> OffersIn(ops[..i + 1]) == OffersIn(ops[..i]) + (if ops[i].Offer? then [ops[i].r] else [])
    decreases |ops|
  {
    if i < |ops| {
      var n := |ops| - 1;
      assert ops[..n][..i] == ops[..i];
      OffersUpTo(ops[..n], i);
      assert ops[..i + 1][..i] == ops[..i];
    } else {
      assert ops[..i] == ops;
    }
  }

  class Queue {
    const capacity: nat
    const block: bool
    /** What waits in the channel, and behind it the writers that wait for room. */
    var buffer: seq<Response>
    var writers: seq<Response>
    var readers: nat
    var open: bool
    /** Everything that readers have taken. */
    var delivered: seq<Response>
    ghost var offered: seq<Response>
    ghost var fates: seq<Fate>

    ghost predicate Valid()
      reads this
    {
      |buffer| <= capacity &&
      (writers != [] ==> |buffer| == capacity && block) &&
      (readers > 0 ==> buffer == [] && writers == []) &&
      (!open ==> writers == [] && readers == 0) &&
      |offered| == |fates| &&
      delivered + (buffer + writers) == KeptOf(offered, fates) &&
      (block ==> Drops(fates) == 0)
    }

    constructor (pendingWorkCapacity: nat, block: bool)
      ensures Valid() && open && capacity == 2 * pendingWorkCapacity && this.block == block
      ensures buffer == [] && writers == [] && readers == 0 && offered == [] && delivered == [] && fates == []
    {
      this.capacity, this.block := 2 * pendingWorkCapacity, block;
      buffer, writers, readers, open, delivered := [], [], 0, true, [];
      offered, fates := [], [];
    }

    /** Nothing more can be taken up at once. */
    predicate Full()
      reads this
    {
      readers == 0 && |buffer| == capacity
    }

    /** Offers a response. When the queue is full, a blocking writer waits and
        a non-blocking one drops it. */
    method Write(r: Response) returns (dropped: bool)
      requires Valid() && open
      modifies this
      ensures Valid() && open
      ensures dropped <==> !block && old(Full())
      ensures offered == old(offered) + [r] && fates == old(fates) + [if dropped then Dropped else Kept]
      ensures delivered == if old(readers) > 0 then old(delivered) + [r] else old(delivered)
      ensures |buffer| <= |old(buffer)| + 1 && (dropped ==> buffer == old(buffer))
    {
      KeptMore(offered, fates, r, if !block && Full() then Dropped else Kept);
      dropped := false;
      if readers > 0 {
        readers, delivered := readers - 1, delivered + [r];
      } else if |buffer| < capacity {
        buffer := buffer + [r];
      } else if block {
        writers := writers + [r];
      } else {
        dropped := true;
      }
      offered, fates := offered + [r], fates + [if dropped then Dropped else Kept];
    }

    /** Takes the oldest response, which makes room for a waiting writer. With nothing
        there the reader waits, or learns that the channel is closed. */
    method Read() returns (r: Option<Response>)
      requires Valid()
      modifies this
      ensures Valid() && open == old(open) && offered == old(offered) && fates == old(fates)
      ensures r == if old(buffer + writers) == [] then None else Some(old(buffer + writers)[0])
      ensures delivered == old(delivered) + (if r.None? then [] else [r.value])
      ensures |buffer| <= |old(buffer)|
    {
      if buffer != [] {
        r := Some(buffer[0]);
        buffer := buffer[1..];
        if writers != [] {
          buffer, writers := buffer + [writers[0]], writers[1..];
        }
      } else if writers != [] {
        r := Some(writers[0]);
        writers := writers[1..];
      } else {
        r := None;
        if open {
          readers := readers + 1;
        }
      }
      delivered := delivered + (if r.None? then [] else [r.value]);
      assert old(buffer + writers) == (if r.None? then [] else [r.value]) + (buffer + writers);
    }

    /** Closing lets waiting readers go. */
    method Close()
      requires Valid() && open && writers == []
      modifies this`open, this`readers
      ensures Valid() && !open
    {
      open, readers := false, 0;
    }

    method Do(op: Op)
      requires Valid() && open
      modifies this
      ensures Valid() && open && offered == old(offered) + (if op.Offer? then [op.r] else [])
      ensures |buffer| <= |old(buffer)| + (if op.Offer? then 1 else 0)
      ensures Drops(fates) == old(Drops(fates)) + (if op.Offer? && !block && old(Full()) then 1 else 0)
    {
      match op
      case Offer(r) =>
        KeptMore(offered, fates, r, if !block && Full() then Dropped else Kept);
        var dropped := Write(r);
      case Take =>
        var r := Read();
    }

    /** Any run of offers and takes: what is taken, queued and dropped adds up to what
        was offered; a blocking queue drops nothing, and neither does any queue that
        starts empty and is offered no more than its capacity. */
    method Play(ops: seq<Op>)
      requires Valid() && open
      modifies this
      ensures Valid() && open && offered == old(offered) + OffersIn(ops)
      ensures |offered| == |delivered| + |buffer| + |writers| + Drops(fates)
      ensures old(buffer) == [] && |OffersIn(ops)| <= capacity ==> Drops(fates) == old(Drops(fates))
    {
      for i := 0 to |ops|
        invariant Valid() && open && offered == old(offered) + OffersIn(ops[..i])
        invariant old(buffer) == [] ==> |buffer| <= |OffersIn(ops[..i])|
        invariant old(buffer) == [] && |OffersIn(ops)| <= capacity ==> Drops(fates) == old(Drops(fates))
      {
        OffersUpTo(ops, i);
        OffersUpTo(ops, i + 1);
        Do(ops[i]);
      }
      assert ops[..|ops|] == ops;
      KeptInOrder(offered, fates);
    }

    /** After the close a reader still gets everything that was kept, and then the end. */
    method Drain()
      requires Valid() && !open
      modifies this
      ensures Valid() && buffer == [] && delivered == KeptOf(offered, fates)
      ensures offered == old(offered) && fates == old(fates)
    {
      var r := Read();
      while r.Some?
        invariant Valid() && !open && offered == old(offered) && fates == old(fates)
        invariant r.None? ==> buffer == []
        decreases |buffer|, r.Some?
      {
        r := Read();
      }
      assert delivered + ([] + []) == delivered;
    }
  }

  /** What readers have got is a subsequence of the offers, in their order. */
  lemma DeliveredInOrder(q: Queue)
    requires q.Valid()
    ensures exists ps :: Increasing(ps, |q.offered|) && |ps| == |q.delivered| &&
                         forall i :: 0 <= i < |ps| ==> ps[i] < |q.offered| && q.delivered[i] == q.offered[ps[i]]
    ensures Drops(q.fates) == 0 ==> q.delivered <= q.offered
  {
    KeptInOrder(q.offered, q.fates);
    AllKept(q.offered, q.fates);
    var ps := Places(q.fates)[..|q.delivered|];
    var kept := KeptOf(q.offered, q.fates);
    assert forall i :: 0 <= i < |ps| ==> q.delivered[i] == kept[i];
    assert Increasing(ps, |q.offered|);
  }
}
