/** What the write-request handler makes of the blocks of a source that arrive late and out of order. */
module Reordering {
  import opened Bytes
  import opened Netascii
  import opened Blocks
  import opened FileIO
  import opened Packets
  import opened Sessions
  import opened WriteServer

  function Max(ks: seq<nat>): (m: nat)
    ensures forall i | 0 <= i < |ks| :: ks[i] <= m
    ensures m == 0 || m in ks
  {
    if ks == [] then 0
    else
      var front, last := Max(ks[..|ks| - 1]), ks[|ks| - 1];
      assert ks == ks[..|ks| - 1] + [last];
      if last > front then last else front
  }

  /**
    The channel delivers these blocks, in this order: full blocks of the source, numbered below the wrap-around.
    The sender is at most one block ahead of what has arrived; old copies may come at any time.
   */
  ghost predicate Deliverable(src: seq<byte>, ks: seq<nat>) {
    forall i | 0 <= i < |ks| :: 1 <= ks[i] < BlockCount(src) && ks[i] < 0x1_0000 && ks[i] <= 1 + Max(ks[..i])
  }

  function Delivery(src: seq<byte>, k: nat): Event
    requires 1 <= k <= BlockCount(src)
  {
    var block := Block(src, k);
    Receive(WireData(Num(k), if |block| <= BLOCK_SIZE then block else []))
  }

  function Deliveries(src: seq<byte>, ks: seq<nat>): seq<Event>
    requires forall i | 0 <= i < |ks| :: 1 <= ks[i] <= BlockCount(src)
    decreases |ks|
  {
    if ks == [] then [] else Deliveries(src, ks[..|ks| - 1]) + [Delivery(src, ks[|ks| - 1])]
  }

  /** An old block, and behind it a later one that has arrived before. */
  ghost predicate GoesBackAt(ks: seq<nat>, i: nat) {
    1 <= i < |ks| && ks[i - 1] < ks[i] <= Max(ks[..i])
  }

  ghost predicate GoesBack(ks: seq<nat>) {
    exists i: nat :: GoesBackAt(ks, i)
  }

  function Last(ks: seq<nat>): nat {
    if ks == [] then 0 else ks[|ks| - 1]
  }

  /** The file is the front of the source up to the newest block, or it is too long. */
  ghost predicate FileAfter(src: seq<byte>, newest: nat, goesBack: bool, file: seq<byte>) {
    512 * newest <= |src| && if goesBack then |file| > 512 * newest else file == src[..512 * newest]
  }

  lemma FrontOf(src: seq<byte>, ks: seq<nat>)
    requires Deliverable(src, ks) && ks != []
    ensures Deliverable(src, ks[..|ks| - 1])
  {
    hide Max, BlockCount;
    var front := ks[..|ks| - 1];
    forall i | 0 <= i < |front|
      ensures 1 <= front[i] < BlockCount(src) && front[i] < 0x1_0000 && front[i] <= 1 + Max(front[..i])
    {
      assert front[i] == ks[i] && front[..i] == ks[..i];
    }
  }

  lemma GoesBackOf(ks: seq<nat>)
    requires ks != []
    ensures var front, k := ks[..|ks| - 1], Last(ks);
      GoesBack(ks) <==> GoesBack(front) || (|ks| > 1 && Last(front) < k <= Max(front))
  {
    var front := ks[..|ks| - 1];
    forall i | 0 <= i < |front|
      ensures GoesBackAt(ks, i) <==> GoesBackAt(front, i)
    {
      assert ks[..i] == front[..i];
    }
    assert |ks| > 1 && Last(front) < Last(ks) <= Max(front) <==> GoesBackAt(ks, |ks| - 1);
    if GoesBack(ks) {
      var i: nat :| GoesBackAt(ks, i);
      assert i < |front| ==> GoesBackAt(front, i);
    }
    if GoesBack(front) {
      var i: nat :| GoesBackAt(front, i);
      assert GoesBackAt(ks, i);
    }
  }

  lemma {:induction false} MaxBound(src: seq<byte>, ks: seq<nat>)
    requires Deliverable(src, ks)
    ensures Max(ks) < BlockCount(src) && 512 * Max(ks) <= |src| && Max(ks) < 0x1_0000
    ensures ks != [] ==> 1 <= Last(ks) <= Max(ks)
  {
    if Max(ks) != 0 {
      var i :| 0 <= i < |ks| && ks[i] == Max(ks);
    }
  }

  lemma FullBlock(src: seq<byte>, k: nat)
    requires 1 <= k < BlockCount(src) && k < 0x1_0000
    ensures |Block(src, k)| == 512 && Num(k) == k && 512 * k <= |src|
    ensures src[..512 * (k - 1)] + Block(src, k) == src[..512 * k]
  {
    EndOfFull(src, k - 1);
    EndOfFull(src, k);
    BlockExtendsFront(src, k);
    hide Block, End, BlockCount;
  }

  lemma EndOfFull(src: seq<byte>, k: nat)
    requires k < BlockCount(src)
    ensures End(src, k) == 512 * k <= |src|
  {
  }

  /** A delivered block is written if its number is higher than the last one. */
  lemma StepOnDelivery(src: seq<byte>, s: Server, k: nat)
    requires 1 <= k <= BlockCount(src) && k < 0x1_0000 && s.status == Running
    ensures Step(OctetMode, s, Delivery(src, k))
         == Server(if k < BlockCount(src) then Running else Succeeded, k, s.timeouts,
                   s.file + (if k > s.last then Block(src, k) else []), s.acks + [k])
  {
    LastBlockIsShort(src, k);
    BlockIsNotLong(src, k);
    hide Step, Block, BlockCount;
    assert Num(k) == k;
    StepOnBlock(s, k, Block(src, k));
  }

  lemma BlockIsNotLong(src: seq<byte>, k: nat)
    requires 1 <= k <= BlockCount(src)
    ensures |Block(src, k)| <= BLOCK_SIZE
  {
  }

  /** The next block raises the maximum by one, or is written a second time, or is not written. */
  lemma FileOfOneMore(src: seq<byte>, newest: nat, last: nat, goesBack: bool, file: seq<byte>, k: nat, block: seq<byte>)
    requires FileAfter(src, newest, goesBack, file) && last <= newest && 1 <= k <= newest + 1
    requires |block| == 512 && (k == newest + 1 ==> 512 * k <= |src| && src[..512 * newest] + block == src[..512 * k])
    ensures FileAfter(src, if k > newest then k else newest, goesBack || last < k <= newest,
                      file + if k > last then block else [])
  {
    if k <= last {
      assert file + [] == file;
    }
  }

  lemma NotFarAhead(src: seq<byte>, ks: seq<nat>)
    requires ks != [] && Deliverable(src, ks)
    ensures 1 <= Last(ks) <= 1 + Max(ks[..|ks| - 1]) && Last(ks) < BlockCount(src) && Last(ks) < 0x1_0000
  {
    var last := |ks| - 1;
    assert ks[last] == Last(ks) && ks[..last] == ks[..|ks| - 1];
  }

  lemma UnfoldDeliveries(src: seq<byte>, ks: seq<nat>)
    requires ks != [] && Deliverable(src, ks)
    ensures var front, k := ks[..|ks| - 1], Last(ks);
      && 1 <= k <= BlockCount(src) && (forall i | 0 <= i < |front| :: 1 <= front[i] <= BlockCount(src))
      && (forall i | 0 <= i < |ks| :: 1 <= ks[i] <= BlockCount(src))
      && Deliveries(src, ks) == Deliveries(src, front) + [Delivery(src, k)]
      && Max(ks) == (if k > Max(front) then k else Max(front))
      && (front == [] ==> Max(front) == 0 && Last(front) == 0)
  {
    hide Block;
    FrontOf(src, ks);
  }

  lemma NothingDelivered(src: seq<byte>, ks: seq<nat>)
    requires ks == []
    ensures Run(OctetMode, Begin, Deliveries(src, ks)) == Begin && Last(ks) == 0 && FileAfter(src, Max(ks), GoesBack(ks), [])
  {
    assert !GoesBack(ks);
    assert src[..0] == [];
  }

  /** The handler after any deliverable sequence of blocks: the file is right, or it is too long. */
  lemma {:induction false} FileOfDeliveries(src: seq<byte>, ks: seq<nat>)
    requires Deliverable(src, ks)
    ensures var s := Run(OctetMode, Begin, Deliveries(src, ks));
      && s.status == Running && s.last == Last(ks) && s.timeouts == 0
      && FileAfter(src, Max(ks), GoesBack(ks), s.file)
    decreases |ks|
  {
    hide Max, GoesBack, Deliverable, Run, Step, Block, BlockCount, FileAfter, Deliveries, Delivery;
    if ks == [] {
      NothingDelivered(src, ks);
    } else {
      var front, k := ks[..|ks| - 1], Last(ks);
      FrontOf(src, ks);
      FileOfDeliveries(src, front);
      NotFarAhead(src, ks);
      GoesBackOf(ks);
      MaxBound(src, front);
      FullBlock(src, k);
      UnfoldDeliveries(src, ks);
      var s := Run(OctetMode, Begin, Deliveries(src, front));
      RunSnoc(OctetMode, Begin, Deliveries(src, front), Delivery(src, k));
      StepOnDelivery(src, s, k);
      FileOfOneMore(src, Max(front), Last(front), GoesBack(front), s.file, k, Block(src, k));
    }
  }

  /**
    Under any reordering and repetition the file is the front of the source up to the newest block if and only
    if no late old block is followed by another block that had arrived before.
   */
  lemma FileIsFrontOfSourceIff(src: seq<byte>, ks: seq<nat>)
    requires Deliverable(src, ks)
    ensures 512 * Max(ks) <= |src|
    ensures Run(OctetMode, Begin, Deliveries(src, ks)).file == src[..512 * Max(ks)] <==> !GoesBack(ks)
  {
    hide Run, Deliveries, GoesBack, Deliverable;
    FileOfDeliveries(src, ks);
    assert |src[..512 * Max(ks)]| == 512 * Max(ks);
  }

  /** The same for a whole transfer, which the short last block ends. */
  lemma ReorderedUploadIsExactIff(src: seq<byte>, ks: seq<nat>)
    requires Deliverable(src, ks) && Max(ks) + 1 == BlockCount(src) < 0x1_0000
    ensures var s := Run(OctetMode, Begin, Deliveries(src, ks) + [Delivery(src, BlockCount(src))]);
      s.status == Succeeded
      && (s.file == src <==> !GoesBack(ks))
  {
    var n := BlockCount(src);
    var events, file := Deliveries(src, ks), Run(OctetMode, Begin, Deliveries(src, ks)).file;
    FileOfDeliveries(src, ks);
    FileIsFrontOfSourceIff(src, ks);
    MaxBound(src, ks);
    RunSnoc(OctetMode, Begin, events, Delivery(src, n));
    StepOnDelivery(src, Run(OctetMode, Begin, events), n);
    LastBlockEndsSource(src, n);
    hide Run, Deliveries, GoesBack, Deliverable;
    assert file == src[..512 * (n - 1)] <==> file + Block(src, n) == src by {
      SameFront(file, src[..512 * (n - 1)], Block(src, n));
    }
  }

  lemma LastBlockEndsSource(src: seq<byte>, n: nat)
    requires n == BlockCount(src)
    ensures 512 * (n - 1) <= |src| && src[..512 * (n - 1)] + Block(src, n) == src
  {
  }

  lemma SameFront(a: seq<byte>, b: seq<byte>, t: seq<byte>)
    ensures a == b <==> a + t == b + t
  {
    if a + t == b + t {
      assert a == (a + t)[..|a|] && b == (b + t)[..|b|];
    }
  }

  // ---- blocks in order ----

  function InOrder(n: nat): (ks: seq<nat>)
    ensures |ks| == n && forall i | 0 <= i < n :: ks[i] == i + 1
  {
    seq(n, i => i + 1)
  }

  lemma MaxInOrder(n: nat)
    ensures Max(InOrder(n)) == n
  {
    if n > 0 {
      assert InOrder(n)[n - 1] == n;
    }
  }

  /** Blocks that arrive once and in order are deliverable, and never go back: so their upload is exact. */
  lemma InOrderNeverGoesBack(src: seq<byte>, n: nat)
    requires n < BlockCount(src) && n < 0x1_0000
    ensures Deliverable(src, InOrder(n)) && !GoesBack(InOrder(n)) && Max(InOrder(n)) == n
  {
    hide Max, BlockCount, InOrder;
    var ks := InOrder(n);
    MaxInOrder(n);
    forall i | 0 <= i < n
      ensures Max(ks[..i]) == i
    {
      assert ks[..i] == InOrder(i);
      MaxInOrder(i);
    }
    assert forall i: nat | i < n :: !GoesBackAt(ks, i);
  }
}
