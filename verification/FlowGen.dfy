/** The multi-flow generator (app/test-pmd/flowgen.c, `pkt_burst_flow_gen`): packets
    go round robin over `flows` destination addresses, and the flow counter is backed
    out for packets the port did not accept. */
module FlowGen {
  import opened Basics
  import opened Arith
  import opened Checksum

  const CFG_N_FLOWS: nat := 1024
  const CFG_IP_SRC: uint32 := 0x0AFE_0000
  const CFG_IP_DST: uint32 := 0x0AFD_0000

  /** A frame handed to the port: generated by this call, or a stale receive buffer
      that an overlong retry picks out of the burst array. */
  datatype Frame = Generated(header: seq<byte>) | Stale

  function Be16(x: uint16): seq<byte> {
    [(x / 0x100) as byte, (x % 0x100) as byte]
  }

  function Be32(x: uint32): (r: seq<byte>)
    ensures |r| == 4
  {
    Be16(x / 0x1_0000) + Be16(x % 0x1_0000)
  }

  /** The IPv4 header with its checksum field still zero. */
  function BlankHeader(totalLength: uint16, dst: uint32): (h: seq<byte>)
    ensures |h| == 20 && h[10] == 0 && h[11] == 0 && h[16..20] == Be32(dst)
  {
    [0x45, 0] + Be16(totalLength) + [0, 0, 0, 0, 64, 17, 0, 0] + Be32(CFG_IP_SRC) + Be32(dst)
  }

  /** The number that bytes in network order stand for. */
  function Network(bytes: seq<byte>): nat {
    if bytes == [] then 0 else 0x100 * Network(bytes[..|bytes| - 1]) + bytes[|bytes| - 1]
  }

  lemma NetworkTwo(b: seq<byte>)
    requires |b| == 2
    ensures Network(b) == 0x100 * (b[0] as int) + b[1]
  {
    assert Network(b[..1][..0]) == 0;
    assert Network(b[..1]) == b[0];
  }

  lemma NetworkFour(b: seq<byte>)
    requires |b| == 4
    ensures Network(b) == 0x1_0000 * Network(b[..2]) + Network(b[2..])
  {
    NetworkTwo(b[..2]);
    NetworkTwo(b[2..]);
    assert b[..3][..2] == b[..2];
  }

  lemma NetworkOfBe32(x: uint32)
    ensures Network(Be32(x)) == x
  {
    NetworkTwo(Be16(x / 0x1_0000));
    NetworkTwo(Be16(x % 0x1_0000));
    assert Be32(x)[..2] == Be16(x / 0x1_0000) && Be32(x)[2..] == Be16(x % 0x1_0000);
    hide Be16;
    NetworkFour(Be32(x));
  }

  /** What a receiver reads from a header: version 4 with 20 bytes, a length, 64 hops to live,
      UDP, the generator's source address and a destination. */
  ghost predicate Reads(h: seq<byte>, totalLength: nat, dst: nat) {
    && |h| == 20 && h[0] / 16 == 4 && h[0] % 16 == 5 && Network(h[2..4]) == totalLength
    && h[8] == 64 && h[9] == 17 && Network(h[12..16]) == CFG_IP_SRC && Network(h[16..20]) == dst
  }

  lemma BlankReads(totalLength: uint16, dst: uint32)
    ensures Reads(BlankHeader(totalLength, dst), totalLength, dst)
  {
    var h := BlankHeader(totalLength, dst);
    assert h[2..4] == Be16(totalLength) && h[12..16] == Be32(CFG_IP_SRC) && h[16..20] == Be32(dst);
    NetworkTwo(Be16(totalLength));
    NetworkOfBe32(CFG_IP_SRC);
    NetworkOfBe32(dst);
    hide Network;
  }

  /** The checksum field is none of those. */
  lemma ReadsUnchanged(h: seq<byte>, totalLength: nat, dst: nat, a: byte, b: byte)
    requires Reads(h, totalLength, dst)
    ensures Reads(h[10 := a][11 := b], totalLength, dst)
  {
    var g := h[10 := a][11 := b];
    assert g[2..4] == h[2..4] && g[12..16] == h[12..16] && g[16..20] == h[16..20];
    hide Network;
  }

  lemma ReadLength(h: seq<byte>, totalLength: nat, dst: nat)
    requires Reads(h, totalLength, dst)
    ensures |h| == 20 && Network(h[2..4]) == totalLength
  {
  }

  /** The destination the `k`-th packet ever sent must have. */
  function FlowAddress(flows: nat, k: nat): uint32
    requires flows > 0
  {
    (CFG_IP_DST + k % flows) % 0x1_0000_0000
  }

  /** A generated frame that a receiver reads as a UDP packet of the generator's to `dst`, and
      whose header checksum verifies, byte by byte. */
  ghost predicate Targets(f: Frame, dst: uint32) {
    && f.Generated? && |f.header| == 20
    && Reads(f.header, Network(f.header[2..4]), dst)
    && Canon(Weigh(f.header)) == 0xFFFF
  }

  /** Storing the computed checksum at bytes 10 and 11 makes the header verify. */
  lemma FinishedHeaderVerifies(blank: seq<byte>, c: uint16)
    requires |blank| == 20 && blank[10] == 0 && blank[11] == 0
    requires c == 0xFFFF - OnesSum(Words(blank))
    ensures OnesSum(Words(blank[10 := (c % 0x100) as byte][11 := (c / 0x100) as byte])) == 0xFFFF
  {
    var done := blank[10 := (c % 0x100) as byte][11 := (c / 0x100) as byte];
    assert Words(done) == Words(blank)[5 := c];
    StoredChecksumVerifies(Words(blank), 5, c);
  }

  /** The counter arithmetic of one call: advanced once per generated packet, then
      backed out by the number of packets not sent. */
  function NextFlow(next: nat, flows: nat, nbPkt: nat, nbTx: nat): int
    requires flows > 0
  {
    var advanced := (next + nbPkt) % flows;
    if nbTx < nbPkt then (advanced - (nbPkt - nbTx)) % flows else advanced
  }

  /** The counter ends where the transmitted packets put it, if and only if no more
      packets were sent than generated (or the excess is a whole round). */
  lemma BackOutExact(next: nat, flows: nat, nbPkt: nat, nbTx: nat)
    requires next < flows
    ensures NextFlow(next, flows, nbPkt, nbTx) == (next + nbTx) % flows <==>
              nbTx <= nbPkt || (nbTx - nbPkt) % flows == 0
  {
    if nbTx < nbPkt {
      var q := (next + nbPkt) / flows;
      assert (next + nbPkt) % flows == next + nbPkt - flows * q;
      ModShift(next + nbTx, q, flows);
    } else if nbTx > nbPkt {
      ModSame(next + nbTx, next + nbPkt, flows);
    }
  }

  /** A retry that sends two frames when one was generated skips a flow. */
  lemma RetryPastGeneratedSkipsFlow()
    ensures NextFlow(0, CFG_N_FLOWS, 1, 2) == 1 != (0 + 2) % CFG_N_FLOWS
  {
  }

  /** What a port may end up having taken: part of the burst, or, once a retry is made, up to
      as many frames as were received. */
  predicate MayTransmit(nbPkt: nat, nbRx: nat, retry: bool, retryNum: nat, nbTx: nat) {
    nbTx <= nbPkt || (retry && retryNum > 0 && nbTx <= nbRx)
  }

  /** How many frames are taken in the end, if the `i`-th offer is good for `takes(i)` of them:
      the burst is offered once, and what is missing to the number received again and again. */
  function Transmitted(nbPkt: nat, nbRx: nat, retry: bool, retryNum: nat, takes: nat -> nat): nat {
    var nbTx := Min(nbPkt, takes(0));
    if retry then Retried(nbTx, nbRx, 0, retryNum, takes) else nbTx
  }

  function Retried(nbTx: nat, nbRx: nat, tries: nat, retryNum: nat, takes: nat -> nat): nat
    decreases retryNum - tries
  {
    if nbTx < nbRx && tries < retryNum then
      Retried(nbTx + Min(nbRx - nbTx, takes(tries + 1)), nbRx, tries + 1, retryNum, takes)
    else nbTx
  }

  lemma {:induction false} RetriedBounds(nbTx: nat, nbRx: nat, tries: nat, retryNum: nat, takes: nat -> nat)
    ensures var n := Retried(nbTx, nbRx, tries, retryNum, takes);
            nbTx <= n && (n == nbTx || (tries < retryNum && n <= nbRx))
    decreases retryNum - tries
  {
    if nbTx < nbRx && tries < retryNum {
      RetriedBounds(nbTx + Min(nbRx - nbTx, takes(tries + 1)), nbRx, tries + 1, retryNum, takes);
    }
  }

  lemma {:induction false} RetriedInVain(nbTx: nat, nbRx: nat, tries: nat, retryNum: nat, takes: nat -> nat)
    requires forall i :: i > tries ==> takes(i) == 0
    ensures Retried(nbTx, nbRx, tries, retryNum, takes) == nbTx
    decreases retryNum - tries
  {
    if nbTx < nbRx && tries < retryNum {
      RetriedInVain(nbTx, nbRx, tries + 1, retryNum, takes);
    }
  }

  /** The numbers that a port may end up having taken are exactly those. */
  lemma TransmittedExactly(nbPkt: nat, nbRx: nat, retry: bool, retryNum: nat, nbTx: nat)
    ensures MayTransmit(nbPkt, nbRx, retry, retryNum, nbTx) <==>
              exists takes: nat -> nat :: Transmitted(nbPkt, nbRx, retry, retryNum, takes) == nbTx
  {
    forall takes: nat -> nat
      ensures MayTransmit(nbPkt, nbRx, retry, retryNum, Transmitted(nbPkt, nbRx, retry, retryNum, takes))
    {
      RetriedBounds(Min(nbPkt, takes(0)), nbRx, 0, retryNum, takes);
    }
    if MayTransmit(nbPkt, nbRx, retry, retryNum, nbTx) {
      var first := Min(nbPkt, nbTx);
      var takes: nat -> nat := (i: nat) => if i == 0 then first else if i == 1 then nbTx - first else 0;
      if retry && first < nbRx && retryNum > 0 {
        RetriedInVain(nbTx, nbRx, 1, retryNum, takes);
      }
      assert Transmitted(nbPkt, nbRx, retry, retryNum, takes) == nbTx;
    }
  }

  /** Round robin without gaps: the `k`-th frame ever accepted targets the `k mod flows`-th
      address with a correct checksum, and the counter is at the next one. */
  ghost predicate Gapless(sent: seq<Frame>, nextFlow: int, flows: nat)
    requires flows > 0
  {
    nextFlow == |sent| % flows && forall k :: 0 <= k < |sent| ==> Targets(sent[k], FlowAddress(flows, k))
  }

  /** The burst array: the generated frames, and stale ones in the places of received
      packets behind them. */
  function Offered(pkts: seq<Frame>, nbRx: nat): seq<Frame> {
    pkts + seq(nbRx, _ => Stale)
  }

  /** Whatever the port takes the counter follows the frames sent, if and only if no retry can
      run past the generated packets, or there is a single flow. */
  lemma CounterFollowsExactly(next: nat, flows: nat, nbPkt: nat, nbRx: nat, retry: bool, retryNum: nat)
    requires next < flows
    ensures (forall nbTx: nat :: MayTransmit(nbPkt, nbRx, retry, retryNum, nbTx) ==>
                                   NextFlow(next, flows, nbPkt, nbTx) == (next + nbTx) % flows) <==>
            !retry || retryNum == 0 || nbRx <= nbPkt || flows == 1
  {
    hide NextFlow;
    forall nbTx: nat
      ensures NextFlow(next, flows, nbPkt, nbTx) == (next + nbTx) % flows <==>
                nbTx <= nbPkt || (nbTx - nbPkt) % flows == 0
    {
      BackOutExact(next, flows, nbPkt, nbTx);
    }
    if retry && retryNum > 0 && nbRx > nbPkt && flows > 1 {
      var nbTx := nbPkt + 1;
      DivModUnique(nbTx - nbPkt, flows, 0, 1);
      assert MayTransmit(nbPkt, nbRx, retry, retryNum, nbTx);
    }
  }

  /** Whatever the port takes the round robin stays gapless, if and only if no retry can run
      past the generated packets. */
  lemma GaplessExactly(sent: seq<Frame>, pkts: seq<Frame>, next: nat, nbRx: nat, retry: bool, retryNum: nat, flows: nat)
    requires flows > 0 && Gapless(sent, next, flows)
    requires forall k :: 0 <= k < |pkts| ==> Targets(pkts[k], FlowAddress(flows, next + k))
    ensures (forall nbTx: nat :: MayTransmit(|pkts|, nbRx, retry, retryNum, nbTx) && nbTx <= |pkts| + nbRx ==>
               Gapless(sent + Offered(pkts, nbRx)[..nbTx], NextFlow(next, flows, |pkts|, nbTx), flows)) <==>
            !retry || retryNum == 0 || nbRx <= |pkts|
  {
    hide NextFlow, Gapless;
    forall nbTx: nat | nbTx <= |pkts|
      ensures Gapless(sent + Offered(pkts, nbRx)[..nbTx], NextFlow(next, flows, |pkts|, nbTx), flows)
    {
      SentKeepsGapless(sent, pkts, next, nbRx, nbTx, flows);
    }
    if retry && retryNum > 0 && nbRx > |pkts| {
      var nbTx := |pkts| + 1;
      PastGenerated(sent, pkts, nbRx, nbTx, NextFlow(next, flows, |pkts|, nbTx), flows);
      assert MayTransmit(|pkts|, nbRx, retry, retryNum, nbTx);
    }
  }

  lemma SentKeepsGapless(sent: seq<Frame>, pkts: seq<Frame>, next: nat, nbRx: nat, nbTx: nat, flows: nat)
    requires flows > 0 && Gapless(sent, next, flows) && nbTx <= |pkts|
    requires forall k :: 0 <= k < |pkts| ==> Targets(pkts[k], FlowAddress(flows, next + k))
    ensures Gapless(sent + Offered(pkts, nbRx)[..nbTx], NextFlow(next, flows, |pkts|, nbTx), flows)
  {
    hide Targets, FlowAddress, NextFlow;
    assert Offered(pkts, nbRx)[..nbTx] == pkts[..nbTx];
    StaysGapless(sent, pkts, nbTx, flows);
    BackOutExact(next, flows, |pkts|, nbTx);
    ModSum(|sent|, nbTx, flows);
  }

  /** Accepted frames followed by the others are the generated ones. */
  lemma SentAndFreed(was: seq<Frame>, pkts: seq<Frame>, nbRx: nat, nbTx: nat)
    requires nbTx <= |pkts|
    ensures pkts == (was + Offered(pkts, nbRx)[..nbTx])[|was|..] + pkts[nbTx..]
    ensures nbTx == |pkts| ==> pkts[nbTx..] == []
  {
    assert Offered(pkts, nbRx)[..nbTx] == pkts[..nbTx];
  }

  /** The first frame past the generated ones is a stale buffer. */
  lemma PastGenerated(sent: seq<Frame>, pkts: seq<Frame>, nbRx: nat, nbTx: nat, next: int, flows: nat)
    requires flows > 0 && |pkts| < nbTx <= |pkts| + nbRx
    ensures !Gapless(sent + Offered(pkts, nbRx)[..nbTx], next, flows)
  {
    var all := sent + Offered(pkts, nbRx)[..nbTx];
    assert all[|sent| + |pkts|] == Stale;
  }

  class Generator {
    const flows: nat
    /** The static flow counter; it goes below zero while it is backed out. */
    var nextFlow: int
    /** Every frame the port has accepted, in order. */
    ghost var sent: seq<Frame>

    constructor (flows: nat)
      requires flows > 0
      ensures this.flows == flows && sent == [] && Valid()
    {
      this.flows := flows;
      nextFlow, sent := 0, [];
    }

    ghost predicate Valid()
      reads this
    {
      flows > 0 && Gapless(sent, nextFlow, flows)
    }

    /** Builds one packet's header and stores its checksum. */
    static method MakeFrame(totalLength: uint16, dst: uint32) returns (frame: Frame)
      ensures Targets(frame, dst) && Network(frame.header[2..4]) == totalLength
    {
      hide Reads, Weigh, Canon, OnesSum, Words, Network;
      var blank := BlankHeader(totalLength, dst);
      var c := IpSum(blank);
      FinishedHeaderVerifies(blank, c);
      BlankReads(totalLength, dst);
      ReadsUnchanged(blank, totalLength, dst, (c % 0x100) as byte, (c / 0x100) as byte);
      var done: seq<byte> := blank[10 := (c % 0x100) as byte][11 := (c / 0x100) as byte];
      SumWeighs(done);
      ReadLength(done, totalLength, dst);
      frame := Generated(done);
    }

    /** Offers the burst to the port, which takes `takes(i)` frames of the `i`-th offer if there
        are as many, and retries against the number received. */
    static method Transmit(nbPkt: nat, nbRx: nat, retry: bool, retryNum: nat, takes: nat -> nat) returns (nbTx: nat)
      ensures nbTx == Transmitted(nbPkt, nbRx, retry, retryNum, takes)
      ensures MayTransmit(nbPkt, nbRx, retry, retryNum, nbTx)
    {
      nbTx := Min(nbPkt, takes(0));
      RetriedBounds(nbTx, nbRx, 0, retryNum, takes);
      if nbTx < nbRx && retry {
        var tries := 0;
        while nbTx < nbRx && tries < retryNum
          invariant 0 <= tries <= retryNum
          invariant Retried(nbTx, nbRx, tries, retryNum, takes) == Transmitted(nbPkt, nbRx, true, retryNum, takes)
          decreases retryNum - tries
        {
          tries := tries + 1;
          nbTx := nbTx + Min(nbRx - nbTx, takes(tries));
        }
      }
    }

    /** Backs the flow counter out by `unsent` packets. */
    method BackOut(unsent: nat)
      requires flows > 0 && 0 <= nextFlow < flows
      modifies this`nextFlow
      ensures nextFlow == (old(nextFlow) - unsent) % flows
    {
      nextFlow := nextFlow - unsent;
      ghost var backedOut := nextFlow;
      while nextFlow < 0
        invariant nextFlow < flows && nextFlow % flows == backedOut % flows
        decreases -nextFlow
      {
        ModShift(nextFlow, -1, flows);
        nextFlow := nextFlow + flows;
      }
      DivModUnique(nextFlow, flows, 0, nextFlow);
    }

    /** The counter after `nbTx` of `nbPkt` generated packets were taken. */
    method Settle(nbPkt: nat, nbTx: nat, ghost was: nat)
      requires flows > 0 && nextFlow == (was + nbPkt) % flows
      modifies this`nextFlow
      ensures nextFlow == NextFlow(was, flows, nbPkt, nbTx)
    {
      if nbTx < nbPkt {
        BackOut(nbPkt - nbTx);
      }
    }

    /** Generates `perBurst` packets, or as many as there are mbufs. */
    method Fill(perBurst: nat, totalLength: uint16, mbufs: nat) returns (pkts: seq<Frame>)
      requires flows > 0 && 0 <= nextFlow < flows
      modifies this`nextFlow
      ensures |pkts| == Min(perBurst, mbufs) && nextFlow == (old(nextFlow) + |pkts|) % flows
      ensures forall k :: 0 <= k < |pkts| ==> Targets(pkts[k], FlowAddress(flows, old(nextFlow) + k))
    {
      hide Targets;
      pkts := [];
      DivModUnique(nextFlow, flows, 0, nextFlow);
      while |pkts| < perBurst
        invariant |pkts| <= Min(perBurst, mbufs)
        invariant 0 <= nextFlow < flows && nextFlow == (old(nextFlow) + |pkts|) % flows
        invariant forall k :: 0 <= k < |pkts| ==> Targets(pkts[k], FlowAddress(flows, old(nextFlow) + k))
      {
        if |pkts| == mbufs {
          break;
        }
        var frame := MakeFrame(totalLength, (CFG_IP_DST + nextFlow) % 0x1_0000_0000);
        ModStep(old(nextFlow) + |pkts|, flows);
        pkts := pkts + [frame];
        nextFlow := (nextFlow + 1) % flows;
      }
    }

    /** One call: `nbRx` packets were received, `retry` says whether unsent packets
        are retried (up to `retryNum` times).  The mempool has `mbufs` mbufs, and the port
        accepts what `takes` says; both are arbitrary.
        Accepted frames followed by freed frames are exactly the generated ones, and
        the round robin stays gapless, unless a retry runs past the generated
        packets because it counts received ones. */
    method Burst(perBurst: nat, totalLength: uint16, nbRx: nat, retry: bool, retryNum: nat, mbufs: nat,
                 takes: nat -> nat)
        returns (pkts: seq<Frame>, nbTx: nat, freed: seq<Frame>)
      requires Valid()
      modifies this
      ensures nextFlow == NextFlow(old(nextFlow), flows, |pkts|, nbTx)
      ensures |pkts| == Min(perBurst, mbufs) && nbTx == Transmitted(|pkts|, nbRx, retry, retryNum, takes)
      ensures MayTransmit(|pkts|, nbRx, retry, retryNum, nbTx) && nbTx <= |pkts| + nbRx
      ensures sent == old(sent) + Offered(pkts, nbRx)[..nbTx]
      ensures nbTx <= |pkts| ==> pkts == sent[|old(sent)|..] + freed
      ensures !retry || retryNum == 0 || nbRx <= |pkts| ==> Valid()
      ensures Valid() ==> nbTx <= |pkts|
    {
      assert 0 <= nextFlow < flows;
      hide Targets, FlowAddress, Gapless, NextFlow;
      pkts := Fill(perBurst, totalLength, mbufs);
      nbTx := Transmit(|pkts|, nbRx, retry, retryNum, takes);
      ghost var was := sent;
      sent := sent + Offered(pkts, nbRx)[..nbTx];
      Settle(|pkts|, nbTx, old(nextFlow));
      freed := if nbTx < |pkts| then pkts[nbTx..] else [];
      if nbTx <= |pkts| {
        SentAndFreed(was, pkts, nbRx, nbTx);
        SentKeepsGapless(was, pkts, old(nextFlow), nbRx, nbTx, flows);
      } else {
        PastGenerated(was, pkts, nbRx, nbTx, nextFlow, flows);
      }
    }
  }

  /** Appending the accepted packets of a call that started at `|sent| mod flows`. */
  lemma StaysGapless(sent: seq<Frame>, pkts: seq<Frame>, nbTx: nat, flows: nat)
    requires flows > 0 && nbTx <= |pkts|
    requires forall k :: 0 <= k < |sent| ==> Targets(sent[k], FlowAddress(flows, k))
    requires forall k :: 0 <= k < |pkts| ==> Targets(pkts[k], FlowAddress(flows, |sent| % flows + k))
    ensures forall k :: 0 <= k < |sent| + nbTx ==> Targets((sent + pkts[..nbTx])[k], FlowAddress(flows, k))
  {
    forall k | |sent| <= k < |sent| + nbTx
      ensures Targets((sent + pkts[..nbTx])[k], FlowAddress(flows, k))
    {
      ModSum(|sent|, k - |sent|, flows);
      assert (sent + pkts[..nbTx])[k] == pkts[k - |sent|];
    }
  }
}
