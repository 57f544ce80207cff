/** Forwarding configuration (app/test-pmd/config.c): streams dealt out to lcores,
    port topologies, and the RSS and ICMP-echo stream tables. */
module FwdConfig {
  import opened Basics
  import opened Arith

  datatype Topology = Paired | Chained | Loop

  datatype Stream = Stream(rxPort: uint16, rxQueue: uint16, txPort: uint16, txQueue: uint16)

  // ---------------------------------------------------------------- lcores

  /** Streams an lcore gets before the remainder is dealt out. */
  function PerLcore(fs: nat, fc: nat): nat
    requires fc > 0 || fs == 0
  {
    if fs <= fc then 1 else fs / fc
  }

  function Extra(fs: nat, fc: nat): nat
    requires fc > 0 || fs == 0
  {
    if fs <= fc then 0 else fs % fc
  }

  /** First stream of lcore `l` and one past its last; the last `Extra` lcores get one
      stream more than the others. */
  function First(fs: nat, fc: nat, l: nat): nat
    requires fc > 0 || fs == 0
  {
    var plain := fc - Extra(fs, fc);
    l * PerLcore(fs, fc) + if l <= plain then 0 else l - plain
  }

  function Count(fs: nat, fc: nat, l: nat): nat
    requires fc > 0 || fs == 0
  {
    if l < fc - Extra(fs, fc) then PerLcore(fs, fc) else PerLcore(fs, fc) + 1
  }

  lemma NextFirst(fs: nat, fc: nat, l: nat)
    requires fc > 0 && l < fc
    ensures First(fs, fc, l + 1) == First(fs, fc, l) + Count(fs, fc, l)
  {
  }

  lemma {:induction false} FirstMonotone(fs: nat, fc: nat, a: nat, b: nat)
    requires fc > 0 && a <= b <= fc
    ensures First(fs, fc, a) <= First(fs, fc, b)
  {
    if a < b {
      FirstMonotone(fs, fc, a, b - 1);
      NextFirst(fs, fc, b - 1);
    }
  }

  /** The ranges end exactly at the number of streams if and only if there are at
      least as many streams as lcores. */
  lemma RangesEnd(fs: nat, fc: nat)
    requires fc > 0
    ensures First(fs, fc, 0) == 0
    ensures First(fs, fc, fc) == fs <==> fc <= fs
    ensures First(fs, fc, fc) >= fs
  {
    if fs > fc {
      assert fs == fc * (fs / fc) + fs % fc;
    }
  }

  ghost predicate Owns(fs: nat, fc: nat, l: nat, s: nat)
    requires fc > 0
  {
    l < fc && First(fs, fc, l) <= s < First(fs, fc, l) + Count(fs, fc, l)
  }

  ghost predicate HasOneOwner(fs: nat, fc: nat, s: nat)
    requires fc > 0
  {
    && (exists l: nat :: Owns(fs, fc, l, s))
    && (forall l: nat, l': nat :: Owns(fs, fc, l, s) && Owns(fs, fc, l', s) ==> l == l')
  }

  lemma {:induction false} FindOwner(fs: nat, fc: nat, s: nat, k: nat) returns (l: nat)
    requires fc > 0 && k <= fc && s < First(fs, fc, k)
    ensures l < k && Owns(fs, fc, l, s)
  {
    NextFirst(fs, fc, k - 1);
    if First(fs, fc, k - 1) <= s {
      l := k - 1;
    } else {
      l := FindOwner(fs, fc, s, k - 1);
    }
  }

  /** Every stream belongs to exactly one lcore. */
  lemma OneOwner(fs: nat, fc: nat, s: nat)
    requires fc > 0 && s < fs
    ensures HasOneOwner(fs, fc, s)
  {
    RangesEnd(fs, fc);
    var l := FindOwner(fs, fc, s, fc);
    forall a: nat, b: nat | Owns(fs, fc, a, s) && Owns(fs, fc, b, s)
      ensures a == b
    {
      if a < b {
        NextFirst(fs, fc, a);
        FirstMonotone(fs, fc, a + 1, b);
      } else if b < a {
        NextFirst(fs, fc, b);
        FirstMonotone(fs, fc, b + 1, a);
      }
    }
  }

  /** With no more lcores than streams, an lcore's streams all exist, two lcores differ by at
      most one stream, and no lcore has more than a later one. */
  lemma Balanced(fs: nat, fc: nat, a: nat, b: nat)
    requires 0 < fc <= fs && a < fc && b < fc
    ensures First(fs, fc, a) + Count(fs, fc, a) <= fs
    ensures -1 <= Count(fs, fc, a) - Count(fs, fc, b) <= 1 && Count(fs, fc, a) >= 1
    ensures a <= b ==> Count(fs, fc, a) <= Count(fs, fc, b)
  {
    NextFirst(fs, fc, a);
    FirstMonotone(fs, fc, a + 1, fc);
    RangesEnd(fs, fc);
    if fs > fc {
      assert fs / fc >= 1;
    }
  }

  /** With more lcores than streams an lcore is handed a stream that does not exist. */
  lemma TooManyLcores(fs: nat, fc: nat)
    requires fs < fc
    ensures Owns(fs, fc, fs, fs)
  {
  }

  /** Every lcore has its range of streams. */
  ghost predicate Dealt(fs: nat, fc: nat, streamIdx: array<uint16>, streamNb: array<uint16>)
    reads streamIdx, streamNb
  {
    && (fc > 0 || fs == 0)
    && fc <= streamIdx.Length && fc <= streamNb.Length
    && forall l :: 0 <= l < fc ==> streamIdx[l] == First(fs, fc, l) && streamNb[l] == Count(fs, fc, l)
  }

  /** `setup_fwd_config_of_each_lcore`: with streams but no lcore it divides by zero, and
      only then (`ok` is false). */
  method SetupLcores(fs: uint16, fc: byte, streamIdx: array<uint16>, streamNb: array<uint16>) returns (ok: bool)
    requires streamIdx != streamNb && fc <= streamIdx.Length && fc <= streamNb.Length
    modifies streamIdx, streamNb
    ensures ok <==> fc > 0 || fs == 0
    ensures !ok ==> streamIdx[..] == old(streamIdx[..]) && streamNb[..] == old(streamNb[..])
    ensures ok ==> Dealt(fs, fc, streamIdx, streamNb)
  {
    var perLcore, extra: byte := 1, 0;
    if fs > fc {
      if fc == 0 {
        return false;
      }
      perLcore := fs / fc;
      extra := fs % fc;
    }
    hide First, Count, PerLcore, Extra;
    ok := true;
    if fc == 0 {
      return;
    }
    RangesEnd(fs, fc);
    var plain := fc - extra;
    var smId: int := 0;
    var l := 0;
    while l < plain
      invariant 0 <= l <= plain && smId == First(fs, fc, l)
      invariant forall k :: 0 <= k < l ==> streamIdx[k] == First(fs, fc, k) && streamNb[k] == Count(fs, fc, k)
    {
      Deal(fs, fc, l);
      streamIdx[l] := smId;
      streamNb[l] := perLcore;
      smId := smId + perLcore;
      l := l + 1;
    }
    l := 0;
    while l < extra
      invariant 0 <= l <= extra && smId == First(fs, fc, plain + l)
      invariant forall k :: 0 <= k < plain + l ==> streamIdx[k] == First(fs, fc, k) && streamNb[k] == Count(fs, fc, k)
    {
      Deal(fs, fc, plain + l);
      streamIdx[plain + l] := smId;
      streamNb[plain + l] := perLcore + 1;
      smId := smId + perLcore + 1;
      l := l + 1;
    }
  }

  /** One lcore's share, in the source's terms, and where the next range begins. */
  lemma Deal(fs: uint16, fc: byte, l: nat)
    requires l < fc
    ensures First(fs, fc, l + 1) == First(fs, fc, l) + Count(fs, fc, l) < 0x1_0000
    ensures var (per, extra) := if fs > fc then (fs / fc, fs % fc) else (1, 0);
            Count(fs, fc, l) == if l < fc - extra then per else per + 1
  {
    NextFirst(fs, fc, l);
    FirstMonotone(fs, fc, l + 1, fc);
    RangesEnd(fs, fc);
    RangesEndBound(fs, fc);
  }

  lemma RangesEndBound(fs: nat, fc: nat)
    requires fc > 0
    ensures First(fs, fc, fc) == if fs <= fc then fc else fs
  {
    RangesEnd(fs, fc);
  }

  // ------------------------------------------------------------- topologies

  /** `fwd_topology_tx_port_get`. */
  function TxPort(t: Topology, ports: nat, rxp: nat): (txp: nat)
    requires rxp < ports
    ensures txp < ports
  {
    match t
    case Paired =>
      if rxp % 2 == 0 then (if rxp + 1 < ports then rxp + 1 else rxp) else rxp - 1
    case Chained => (rxp + 1) % ports
    case Loop => rxp
  }

  /** The port whose traffic leaves through `txp`. */
  function RxPort(t: Topology, ports: nat, txp: nat): (rxp: nat)
    requires txp < ports
    ensures rxp < ports
  {
    match t
    case Paired => TxPort(Paired, ports, txp)
    case Chained => if txp == 0 then ports - 1 else txp - 1
    case Loop => txp
  }

  /** The port reached from `p` after `n` hops. */
  function Hops(t: Topology, ports: nat, p: nat, n: nat): (q: nat)
    requires p < ports
    ensures q < ports
  {
    if n == 0 then p else TxPort(t, ports, Hops(t, ports, p, n - 1))
  }

  /** Which ports belong together: the paired topology joins ports 2k and 2k + 1, the chained
      one visits the ports in ascending order from port 0 and comes back to it after the last,
      and a looping port keeps its traffic. */
  lemma TopologyMeaning(ports: nat, p: nat, n: nat)
    requires p < ports && n <= ports
    ensures TxPort(Paired, ports, p) / 2 == p / 2
    ensures Hops(Chained, ports, 0, n) == if n < ports then n else 0
    ensures TxPort(Loop, ports, p) == p
  {
    ChainVisits(ports, n);
  }

  lemma {:induction false} ChainVisits(ports: nat, n: nat)
    requires 0 < ports && n <= ports
    ensures Hops(Chained, ports, 0, n) == if n < ports then n else 0
  {
    if n > 0 {
      ChainVisits(ports, n - 1);
      NextInChain(ports, n - 1);
    }
  }

  lemma NextInChain(ports: nat, p: nat)
    requires p < ports
    ensures TxPort(Chained, ports, p) == if p + 1 < ports then p + 1 else 0
  {
    if p + 1 < ports {
      DivModUnique(p + 1, ports, 0, p + 1);
    } else {
      DivModUnique(p + 1, ports, 1, 0);
    }
  }

  /** Every topology is a bijection on the ports; the paired one is its own inverse. */
  lemma TopologyBijection(t: Topology, ports: nat, p: nat)
    requires p < ports
    ensures RxPort(t, ports, TxPort(t, ports, p)) == p && TxPort(t, ports, RxPort(t, ports, p)) == p
    ensures TxPort(Paired, ports, TxPort(Paired, ports, p)) == p
    ensures TxPort(Paired, ports, p) == p <==> p + 1 == ports && ports % 2 == 1
  {
    ChainedInverse(ports, p);
  }

  lemma ChainedInverse(ports: nat, p: nat)
    requires p < ports
    ensures RxPort(Chained, ports, TxPort(Chained, ports, p)) == p
    ensures TxPort(Chained, ports, RxPort(Chained, ports, p)) == p
  {
    if p + 1 < ports {
      DivModUnique(p + 1, ports, 0, p + 1);
    } else {
      DivModUnique(p + 1, ports, 1, 0);
    }
    if p > 0 {
      DivModUnique(p, ports, 0, p);
    } else {
      DivModUnique(ports, ports, 1, 0);
    }
  }

  // -------------------------------------------------------------------- RSS

  /** What stream `s` of the RSS configuration polls and feeds: streams run through
      the ports first, then through the queues. */
  function RssStream(t: Topology, ids: seq<uint16>, s: uint16): Stream
    requires ids != []
  {
    var rxp, rxq := s % |ids|, s / |ids|;
    assert rxq <= s by { DivShrinks(s, |ids|); }
    Stream(ids[rxp], rxq, ids[TxPort(t, |ids|, rxp)], rxq)
  }

  /** The streams of queue `rxq` follow those of the queues before it, port by port. */
  lemma RssStreamAt(t: Topology, ids: seq<uint16>, s: uint16, rxp: nat, rxq: uint16)
    requires rxp < |ids| && s == |ids| * rxq + rxp
    ensures RssStream(t, ids, s) == Stream(ids[rxp], rxq, ids[TxPort(t, |ids|, rxp)], rxq)
  {
    DivModUnique(s, |ids|, rxq, rxp);
  }

  lemma DivShrinks(s: nat, n: nat)
    requires n > 0
    ensures s / n <= s
  {
    assert s == n * (s / n) + s % n;
    if s / n > 0 {
      MulAtLeast(s / n, n);
    }
  }

  /** What a setup leaves: its numbers of streams and lcores, or a division by zero. */
  datatype Setup = Configured(fs: uint16, fc: byte) | DividedByZero

  /** The number of streams, computed in the source's 16 bits. */
  function NbStreams(queues: nat, ports: nat): uint16 {
    (queues * ports) % 0x1_0000
  }

  /** `rss_fwd_config_setup`: divides by zero exactly when there are streams but no
      lcore. */
  method RssSetup(t: Topology, ids: seq<uint16>, nbRxq: uint16, nbTxq: uint16, nbLcores: byte,
                  streams: array<Stream>, streamIdx: array<uint16>, streamNb: array<uint16>)
      returns (r: Setup)
    requires |ids| < 0x1_0000
    requires streamIdx != streamNb && nbLcores <= streamIdx.Length && nbLcores <= streamNb.Length
    requires NbStreams(Min(nbRxq, nbTxq), |ids|) <= streams.Length
    modifies streams, streamIdx, streamNb
    ensures r.DividedByZero? <==> nbLcores == 0 && NbStreams(Min(nbRxq, nbTxq), |ids|) > 0
    ensures r.Configured? ==> r.fs == NbStreams(Min(nbRxq, nbTxq), |ids|) && r.fc == Min(nbLcores, r.fs)
    ensures r.Configured? ==> forall s :: 0 <= s < r.fs ==> ids != [] && streams[s] == RssStream(t, ids, s)
    ensures r.Configured? ==> Dealt(r.fs, r.fc, streamIdx, streamNb)
  {
    var nbQ := nbRxq;
    if nbQ > nbTxq {
      nbQ := nbTxq;
    }
    var fs: uint16, fc := (nbQ * |ids|) % 0x1_0000, nbLcores;
    if fs < fc {
      fc := fs;
    }
    var ok := SetupLcores(fs, fc, streamIdx, streamNb);
    if !ok {
      return DividedByZero;
    }
    FillRss(t, ids, fs, streams);
    return Configured(fs, fc);
  }

  method FillRss(t: Topology, ids: seq<uint16>, fs: uint16, streams: array<Stream>)
    requires |ids| < 0x1_0000 && fs <= streams.Length && (ids == [] ==> fs == 0)
    modifies streams
    ensures forall s :: 0 <= s < fs ==> ids != [] && streams[s] == RssStream(t, ids, s)
  {
    var rxp, rxq, s := 0, 0, 0;
    while s < fs
      invariant 0 <= s <= fs && (ids != [] ==> 0 <= rxp < |ids| && rxq >= 0 && s == |ids| * rxq + rxp)
      invariant forall k :: 0 <= k < s ==> ids != [] && streams[k] == RssStream(t, ids, k)
    {
      DivModUnique(s, |ids|, rxq, rxp);
      DivShrinks(s, |ids|);
      var txp := TxPort(t, |ids|, rxp);
      streams[s] := Stream(ids[rxp], rxq, ids[txp], rxq);
      s := s + 1;
      rxp := rxp + 1;
      if rxp == |ids| {
        rxp := 0;
        rxq := rxq + 1;
      }
    }
  }

  /** No receive queue is polled by two streams. */
  lemma RssRxUnique(t: Topology, ids: seq<uint16>, a: uint16, b: uint16)
    requires ids != [] && Distinct(ids)
    requires RssStream(t, ids, a).rxPort == RssStream(t, ids, b).rxPort
    requires RssStream(t, ids, a).rxQueue == RssStream(t, ids, b).rxQueue
    ensures a == b
  {
    assert a % |ids| == b % |ids|;
    SameQuotient(a, b, |ids|);
  }

  /** No transmit queue is fed by two streams. */
  lemma RssTxUnique(t: Topology, ids: seq<uint16>, a: uint16, b: uint16)
    requires ids != [] && Distinct(ids)
    requires RssStream(t, ids, a).txPort == RssStream(t, ids, b).txPort
    requires RssStream(t, ids, a).txQueue == RssStream(t, ids, b).txQueue
    ensures a == b
  {
    hide TxPort, RxPort;
    var n := |ids|;
    TopologyBijection(t, n, a % n);
    TopologyBijection(t, n, b % n);
    assert TxPort(t, n, a % n) == TxPort(t, n, b % n);
    SameQuotient(a, b, n);
  }

  /** Two streams share neither the queue they poll nor the queue they feed. */
  predicate Apart(x: Stream, y: Stream) {
    (x.rxPort != y.rxPort || x.rxQueue != y.rxQueue) && (x.txPort != y.txPort || x.txQueue != y.txQueue)
  }

  lemma RssApart(t: Topology, ids: seq<uint16>, a: uint16, b: uint16)
    requires ids != [] && Distinct(ids) && a != b
    ensures Apart(RssStream(t, ids, a), RssStream(t, ids, b))
  {
    hide RssStream;
    var x, y := RssStream(t, ids, a), RssStream(t, ids, b);
    if x.rxPort == y.rxPort && x.rxQueue == y.rxQueue {
      RssRxUnique(t, ids, a, b);
    }
    if x.txPort == y.txPort && x.txQueue == y.txQueue {
      RssTxUnique(t, ids, a, b);
    }
  }

  /** Port `p` of the configuration is polled on queue `q` by some stream. */
  ghost predicate RxServed(t: Topology, ids: seq<uint16>, fs: nat, p: nat, q: nat) {
    p < |ids| &&
    exists s: uint16 :: s < fs && RssStream(t, ids, s).rxPort == ids[p] && RssStream(t, ids, s).rxQueue == q
  }

  ghost predicate TxServed(t: Topology, ids: seq<uint16>, fs: nat, p: nat, q: nat) {
    p < |ids| &&
    exists s: uint16 :: s < fs && RssStream(t, ids, s).txPort == ids[p] && RssStream(t, ids, s).txQueue == q
  }

  /** The stream of a given port and queue, if the numbers fit into 16 bits. */
  lemma RssServes(t: Topology, ids: seq<uint16>, queues: nat, p: nat, q: nat)
    requires p < |ids| && q < queues && queues * |ids| < 0x1_0000
    ensures RxServed(t, ids, NbStreams(queues, |ids|), p, q)
    ensures TxServed(t, ids, NbStreams(queues, |ids|), p, q)
  {
    hide TxPort, RxPort;
    var n := |ids|;
    MulMonotone(q + 1, queues, n);
    assert n * q + n == (q + 1) * n;
    DivModUnique(n * q + p, n, q, p);
    assert RssStream(t, ids, n * q + p).rxQueue == q;
    var r := RxPort(t, n, p);
    TopologyBijection(t, n, p);
    DivModUnique(n * q + r, n, q, r);
    assert RssStream(t, ids, n * q + r).txQueue == q;
  }

  /** Every (port, queue) pair is served if and only if the number of pairs fits the
      16-bit stream count. */
  lemma RssServesAll(t: Topology, ids: seq<uint16>, queues: nat)
    requires ids != [] && Distinct(ids) && queues > 0
    ensures (forall p: nat, q: nat :: p < |ids| && q < queues ==> RxServed(t, ids, NbStreams(queues, |ids|), p, q))
              <==> queues * |ids| < 0x1_0000
  {
    var n := |ids|;
    var fs := NbStreams(queues, n);
    if queues * n < 0x1_0000 {
      forall p: nat, q: nat | p < n && q < queues
        ensures RxServed(t, ids, fs, p, q)
      {
        RssServes(t, ids, queues, p, q);
      }
    } else {
      LastPairUnserved(t, ids, queues);
    }
  }

  lemma LastPairUnserved(t: Topology, ids: seq<uint16>, queues: nat)
    requires ids != [] && Distinct(ids) && queues > 0 && queues * |ids| >= 0x1_0000
    ensures !RxServed(t, ids, NbStreams(queues, |ids|), |ids| - 1, queues - 1)
  {
    var n := |ids|;
    var fs := NbStreams(queues, n);
    forall s: uint16 | s < fs && RssStream(t, ids, s).rxPort == ids[n - 1]
      ensures RssStream(t, ids, s).rxQueue != queues - 1
    {
      assert s % n == n - 1;
      BeforeLast(s, n, queues, s / n);
    }
  }

  lemma BeforeLast(s: nat, n: nat, queues: nat, q: nat)
    requires n > 0 && s % n == n - 1 && q == s / n && s + 1 < 0x1_0000 <= queues * n
    ensures q != queues - 1
  {
    assert s == n * q + (n - 1);
  }

  /** Race freedom of the RSS configuration: every receive and every transmit queue
      has exactly one stream, and every stream exactly one lcore, whose streams all
      exist. */
  lemma RssRaceFree(t: Topology, ids: seq<uint16>, queues: nat, lcores: nat)
    requires ids != [] && Distinct(ids) && queues > 0 && lcores > 0 && queues * |ids| < 0x1_0000
    ensures var fs := NbStreams(queues, |ids|);
            var fc := Min(lcores, fs);
            && fc > 0
            && (forall p: nat, q: nat :: p < |ids| && q < queues ==>
                  RxServed(t, ids, fs, p, q) && TxServed(t, ids, fs, p, q))
            && (forall a: uint16, b: uint16 :: a < b < fs ==> Apart(RssStream(t, ids, a), RssStream(t, ids, b)))
            && (forall s: nat :: s < fs ==> HasOneOwner(fs, fc, s))
            && (forall l: nat, s: nat :: Owns(fs, fc, l, s) ==> s < fs)
  {
    hide First, Count, HasOneOwner;
    var fs := NbStreams(queues, |ids|);
    MulAtLeast(queues, |ids|);
    var fc := Min(lcores, fs);
    forall p: nat, q: nat | p < |ids| && q < queues
      ensures RxServed(t, ids, fs, p, q) && TxServed(t, ids, fs, p, q)
    {
      RssServes(t, ids, queues, p, q);
    }
    forall s: nat | s < fs
      ensures HasOneOwner(fs, fc, s)
    {
      OneOwner(fs, fc, s);
    }
    forall a: uint16, b: uint16 | a < b < fs
      ensures Apart(RssStream(t, ids, a), RssStream(t, ids, b))
    {
      RssApart(t, ids, a, b);
    }
    forall l: nat, s: nat | Owns(fs, fc, l, s)
      ensures s < fs
    {
      Balanced(fs, fc, l, l);
    }
  }

  // -------------------------------------------------------------- ICMP echo

  /** Streams run through the queues of a port first; traffic returns to its port. */
  function IcmpStream(ids: seq<uint16>, queues: nat, s: uint16): Stream
    requires queues > 0 && s < queues * |ids|
  {
    PortInRange(queues, |ids|, s);
    var rxp, rxq: uint16 := s / queues, s % queues;
    Stream(ids[rxp], rxq, ids[rxp], rxq)
  }

  lemma PortInRange(queues: nat, ports: nat, s: nat)
    requires queues > 0 && s < queues * ports
    ensures s / queues < ports && s % queues <= s
  {
    var q := s / queues;
    assert s == queues * q + s % queues;
    if q >= ports {
      MulMonotone(ports, q, queues);
    }
    if q > 0 {
      MulAtLeast(queues, q);
    }
  }

  /** `icmp_echo_config_setup`: divides by zero exactly when there are streams but no
      lcore is left for them, because none is configured or there is no transmit queue. */
  method IcmpSetup(ids: seq<uint16>, nbRxq: uint16, nbTxq: uint16, nbLcores: byte,
                   streams: array<Stream>, streamIdx: array<uint16>, streamNb: array<uint16>)
      returns (r: Setup)
    requires |ids| < 0x1_0000
    requires streamIdx != streamNb && nbLcores <= streamIdx.Length && nbLcores <= streamNb.Length
    requires NbStreams(nbRxq, |ids|) <= streams.Length
    modifies streams, streamIdx, streamNb
    ensures r.DividedByZero? <==> (nbLcores == 0 || nbTxq * |ids| == 0) && NbStreams(nbRxq, |ids|) > 0
    ensures r.Configured? ==>
              && r.fs == NbStreams(nbRxq, |ids|) && r.fs <= nbRxq * |ids|
              && r.fc == Min(Min(nbLcores, nbTxq * |ids|), r.fs)
    ensures r.Configured? ==> forall s :: 0 <= s < r.fs ==> nbRxq > 0 && streams[s] == IcmpStream(ids, nbRxq, s)
    ensures r.Configured? ==> Dealt(r.fs, r.fc, streamIdx, streamNb)
  {
    var fc := if nbTxq * |ids| < nbLcores then nbTxq * |ids| else nbLcores;
    var fs: uint16 := (nbRxq * |ids|) % 0x1_0000;
    if fs < fc {
      fc := fs;
    }
    var ok := SetupLcores(fs, fc, streamIdx, streamNb);
    if !ok {
      return DividedByZero;
    }
    FillIcmp(ids, nbRxq, fs, fc, streams, streamIdx, streamNb);
    return Configured(fs, fc);
  }

  /** One port with one receive queue and no transmit queue, on one lcore: a stream is
      left and no lcore for it. */
  method NoTransmitQueue(streams: array<Stream>, streamIdx: array<uint16>, streamNb: array<uint16>)
      returns (r: Setup)
    requires streamIdx != streamNb && 1 <= streamIdx.Length && 1 <= streamNb.Length && 1 <= streams.Length
    modifies streams, streamIdx, streamNb
    ensures r == DividedByZero
  {
    r := IcmpSetup([0], 1, 0, 1, streams, streamIdx, streamNb);
  }

  lemma IcmpStreamAt(ids: seq<uint16>, queues: nat, s: uint16, rxp: nat, rxq: uint16)
    requires rxq < queues && s == queues * rxp + rxq && s < queues * |ids|
    ensures rxp < |ids| && IcmpStream(ids, queues, s) == Stream(ids[rxp], rxq, ids[rxp], rxq)
  {
    PortInRange(queues, |ids|, s);
    DivModUnique(s, queues, rxp, rxq);
  }

  method FillIcmp(ids: seq<uint16>, nbRxq: uint16, fs: uint16, fc: byte, streams: array<Stream>,
                  streamIdx: array<uint16>, streamNb: array<uint16>)
    requires fs <= nbRxq * |ids| && fs <= streams.Length && fc <= fs && Dealt(fs, fc, streamIdx, streamNb)
    modifies streams
    ensures forall s :: 0 <= s < fs ==> nbRxq > 0 && streams[s] == IcmpStream(ids, nbRxq, s)
    ensures Dealt(fs, fc, streamIdx, streamNb)
  {
    hide First, Count, IcmpStream;
    if fc == 0 {
      return;
    }
    RangesEnd(fs, fc);
    var rxp, rxq := 0, 0;
    var lc := 0;
    while lc < fc
      invariant 0 <= lc <= fc && First(fs, fc, lc) <= fs
      invariant rxp >= 0 && 0 <= rxq < nbRxq && First(fs, fc, lc) == nbRxq * rxp + rxq
      invariant forall k :: 0 <= k < First(fs, fc, lc) ==> streams[k] == IcmpStream(ids, nbRxq, k)
    {
      NextFirst(fs, fc, lc);
      FirstMonotone(fs, fc, lc + 1, fc);
      rxp, rxq := FillLcore(ids, nbRxq, streams, streamIdx[lc], streamNb[lc], rxp, rxq);
      lc := lc + 1;
    }
  }

  /** The streams of one lcore. */
  method FillLcore(ids: seq<uint16>, nbRxq: uint16, streams: array<Stream>, first: uint16, count: uint16,
                   rxp0: nat, rxq0: nat)
      returns (rxp: nat, rxq: nat)
    requires first + count <= nbRxq * |ids| && first + count <= streams.Length && first + count < 0x1_0000
    requires rxq0 < nbRxq && first == nbRxq * rxp0 + rxq0
    requires forall k :: 0 <= k < first ==> streams[k] == IcmpStream(ids, nbRxq, k)
    modifies streams
    ensures rxq < nbRxq && first + count == nbRxq * rxp + rxq
    ensures forall k :: 0 <= k < first + count ==> streams[k] == IcmpStream(ids, nbRxq, k)
  {
    hide IcmpStream;
    rxp, rxq := rxp0, rxq0;
    var sm := 0;
    while sm < count
      invariant 0 <= sm <= count && rxq < nbRxq && first + sm == nbRxq * rxp + rxq
      invariant forall k :: 0 <= k < first + sm ==> streams[k] == IcmpStream(ids, nbRxq, k)
    {
      IcmpStreamAt(ids, nbRxq, first + sm, rxp, rxq);
      streams[first + sm] := Stream(ids[rxp], rxq, ids[rxp], rxq);
      rxq := rxq + 1;
      if rxq == nbRxq {
        rxq := 0;
        rxp := rxp + 1;
      }
      sm := sm + 1;
    }
  }

  /** No queue is polled, and none is fed, by two streams. */
  lemma IcmpUnique(ids: seq<uint16>, queues: nat, a: uint16, b: uint16)
    requires queues > 0 && a < queues * |ids| && b < queues * |ids| && Distinct(ids)
    ensures a == b <==> IcmpStream(ids, queues, a).rxPort == IcmpStream(ids, queues, b).rxPort &&
                        IcmpStream(ids, queues, a).rxQueue == IcmpStream(ids, queues, b).rxQueue
  {
    PortInRange(queues, |ids|, a);
    PortInRange(queues, |ids|, b);
    if a / queues == b / queues && a % queues == b % queues {
      SameQuotient(a, b, queues);
    }
  }

  /** Every (port, receive queue) pair has its stream. */
  lemma IcmpServes(ids: seq<uint16>, queues: nat, p: nat, q: nat)
    requires p < |ids| && q < queues && queues * |ids| < 0x1_0000
    ensures exists s: uint16 :: s < NbStreams(queues, |ids|)
              && IcmpStream(ids, queues, s).rxPort == ids[p] && IcmpStream(ids, queues, s).rxQueue == q
  {
    MulMonotone(p + 1, |ids|, queues);
    assert queues * p + queues == (p + 1) * queues;
    DivModUnique(queues * p + q, queues, p, q);
    assert IcmpStream(ids, queues, queues * p + q).rxQueue == q;
  }

  /** The transmit queue a stream replies on exists if and only if the port has at
      least as many transmit as receive queues: only the lcores are limited by the
      number of transmit queues. */
  lemma IcmpTxQueuesExist(ids: seq<uint16>, nbRxq: nat, nbTxq: nat)
    requires ids != [] && nbRxq > 0 && nbRxq * |ids| < 0x1_0000
    ensures (forall s: uint16 :: s < nbRxq * |ids| ==> IcmpStream(ids, nbRxq, s).txQueue < nbTxq) <==> nbRxq <= nbTxq
  {
    MulAtLeast(nbRxq, |ids|);
    if nbRxq > nbTxq {
      DivModUnique(nbTxq, nbRxq, 0, nbTxq);
      assert IcmpStream(ids, nbRxq, nbTxq).txQueue == nbTxq;
    }
  }
}
