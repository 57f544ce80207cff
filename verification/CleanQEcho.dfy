/** The CleanQ UDP echo loop (benchmark_cleanq_udp/main.c) as a buffer-ownership
    protocol.

    The CleanQ library itself is not part of this model.  A queue takes a buffer with
    its flags or fails, and hands out either a received buffer (flag bit 28 set, the
    sender's port in the low 16 bits) or a buffer whose transmission finished.  A dequeue
    may also drop a packet and hand its buffer back for reception itself
    (lib/libcleanq_udp/src/cleanq_module_ip.c). */
module CleanQEcho {
  import opened Basics

  type Buf = nat
  type Flags = x: int | 0 <= x < 0x1_0000_0000_0000_0000

  const NETIF_RXFLAG: Flags := 0x1000_0000
  const NETIF_TXFLAG: Flags := 0x2000_0000
  const BURST_SIZE: nat := 32
  const RX_RING_SIZE: nat := 1024

  predicate IsRx(f: Flags) {
    f / NETIF_RXFLAG % 2 == 1
  }

  predicate IsTx(f: Flags) {
    f / NETIF_TXFLAG % 2 == 1
  }

  function PortBits(f: Flags): nat {
    f % 0x1_0000
  }

  /** The flags an echoed buffer is sent with. */
  function EchoFlags(f: Flags): Flags {
    PortBits(f) + NETIF_TXFLAG
  }

  /** An echo carries the port bits it was received with, as a transmission and not as
      a reception, so it comes back through the other branch of the receive loop. */
  lemma EchoFlagsMeaning(f: Flags)
    ensures PortBits(EchoFlags(f)) == PortBits(f) && IsTx(EchoFlags(f)) && !IsRx(EchoFlags(f))
    ensures 0 <= PortBits(f) < 0x1_0000 && (f - PortBits(f)) % 0x1_0000 == 0
  {
  }

  /** Where the buffers are. */
  datatype Places = Places(
    rx: set<Buf>,      // queued for reception
    tx: set<Buf>,      // queued for transmission
    held: set<Buf>,    // in the application's hands
    freed: set<Buf>,   // returned to the mempool
    lost: set<Buf>     // refused on the way back to reception and forgotten
  ) {
    // One buffer moves between the application and another place.
    function FromFreed(b: Buf): Places {
      this.(freed := freed - {b}, held := held + {b})
    }

    function FromRx(b: Buf): Places {
      this.(rx := rx - {b}, held := held + {b})
    }

    function FromTx(b: Buf): Places {
      this.(tx := tx - {b}, held := held + {b})
    }

    function ToFreed(b: Buf): Places {
      this.(held := held - {b}, freed := freed + {b})
    }

    function ToRx(b: Buf): Places {
      this.(held := held - {b}, rx := rx + {b})
    }

    function ToTx(b: Buf): Places {
      this.(held := held - {b}, tx := tx + {b})
    }

    function ToLost(b: Buf): Places {
      this.(held := held - {b}, lost := lost + {b})
    }
  }

  /** Every buffer of `all` is in exactly one place. */
  ghost predicate Accounted(p: Places, all: set<Buf>) {
    && p.rx !! p.tx !! p.held !! p.freed !! p.lost
    && p.rx + p.tx + p.held + p.freed + p.lost == all
  }

  // Moving one buffer keeps every buffer in exactly one place.

  lemma TakeFreed(p: Places, all: set<Buf>, b: Buf)
    requires Accounted(p, all) && b in p.freed
    ensures Accounted(p.FromFreed(b), all) && b !in p.held && p.FromFreed(b).lost == p.lost
  {
  }

  lemma TakeRx(p: Places, all: set<Buf>, b: Buf)
    requires Accounted(p, all) && b in p.rx
    ensures Accounted(p.FromRx(b), all) && b !in p.held && p.FromRx(b).lost == p.lost
  {
  }

  lemma TakeTx(p: Places, all: set<Buf>, b: Buf)
    requires Accounted(p, all) && b in p.tx
    ensures Accounted(p.FromTx(b), all) && b !in p.held && p.FromTx(b).lost == p.lost
  {
  }

  lemma GiveFreed(p: Places, all: set<Buf>, b: Buf)
    requires Accounted(p, all) && b in p.held
    ensures Accounted(p.ToFreed(b), all) && b !in p.freed && p.ToFreed(b).lost == p.lost
  {
  }

  lemma GiveRx(p: Places, all: set<Buf>, b: Buf)
    requires Accounted(p, all) && b in p.held
    ensures Accounted(p.ToRx(b), all) && b !in p.rx && p.ToRx(b).lost == p.lost
  {
  }

  lemma GiveTx(p: Places, all: set<Buf>, b: Buf)
    requires Accounted(p, all) && b in p.held
    ensures Accounted(p.ToTx(b), all) && b !in p.tx && p.ToTx(b).lost == p.lost
  {
  }

  lemma HeldNotQueued(p: Places, all: set<Buf>, b: Buf)
    requires Accounted(p, all) && b in p.held
    ensures b !in p.rx
  {
  }

  lemma GiveLost(p: Places, all: set<Buf>, b: Buf)
    requires Accounted(p, all) && b in p.held
    ensures Accounted(p.ToLost(b), all) && b !in p.lost
  {
  }

  /** A buffer crossing the queue interface, with the flags it crosses it with. */
  type Packet = (Buf, Flags)

  /** The echo of a received packet. */
  function EchoOf(r: Packet): Packet {
    (r.0, EchoFlags(r.1))
  }

  ghost function Echoes(rs: seq<Packet>): (es: seq<Packet>)
    ensures |es| == |rs| && forall k :: 0 <= k < |rs| ==> es[k] == EchoOf(rs[k])
  {
    seq(|rs|, k requires 0 <= k < |rs| => EchoOf(rs[k]))
  }

  ghost function Packets(bufs: seq<Buf>, flags: seq<Flags>): (rs: seq<Packet>)
    requires |bufs| == |flags|
    ensures |rs| == |bufs| && forall k :: 0 <= k < |rs| ==> rs[k] == (bufs[k], flags[k])
  {
    seq(|bufs|, k requires 0 <= k < |bufs| => (bufs[k], flags[k]))
  }

  ghost function Buffers(rs: seq<Packet>): set<Buf> {
    set r | r in rs :: r.0
  }

  /** The transmissions answer receptions, in order and each reception at most once, with the
      buffer and the port bits of that very reception: `m[k]` is the one that the k-th
      transmission answers. */
  ghost predicate Answers(sent: seq<Packet>, received: seq<Packet>, m: seq<nat>) {
    && |m| == |sent|
    && (forall k :: 0 <= k < |m| ==> m[k] < |received| && sent[k] == EchoOf(received[m[k]]))
    && (forall j, k :: 0 <= j < k < |m| ==> m[j] < m[k])
  }

  /** A round adds receptions and answers the first `n` of them. */
  lemma AnswersMore(sent: seq<Packet>, received: seq<Packet>, m: seq<nat>, more: seq<Packet>, n: nat)
      returns (m': seq<nat>)
    requires Answers(sent, received, m) && n <= |more|
    ensures Answers(sent + Echoes(more[..n]), received + more, m')
  {
    m' := m + seq(n, k requires 0 <= k < n => |received| + k);
  }

  /** What the application asked of the mempool and of the queue, and whether it was given. */
  datatype Event =
    | Allocated(ok: bool)
    | Given(packet: Packet, ok: bool)
    | Polled(ok: bool)

  /** The polls among the events, in order. */
  ghost function Polls(es: seq<Event>): seq<bool> {
    if es == [] then []
    else Polls(es[..|es| - 1]) + if es[|es| - 1].Polled? then [es[|es| - 1].ok] else []
  }

  lemma PollsSnoc(es: seq<Event>, e: Event)
    ensures Polls(es + [e]) == Polls(es) + if e.Polled? then [e.ok] else []
  {
    assert (es + [e])[..|es|] == es;
  }

  /** Polling until a burst was handed out or nothing was: all polls but the last one succeed. */
  ghost predicate Exhausted(polls: seq<bool>) {
    && |polls| <= BURST_SIZE && (forall k :: 0 <= k < |polls| - 1 ==> polls[k])
    && (|polls| == BURST_SIZE || (polls != [] && !polls[|polls| - 1]))
  }

  /** Offering the echoes of `rs` in order: `n` of them are taken, and unless those are all, the
      next one is refused. */
  ghost function Offers(rs: seq<Packet>, n: nat): (es: seq<Event>)
    requires n <= |rs|
  {
    Taken(rs, n) + if n < |rs| then [Given(EchoOf(rs[n]), false)] else []
  }

  ghost function Taken(rs: seq<Packet>, n: nat): (es: seq<Event>)
    requires n <= |rs|
    ensures |es| == n && forall k :: 0 <= k < n ==> es[k] == Given(EchoOf(rs[k]), true)
  {
    seq(n, k requires 0 <= k < n => Given(EchoOf(rs[k]), true))
  }

  lemma TakenMore(rs: seq<Packet>, n: nat)
    requires n < |rs|
    ensures Taken(rs, n + 1) == Taken(rs, n) + [Given(EchoOf(rs[n]), true)]
    ensures Echoes(rs[..n + 1]) == Echoes(rs[..n]) + [EchoOf(rs[n])]
  {
  }

  lemma NoPolls()
    ensures Polls([]) == []
  {
  }

  class Echo {
    var p: Places
    const all: set<Buf>
    /** Failed attempts to hand a buffer back for reception. */
    ghost var refused: nat
    /** Every packet the queue has handed out as received, and every packet it has taken for
        transmission, with its flags. */
    ghost var received: seq<Packet>
    ghost var transmitted: seq<Packet>
    /** Everything asked for so far. */
    ghost var events: seq<Event>

    /** Nothing is lost but what reception refused to take back. */
    ghost predicate Valid()
      reads this
    {
      Accounted(p, all) && |p.lost| == refused
    }

    constructor (bufs: set<Buf>)
      ensures Valid() && all == bufs && p == Places({}, {}, {}, bufs, {})
      ensures received == transmitted == [] && events == []
    {
      all := bufs;
      p := Places({}, {}, {}, bufs, {});
      refused, received, transmitted, events := 0, [], [], [];
    }

    /** `rte_mbuf_raw_alloc`. */
    method Alloc() returns (ok: bool, b: Buf)
      requires Valid()
      modifies this`p, this`events
      ensures Valid() && events == old(events) + [Allocated(ok)]
      ensures !ok ==> p == old(p)
      ensures ok ==> b in old(p.freed) && p == old(p).FromFreed(b)
    {
      hide Accounted, EchoFlags, Places.FromFreed;
      ok, b := *, 0;
      if p.freed == {} {
        ok := false;
      }
      if ok {
        b :| b in p.freed;
        TakeFreed(p, all, b);
        p := p.FromFreed(b);
      }
      events := events + [Allocated(ok)];
    }

    /** `rte_pktmbuf_free`: only a buffer in the application's hands may be freed. */
    method Free(b: Buf)
      requires Valid() && b in p.held
      modifies this`p
      ensures Valid() && p == old(p).ToFreed(b)
    {
      hide Accounted, EchoFlags, Places.ToFreed;
      GiveFreed(p, all, b);
      p := p.ToFreed(b);
    }

    /** `cleanq_enqueue`: a transmission if bit 29 is set, else a reception if bit 28 is;
        it may fail, and then the buffer stays with the caller. */
    method Enqueue(b: Buf, f: Flags) returns (ok: bool)
      requires Valid() && b in p.held
      modifies this`p, this`transmitted, this`events
      ensures Valid() && events == old(events) + [Given((b, f), ok)]
      ensures !ok ==> p == old(p)
      ensures ok && IsTx(f) ==> p == old(p).ToTx(b)
      ensures ok && !IsTx(f) ==> IsRx(f) && p == old(p).ToRx(b)
      ensures transmitted == if ok && IsTx(f) then old(transmitted) + [(b, f)] else old(transmitted)
    {
      hide Accounted, EchoFlags, IsRx, IsTx, Places.ToRx, Places.ToTx;
      ok := *;
      if IsTx(f) {
        if ok {
          GiveTx(p, all, b);
          p := p.ToTx(b);
          transmitted := transmitted + [(b, f)];
        }
      } else if IsRx(f) {
        if ok {
          GiveRx(p, all, b);
          p := p.ToRx(b);
        }
      } else {
        ok := false;
      }
      events := events + [Given((b, f), ok)];
    }

    /** `cleanq_dequeue`: a received buffer with any port bits, a finished transmission, or
        nothing.  A packet the library drops (a wrong checksum, address, protocol or port) is
        nothing too: its buffer is handed back for reception and the result is not checked,
        so a refusal loses it. */
    method Dequeue() returns (ok: bool, b: Buf, f: Flags)
      requires Valid()
      modifies this
      ensures Valid() && transmitted == old(transmitted) && events == old(events) + [Polled(ok)]
      ensures received == if ok && IsRx(f) then old(received) + [(b, f)] else old(received)
      ensures ok ==> b !in old(p.held) && refused == old(refused)
      ensures ok && IsRx(f) ==> b in old(p.rx) && p == old(p).FromRx(b)
      ensures ok && !IsRx(f) ==> b in old(p.tx) && p == old(p).FromTx(b)
      ensures !ok ==> p.held == old(p.held) && p.freed == old(p.freed) && p.tx == old(p.tx)
      ensures !ok && refused == old(refused) ==> p == old(p)
      ensures !ok && refused != old(refused) ==>
                refused == old(refused) + 1 &&
                b in old(p.rx) && p.rx == old(p.rx) - {b} && p.lost == old(p.lost) + {b}
    {
      hide Accounted, EchoFlags, IsRx;
      ok, b, f := *, 0, 0;
      var dropped := *;
      if p.rx + p.tx == {} {
        ok := false;
      }
      if ok {
        b, f := HandOut();
      } else if dropped && p.rx != {} {
        b := Drop();
      }
      events := events + [Polled(ok)];
    }

    /** A buffer for the application. */
    method HandOut() returns (b: Buf, f: Flags)
      requires Valid() && p.rx + p.tx != {}
      modifies this`p, this`received
      ensures Valid() && b !in old(p.held)
      ensures received == if IsRx(f) then old(received) + [(b, f)] else old(received)
      ensures IsRx(f) ==> b in old(p.rx) && p == old(p).FromRx(b)
      ensures !IsRx(f) ==> b in old(p.tx) && p == old(p).FromTx(b)
    {
      hide Accounted, EchoFlags, IsRx, Places.FromRx, Places.FromTx;
      FlagsExist();
      b :| b in p.rx + p.tx;
      if b in p.rx {
        TakeRx(p, all, b);
        f :| IsRx(f);
        p := p.FromRx(b);
        received := received + [(b, f)];
      } else {
        TakeTx(p, all, b);
        f :| !IsRx(f);
        p := p.FromTx(b);
      }
    }

    /** A packet dropped inside the library: its buffer is queued for reception again, or lost. */
    method Drop() returns (b: Buf)
      requires Valid() && p.rx != {}
      modifies this`p, this`refused
      ensures Valid() && b in old(p.rx)
      ensures p.held == old(p.held) && p.freed == old(p.freed) && p.tx == old(p.tx)
      ensures refused == old(refused) ==> p == old(p)
      ensures refused != old(refused) ==>
                refused == old(refused) + 1 && p.rx == old(p.rx) - {b} && p.lost == old(p.lost) + {b}
    {
      hide Accounted;
      b :| b in p.rx;
      var queued := *;
      if !queued {
        TakeRx(p, all, b);
        GiveLost(p.FromRx(b), all, b);
        p := p.FromRx(b).ToLost(b);
        refused := refused + 1;
      }
    }

    /** The RX fill of `port_init`: `n` buffers are queued, one less than the ring has places, or
        as many as the mempool and the queue grant. */
    method FillRx() returns (n: nat, ghost es: seq<Event>)
      requires Valid() && p.held == {}
      modifies this
      ensures Valid() && p.held == {} && p.lost == old(p.lost) && refused == old(refused)
      ensures received == old(received) && transmitted == old(transmitted)
      ensures p.tx == old(p.tx) && old(p.rx) <= p.rx && p.freed <= old(p.freed)
      ensures |p.rx| == |old(p.rx)| + n && n <= RX_RING_SIZE - 1 && events == old(events) + es
      ensures n == RX_RING_SIZE - 1 || (es != [] && !es[|es| - 1].ok)
    {
      hide Accounted;
      n, es := 0, [];
      var ok := true;
      while n < RX_RING_SIZE - 1 && ok
        invariant n <= RX_RING_SIZE - 1 && (ok || (es != [] && !es[|es| - 1].ok))
        invariant Valid() && p.held == {} && p.lost == old(p.lost) && refused == old(refused)
        invariant received == old(received) && transmitted == old(transmitted)
        invariant p.tx == old(p.tx) && old(p.rx) <= p.rx && p.freed <= old(p.freed)
        invariant |p.rx| == |old(p.rx)| + n && events == old(events) + es
        decreases ok, RX_RING_SIZE - n
      {
        ghost var more;
        ok, more := FillOne();
        es := es + more;
        if ok {
          n := n + 1;
        }
      }
    }

    /** One buffer of the fill. */
    method FillOne() returns (ok: bool, ghost es: seq<Event>)
      requires Valid() && p.held == {}
      modifies this`p, this`events, this`transmitted
      ensures Valid() && p.held == {} && p.lost == old(p.lost) && transmitted == old(transmitted)
      ensures p.tx == old(p.tx) && old(p.rx) <= p.rx && p.freed <= old(p.freed)
      ensures |p.rx| == |old(p.rx)| + (if ok then 1 else 0) && events == old(events) + es
      ensures es != [] && es[|es| - 1].ok == ok
    {
      hide Accounted, EchoFlags, IsRx, IsTx;
      FlagsExist();
      var b;
      ok, b := Alloc();
      es := [Allocated(ok)];
      if ok {
        HeldNotQueued(p, all, b);
        ok := Enqueue(b, NETIF_RXFLAG);
        es := es + [Given((b, NETIF_RXFLAG), ok)];
        if !ok {
          Free(b);
        }
      }
    }

    /** A finished transmission goes back to reception; the result is not checked. */
    method Recycle(b: Buf)
      requires Valid() && b in p.held
      modifies this
      ensures Valid() && p.held == old(p.held) - {b} && p.freed == old(p.freed) && p.tx == old(p.tx)
      ensures received == old(received) && transmitted == old(transmitted)
      ensures events == old(events) + [Given((b, NETIF_RXFLAG), refused == old(refused))]
      ensures refused == old(refused) ==> p.lost == old(p.lost) && p.rx == old(p.rx) + {b}
      ensures refused != old(refused) ==>
                refused == old(refused) + 1 && p.lost == old(p.lost) + {b} && p.rx == old(p.rx)
    {
      hide Accounted, EchoFlags, IsRx, IsTx;
      FlagsExist();
      var ok := Enqueue(b, NETIF_RXFLAG);
      if !ok {
        GiveLost(p, all, b);
        p := p.ToLost(b);
        refused := refused + 1;
      }
    }

    /** The receive loop: polls until a burst was handed out or nothing was, collects the
        received buffers, each with the flags it was received with, and recycles finished
        transmissions on the way. */
    method Receive() returns (bufs: seq<Buf>, flags: seq<Flags>, ghost es: seq<Event>)
      requires Valid() && p.held == {}
      modifies this
      ensures Valid() && |bufs| == |flags| <= BURST_SIZE && Distinct(bufs) && p.held == Range(bufs)
      ensures p.freed == old(p.freed) && old(refused) <= refused && old(p.lost) <= p.lost
      ensures received == old(received) + Packets(bufs, flags) && transmitted == old(transmitted)
      ensures events == old(events) + es && Exhausted(Polls(es))
    {
      hide Accounted, EchoFlags, IsRx, Range, Distinct, Polls;
      Append([], 0);
      NoPolls();
      bufs, flags, es := [], [], [];
      var i := 0;
      while i < BURST_SIZE
        invariant 0 <= i <= BURST_SIZE && |bufs| == |flags| <= i
        invariant Valid() && Distinct(bufs) && p.held == Range(bufs)
        invariant p.freed == old(p.freed) && old(refused) <= refused && old(p.lost) <= p.lost
        invariant received == old(received) + Packets(bufs, flags) && transmitted == old(transmitted)
        invariant events == old(events) + es && |Polls(es)| == i && forall k :: 0 <= k < i ==> Polls(es)[k]
      {
        var ok, b, f := Dequeue();
        PollsSnoc(es, Polled(ok));
        es := es + [Polled(ok)];
        if !ok {
          break;
        }
        if IsRx(f) {
          Append(bufs, b);
          bufs, flags := bufs + [b], flags + [f];
        } else {
          ghost var before := refused;
          Recycle(b);
          PollsSnoc(es, Given((b, NETIF_RXFLAG), refused == before));
          es := es + [Given((b, NETIF_RXFLAG), refused == before)];
        }
        i := i + 1;
      }
    }

    /** The echo loop: sends every buffer back with its own port bits; at the first
        failure it frees that buffer and all that follow, each once. */
    method SendBack(bufs: seq<Buf>, flags: seq<Flags>) returns (sent: nat)
      requires Valid() && |bufs| == |flags| && Distinct(bufs) && p.held == Range(bufs)
      modifies this
      ensures Valid() && p.held == {} && sent <= |bufs|
      ensures p.rx == old(p.rx) && p.lost == old(p.lost) && refused == old(refused)
      ensures p.tx == old(p.tx) + Range(bufs[..sent]) && p.freed == old(p.freed) + Range(bufs[sent..])
      ensures received == old(received)
      ensures transmitted == old(transmitted) + Echoes(Packets(bufs, flags)[..sent])
      ensures events == old(events) + Offers(Packets(bufs, flags), sent)
    {
      hide Accounted, EchoFlags, IsRx, IsTx, Range, Distinct;
      sent := 0;
      Whole(bufs);
      ghost var rs := Packets(bufs, flags);
      while sent < |bufs|
        invariant 0 <= sent <= |bufs|
        invariant Valid() && p.held == Range(bufs[sent..]) && p.freed == old(p.freed)
        invariant p.rx == old(p.rx) && p.lost == old(p.lost) && refused == old(refused)
        invariant p.tx == old(p.tx) + Range(bufs[..sent])
        invariant received == old(received)
        invariant transmitted == old(transmitted) + Echoes(Packets(bufs, flags)[..sent])
        invariant events == old(events) + Taken(rs, sent)
      {
        TakeOne(bufs, sent);
        TakenMore(rs, sent);
        EchoFlagsMeaning(flags[sent]);
        var ok := Enqueue(bufs[sent], EchoFlags(flags[sent]));
        if !ok {
          FreeFrom(bufs, sent);
          return;
        }
        sent := sent + 1;
      }
      FreeFrom(bufs, sent);
    }

    method FreeFrom(bufs: seq<Buf>, from: nat)
      requires Valid() && from <= |bufs| && Distinct(bufs) && p.held == Range(bufs[from..])
      modifies this`p
      ensures Valid() && p == old(p).(held := {}, freed := old(p.freed) + Range(bufs[from..]))
    {
      hide Accounted, EchoFlags, Range, Distinct;
      var j := from;
      Ends(bufs, from);
      while j < |bufs|
        invariant from <= j <= |bufs| && Valid()
        invariant p == old(p).(held := Range(bufs[j..]), freed := old(p.freed) + Range(bufs[from..j]))
      {
        TakeOne(bufs, j);
        Extend(bufs, from, j);
        Free(bufs[j]);
        j := j + 1;
      }
      assert bufs[from..j] == bufs[from..];
    }

    /** One round of `lcore_main` on one port: of the packets received in it, the first `sent`
        are echoed, in order, and the buffers of the others are freed. */
    method Round() returns (ghost sent: nat, ghost polled: seq<Event>)
      requires Valid() && p.held == {}
      modifies this
      ensures Valid() && p.held == {} && old(p.lost) <= p.lost && old(refused) <= refused
      ensures old(received) <= received && sent <= |received| - |old(received)| <= BURST_SIZE
      ensures transmitted == old(transmitted) + Echoes(received[|old(received)|..][..sent])
      ensures p.freed == old(p.freed) + Buffers(received[|old(received)|..][sent..])
      ensures events == old(events) + polled + Offers(received[|old(received)|..], sent) && Exhausted(Polls(polled))
      ensures p.rx + p.tx == old(p.rx + p.tx) - (p.freed - old(p.freed)) - (p.lost - old(p.lost))
    {
      hide Accounted, EchoFlags, Exhausted, Polls, Distinct, Range, Buffers;
      var bufs, flags;
      bufs, flags, polled := Receive();
      ghost var rs := Packets(bufs, flags);
      assert received[|old(received)|..] == rs;
      sent := 0;
      if |bufs| == 0 {
        Whole(bufs);
        assert bufs[..0] == bufs;
        assert Offers(rs, 0) == [];
      } else {
        sent := SendBack(bufs, flags);
      }
      BuffersOf(bufs, flags, sent);
      Circulation(old(p), p, all);
    }

    /** Any number of rounds after the RX fill: every buffer is in exactly one place, none
        stays with the application, every buffer is queued or back in the mempool if and only
        if reception never refused one, and whatever was sent answers receptions in order, each
        with its own buffer and port bits; `m` says which. */
    method Run(rounds: nat) returns (ghost m: seq<nat>)
      requires Valid() && p == Places({}, {}, {}, all, {}) && refused == 0 && received == transmitted == []
      modifies this
      ensures Valid() && p.held == {}
      ensures refused == 0 <==> p.rx + p.tx + p.freed == all
      ensures Answers(transmitted, received, m)
    {
      hide Accounted, EchoFlags, Answers;
      var _, _ := FillRx();
      m := NoAnswers();
      var i := 0;
      while i < rounds
        invariant Valid() && p.held == {} && Answers(transmitted, received, m)
      {
        ghost var before, was := transmitted, received;
        ghost var sent, _ := Round();
        m := AnswersMore(before, was, m, received[|was|..], sent);
        assert was + received[|was|..] == received;
        i := i + 1;
      }
      NothingLost(p, all);
    }
  }

  lemma NoAnswers() returns (m: seq<nat>)
    ensures Answers([], [], m)
  {
    m := [];
  }

  lemma BuffersOf(bufs: seq<Buf>, flags: seq<Flags>, n: nat)
    requires |bufs| == |flags| && n <= |bufs|
    ensures Buffers(Packets(bufs, flags)[n..]) == Range(bufs[n..])
  {
    var rs := Packets(bufs, flags);
    forall b | b in Range(bufs[n..])
      ensures b in Buffers(rs[n..])
    {
      var k :| n <= k < |bufs| && bufs[k] == b;
      assert rs[n..][k - n] == rs[k];
    }
  }

  /** Between two moments with nothing in hand, what stopped circulating is what was
      freed or lost in between. */
  lemma Circulation(p0: Places, p1: Places, all: set<Buf>)
    requires Accounted(p0, all) && Accounted(p1, all) && p0.held == p1.held == {}
    requires p0.freed <= p1.freed && p0.lost <= p1.lost
    ensures p1.rx + p1.tx == p0.rx + p0.tx - (p1.freed - p0.freed) - (p1.lost - p0.lost)
  {
    forall b
      ensures b in p1.rx + p1.tx <==> b in p0.rx + p0.tx - (p1.freed - p0.freed) - (p1.lost - p0.lost)
    {
      assert b in p0.rx + p0.tx <==> b in all && b !in p0.freed && b !in p0.lost;
      assert b in p1.rx + p1.tx <==> b in all && b !in p1.freed && b !in p1.lost;
    }
  }

  lemma NothingLost(p: Places, all: set<Buf>)
    requires Accounted(p, all) && p.held == {}
    ensures |p.lost| == 0 <==> p.rx + p.tx + p.freed == all
  {
    if p.lost != {} {
      var b :| b in p.lost;
      assert b in all && b !in p.rx + p.tx + p.freed;
    }
  }

  /** The first buffer of a slice and the rest. */
  lemma TakeOne(bufs: seq<Buf>, i: nat)
    requires i < |bufs| && Distinct(bufs)
    ensures bufs[i] in Range(bufs[i..]) && Range(bufs[i..]) - {bufs[i]} == Range(bufs[i + 1..])
    ensures Range(bufs[..i + 1]) == Range(bufs[..i]) + {bufs[i]}
  {
    assert bufs[i..] == [bufs[i]] + bufs[i + 1..];
    assert bufs[..i + 1] == bufs[..i] + [bufs[i]];
    assert bufs[i] !in bufs[i + 1..];
  }

  lemma Append(bufs: seq<Buf>, b: Buf)
    ensures Range(bufs + [b]) == Range(bufs) + {b}
    ensures Distinct(bufs) && b !in Range(bufs) ==> Distinct(bufs + [b])
    ensures Range<Buf>([]) == {} && Distinct<Buf>([])
  {
  }

  lemma Whole(bufs: seq<Buf>)
    ensures Range(bufs[0..]) == Range(bufs) && Range(bufs[..0]) == {}
  {
    assert bufs[0..] == bufs;
  }

  lemma Ends(bufs: seq<Buf>, from: nat)
    requires from <= |bufs|
    ensures Range(bufs[from..from]) == {} && Range(bufs[|bufs|..]) == {}
  {
  }

  lemma Extend(bufs: seq<Buf>, from: nat, j: nat)
    requires from <= j < |bufs|
    ensures Range(bufs[from..j + 1]) == Range(bufs[from..j]) + {bufs[j]}
  {
    assert bufs[from..j + 1] == bufs[from..j] + [bufs[j]];
  }

  lemma FlagsExist()
    ensures IsRx(NETIF_RXFLAG) && !IsTx(NETIF_RXFLAG) && !IsRx(0)
  {
  }
}
