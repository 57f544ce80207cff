/** The latency benchmark (app/test-crypto-perf/cperf_test_latency.c): every
    operation the device accepts is given the next result slot, and the slot is
    stamped when the operation comes back. */
module Latency {
  import opened Basics
  import opened CryptoTestbed

  /** Slot bookkeeping.  `pending` are the operations whose slot is open: they map
      one to one onto the un-stamped slots below `next`, every other slot below
      `next` has been stamped once, and no slot from `next` on has been touched. */
  ghost predicate Slots(slot: map<Op, nat>, stamps: seq<nat>, pending: set<Op>, next: nat) {
    && next <= |stamps|
    && (forall op :: op in pending ==> op in slot && slot[op] < next && stamps[slot[op]] == 0)
    && (forall a, b :: a in pending && b in pending && a != b && a in slot && b in slot ==> slot[a] != slot[b])
    && (forall s :: 0 <= s < next ==> stamps[s] == 1 || exists op :: op in pending && op in slot && slot[op] == s)
    && (forall s :: next <= s < |stamps| ==> stamps[s] == 0)
  }

  /** Accepting an operation opens slot `next` for it, whatever slot it had before. */
  lemma OpenSlot(slot: map<Op, nat>, stamps: seq<nat>, pending: set<Op>, next: nat, op: Op)
    requires Slots(slot, stamps, pending, next)
    requires op !in pending && next < |stamps|
    ensures stamps[next] == 0 && Slots(slot[op := next], stamps, pending + {op}, next + 1)
  {
    var slot', pending' := slot[op := next], pending + {op};
    forall s | 0 <= s < next + 1
      ensures stamps[s] == 1 || exists o :: o in pending' && o in slot' && slot'[o] == s
    {
      if s == next {
        assert op in pending' && slot'[op] == s;
      } else if stamps[s] != 1 {
        var o :| o in pending && o in slot && slot[o] == s;
        assert o in pending' && slot'[o] == s;
      }
    }
  }

  /** Stamping a returned operation closes exactly its slot. */
  lemma CloseSlot(slot: map<Op, nat>, stamps: seq<nat>, pending: set<Op>, next: nat, op: Op)
    requires Slots(slot, stamps, pending, next) && op in pending
    ensures op in slot && slot[op] < next <= |stamps| && stamps[slot[op]] == 0
    ensures Slots(slot, stamps[slot[op] := stamps[slot[op]] + 1], pending - {op}, next)
  {
    var stamps', pending' := stamps[slot[op] := stamps[slot[op]] + 1], pending - {op};
    forall s | 0 <= s < next
      ensures stamps'[s] == 1 || exists o :: o in pending' && o in slot && slot[o] == s
    {
      if s != slot[op] && stamps[s] != 1 {
        var o :| o in pending && o in slot && slot[o] == s;
        assert o in pending';
      }
    }
  }

  /** Once nothing is pending and every slot was opened, each was stamped once. */
  lemma AllStampedOnce(slot: map<Op, nat>, stamps: seq<nat>)
    requires Slots(slot, stamps, {}, |stamps|)
    ensures forall s :: 0 <= s < |stamps| ==> stamps[s] == 1
  {
  }

  /** Every opened slot started no later than now; every stamped one ended no earlier
      than it started, and still shows the time it was first stamped with. */
  ghost predicate Timed(start: seq<int>, end: seq<int>, clock: int, stamps: seq<nat>, ended: map<nat, int>, next: nat) {
    && |start| == |end| == |stamps| && next <= |stamps|
    && (forall s :: 0 <= s < next ==> start[s] <= clock)
    && (forall s: nat :: s in ended <==> s < |stamps| && stamps[s] > 0)
    && (forall s: nat :: s < next && stamps[s] > 0 ==> start[s] <= end[s] == ended[s])
  }

  /** No slot loses the time it was stamped with. */
  ghost predicate Kept(was: map<nat, int>, now: map<nat, int>) {
    forall s :: s in was ==> s in now && now[s] == was[s]
  }

  lemma KeptSame(a: map<nat, int>)
    ensures Kept(a, a)
  {
  }

  lemma KeptTwice(a: map<nat, int>, b: map<nat, int>, c: map<nat, int>)
    requires Kept(a, b) && Kept(b, c)
    ensures Kept(a, c)
  {
  }

  lemma TimedLater(start: seq<int>, end: seq<int>, clock: int, stamps: seq<nat>, ended: map<nat, int>, next: nat,
                   later: int)
    requires Timed(start, end, clock, stamps, ended, next) && clock <= later
    ensures Timed(start, end, later, stamps, ended, next)
  {
  }

  lemma TimedOpen(start: seq<int>, end: seq<int>, clock: int, stamps: seq<nat>, ended: map<nat, int>, next: nat, t: int)
    requires Timed(start, end, clock, stamps, ended, next) && next < |stamps| && stamps[next] == 0 && t <= clock
    ensures |start| == |stamps| && Timed(start[next := t], end, clock, stamps, ended, next + 1)
  {
  }

  lemma TimedClose(start: seq<int>, end: seq<int>, clock: int, stamps: seq<nat>, ended: map<nat, int>, next: nat,
                   s: nat)
    requires Timed(start, end, clock, stamps, ended, next) && s < next && stamps[s] == 0
    ensures |end| == |stamps| && Kept(ended, ended[s := clock])
    ensures Timed(start, end[s := clock], clock, stamps[s := stamps[s] + 1], ended[s := clock], next)
  {
  }

  lemma TimedBounds(start: seq<int>, end: seq<int>, clock: int, stamps: seq<nat>, ended: map<nat, int>, next: nat)
    requires Timed(start, end, clock, stamps, ended, next)
    ensures |start| == |end| == |stamps| && next <= |stamps|
  {
  }

  lemma AllTimed(start: seq<int>, end: seq<int>, clock: int, stamps: seq<nat>, ended: map<nat, int>)
    requires Timed(start, end, clock, stamps, ended, |stamps|)
    requires forall s :: 0 <= s < |stamps| ==> stamps[s] == 1
    ensures |start| == |end| == |stamps|
    ensures forall s: nat :: s < |stamps| ==> s in ended && start[s] <= end[s] == ended[s]
  {
  }

  lemma NoRange(ops: seq<Op>)
    requires ops == []
    ensures Range(ops) == {}
  {
  }

  lemma NoOps(ops: seq<Op>, pending: set<Op>)
    ensures pending + Range(ops[..0]) == pending - Range(ops[..0]) == pending
  {
  }

  /** Extending a prefix of a repetition-free slice by one operation. */
  lemma OneMore(ops: seq<Op>, i: nat, k: nat, pending: set<Op>)
    requires i < k <= |ops| && Distinct(ops[..k])
    ensures ops[i] !in Range(ops[..i])
    ensures pending + Range(ops[..i + 1]) == pending + Range(ops[..i]) + {ops[i]}
    ensures pending - Range(ops[..i + 1]) == pending - Range(ops[..i]) - {ops[i]}
    ensures ops[i] in Range(ops[..k])
  {
    assert ops[..i + 1] == ops[..i] + [ops[i]];
    assert ops[i] == ops[..k][i];
    assert forall j :: 0 <= j < i ==> ops[..k][j] == ops[j];
  }

  /** What passes in one round: the operations offered and how many of them the device takes,
      those it hands back, and the times read before and after. */
  datatype Turn = Turn(offered: seq<Op>, taken: nat, back: seq<Op>, start: int, end: int) {
    predicate Valid() {
      taken <= |offered|
    }

    /** The calls, once the operations are allocated. */
    function Calls(burst: nat): seq<Call>
      requires Valid()
    {
      [Clock(start), Enqueued(offered, offered[..taken]), Dequeued(burst, back), Clock(end)] +
      Puts(offered[taken..]) + Puts(back)
    }
  }

  function Puts(ops: seq<Op>): seq<Call> {
    if ops == [] then [] else [Put(ops)]
  }

  lemma TurnCalls(cs: seq<Call>, t: Turn, burst: nat)
    requires t.Valid()
    ensures cs + t.Calls(burst) ==
              cs + [Clock(t.start)] + [Enqueued(t.offered, t.offered[..t.taken])] + [Dequeued(burst, t.back)] +
              [Clock(t.end)] + Puts(t.offered[t.taken..]) + Puts(t.back)
  {
    hide Puts;
  }

  lemma CarriedPuts(cs: seq<Call>, total: nat, burst: nat, sent: nat, back: nat, ops: seq<Op>)
    requires Carried(cs, total, burst, sent, back)
    ensures Carried(cs + Puts(ops), total, burst, sent, back)
  {
    if ops != [] {
      CarriedOne(cs, total, burst, sent, back, Put(ops));
    } else {
      assert cs + Puts(ops) == cs;
    }
  }

  lemma CarriedTurn(cs: seq<Call>, total: nat, burst: nat, sent: nat, back: nat, t: Turn)
    requires Carried(cs, total, burst, sent, back) && t.Valid()
    requires sent <= total && |t.offered| == Min(burst, total - sent)
    ensures Carried(cs + ([Got(t.offered)] + t.Calls(burst)), total, burst, sent + t.taken, back + |t.back|)
  {
    hide Carried, Turn.Calls, Puts;
    var k, n := sent + t.taken, back + |t.back|;
    CarriedOne(cs, total, burst, sent, back, Got(t.offered));
    var c0 := cs + [Got(t.offered)];
    TurnCalls(c0, t, burst);
    CarriedOne(c0, total, burst, sent, back, Clock(t.start));
    var c1 := c0 + [Clock(t.start)];
    CarriedOne(c1, total, burst, sent, back, Enqueued(t.offered, t.offered[..t.taken]));
    var c2 := c1 + [Enqueued(t.offered, t.offered[..t.taken])];
    CarriedOne(c2, total, burst, k, back, Dequeued(burst, t.back));
    var c3 := c2 + [Dequeued(burst, t.back)];
    CarriedOne(c3, total, burst, k, n, Clock(t.end));
    var c4 := c3 + [Clock(t.end)];
    CarriedPuts(c4, total, burst, k, n, t.offered[t.taken..]);
    CarriedPuts(c4 + Puts(t.offered[t.taken..]), total, burst, k, n, t.back);
    assert c0 + t.Calls(burst) == cs + ([Got(t.offered)] + t.Calls(burst));
  }

  /** The calls of one poll of the drain. */
  function DrainCalls(burst: nat, back: seq<Op>, end: int): seq<Call> {
    [Enqueued([], []), Dequeued(burst, back), Clock(end)] + Puts(back)
  }

  lemma DrainCallsAre(cs: seq<Call>, burst: nat, back: seq<Op>, end: int)
    ensures cs + DrainCalls(burst, back, end) ==
              cs + [Enqueued([], [])] + [Dequeued(burst, back)] + [Clock(end)] + Puts(back)
  {
    hide Puts;
  }

  lemma CarriedDrain(cs: seq<Call>, total: nat, burst: nat, back: nat, ops: seq<Op>, end: int)
    requires Carried(cs, total, burst, total, back)
    ensures Carried(cs + DrainCalls(burst, ops, end), total, burst, total, back + |ops|)
  {
    hide Carried, DrainCalls, Puts;
    DrainCallsAre(cs, burst, ops, end);
    CarriedOne(cs, total, burst, total, back, Enqueued([], []));
    var c1 := cs + [Enqueued([], [])];
    CarriedOne(c1, total, burst, total, back, Dequeued(burst, ops));
    var c2 := c1 + [Dequeued(burst, ops)];
    CarriedOne(c2, total, burst, total, back + |ops|, Clock(end));
    CarriedPuts(c2 + [Clock(end)], total, burst, total, back + |ops|, ops);
  }

  class Bench {
    const tb: Testbed
    /** `ctx->res[]`, one entry per operation of the run. */
    const resStart: array<int>
    const resEnd: array<int>
    /** Private data of each operation: the slot it reports into. */
    var slot: map<Op, nat>
    /** Last value read from the time-stamp counter. */
    var clock: int
    /** How often each slot has been stamped, and the first time it was stamped with. */
    ghost var stamps: seq<nat>
    ghost var ended: map<nat, int>

    constructor (tb: Testbed, total: nat)
      ensures this.tb == tb && resStart.Length == resEnd.Length == total
      ensures fresh(resStart) && fresh(resEnd) && resStart != resEnd
      ensures slot == map[] && stamps == seq(total, _ => 0) && ended == map[]
    {
      this.tb := tb;
      resStart := new int[total];
      resEnd := new int[total];
      slot, clock := map[], 0;
      stamps, ended := seq(total, _ => 0), map[];
    }

    ghost predicate Times(next: nat)
      reads this, resStart, resEnd
    {
      resStart != resEnd && Timed(resStart[..], resEnd[..], clock, stamps, ended, next)
    }

    /** `rte_rdtsc_precise`, any monotone clock. */
    method ReadClock(ghost next: nat) returns (t: int)
      requires Times(next)
      modifies this`clock, tb`traffic
      ensures old(clock) <= t == clock && Times(next)
      ensures tb.traffic == old(tb.traffic) + [Clock(t)]
      ensures old(Balanced(tb.traffic, tb.device)) ==> Balanced(tb.traffic, tb.device)
    {
      hide Balanced;
      t :| clock <= t;
      TimedLater(resStart[..], resEnd[..], clock, stamps, ended, next, t);
      clock := t;
      BalancedOther(tb.traffic, tb.device, Clock(t));
      tb.traffic := tb.traffic + [Clock(t)];
    }

    /** Gives slots `next, next + 1, ...` to the first `k` operations of `ops`. */
    method OpenSlots(ops: array<Op>, k: nat, next: nat, tscStart: int, ghost pending: set<Op>)
      requires k <= ops.Length && Distinct(ops[0..k]) && Range(ops[0..k]) !! pending
      requires Slots(slot, stamps, pending, next) && Times(next)
      requires next + k <= |stamps| && tscStart <= clock
      modifies this`slot, resStart
      ensures Slots(slot, stamps, pending + Range(ops[0..k]), next + k) && Times(next + k)
      ensures forall i :: 0 <= i < k ==> ops[i] in slot && slot[ops[i]] == next + i
      ensures next + k <= resStart.Length
      ensures forall s :: next <= s < next + k ==> resStart[s] == tscStart
      ensures forall s :: 0 <= s < next ==> resStart[s] == old(resStart[s])
    {
      hide Slots, Range, Timed;
      assert ops[0..k] == ops[..k];
      assert pending + Range(ops[..0]) == pending by { NoOps(ops[..], pending); }
      TimedBounds(resStart[..], resEnd[..], clock, stamps, ended, next);
      for i := 0 to k
        invariant Slots(slot, stamps, pending + Range(ops[..i]), next + i)
        invariant Times(next + i)
        invariant forall j :: 0 <= j < i ==> ops[j] in slot && slot[ops[j]] == next + j
        invariant forall s :: next <= s < next + i ==> resStart[s] == tscStart
        invariant forall s :: 0 <= s < next ==> resStart[s] == old(resStart[s])
      {
        OneMore(ops[..], i, k, pending);
        OpenSlot(slot, stamps, pending + Range(ops[..i]), next + i, ops[i]);
        TimedOpen(resStart[..], resEnd[..], clock, stamps, ended, next + i, tscStart);
        ghost var was := resStart[..];
        resStart[next + i] := tscStart;
        assert resStart[..] == was[next + i := tscStart];
        slot := slot[ops[i] := next + i];
      }
    }

    /** `store_timestamp`: one write, to the open slot of a pending operation. */
    method StoreTimestamp(op: Op, tscEnd: int, ghost next: nat, ghost pending: set<Op>)
      requires op in pending && Slots(slot, stamps, pending, next) && Times(next) && tscEnd == clock
      modifies this`stamps, this`ended, resEnd
      ensures op in slot && slot[op] < next <= |old(stamps)| == resEnd.Length
      ensures old(stamps)[slot[op]] == 0 && stamps == old(stamps)[slot[op] := 1]
      ensures resEnd[..] == old(resEnd[..])[slot[op] := tscEnd] && Kept(old(ended), ended)
      ensures Slots(slot, stamps, pending - {op}, next) && Times(next)
    {
      hide Slots, Timed;
      CloseSlot(slot, stamps, pending, next, op);
      TimedBounds(resStart[..], resEnd[..], clock, stamps, ended, next);
      var s := slot[op];
      TimedClose(resStart[..], resEnd[..], clock, stamps, ended, next, s);
      resEnd[s] := tscEnd;
      stamps := stamps[s := stamps[s] + 1];
      ended := ended[s := tscEnd];
      assert resEnd[..] == old(resEnd[..])[s := tscEnd];
    }

    /** `store_timestamp` on the first `k` operations of `ops`: each stamps a slot that had
        never been stamped, and no other slot changes. */
    method CloseSlots(ops: array<Op>, k: nat, ghost next: nat, tscEnd: int, ghost pending: set<Op>)
      requires k <= ops.Length && Distinct(ops[0..k]) && Range(ops[0..k]) <= pending
      requires Slots(slot, stamps, pending, next) && Times(next)
      requires tscEnd == clock
      modifies this`stamps, this`ended, resEnd
      ensures Slots(slot, stamps, pending - Range(ops[0..k]), next) && Times(next) && Kept(old(ended), ended)
      ensures |stamps| == |old(stamps)| == resEnd.Length && next <= |stamps|
      ensures forall i :: 0 <= i < k ==> ops[i] in slot && slot[ops[i]] < next
      ensures forall i :: 0 <= i < k ==>
                old(stamps)[slot[ops[i]]] == 0 && stamps[slot[ops[i]]] == 1 && resEnd[slot[ops[i]]] == tscEnd
      ensures forall s :: 0 <= s < next && old(stamps[s]) > 0 ==>
                stamps[s] == old(stamps[s]) && resEnd[s] == old(resEnd[s])
    {
      hide Slots, Range, Timed, Kept;
      assert ops[0..k] == ops[..k];
      assert pending - Range(ops[..0]) == pending by { NoOps(ops[..], pending); }
      TimedBounds(resStart[..], resEnd[..], clock, stamps, ended, next);
      assert Kept(ended, ended) by { KeptSame(ended); }
      ghost var was := stamps;
      for i := 0 to k
        invariant Slots(slot, stamps, pending - Range(ops[..i]), next) && Times(next) && Kept(old(ended), ended)
        invariant |stamps| == |was|
        invariant forall j :: 0 <= j < i ==> ops[j] in slot && slot[ops[j]] < next
        invariant forall j :: 0 <= j < i ==>
          was[slot[ops[j]]] == 0 && stamps[slot[ops[j]]] == 1 && resEnd[slot[ops[j]]] == tscEnd
        invariant forall s :: 0 <= s < |was| && stamps[s] == 0 ==> was[s] == 0
        invariant forall s :: 0 <= s < |was| && was[s] > 0 ==> stamps[s] == was[s] && resEnd[s] == old(resEnd[s])
      {
        ghost var rest, before, ends := pending - Range(ops[..i]), ended, resEnd[..];
        OneMore(ops[..], i, k, pending);
        StoreTimestamp(ops[i], tscEnd, next, rest);
        KeptTwice(old(ended), before, ended);
        assert forall s :: 0 <= s < |was| && s != slot[ops[i]] ==> resEnd[s] == ends[s];
      }
    }

    /** What holds between two rounds: mempool and device split `all`, the slots
        below `enqdTotal` are open exactly for the operations in the device. */
    ghost predicate Running(enqdTotal: nat, deqdTotal: nat, all: set<Op>)
      reads this, resStart, resEnd, tb
    {
      && Split(tb.pool, tb.device, {}, all)
      && Slots(slot, stamps, tb.device, enqdTotal) && Times(enqdTotal)
      && deqdTotal <= enqdTotal <= |stamps|
      && |tb.device| == enqdTotal - deqdTotal
    }

    /** Enqueue and dequeue between two readings of the clock, then give the refused operations
        back to the mempool. */
    method Exchange(ops: array<Op>, processed: array<Op>, n: nat, burst: nat, ghost next: nat, ghost all: set<Op>)
        returns (enqd: nat, deqd: nat, tscStart: int, tscEnd: int)
      requires ops != processed && burst <= processed.Length
      requires Partition(tb, ops, 0, n, all) && Times(next)
      modifies tb, processed, this`clock
      ensures enqd <= n && Distinct(ops[0..enqd]) && Range(ops[0..enqd]) !! old(tb.device)
      ensures deqd <= burst && Range(processed[0..deqd]) <= old(tb.device) + Range(ops[0..enqd])
      ensures tb.device == old(tb.device) + Range(ops[0..enqd]) - Range(processed[0..deqd])
      ensures |tb.device| == |old(tb.device)| + enqd - deqd
      ensures Partition(tb, processed, 0, deqd, all) && Times(next) && tscStart <= tscEnd == clock
      ensures tb.traffic ==
                old(tb.traffic) + [Clock(tscStart)] + [Enqueued(ops[0..n], ops[0..enqd])] +
                [Dequeued(burst, processed[0..deqd])] + [Clock(tscEnd)] + Puts(ops[enqd..enqd + (n - enqd)])
      ensures old(Balanced(tb.traffic, tb.device)) ==> Balanced(tb.traffic, tb.device)
    {
      hide Distinct, Range, Split, Balanced, Timed;
      tscStart := ReadClock(next);
      enqd := Offer(tb, ops, n, all);
      ghost var offered := tb.device;
      deqd := tb.DequeueBurst(processed, 0, burst);
      tscEnd := ReadClock(next);
      GiveBack(ops, processed, enqd, n, deqd, offered, all);
    }

    /** Operations the device refused go back to the mempool. */
    method GiveBack(ops: array<Op>, processed: array<Op>, enqd: nat, n: nat, deqd: nat, ghost offered: set<Op>,
                    ghost all: set<Op>)
      requires enqd <= n <= ops.Length && deqd <= processed.Length && Distinct(processed[0..deqd])
      requires Distinct(ops[enqd..enqd + (n - enqd)])
      requires Split(tb.pool, offered, Range(ops[enqd..enqd + (n - enqd)]), all)
      requires Range(processed[0..deqd]) <= offered && tb.device == offered - Range(processed[0..deqd])
      modifies tb`pool, tb`traffic
      ensures Partition(tb, processed, 0, deqd, all)
      ensures tb.traffic == old(tb.traffic) + Puts(ops[enqd..enqd + (n - enqd)])
      ensures old(Balanced(tb.traffic, tb.device)) ==> Balanced(tb.traffic, tb.device)
    {
      hide Distinct, Range, Split, Balanced;
      ghost var refused, done := Range(ops[enqd..enqd + (n - enqd)]), Range(processed[0..deqd]);
      SplitDequeue(tb.pool, offered, refused, done, all);
      assert refused + done == done + refused;
      SplitPut(tb.pool, tb.device, done, refused, all);
      if enqd != n {
        tb.PutBulk(ops, enqd, n - enqd);
      } else {
        NoRange(ops[enqd..enqd + (n - enqd)]);
        assert tb.pool + refused == tb.pool;
      }
    }

    /** What a round has done to the totals, the times and the traffic. */
    ghost predicate Turned(turn: Turn, enqdTotal: nat, deqdTotal: nat, enqdTotal': nat, deqdTotal': nat)
      reads this, tb, resStart, resEnd
    {
      && turn.Valid() && enqdTotal' == enqdTotal + turn.taken && deqdTotal' == deqdTotal + |turn.back|
      && enqdTotal' <= resStart.Length
      && (forall s :: enqdTotal <= s < enqdTotal' ==> resStart[s] == turn.start)
      && (forall i :: 0 <= i < |turn.back| ==>
            turn.back[i] in slot && slot[turn.back[i]] < resEnd.Length && resEnd[slot[turn.back[i]]] == turn.end)
    }

    /** One round of the enqueue loop (`ops` and `processed` are the runner's local
        arrays, `burst` the configured burst size): the whole burst is offered, the operations
        taken are started with the time read before, and those handed back end with the time
        read after. */
    method Round(ops: array<Op>, processed: array<Op>, burst: uint16, enqdTotal: nat, deqdTotal: nat,
                 ghost all: set<Op>)
        returns (ok: bool, enqdTotal': nat, deqdTotal': nat, ghost turn: Turn)
      requires ops != processed && burst <= ops.Length && burst <= processed.Length
      requires Running(enqdTotal, deqdTotal, all) && enqdTotal < resStart.Length
      modifies this, tb, ops, processed, resStart, resEnd
      ensures Running(enqdTotal', deqdTotal', all) && Kept(old(ended), ended)
      ensures enqdTotal <= enqdTotal' <= enqdTotal + burst
      ensures !ok ==> enqdTotal' == enqdTotal && deqdTotal' == deqdTotal
      ensures !ok ==> tb.traffic == old(tb.traffic) + [GetFailed(Min(burst, resStart.Length - enqdTotal))]
      ensures ok ==> Turned(turn, enqdTotal, deqdTotal, enqdTotal', deqdTotal')
      ensures ok ==> |turn.offered| == Min(burst, resStart.Length - enqdTotal)
      ensures ok ==> tb.traffic == old(tb.traffic) + [Got(turn.offered)] + turn.Calls(burst)
      ensures old(Balanced(tb.traffic, tb.device)) ==> Balanced(tb.traffic, tb.device)
    {
      hide Slots, Distinct, Range, Split, Kept, Balanced, Turned, Turn.Calls;
      var total := resStart.Length;
      TimedBounds(resStart[..], resEnd[..], clock, stamps, ended, enqdTotal);
      hide Timed;
      KeptSame(ended);
      turn := Turn([], 0, [], 0, 0);
      var burstSize: uint16 := if enqdTotal + burst <= total then burst else total - enqdTotal;
      ok := tb.GetBulk(ops, 0, burstSize);
      if !ok {
        return false, enqdTotal, deqdTotal, turn;
      }
      SplitGet(old(tb.pool), tb.device, Range(ops[0..burstSize]), all);
      enqdTotal', deqdTotal', turn := Serve(ops, processed, burstSize, burst, enqdTotal, deqdTotal, all);
    }

    /** The rest of a round, once its operations are allocated. */
    method Serve(ops: array<Op>, processed: array<Op>, n: nat, burst: uint16, enqdTotal: nat, deqdTotal: nat,
                 ghost all: set<Op>)
        returns (enqdTotal': nat, deqdTotal': nat, ghost turn: Turn)
      requires ops != processed && burst <= processed.Length && Partition(tb, ops, 0, n, all)
      requires Slots(slot, stamps, tb.device, enqdTotal) && Times(enqdTotal)
      requires deqdTotal <= enqdTotal && enqdTotal + n <= |stamps| && |tb.device| == enqdTotal - deqdTotal
      modifies this, tb, processed, resStart, resEnd
      ensures Running(enqdTotal', deqdTotal', all) && Kept(old(ended), ended)
      ensures enqdTotal <= enqdTotal' <= enqdTotal + n && |stamps| == |old(stamps)|
      ensures Turned(turn, enqdTotal, deqdTotal, enqdTotal', deqdTotal') && turn.offered == ops[0..n]
      ensures tb.traffic == old(tb.traffic) + turn.Calls(burst)
      ensures old(Balanced(tb.traffic, tb.device)) ==> Balanced(tb.traffic, tb.device)
    {
      hide Slots, Distinct, Range, Split, Timed, Kept, Balanced, Turn.Calls;
      var enqd, deqd, tscStart, tscEnd := Exchange(ops, processed, n, burst, enqdTotal, all);
      turn := Turn(ops[0..n], enqd, processed[0..deqd], tscStart, tscEnd);
      OpenSlots(ops, enqd, enqdTotal, tscStart, old(tb.device));
      enqdTotal' := enqdTotal + enqd;
      deqdTotal' := deqdTotal + deqd;
      Retire(processed, deqd, enqdTotal', tscEnd, old(tb.device) + Range(ops[0..enqd]), all);
      TurnCalls(old(tb.traffic), turn, burst);
      assert turn.offered[..enqd] == ops[0..enqd] && turn.offered[enqd..] == ops[enqd..enqd + (n - enqd)];
    }

    /** Stamps `deqd` dequeued operations and gives them back to the mempool. */
    method Retire(processed: array<Op>, deqd: nat, ghost next: nat, tscEnd: int,
                  ghost pending: set<Op>, ghost all: set<Op>)
      requires Partition(tb, processed, 0, deqd, all)
      requires Range(processed[0..deqd]) <= pending
      requires tb.device == pending - Range(processed[0..deqd])
      requires Slots(slot, stamps, pending, next) && Times(next) && tscEnd == clock
      modifies this`stamps, this`ended, tb`pool, tb`traffic, resEnd
      ensures Split(tb.pool, tb.device, {}, all)
      ensures Slots(slot, stamps, tb.device, next) && Times(next) && |stamps| == |old(stamps)|
      ensures Kept(old(ended), ended) && next <= resEnd.Length
      ensures forall i :: 0 <= i < deqd ==>
                processed[i] in slot && slot[processed[i]] < next && resEnd[slot[processed[i]]] == tscEnd
      ensures tb.traffic == old(tb.traffic) + Puts(processed[0..deqd])
      ensures old(Balanced(tb.traffic, tb.device)) ==> Balanced(tb.traffic, tb.device)
    {
      TimedBounds(resStart[..], resEnd[..], clock, stamps, ended, next);
      hide Slots, Distinct, Split, Timed, Kept, Balanced;
      KeptSame(ended);
      ghost var done := Range(processed[0..deqd]);
      assert done == {} + done;
      SplitPut(tb.pool, tb.device, {}, done, all);
      if deqd > 0 {
        CloseSlots(processed, deqd, next, tscEnd, pending);
        tb.PutBulk(processed, 0, deqd);
      } else {
        NoRange(processed[0..deqd]);
        assert pending - done == pending && tb.pool + done == tb.pool;
      }
    }

    /** One burst size of the runner.  Completion leaves the mempool whole and every
        slot stamped exactly once, no earlier than it was started; no later round has
        changed the end time a slot was stamped with.  The totals are the numbers of operations
        the device took and handed back in `calls`. */
    method RunBurstSize(ops: array<Op>, processed: array<Op>, burst: uint16, polls: nat, ghost all: set<Op>)
        returns (outcome: Outcome, enqdTotal: nat, deqdTotal: nat, ghost calls: seq<Call>)
      requires ops != processed && burst <= ops.Length && burst <= processed.Length
      requires tb.pool == all && tb.device == {}
      requires resStart.Length == resEnd.Length && resStart != resEnd
      modifies this, tb, ops, processed, resStart, resEnd
      ensures Running(enqdTotal, deqdTotal, all)
      ensures outcome == Completed ==>
                && tb.pool == all && tb.device == {}
                && |stamps| == resStart.Length == resEnd.Length
                && (forall s: nat :: s < |stamps| ==> stamps[s] == 1 && resStart[s] <= resEnd[s])
                && (forall s: nat :: s < |stamps| ==> s in ended && resEnd[s] == ended[s])
      ensures outcome == Completed ==> enqdTotal == deqdTotal == resStart.Length
      ensures tb.traffic == old(tb.traffic) + calls && Carried(calls, resStart.Length, burst, enqdTotal, deqdTotal)
      ensures old(Balanced(tb.traffic, tb.device)) ==> Balanced(tb.traffic, tb.device)
    {
      hide Running, Carried, Balanced;
      var left, ok;
      Start(all);
      ok, enqdTotal, deqdTotal, left, calls := Rounds(ops, processed, burst, polls, all);
      if enqdTotal == resStart.Length {
        deqdTotal, calls := Drains(processed, burst, left, deqdTotal, all, calls);
      }
      if enqdTotal == deqdTotal == resStart.Length {
        AllDone(all);
        outcome := Completed;
      } else {
        outcome := if ok then Polling else AllocFailed;
      }
    }

    method Start(ghost all: set<Op>)
      requires tb.pool == all && tb.device == {} && resStart.Length == resEnd.Length && resStart != resEnd
      modifies this`stamps, this`ended
      ensures Running(0, 0, all) && |stamps| == resStart.Length
    {
      stamps, ended := seq(resStart.Length, _ => 0), map[];
      assert Slots(slot, stamps, {}, 0);
    }

    /** Nothing is pending and every slot was opened. */
    lemma AllDone(all: set<Op>)
      requires Running(resStart.Length, resStart.Length, all) && |stamps| == resStart.Length
      ensures tb.pool == all && tb.device == {} && |stamps| == resStart.Length == resEnd.Length
      ensures forall s: nat :: s < |stamps| ==> stamps[s] == 1 && resStart[s] <= resEnd[s]
      ensures forall s: nat :: s < |stamps| ==> s in ended && resEnd[s] == ended[s]
    {
      hide Slots, Timed;
      SplitWhole(tb.pool, tb.device, all);
      AllStampedOnce(slot, stamps);
      AllTimed(resStart[..], resEnd[..], clock, stamps, ended);
    }

    /** The enqueue loop. */
    method Rounds(ops: array<Op>, processed: array<Op>, burst: uint16, polls: nat, ghost all: set<Op>)
        returns (ok: bool, enqdTotal: nat, deqdTotal: nat, left: nat, ghost calls: seq<Call>)
      requires ops != processed && burst <= ops.Length && burst <= processed.Length
      requires Running(0, 0, all) && |stamps| == resStart.Length
      modifies this, tb, ops, processed, resStart, resEnd
      ensures Running(enqdTotal, deqdTotal, all) && |stamps| == resStart.Length
      ensures tb.traffic == old(tb.traffic) + calls && Carried(calls, resStart.Length, burst, enqdTotal, deqdTotal)
      ensures old(Balanced(tb.traffic, tb.device)) ==> Balanced(tb.traffic, tb.device)
    {
      hide Slots, Split, Carried, Balanced, Timed;
      ok, enqdTotal, deqdTotal, left, calls := true, 0, 0, polls, [];
      CarriedNone(resStart.Length, burst);
      while enqdTotal < resStart.Length && left > 0 && ok
        invariant Running(enqdTotal, deqdTotal, all) && |stamps| == resStart.Length
        invariant tb.traffic == old(tb.traffic) + calls && Carried(calls, resStart.Length, burst, enqdTotal, deqdTotal)
        invariant old(Balanced(tb.traffic, tb.device)) ==> Balanced(tb.traffic, tb.device)
        decreases left
      {
        left := left - 1;
        ok, enqdTotal, deqdTotal, calls := CountedRound(ops, processed, burst, enqdTotal, deqdTotal, all, calls);
      }
    }

    /** The drain loop. */
    method Drains(processed: array<Op>, burst: uint16, polls: nat, deqd: nat, ghost all: set<Op>,
                  ghost before: seq<Call>)
        returns (deqdTotal: nat, ghost calls: seq<Call>)
      requires burst <= processed.Length && resStart.Length == |stamps| && Running(resStart.Length, deqd, all)
      requires Carried(before, resStart.Length, burst, resStart.Length, deqd)
      modifies this, tb, processed, resStart, resEnd
      ensures Running(resStart.Length, deqdTotal, all) && |stamps| == resStart.Length
      ensures before <= calls && tb.traffic == old(tb.traffic) + calls[|before|..]
      ensures Carried(calls, resStart.Length, burst, resStart.Length, deqdTotal)
      ensures old(Balanced(tb.traffic, tb.device)) ==> Balanced(tb.traffic, tb.device)
    {
      hide Slots, Split, Carried, Balanced, Timed;
      var left := polls;
      deqdTotal, calls := deqd, before;
      while deqdTotal < resStart.Length && left > 0
        invariant Running(resStart.Length, deqdTotal, all) && |stamps| == resStart.Length
        invariant before <= calls && tb.traffic == old(tb.traffic) + calls[|before|..]
        invariant Carried(calls, resStart.Length, burst, resStart.Length, deqdTotal)
        invariant old(Balanced(tb.traffic, tb.device)) ==> Balanced(tb.traffic, tb.device)
        decreases left
      {
        left := left - 1;
        var n;
        n, calls := CountedDrain(processed, burst, deqdTotal, all, calls);
        deqdTotal := deqdTotal + n;
      }
    }

    /** A round, and a poll of the drain, with their calls appended to those before. */
    method CountedRound(ops: array<Op>, processed: array<Op>, burst: uint16, enqdTotal: nat, deqdTotal: nat,
                        ghost all: set<Op>, ghost before: seq<Call>)
        returns (ok: bool, enqdTotal': nat, deqdTotal': nat, ghost calls: seq<Call>)
      requires ops != processed && burst <= ops.Length && burst <= processed.Length
      requires Running(enqdTotal, deqdTotal, all) && enqdTotal < resStart.Length == |stamps|
      requires Carried(before, resStart.Length, burst, enqdTotal, deqdTotal)
      modifies this, tb, ops, processed, resStart, resEnd
      ensures Running(enqdTotal', deqdTotal', all) && |stamps| == resStart.Length
      ensures before <= calls && tb.traffic == old(tb.traffic) + calls[|before|..]
      ensures Carried(calls, resStart.Length, burst, enqdTotal', deqdTotal')
      ensures old(Balanced(tb.traffic, tb.device)) ==> Balanced(tb.traffic, tb.device)
    {
      hide Slots, Split, Carried, Balanced, Kept, Turn.Calls;
      var total := resStart.Length;
      ghost var turn;
      ok, enqdTotal', deqdTotal', turn := Round(ops, processed, burst, enqdTotal, deqdTotal, all);
      TimedBounds(resStart[..], resEnd[..], clock, stamps, ended, enqdTotal');
      hide Timed;
      if ok {
        CarriedTurn(before, total, burst, enqdTotal, deqdTotal, turn);
        calls := before + ([Got(turn.offered)] + turn.Calls(burst));
      } else {
        ghost var failed := GetFailed(Min(burst, total - enqdTotal));
        CarriedOne(before, total, burst, enqdTotal, deqdTotal, failed);
        calls := before + [failed];
      }
    }

    method CountedDrain(processed: array<Op>, burst: uint16, deqdTotal: nat, ghost all: set<Op>,
                        ghost before: seq<Call>)
        returns (deqd: nat, ghost calls: seq<Call>)
      requires burst <= processed.Length && resStart.Length == |stamps|
      requires Running(resStart.Length, deqdTotal, all)
      requires Carried(before, resStart.Length, burst, resStart.Length, deqdTotal)
      modifies this, tb, processed, resStart, resEnd
      ensures deqdTotal + deqd <= resStart.Length && Running(resStart.Length, deqdTotal + deqd, all)
      ensures |stamps| == resStart.Length
      ensures before <= calls && tb.traffic == old(tb.traffic) + calls[|before|..]
      ensures Carried(calls, resStart.Length, burst, resStart.Length, deqdTotal + deqd)
      ensures old(Balanced(tb.traffic, tb.device)) ==> Balanced(tb.traffic, tb.device)
    {
      hide Slots, Split, Carried, Balanced, Kept, Turn.Calls, Timed;
      ghost var back, end;
      deqd, back, end := Drain(processed, burst, resStart.Length, deqdTotal, all);
      CarriedDrain(before, resStart.Length, burst, deqdTotal, back, end);
      calls := before + DrainCalls(burst, back, end);
    }

    /** One poll of the drain loop, flushed by a burst of length 0. */
    method Drain(processed: array<Op>, burst: uint16, enqdTotal: nat, deqdTotal: nat, ghost all: set<Op>)
        returns (deqd: nat, ghost back: seq<Op>, ghost end: int)
      requires burst <= processed.Length
      requires Running(enqdTotal, deqdTotal, all)
      modifies this, tb, processed, resStart, resEnd
      ensures deqdTotal + deqd <= enqdTotal && Running(enqdTotal, deqdTotal + deqd, all)
      ensures |stamps| == |old(stamps)| && Kept(old(ended), ended)
      ensures |back| == deqd && tb.traffic == old(tb.traffic) + DrainCalls(burst, back, end)
      ensures old(Balanced(tb.traffic, tb.device)) ==> Balanced(tb.traffic, tb.device)
    {
      hide Slots, Distinct, Range, Timed, Kept, Balanced, DrainCalls;
      Flush(tb, processed);
      deqd := tb.DequeueBurst(processed, 0, burst);
      var tscEnd := ReadClock(enqdTotal);
      back, end := processed[0..deqd], tscEnd;
      ghost var done := Range(back);
      SplitDequeue(tb.pool, old(tb.device), {}, done, all);
      assert {} + done == done;
      Retire(processed, deqd, enqdTotal, tscEnd, old(tb.device), all);
      DrainCallsAre(old(tb.traffic), burst, back, end);
    }
  }
}
