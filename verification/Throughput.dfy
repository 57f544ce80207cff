/** The throughput benchmark's enqueue/dequeue loop and drain
    (app/test-crypto-perf/cperf_test_throughput.c).

    Operations the device refuses stay in `ops[]` and are offered again.  Every
    loop here may stop after any number of polls (`polls`), so what holds at a
    stop holds after every finite prefix of every run, whatever the device does. */
module Throughput {
  import opened Basics
  import opened CryptoTestbed

  /** `memmove` of `n` entries towards the front. */
  method Memmove(ops: array<Op>, dst: nat, src: nat, n: nat)
    requires dst <= src && src + n <= ops.Length
    modifies ops
    ensures ops[dst..dst + n] == old(ops[src..src + n])
    ensures ops[..dst] == old(ops[..dst])
  {
    forall i | 0 <= i < n {
      ops[dst + i] := ops[src + i];
    }
  }

  /** Tops the leftover slice up to a full burst at the front of `ops[]`, the new operations
      first. */
  method Refill(tb: Testbed, ops: array<Op>, enqd: nat, unused: nat, needed: nat, ghost all: set<Op>)
      returns (ok: bool)
    requires Partition(tb, ops, enqd, unused, all)
    requires unused == 0 || needed <= enqd
    requires needed + unused <= ops.Length
    modifies tb`pool, tb`traffic, ops
    ensures !ok ==> Partition(tb, ops, enqd, unused, all) && ops[..] == old(ops[..])
    ensures ok ==> Partition(tb, ops, 0, needed + unused, all)
    ensures ok ==> ops[needed..needed + unused] == old(ops[enqd..enqd + unused])
    ensures tb.traffic == old(tb.traffic) + [if ok then Got(ops[0..needed]) else GetFailed(needed)]
    ensures old(Balanced(tb.traffic, tb.device)) ==> Balanced(tb.traffic, tb.device)
  {
    hide Balanced;
    ghost var was := ops[..];
    ok := tb.GetBulk(ops, 0, needed);
    if !ok {
      return;
    }
    ghost var got := ops[0..needed];
    ghost var kept := was[enqd..enqd + unused];
    SameBehind(was, ops[..], needed, enqd, unused);
    if enqd > needed {
      Memmove(ops, needed, enqd, unused);
    }
    assert ops[0..needed] == got && ops[needed..needed + unused] == kept;
    DistinctConcat(got, kept);
    assert ops[0..needed + unused] == got + kept;
  }

  /** The leftovers are behind what the mempool filled. */
  lemma SameBehind(was: seq<Op>, now: seq<Op>, needed: nat, enqd: nat, unused: nat)
    requires |was| == |now| && needed <= |was| && enqd + unused <= |was|
    requires unused == 0 || needed <= enqd
    requires now[needed..] == was[needed..]
    ensures now[enqd..enqd + unused] == was[enqd..enqd + unused]
  {
    forall i | enqd <= i < enqd + unused
      ensures now[i] == was[i]
    {
      assert now[i] == now[needed..][i - needed] && was[i] == was[needed..][i - needed];
    }
  }

  /** The calls that collect processed operations: a dequeue, and a put if it gave any. */
  function Collecting(room: nat, back: seq<Op>): seq<Call> {
    if back == [] then [Dequeued(room, back)] else [Dequeued(room, back), Put(back)]
  }

  lemma CollectingAfter(cs: seq<Call>, room: nat, back: seq<Op>)
    ensures cs + Collecting(room, back) ==
              if back == [] then cs + [Dequeued(room, back)] else cs + [Dequeued(room, back)] + [Put(back)]
  {
  }

  /** Hands `n` processed operations from the device back to the mempool. */
  method Recycle(tb: Testbed, ops: array<Op>, processed: array<Op>, burst: nat,
                 ghost at: nat, ghost n: nat, ghost all: set<Op>)
      returns (deqd: nat)
    requires ops != processed && burst <= processed.Length
    requires Partition(tb, ops, at, n, all)
    modifies tb, processed
    ensures deqd <= burst && |tb.device| == |old(tb.device)| - deqd
    ensures Partition(tb, ops, at, n, all)
    ensures tb.traffic == old(tb.traffic) + Collecting(burst, processed[0..deqd])
    ensures old(Balanced(tb.traffic, tb.device)) ==> Balanced(tb.traffic, tb.device)
  {
    hide Distinct, Range, Split, Balanced, Collecting;
    ghost var held := Range(ops[at..at + n]);
    deqd := tb.DequeueBurst(processed, 0, burst);
    ghost var done := Range(processed[0..deqd]);
    CollectingAfter(old(tb.traffic), burst, processed[0..deqd]);
    assert deqd == |processed[0..deqd]|;
    SplitDequeue(tb.pool, old(tb.device), held, done, all);
    SplitPut(tb.pool, tb.device, held, done, all);
    if deqd > 0 {
      tb.PutBulk(processed, 0, deqd);
    }
  }

  /** What holds between two rounds of the enqueue loop: ownership, the counters,
      and the size of the previous burst (no burst at all before the first round). */
  ghost predicate Running(tb: Testbed, ops: array<Op>, total: nat, burst: nat, enqd: nat,
                          unused: nat, enqdTotal: nat, deqdTotal: nat, all: set<Op>)
    reads tb, ops
  {
    && Partition(tb, ops, enqd, unused, all)
    && enqd <= enqdTotal <= total
    && deqdTotal <= enqdTotal
    && |tb.device| == enqdTotal - deqdTotal
    && (enqd + unused == 0 || enqd + unused == Min(burst, total - (enqdTotal - enqd)))
  }

  /** The calls of one round: `added` operations are allocated, offered together with the
      leftovers `kept`, of which the device takes `k`, and those in `back` are collected. */
  function RoundCalls(added: seq<Op>, kept: seq<Op>, k: nat, burst: nat, back: seq<Op>): seq<Call>
    requires k <= |added + kept|
  {
    [Got(added), Enqueued(added + kept, (added + kept)[..k])] + Collecting(burst, back)
  }

  lemma RoundCallsAfter(cs: seq<Call>, added: seq<Op>, kept: seq<Op>, k: nat, burst: nat, back: seq<Op>)
    requires k <= |added + kept|
    ensures cs + RoundCalls(added, kept, k, burst, back) ==
              cs + [Got(added)] + [Enqueued(added + kept, (added + kept)[..k])] + Collecting(burst, back)
  {
    hide Collecting;
  }

  /** One round of the enqueue loop.  `needed` is computed in 16 bits, as the source
      does, and does not underflow.  The whole burst is offered to the device, leftovers
      behind new operations, what it takes and what it hands back is what is counted, and
      what it refuses is left over again. */
  method Round(tb: Testbed, ops: array<Op>, processed: array<Op>, total: nat, burst: uint16,
               enqd: nat, unused: nat, enqdTotal: nat, deqdTotal: nat, ghost all: set<Op>)
      returns (ok: bool, enqd': nat, unused': nat, enqdTotal': nat, deqdTotal': nat,
               ghost added: seq<Op>, ghost back: seq<Op>)
    requires ops != processed && burst <= ops.Length && burst <= processed.Length
    requires Running(tb, ops, total, burst, enqd, unused, enqdTotal, deqdTotal, all)
    requires enqdTotal < total
    modifies tb, ops, processed
    ensures Running(tb, ops, total, burst, enqd', unused', enqdTotal', deqdTotal', all)
    ensures enqdTotal' == total ==> unused' == 0
    ensures !ok ==> enqdTotal' == enqdTotal && enqd' == enqd && unused' == unused && deqdTotal' == deqdTotal
    ensures !ok ==> tb.traffic == old(tb.traffic) + [GetFailed(Min(burst, total - enqdTotal) - unused)]
    ensures ok ==>
              var kept := old(ops[enqd..enqd + unused]);
              && |added + kept| == Min(burst, total - enqdTotal) == enqd' + unused'
              && tb.traffic == old(tb.traffic) + RoundCalls(added, kept, enqd', burst, back)
              && ops[enqd'..enqd' + unused'] == (added + kept)[enqd'..]
              && enqdTotal' == enqdTotal + enqd' && deqdTotal' == deqdTotal + |back|
    ensures old(Balanced(tb.traffic, tb.device)) ==> Balanced(tb.traffic, tb.device)
  {
    hide Partition, Split, Distinct, Range, Balanced, RoundCalls, Collecting;
    var burstSize: uint16 := if enqdTotal + burst <= total then burst else total - enqdTotal;
    var needed: uint16 := burstSize - unused;
    ghost var kept := ops[enqd..enqd + unused];
    added, back := [], [];
    ok := Refill(tb, ops, enqd, unused, needed, all);
    if !ok {
      return false, enqd, unused, enqdTotal, deqdTotal, [], [];
    }
    added := ops[0..needed];
    assert ops[0..burstSize] == added + kept;
    var deqd;
    enqd', deqd, back := Send(tb, ops, processed, burstSize, burst, all);
    unused' := burstSize - enqd';
    enqdTotal' := enqdTotal + enqd';
    deqdTotal' := deqdTotal + deqd;
    RoundCallsAfter(old(tb.traffic), added, kept, enqd', burst, back);
  }

  /** Offers a burst and collects what the device has ready. */
  method Send(tb: Testbed, ops: array<Op>, processed: array<Op>, n: nat, burst: nat, ghost all: set<Op>)
      returns (enqd: nat, deqd: nat, ghost back: seq<Op>)
    requires ops != processed && burst <= processed.Length && Partition(tb, ops, 0, n, all)
    modifies tb, processed
    ensures enqd <= n && deqd == |back| && |tb.device| == |old(tb.device)| + enqd - deqd
    ensures Partition(tb, ops, enqd, n - enqd, all) && ops[..] == old(ops[..])
    ensures tb.traffic == old(tb.traffic) + [Enqueued(ops[0..n], ops[0..n][..enqd])] + Collecting(burst, back)
    ensures ops[enqd..enqd + (n - enqd)] == ops[0..n][enqd..]
    ensures old(Balanced(tb.traffic, tb.device)) ==> Balanced(tb.traffic, tb.device)
  {
    hide Split, Distinct, Range, Balanced, Collecting;
    enqd := Offer(tb, ops, n, all);
    assert ops[0..enqd] == ops[0..n][..enqd];
    hide Partition;
    deqd := Recycle(tb, ops, processed, burst, enqd, n - enqd, all);
    back := processed[0..deqd];
  }

  lemma CarriedCollect(cs: seq<Call>, total: nat, burst: nat, sent: nat, back: nat, ops: seq<Op>)
    requires Carried(cs, total, burst, sent, back)
    ensures Carried(cs + Collecting(burst, ops), total, burst, sent, back + |ops|)
  {
    hide Carried;
    CarriedOne(cs, total, burst, sent, back, Dequeued(burst, ops));
    if ops != [] {
      CarriedOne(cs + [Dequeued(burst, ops)], total, burst, sent, back + |ops|, Put(ops));
      assert cs + [Dequeued(burst, ops)] + [Put(ops)] == cs + Collecting(burst, ops);
    }
  }

  lemma CarriedRound(cs: seq<Call>, total: nat, burst: nat, sent: nat, back: nat, added: seq<Op>, kept: seq<Op>,
                     k: nat, ops: seq<Op>)
    requires Carried(cs, total, burst, sent, back) && sent <= total && k <= |added + kept| == Min(burst, total - sent)
    ensures Carried(cs + RoundCalls(added, kept, k, burst, ops), total, burst, sent + k, back + |ops|)
  {
    hide Carried;
    var offer := Enqueued(added + kept, (added + kept)[..k]);
    CarriedOne(cs, total, burst, sent, back, Got(added));
    CarriedOne(cs + [Got(added)], total, burst, sent, back, offer);
    CarriedCollect(cs + [Got(added)] + [offer], total, burst, sent + k, back, ops);
    assert cs + [Got(added)] + [offer] + Collecting(burst, ops) == cs + RoundCalls(added, kept, k, burst, ops);
  }

  /** Nothing is left in the device: the mempool and the leftovers are everything. */
  lemma DrainedDevice(tb: Testbed, ops: array<Op>, at: nat, all: set<Op>)
    requires Partition(tb, ops, at, 0, all) && |tb.device| == 0
    ensures tb.device == {} && tb.pool == all
  {
  }

  /** One burst size of the runner.  On every exit the operations are partitioned, and the
      totals are the numbers of operations that the device took and handed back in `calls`; on
      completion the mempool is whole and nothing is left in `ops[]`. */
  method RunBurstSize(tb: Testbed, ops: array<Op>, processed: array<Op>, total: nat,
                      burst: uint16, polls: nat, ghost all: set<Op>)
      returns (outcome: Outcome, enqdTotal: nat, deqdTotal: nat, at: nat, unused: nat, ghost calls: seq<Call>)
    requires ops != processed && burst <= ops.Length && burst <= processed.Length
    requires tb.pool == all && tb.device == {}
    modifies tb, ops, processed
    ensures Partition(tb, ops, at, unused, all)
    ensures deqdTotal <= enqdTotal <= total && |tb.device| == enqdTotal - deqdTotal
    ensures outcome == Completed ==>
              tb.pool == all && tb.device == {} && unused == 0 && enqdTotal == deqdTotal == total
    ensures tb.traffic == old(tb.traffic) + calls && Carried(calls, total, burst, enqdTotal, deqdTotal)
    ensures old(Balanced(tb.traffic, tb.device)) ==> Balanced(tb.traffic, tb.device)
  {
    hide Balanced, Carried, Distinct;
    var left, ok := polls, true;
    at, unused, enqdTotal, deqdTotal, calls := 0, 0, 0, 0, [];
    CarriedNone(total, burst);
    WholePool(tb, ops, all);
    hide Partition;
    while enqdTotal < total && left > 0 && ok
      invariant Running(tb, ops, total, burst, at, unused, enqdTotal, deqdTotal, all)
      invariant enqdTotal == total ==> unused == 0
      invariant tb.traffic == old(tb.traffic) + calls && Carried(calls, total, burst, enqdTotal, deqdTotal)
      invariant old(Balanced(tb.traffic, tb.device)) ==> Balanced(tb.traffic, tb.device)
      decreases left
    {
      left := left - 1;
      ok, at, unused, enqdTotal, deqdTotal, calls :=
        CountedRound(tb, ops, processed, total, burst, at, unused, enqdTotal, deqdTotal, all, calls);
    }
    if enqdTotal < total {
      return if ok then Polling else AllocFailed, enqdTotal, deqdTotal, at, unused, calls;
    }
    deqdTotal, calls := Drain(tb, ops, processed, total, burst, left, at, deqdTotal, all, calls);
    if deqdTotal < total {
      return Polling, enqdTotal, deqdTotal, at, unused, calls;
    }
    DrainedDevice(tb, ops, at, all);
    outcome := Completed;
  }

  lemma WholePool(tb: Testbed, ops: array<Op>, all: set<Op>)
    requires tb.pool == all && tb.device == {}
    ensures Partition(tb, ops, 0, 0, all)
  {
  }

  /** A round, with its calls appended to those before it. */
  method CountedRound(tb: Testbed, ops: array<Op>, processed: array<Op>, total: nat, burst: uint16,
                      enqd: nat, unused: nat, enqdTotal: nat, deqdTotal: nat, ghost all: set<Op>,
                      ghost before: seq<Call>)
      returns (ok: bool, enqd': nat, unused': nat, enqdTotal': nat, deqdTotal': nat, ghost calls: seq<Call>)
    requires ops != processed && burst <= ops.Length && burst <= processed.Length
    requires Running(tb, ops, total, burst, enqd, unused, enqdTotal, deqdTotal, all)
    requires enqdTotal < total && Carried(before, total, burst, enqdTotal, deqdTotal)
    modifies tb, ops, processed
    ensures Running(tb, ops, total, burst, enqd', unused', enqdTotal', deqdTotal', all)
    ensures enqdTotal' == total ==> unused' == 0
    ensures before <= calls && tb.traffic == old(tb.traffic) + calls[|before|..]
    ensures Carried(calls, total, burst, enqdTotal', deqdTotal')
    ensures old(Balanced(tb.traffic, tb.device)) ==> Balanced(tb.traffic, tb.device)
  {
    hide Balanced, Carried, RoundCalls, Distinct, Split;
    ghost var added, back;
    ghost var kept := ops[enqd..enqd + unused];
    ok, enqd', unused', enqdTotal', deqdTotal', added, back :=
      Round(tb, ops, processed, total, burst, enqd, unused, enqdTotal, deqdTotal, all);
    if ok {
      CarriedRound(before, total, burst, enqdTotal, deqdTotal, added, kept, enqd', back);
      calls := before + RoundCalls(added, kept, enqd', burst, back);
    } else {
      ghost var failed := GetFailed(Min(burst, total - enqdTotal) - unused);
      CarriedOne(before, total, burst, enqdTotal, deqdTotal, failed);
      calls := before + [failed];
    }
  }

  /** The drain: a burst of length 0 flushes the device before every dequeue. */
  method Drain(tb: Testbed, ops: array<Op>, processed: array<Op>, total: nat, burst: uint16, polls: nat,
               ghost at: nat, deqd: nat, ghost all: set<Op>, ghost before: seq<Call>)
      returns (deqdTotal: nat, ghost calls: seq<Call>)
    requires ops != processed && burst <= processed.Length
    requires Partition(tb, ops, at, 0, all) && deqd <= total && |tb.device| == total - deqd
    requires Carried(before, total, burst, total, deqd)
    modifies tb, processed
    ensures Partition(tb, ops, at, 0, all) && deqdTotal <= total && |tb.device| == total - deqdTotal
    ensures before <= calls && tb.traffic == old(tb.traffic) + calls[|before|..]
    ensures Carried(calls, total, burst, total, deqdTotal)
    ensures old(Balanced(tb.traffic, tb.device)) ==> Balanced(tb.traffic, tb.device)
  {
    hide Balanced, Carried, Split, Distinct, Range;
    var left := polls;
    deqdTotal, calls := deqd, before;
    while deqdTotal < total && left > 0
      invariant Partition(tb, ops, at, 0, all) && deqdTotal <= total && |tb.device| == total - deqdTotal
      invariant before <= calls && tb.traffic == old(tb.traffic) + calls[|before|..]
      invariant Carried(calls, total, burst, total, deqdTotal)
      invariant old(Balanced(tb.traffic, tb.device)) ==> Balanced(tb.traffic, tb.device)
      decreases left
    {
      left := left - 1;
      Flush(tb, ops);
      var n := Recycle(tb, ops, processed, burst, at, 0, all);
      ghost var back := processed[0..n];
      CarriedOne(calls, total, burst, total, deqdTotal, Enqueued([], []));
      CarriedCollect(calls + [Enqueued([], [])], total, burst, total, deqdTotal, back);
      calls := calls + [Enqueued([], [])] + Collecting(burst, back);
      deqdTotal := deqdTotal + n;
    }
  }

  /** How many burst sizes are run: those before the first one above `maxBurst`. */
  function Leading(bursts: seq<uint16>, maxBurst: uint16): (n: nat)
    ensures n <= |bursts| && (forall i :: 0 <= i < n ==> bursts[i] <= maxBurst)
    ensures n < |bursts| ==> bursts[n] > maxBurst
  {
    if bursts == [] || bursts[0] > maxBurst then 0 else 1 + Leading(bursts[1..], maxBurst)
  }

  /** The runner over a list of burst sizes, stopping at the first one above `maxBurst`: if
      every size completes, every operation is back in the mempool, and the device has taken
      and handed back the configured number of operations for every size. */
  method Run(tb: Testbed, bursts: seq<uint16>, maxBurst: uint16, total: nat, polls: nat,
             ghost all: set<Op>)
      returns (completed: bool)
    requires tb.pool == all && tb.device == {}
    modifies tb
    ensures completed ==> tb.pool == all && tb.device == {}
    ensures tb.pool <= all && tb.device <= all && tb.pool !! tb.device
    ensures completed ==> Served(old(tb.traffic), tb.traffic, Leading(bursts, maxBurst), total)
  {
    hide Served, Carried, Balanced, Flow;
    var ops := new Op[maxBurst];
    var processed := new Op[maxBurst];
    var i := 0;
    ServedNone(tb.traffic, total);
    while i < |bursts| && bursts[i] <= maxBurst
      invariant 0 <= i <= Leading(bursts, maxBurst)
      invariant tb.pool == all && tb.device == {} && Served(old(tb.traffic), tb.traffic, i, total)
    {
      ghost var before := tb.traffic;
      var outcome, sent, back, _, _, calls := RunBurstSize(tb, ops, processed, total, bursts[i], polls, all);
      if outcome != Completed {
        return false;
      }
      ServedMore(old(tb.traffic), before, calls, i, total, bursts[i]);
      i := i + 1;
    }
    completed := true;
  }

  /** The device took and handed back `total` operations `n` times over. */
  ghost predicate Served(was: seq<Call>, now: seq<Call>, n: nat, total: nat) {
    && |Flow(now, ToDevice)| == |Flow(was, ToDevice)| + n * total
    && |Flow(now, FromDevice)| == |Flow(was, FromDevice)| + n * total
  }

  lemma ServedNone(cs: seq<Call>, total: nat)
    ensures Served(cs, cs, 0, total)
  {
  }

  lemma ServedMore(was: seq<Call>, now: seq<Call>, calls: seq<Call>, n: nat, total: nat, burst: nat)
    requires Served(was, now, n, total) && Carried(calls, total, burst, total, total)
    ensures Served(was, now + calls, n + 1, total)
  {
    FlowConcat(now, calls, ToDevice);
    FlowConcat(now, calls, FromDevice);
    hide Flow;
    assert (n + 1) * total == n * total + total;
  }
}
