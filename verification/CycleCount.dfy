/** The PMD cycle-count benchmark (app/test-crypto-perf/cperf_test_pmd_cyclecount.c):
    fill the queue pair once, drain it into the same array, and give back whatever
    the array then holds. */
module CycleCount {
  import opened Basics
  import opened CryptoTestbed

  /** Two slices of one array, each free of repetitions, with nothing in common. */
  ghost predicate TwoSlices(a: seq<Op>, i: nat, j: nat, k: nat) {
    && i <= j <= k <= |a|
    && Distinct(a[0..i]) && Distinct(a[j..k])
    && Range(a[0..i]) !! Range(a[j..k])
  }

  lemma PasteSlices(a: seq<Op>, i: nat, k: nat)
    requires TwoSlices(a, i, i, k)
    ensures Distinct(a[0..k]) && Range(a[0..k]) == Range(a[0..i]) + Range(a[i..k])
  {
    DistinctConcat(a[0..i], a[i..k]);
    assert a[0..k] == a[0..i] + a[i..k];
  }

  // ---------------------------------------------------------------- traffic

  /** How many operations a series of calls moved each way. */
  ghost predicate Moves(cs: seq<Call>, got: nat, put: nat, sent: nat, back: nat) {
    && |Flow(cs, FromPool)| == got && |Flow(cs, ToPool)| == put
    && |Flow(cs, ToDevice)| == sent && |Flow(cs, FromDevice)| == back
  }

  lemma MovesNone()
    ensures Moves([], 0, 0, 0, 0)
  {
  }

  lemma MovesConcat(a: seq<Call>, b: seq<Call>, n: (nat, nat, nat, nat), m: (nat, nat, nat, nat))
    requires Moves(a, n.0, n.1, n.2, n.3) && Moves(b, m.0, m.1, m.2, m.3)
    ensures Moves(a + b, n.0 + m.0, n.1 + m.1, n.2 + m.2, n.3 + m.3)
  {
    FlowConcat(a, b, FromPool);
    FlowConcat(a, b, ToPool);
    FlowConcat(a, b, ToDevice);
    FlowConcat(a, b, FromDevice);
    hide Flow;
  }

  lemma MovesOne(c: Call)
    ensures Moves([c], |Part(c, FromPool)|, |Part(c, ToPool)|, |Part(c, ToDevice)|, |Part(c, FromDevice)|)
  {
    FlowOne(c, FromPool);
    FlowOne(c, ToPool);
    FlowOne(c, ToDevice);
    FlowOne(c, FromDevice);
    hide Flow;
  }

  /** The calls that walk an array `a` in steps of at most `burst` entries: each one is about
      the slice behind what the calls before it moved. */
  ghost predicate Walks(cs: seq<Call>, w: Way, a: seq<Op>, needed: nat, burst: nat) {
    forall i :: 0 <= i < |cs| ==> Aligned(cs[i], w, |Flow(cs[..i], w)|, a, needed, burst)
  }

  predicate Aligned(c: Call, w: Way, cur: nat, a: seq<Op>, needed: nat, burst: nat) {
    && cur < needed <= |a|
    && var size := Min(needed - cur, burst);
       match c
       case Got(ops) => w == FromPool && |ops| == size
       case GetFailed(wanted) => w == FromPool && wanted == size
       case Put(_) => false
       case Enqueued(offered, taken) => w == ToDevice && offered == a[cur..cur + size] && taken <= offered
       case Dequeued(room, ops) => w == FromDevice && room == size && |ops| <= size
       case Clock(_) => false
  }

  /** A walk that has moved the first `cur` entries of `a`, and nothing any other way. */
  ghost predicate Walked(cs: seq<Call>, w: Way, a: seq<Op>, cur: nat, needed: nat, burst: nat) {
    && cur <= needed <= |a| && Walks(cs, w, a, needed, burst) && Flow(cs, w) == a[0..cur]
    && Moves(cs, if w == FromPool then cur else 0, 0,
             if w == ToDevice then cur else 0, if w == FromDevice then cur else 0)
  }

  lemma WalkedNone(w: Way, a: seq<Op>, needed: nat, burst: nat)
    requires needed <= |a| && w != ToPool
    ensures Walked([], w, a, 0, needed, burst)
  {
  }

  /** One more step; `b` is the array after it. */
  lemma WalkedOne(cs: seq<Call>, w: Way, a: seq<Op>, cur: nat, needed: nat, burst: nat, c: Call, b: seq<Op>, k: nat)
    requires Walked(cs, w, a, cur, needed, burst) && w != ToPool && Aligned(c, w, cur, b, needed, burst)
    requires |b| == |a| && cur + k <= needed && b[0..cur] == a[0..cur] && b[cur..cur + k] == Part(c, w)
    requires w == ToDevice ==> b == a
    ensures Walked(cs + [c], w, b, cur + k, needed, burst)
  {
    hide Flow, Walks, Moves;
    FlowSnoc(cs, c, w);
    assert b[0..cur + k] == b[0..cur] + b[cur..cur + k];
    MovesStep(cs, w, cur, c, k);
    WalksOne(cs, w, a, cur, needed, burst, c, b);
  }

  lemma MovesStep(cs: seq<Call>, w: Way, cur: nat, c: Call, k: nat)
    requires w != ToPool && |Part(c, w)| == k && (forall v :: v != w ==> Part(c, v) == [])
    requires Moves(cs, if w == FromPool then cur else 0, 0,
                   if w == ToDevice then cur else 0, if w == FromDevice then cur else 0)
    ensures Moves(cs + [c], if w == FromPool then cur + k else 0, 0,
                  if w == ToDevice then cur + k else 0, if w == FromDevice then cur + k else 0)
  {
    FlowSnoc(cs, c, FromPool);
    FlowSnoc(cs, c, ToPool);
    FlowSnoc(cs, c, ToDevice);
    FlowSnoc(cs, c, FromDevice);
    hide Flow;
  }

  lemma WalksOne(cs: seq<Call>, w: Way, a: seq<Op>, cur: nat, needed: nat, burst: nat, c: Call, b: seq<Op>)
    requires Walks(cs, w, a, needed, burst) && |Flow(cs, w)| == cur && Aligned(c, w, cur, b, needed, burst)
    requires |b| == |a| && (w == ToDevice ==> b == a)
    ensures Walks(cs + [c], w, b, needed, burst)
  {
    hide Flow;
    var more := cs + [c];
    forall i | 0 <= i < |more|
      ensures Aligned(more[i], w, |Flow(more[..i], w)|, b, needed, burst)
    {
      assert more[..i] == if i < |cs| then cs[..i] else cs;
    }
  }

  // ------------------------------------------------------------------ passes

  /** `pmd_cyclecount_build_ops`: allocates `needed` operations burst by burst.  On
      failure the first `built` entries stay with the application. */
  method BuildOps(tb: Testbed, ops: array<Op>, needed: nat, burst: uint16, ghost all: set<Op>)
      returns (ok: bool, built: nat, ghost calls: seq<Call>)
    requires needed <= ops.Length && 1 <= burst
    requires tb.pool == all && tb.device == {}
    modifies tb`pool, tb`traffic, ops
    ensures Partition(tb, ops, 0, built, all)
    ensures built <= needed && (ok ==> built == needed)
    ensures tb.traffic == old(tb.traffic) + calls && Walked(calls, FromPool, ops[..], built, needed, burst)
    ensures old(Balanced(tb.traffic, tb.device)) ==> Balanced(tb.traffic, tb.device)
  {
    hide Balanced, Walked, Distinct, Range, Split;
    built, calls := 0, [];
    NoEntries(ops[..]);
    NoneDistinct();
    OwnsNone(tb.pool, all);
    WalkedNone(FromPool, ops[..], needed, burst);
    while built < needed
      invariant built <= needed && Partition(tb, ops, 0, built, all)
      invariant tb.traffic == old(tb.traffic) + calls && Walked(calls, FromPool, ops[..], built, needed, burst)
      invariant old(Balanced(tb.traffic, tb.device)) ==> Balanced(tb.traffic, tb.device)
      decreases needed - built
    {
      var n := Min(needed - built, burst);
      ok, calls := BuildBurst(tb, ops, built, n, needed, burst, all, calls);
      if !ok {
        return false, built, calls;
      }
      built := built + n;
    }
    ok := true;
  }

  lemma NoneDistinct()
    ensures Distinct<Op>([])
  {
  }

  lemma OwnsNone(pool: set<Op>, all: set<Op>)
    requires pool == all
    ensures Split(pool, {}, {}, all)
  {
  }

  method BuildBurst(tb: Testbed, ops: array<Op>, built: nat, n: nat, needed: nat, burst: uint16, ghost all: set<Op>,
                    ghost before: seq<Call>)
      returns (ok: bool, ghost calls: seq<Call>)
    requires built < needed <= ops.Length && n == Min(needed - built, burst) && Partition(tb, ops, 0, built, all)
    requires Walked(before, FromPool, ops[..], built, needed, burst)
    modifies tb`pool, tb`traffic, ops
    ensures Partition(tb, ops, 0, if ok then built + n else built, all)
    ensures before <= calls && tb.traffic == old(tb.traffic) + calls[|before|..]
    ensures Walked(calls, FromPool, ops[..], if ok then built + n else built, needed, burst)
    ensures old(Balanced(tb.traffic, tb.device)) ==> Balanced(tb.traffic, tb.device)
  {
    hide Balanced, Walked, Distinct, Range;
    ghost var was := ops[..];
    ghost var front, pool := ops[0..built], tb.pool;
    ok := tb.GetBulk(ops, built, n);
    ghost var call := if ok then Got(ops[built..built + n]) else GetFailed(n);
    calls := before + [call];
    assert ops[0..built] == front == was[0..built];
    WalkedOne(before, FromPool, was, built, needed, burst, call, ops[..], if ok then n else 0);
    if ok {
      GotMore(pool, tb.device, front, ops[built..built + n], all);
      assert ops[0..built + n] == front + ops[built..built + n];
    }
  }

  lemma GotMore(pool: set<Op>, device: set<Op>, a: seq<Op>, b: seq<Op>, all: set<Op>)
    requires Distinct(a) && Distinct(b) && Split(pool, device, Range(a), all) && Range(b) <= pool
    ensures Distinct(a + b) && Split(pool - Range(b), device, Range(a + b), all)
  {
    DistinctConcat(a, b);
  }

  /** Consecutive slices of a repetition-free prefix. */
  lemma SubSlice(a: seq<Op>, cur: nat, n: nat, k: nat, needed: nat)
    requires k <= n && cur + n <= needed <= |a| && Distinct(a[0..needed])
    ensures Distinct(a[cur..cur + n]) && Range(a[cur..cur + n]) <= Range(a[0..needed])
    ensures Range(a[cur..cur + n]) !! Range(a[0..cur])
    ensures Range(a[0..cur + k]) == Range(a[0..cur]) + Range(a[cur..cur + k])
  {
    var whole := a[0..needed];
    DistinctSplit(whole, cur);
    assert whole[..cur] == a[0..cur] && whole[cur..] == a[cur..needed];
    DistinctSplit(a[cur..needed], n);
    assert a[cur..needed][..n] == a[cur..cur + n];
    assert a[0..cur + k] == a[0..cur] + a[cur..cur + k];
    RangeConcat(a[0..cur], a[cur..cur + k]);
  }

  /** Where an array prefix is cut between device and application. */
  lemma CutPrefix(a: seq<Op>, n: nat, needed: nat)
    requires n <= needed <= |a| && Distinct(a[0..needed])
    ensures TwoSlices(a, n, n, needed)
    ensures Range(a[0..needed]) == Range(a[0..n]) + Range(a[n..needed])
  {
    DistinctSplit(a[0..needed], n);
    assert a[0..needed][..n] == a[0..n] && a[0..needed][n..] == a[n..needed];
  }

  /** Offering consecutive slices of an owned prefix to a device that started empty. */
  lemma Offering(pool: set<Op>, a: seq<Op>, cur: nat, n: nat, needed: nat, all: set<Op>)
    requires cur + n <= needed <= |a| && Distinct(a[0..needed])
    requires Split(pool, {}, Range(a[0..needed]), all)
    ensures Distinct(a[cur..cur + n]) && Range(a[cur..cur + n]) !! pool
    ensures Range(a[cur..cur + n]) !! Range(a[0..cur])
    ensures TwoSlices(a, cur, cur, needed) && Split(pool, Range(a[0..cur]), Range(a[cur..needed]), all)
  {
    SubSlice(a, cur, n, 0, needed);
    CutPrefix(a, cur, needed);
  }

  /** `pmd_cyclecount_bench_enq`: offers `ops[0..needed]` in order until the device
      takes nothing.  Afterwards the device holds exactly the first `n` entries. */
  method BenchEnq(tb: Testbed, ops: array<Op>, needed: nat, burst: uint16, ghost all: set<Op>)
      returns (n: nat, ghost calls: seq<Call>)
    requires Partition(tb, ops, 0, needed, all) && tb.device == {} && 1 <= burst
    modifies tb`device, tb`traffic
    ensures n <= needed && |tb.device| == n && tb.device == Range(ops[0..n])
    ensures TwoSlices(ops[..], n, n, needed)
    ensures Split(tb.pool, tb.device, Range(ops[n..needed]), all)
    ensures tb.traffic == old(tb.traffic) + calls && Walked(calls, ToDevice, ops[..], n, needed, burst)
    ensures n == needed || (calls != [] && Part(calls[|calls| - 1], ToDevice) == [])
    ensures old(Balanced(tb.traffic, tb.device)) ==> Balanced(tb.traffic, tb.device)
  {
    hide Distinct, Range, Split, TwoSlices, Balanced, Walked;
    ghost var a := ops[..];
    n, calls := 0, [];
    NoEntries(a);
    WalkedNone(ToDevice, a, needed, burst);
    while n < needed
      invariant n <= needed && |tb.device| == n && tb.device == Range(ops[0..n])
      invariant tb.traffic == old(tb.traffic) + calls && Walked(calls, ToDevice, a, n, needed, burst)
      invariant old(Balanced(tb.traffic, tb.device)) ==> Balanced(tb.traffic, tb.device)
      decreases needed - n
    {
      var k;
      k, calls := EnqBurst(tb, ops, n, needed, burst, all, calls);
      n := n + k;
      if k == 0 {
        break;
      }
    }
    Offering(tb.pool, a, n, 0, needed, all);
  }

  method EnqBurst(tb: Testbed, ops: array<Op>, n: nat, needed: nat, burst: uint16, ghost all: set<Op>,
                  ghost before: seq<Call>)
      returns (k: nat, ghost calls: seq<Call>)
    requires n < needed <= ops.Length && Distinct(ops[0..needed]) && Split(tb.pool, {}, Range(ops[0..needed]), all)
    requires tb.device == Range(ops[0..n]) && |tb.device| == n && Walked(before, ToDevice, ops[..], n, needed, burst)
    modifies tb`device, tb`traffic
    ensures n + k <= needed && tb.device == Range(ops[0..n + k]) && |tb.device| == n + k
    ensures before < calls && tb.traffic == old(tb.traffic) + calls[|before|..]
    ensures Walked(calls, ToDevice, ops[..], n + k, needed, burst)
    ensures |Part(calls[|calls| - 1], ToDevice)| == k
    ensures old(Balanced(tb.traffic, tb.device)) ==> Balanced(tb.traffic, tb.device)
  {
    hide Distinct, Range, Split, TwoSlices, Balanced, Walked;
    ghost var a := ops[..];
    var size := Min(needed - n, burst);
    Offering(tb.pool, a, n, size, needed, all);
    k := tb.EnqueueBurst(ops, n, size);
    SubSlice(a, n, size, k, needed);
    assert ops[n..n + size] == a[n..n + size] && ops[n..n + k] == a[n..n + k] && ops[0..n + k] == a[0..n + k];
    WalkedOffer(before, a, n, k, needed, burst);
    calls := before + [Enqueued(a[n..n + size], a[n..n + k])];
  }

  lemma WalkedOffer(cs: seq<Call>, a: seq<Op>, n: nat, k: nat, needed: nat, burst: nat)
    requires n < needed <= |a| && k <= Min(needed - n, burst) && Walked(cs, ToDevice, a, n, needed, burst)
    ensures var size := Min(needed - n, burst);
            Walked(cs + [Enqueued(a[n..n + size], a[n..n + k])], ToDevice, a, n + k, needed, burst)
  {
    hide Walked;
    var size := Min(needed - n, burst);
    assert a[n..n + k] == a[n..n + size][..k];
    WalkedOne(cs, ToDevice, a, n, needed, burst, Enqueued(a[n..n + size], a[n..n + k]), a, k);
  }

  lemma NoEntries(a: seq<Op>)
    ensures Range(a[0..0]) == {}
  {
  }

  /** `pmd_cyclecount_bench_deq`: drains `n` operations into the front of the same
      array, keeping the refused ones behind them. */
  method BenchDeq(tb: Testbed, ops: array<Op>, n: nat, burst: uint16, polls: nat,
                  ghost allocd: nat, ghost all: set<Op>)
      returns (cur: nat, left: nat, ghost calls: seq<Call>)
    requires n <= allocd && TwoSlices(ops[..], n, n, allocd)
    requires tb.device == Range(ops[0..n]) && |tb.device| == n
    requires Split(tb.pool, tb.device, Range(ops[n..allocd]), all)
    modifies tb`device, tb`traffic, ops
    ensures cur <= n && left <= polls && |tb.device| == n - cur
    ensures TwoSlices(ops[..], cur, n, allocd)
    ensures ops[n..allocd] == old(ops[n..allocd])
    ensures Split(tb.pool, tb.device, Range(ops[0..cur]) + Range(ops[n..allocd]), all)
    ensures cur == n || left == 0
    ensures tb.traffic == old(tb.traffic) + calls && Walked(calls, FromDevice, ops[..], cur, n, burst)
    ensures old(Balanced(tb.traffic, tb.device)) ==> Balanced(tb.traffic, tb.device)
  {
    hide Walked, Balanced, Split, TwoSlices, Range, Distinct;
    TwoSlicesBounds(ops[..], n, n, allocd);
    cur, left, calls := 0, polls, [];
    DrainStarts(tb.pool, tb.device, ops[..], n, allocd, all);
    WalkedNone(FromDevice, ops[..], n, burst);
    while cur < n && left > 0
      invariant cur <= n && |tb.device| == n - cur
      invariant left <= polls
      invariant ops[n..allocd] == old(ops[n..allocd]) && TwoSlices(ops[..], cur, n, allocd)
      invariant Split(tb.pool, tb.device, Range(ops[0..cur]) + Range(ops[n..allocd]), all)
      invariant tb.traffic == old(tb.traffic) + calls && Walked(calls, FromDevice, ops[..], cur, n, burst)
      invariant old(Balanced(tb.traffic, tb.device)) ==> Balanced(tb.traffic, tb.device)
      decreases left
    {
      left := left - 1;
      cur, calls := DeqBurst(tb, ops, cur, n, burst, allocd, all, calls);
    }
  }

  lemma DrainStarts(pool: set<Op>, device: set<Op>, a: seq<Op>, n: nat, allocd: nat, all: set<Op>)
    requires n <= allocd && TwoSlices(a, n, n, allocd) && Split(pool, device, Range(a[n..allocd]), all)
    ensures TwoSlices(a, 0, n, allocd) && Split(pool, device, Range(a[0..0]) + Range(a[n..allocd]), all)
  {
    assert Range(a[0..0]) == {};
    assert {} + Range(a[n..allocd]) == Range(a[n..allocd]);
  }

  method DeqBurst(tb: Testbed, ops: array<Op>, cur: nat, n: nat, burst: uint16,
                  ghost allocd: nat, ghost all: set<Op>, ghost before: seq<Call>)
      returns (cur': nat, ghost calls: seq<Call>)
    requires cur < n <= allocd && TwoSlices(ops[..], cur, n, allocd)
    requires |tb.device| == n - cur && Walked(before, FromDevice, ops[..], cur, n, burst)
    requires Split(tb.pool, tb.device, Range(ops[0..cur]) + Range(ops[n..allocd]), all)
    modifies tb`device, tb`traffic, ops
    ensures cur <= cur' <= n && |tb.device| == n - cur'
    ensures ops[n..allocd] == old(ops[n..allocd]) && TwoSlices(ops[..], cur', n, allocd)
    ensures Split(tb.pool, tb.device, Range(ops[0..cur']) + Range(ops[n..allocd]), all)
    ensures before <= calls && tb.traffic == old(tb.traffic) + calls[|before|..]
    ensures Walked(calls, FromDevice, ops[..], cur', n, burst)
    ensures old(Balanced(tb.traffic, tb.device)) ==> Balanced(tb.traffic, tb.device)
  {
    hide Distinct, Range, Split, TwoSlices, Balanced, Walked;
    var size := Min(n - cur, burst);
    TwoSlicesBounds(ops[..], cur, n, allocd);
    ghost var a := ops[..];
    ghost var device := tb.device;
    var k := tb.DequeueBurst(ops, cur, size);
    cur' := cur + k;
    DeqStep(tb.pool, device, a, ops[..], cur, k, n, allocd, all);
    ghost var call := Dequeued(size, ops[cur..cur + k]);
    assert ops[0..cur] == a[0..cur];
    WalkedOne(before, FromDevice, a, cur, n, burst, call, ops[..], k);
    calls := before + [call];
  }

  /** Dequeuing `k` operations into `a[cur..cur + k]` turns `a` into `b`. */
  lemma DeqStep(pool: set<Op>, device: set<Op>, a: seq<Op>, b: seq<Op>, cur: nat, k: nat, n: nat,
                allocd: nat, all: set<Op>)
    requires |a| == |b| && cur + k <= n <= allocd <= |a| && TwoSlices(a, cur, n, allocd)
    requires Split(pool, device, Range(a[0..cur]) + Range(a[n..allocd]), all)
    requires a[..cur] == b[..cur] && a[cur + k..] == b[cur + k..]
    requires Distinct(b[cur..cur + k]) && Range(b[cur..cur + k]) <= device
    ensures b[n..allocd] == a[n..allocd] && TwoSlices(b, cur + k, n, allocd)
    ensures Split(pool, device - Range(b[cur..cur + k]), Range(b[0..cur + k]) + Range(b[n..allocd]), all)
  {
    hide Distinct, Range, Split, TwoSlices;
    var held, done := Range(a[0..cur]) + Range(a[n..allocd]), Range(b[cur..cur + k]);
    SplitDequeue(pool, device, held, done, all);
    SameOutside(a, b, cur, k, n, allocd);
    GrowFront(b, cur, k, n, allocd);
    assert held + done == Range(b[0..cur + k]) + Range(b[n..allocd]);
  }

  lemma TwoSlicesBounds(a: seq<Op>, i: nat, j: nat, k: nat)
    requires TwoSlices(a, i, j, k)
    ensures i <= j <= k <= |a|
  {
  }

  lemma SameOutside(a: seq<Op>, b: seq<Op>, cur: nat, k: nat, n: nat, allocd: nat)
    requires |a| == |b| && cur + k <= n <= allocd <= |a|
    requires a[..cur] == b[..cur] && a[cur + k..] == b[cur + k..]
    ensures a[0..cur] == b[0..cur] && a[n..allocd] == b[n..allocd]
    ensures TwoSlices(a, cur, n, allocd) ==> TwoSlices(b, cur, n, allocd)
  {
    forall i | n <= i < allocd
      ensures a[i] == b[i]
    {
      assert a[i] == a[cur + k..][i - cur - k] && b[i] == b[cur + k..][i - cur - k];
    }
    forall i | 0 <= i < cur
      ensures a[i] == b[i]
    {
      assert a[i] == a[..cur][i] && b[i] == b[..cur][i];
    }
  }

  lemma GrowFront(a: seq<Op>, cur: nat, k: nat, n: nat, allocd: nat)
    requires cur + k <= n && TwoSlices(a, cur, n, allocd) && Distinct(a[cur..cur + k])
    requires Range(a[cur..cur + k]) !! Range(a[0..cur]) + Range(a[n..allocd])
    ensures TwoSlices(a, cur + k, n, allocd)
    ensures Range(a[0..cur + k]) == Range(a[0..cur]) + Range(a[cur..cur + k])
  {
    DistinctConcat(a[0..cur], a[cur..cur + k]);
    assert a[0..cur + k] == a[0..cur] + a[cur..cur + k];
  }

  /** Bursts that are given back as soon as they are built: `cur` operations in steps of at
      most `burst`. */
  ghost predicate Freed(cs: seq<Call>, cur: nat, needed: nat, burst: nat) {
    if cs == [] then cur == 0
    else
      var n := |cs| - 1;
      && n > 0 && cs[n].Put? && cs[n - 1] == Got(cs[n].ops)
      && var k := |cs[n].ops|;
         k <= cur <= needed && k == Min(needed - (cur - k), burst) && Freed(cs[..n - 1], cur - k, needed, burst)
  }

  lemma {:induction false} FreedMoves(cs: seq<Call>, cur: nat, needed: nat, burst: nat)
    requires Freed(cs, cur, needed, burst)
    ensures Moves(cs, cur, cur, 0, 0)
  {
    if cs == [] {
      MovesNone();
    } else {
      var n := |cs| - 1;
      var ops := cs[n].ops;
      var k := |ops|;
      FreedMoves(cs[..n - 1], cur - k, needed, burst);
      assert cs == cs[..n - 1] + [Got(ops), Put(ops)];
      hide Moves, Freed;
      PairMoves(ops);
      MovesConcat(cs[..n - 1], [Got(ops), Put(ops)], (cur - k, cur - k, 0, 0), (k, k, 0, 0));
    }
  }

  lemma PairMoves(ops: seq<Op>)
    ensures Moves([Got(ops), Put(ops)], |ops|, |ops|, 0, 0)
  {
    hide Moves;
    MovesOne(Got(ops));
    MovesOne(Put(ops));
    MovesConcat([Got(ops)], [Put(ops)], (|ops|, 0, 0, 0), (0, |ops|, 0, 0));
    assert [Got(ops)] + [Put(ops)] == [Got(ops), Put(ops)];
  }

  lemma FreedMore(cs: seq<Call>, cur: nat, needed: nat, burst: nat, ops: seq<Op>)
    requires Freed(cs, cur, needed, burst) && cur + |ops| <= needed && |ops| == Min(needed - cur, burst)
    ensures Freed(cs + [Got(ops), Put(ops)], cur + |ops|, needed, burst)
  {
    var more := cs + [Got(ops), Put(ops)];
    assert more[..|more| - 2] == cs;
  }

  /** `pmd_cyclecount_bench_ops`: allocate, build and free `needed` operations, burst by
      burst.  Every burst is given back before the next, so a failed allocation finds the
      mempool whole. */
  method BenchOps(tb: Testbed, ops: array<Op>, needed: nat, burst: uint16, ghost all: set<Op>)
      returns (ok: bool, ghost calls: seq<Call>, ghost built: nat)
    requires needed <= ops.Length && 1 <= burst && tb.pool == all && tb.device == {}
    modifies tb`pool, tb`traffic, ops
    ensures tb.pool == all && Freed(calls, built, needed, burst) && built <= needed
    ensures ok ==> built == needed && tb.traffic == old(tb.traffic) + calls
    ensures !ok ==> built < needed && tb.traffic == old(tb.traffic) + calls + [GetFailed(Min(needed - built, burst))]
    ensures old(Balanced(tb.traffic, tb.device)) ==> Balanced(tb.traffic, tb.device)
  {
    hide Freed, Balanced;
    var cur := 0;
    calls, built := [], 0;
    FreedNone(needed, burst);
    while cur < needed
      invariant 0 <= cur && tb.pool == all && built == Min(cur, needed)
      invariant Freed(calls, built, needed, burst) && tb.traffic == old(tb.traffic) + calls
      invariant old(Balanced(tb.traffic, tb.device)) ==> Balanced(tb.traffic, tb.device)
      decreases needed - cur
    {
      var n := Min(needed - cur, burst);
      ok := tb.GetBulk(ops, cur, n);
      if !ok {
        return;
      }
      ghost var got := ops[cur..cur + n];
      tb.PutBulk(ops, cur, n);
      FreedMore(calls, built, needed, burst, got);
      calls := calls + [Got(got), Put(got)];
      cur, built := cur + burst, built + n;
    }
    ok := true;
  }

  lemma FreedNone(needed: nat, burst: nat)
    ensures Freed([], 0, needed, burst)
  {
  }

  /** The alloc-build-free pass over all operations, a ring of descriptors at a time: `built`
      operations are taken from the mempool and given back, all of them on completion. */
  method BuildAndFree(tb: Testbed, ops: array<Op>, total: nat, burst: uint16, polls: nat, ghost all: set<Op>)
      returns (outcome: Outcome, ghost calls: seq<Call>, ghost built: nat)
    requires 1 <= burst && tb.pool == all && tb.device == {}
    modifies tb`pool, tb`traffic, ops
    ensures tb.pool == all
    ensures ops.Length > 0 && total <= polls ==> outcome != Polling
    ensures tb.traffic == old(tb.traffic) + calls && Moves(calls, built, built, 0, 0)
    ensures outcome == Completed ==> built == total
    ensures old(Balanced(tb.traffic, tb.device)) ==> Balanced(tb.traffic, tb.device)
  {
    hide Freed, Balanced, Moves;
    var cur, left := 0, polls;
    calls, built := [], 0;
    MovesNone();
    while cur < total
      invariant 0 <= cur && tb.pool == all && 0 <= left <= polls && built == Min(cur, total)
      invariant ops.Length > 0 ==> polls - left <= cur
      invariant tb.traffic == old(tb.traffic) + calls && Moves(calls, built, built, 0, 0)
      invariant old(Balanced(tb.traffic, tb.device)) ==> Balanced(tb.traffic, tb.device)
      decreases left
    {
      if left == 0 {
        return Polling, calls, built;
      }
      left := left - 1;
      var n := Min(ops.Length, total - cur);
      var ok, pass, k := BenchOps(tb, ops, n, burst, all);
      FreedMoves(pass, k, n, burst);
      MovesConcat(calls, pass, (built, built, 0, 0), (k, k, 0, 0));
      calls, built := calls + pass, built + k;
      if !ok {
        ghost var failed := GetFailed(Min(n - k, burst));
        MovesOne(failed);
        MovesConcat(calls, [failed], (built, built, 0, 0), (0, 0, 0, 0));
        calls := calls + [failed];
        return AllocFailed, calls, built;
      }
      cur := cur + ops.Length;
    }
    outcome := Completed;
  }

  /** Who owns what: the device, the mempool, and the application, which holds two slices of
      the array, `ops[0..held.front]` and `ops[held.from..held.to]`. */
  datatype Held = Held(front: nat, from: nat, to: nat)

  ghost predicate Owned(tb: Testbed, ops: array<Op>, held: Held, all: set<Op>)
    reads tb, ops
  {
    && TwoSlices(ops[..], held.front, held.from, held.to)
    && Split(tb.pool, tb.device, Range(ops[0..held.front]) + Range(ops[held.from..held.to]), all)
  }

  lemma OwnsNothing(tb: Testbed, ops: array<Op>, all: set<Op>)
    requires tb.pool == all && tb.device == {}
    ensures Owned(tb, ops, Held(0, 0, 0), all)
  {
  }

  lemma OwnsPrefix(tb: Testbed, ops: array<Op>, n: nat, all: set<Op>)
    requires Partition(tb, ops, 0, n, all)
    ensures Owned(tb, ops, Held(n, n, n), all)
  {
    assert Range(ops[0..n]) + Range(ops[n..n]) == Range(ops[0..n]);
  }

  /** The device took and handed back the operations counted in `curOp`, and those of an
      unfinished iteration: it took the first `held.from` entries, `held.front` came back. */
  ghost predicate Counted(cs: seq<Call>, outcome: Outcome, curOp: nat, held: Held) {
    && |Flow(cs, ToDevice)| == curOp + (if outcome == Polling then held.from else 0)
    && |Flow(cs, FromDevice)| == curOp + (if outcome == Polling then held.front else 0)
  }

  lemma CountedNone(outcome: Outcome)
    ensures Counted([], outcome, 0, Held(0, 0, 0))
  {
  }

  lemma CountedMore(a: seq<Call>, b: seq<Call>, curOp: nat, outcome: Outcome, n: nat, held: Held)
    requires Counted(a, Completed, curOp, Held(0, 0, 0)) && Counted(b, outcome, n, held)
    ensures Counted(a + b, outcome, curOp + n, held)
  {
    FlowConcat(a, b, ToDevice);
    FlowConcat(a, b, FromDevice);
    hide Flow;
  }

  lemma CountedMoves(cs: seq<Call>, got: nat, put: nat, sent: nat, back: nat)
    requires Moves(cs, got, put, sent, back)
    ensures sent == back ==> forall o: Outcome :: Counted(cs, o, sent, Held(0, 0, 0))
  {
    hide Flow;
  }

  /** `pmd_cyclecount_bench_burst_sz`: the alloc-build-free pass, then the cycle-count
      loop, in which every iteration gives back exactly what it allocated, however little
      of it the device accepted.  On every exit each operation is in exactly one place, and the
      device has taken and handed back what is counted. */
  method RunBurstSize(tb: Testbed, ops: array<Op>, total: nat, burst: uint16, polls: nat,
                      ghost all: set<Op>)
      returns (outcome: Outcome, curOp: nat, held: Held, ghost calls: seq<Call>)
    requires 1 <= burst && tb.pool == all && tb.device == {}
    modifies tb, ops
    ensures Owned(tb, ops, held, all)
    ensures outcome == Completed ==> curOp == total && tb.pool == all && tb.device == {} && held == Held(0, 0, 0)
    ensures tb.traffic == old(tb.traffic) + calls && Counted(calls, outcome, curOp, held)
    ensures old(Balanced(tb.traffic, tb.device)) ==> Balanced(tb.traffic, tb.device)
  {
    hide Owned, Moves, Counted, Balanced;
    ghost var built;
    curOp, held := 0, Held(0, 0, 0);
    outcome, calls, built := BuildAndFree(tb, ops, total, burst, polls, all);
    OwnsNothing(tb, ops, all);
    CountedMoves(calls, built, built, 0, 0);
    if outcome == Completed {
      ghost var more;
      outcome, curOp, held, more := CycleLoop(tb, ops, total, burst, polls, all);
      CountedMore(calls, more, 0, outcome, curOp, held);
      calls := calls + more;
    }
  }

  /** The cycle-count loop. */
  method CycleLoop(tb: Testbed, ops: array<Op>, total: nat, burst: uint16, polls: nat, ghost all: set<Op>)
      returns (outcome: Outcome, curOp: nat, held: Held, ghost calls: seq<Call>)
    requires 1 <= burst && tb.pool == all && tb.device == {}
    modifies tb, ops
    ensures Owned(tb, ops, held, all)
    ensures outcome == Completed ==> curOp == total && tb.pool == all && tb.device == {} && held == Held(0, 0, 0)
    ensures tb.traffic == old(tb.traffic) + calls && Counted(calls, outcome, curOp, held)
    ensures old(Balanced(tb.traffic, tb.device)) ==> Balanced(tb.traffic, tb.device)
  {
    hide Owned, Split, TwoSlices, Distinct, Range, Counted, Balanced, Turned;
    var left := polls;
    curOp, outcome, held, calls := 0, Completed, Held(0, 0, 0), [];
    OwnsNothing(tb, ops, all);
    CountedNone(Completed);
    while curOp < total && outcome == Completed
      invariant curOp <= total && Owned(tb, ops, held, all)
      invariant outcome == Completed ==> tb.pool == all && tb.device == {} && held == Held(0, 0, 0)
      invariant tb.traffic == old(tb.traffic) + calls && Counted(calls, outcome, curOp, held)
      invariant old(Balanced(tb.traffic, tb.device)) ==> Balanced(tb.traffic, tb.device)
      decreases outcome == Completed, left
    {
      if left == 0 {
        CountedNone(Polling);
        CountedMore(calls, [], curOp, Polling, 0, held);
        assert calls + [] == calls;
        return Polling, curOp, held, calls;
      }
      left := left - 1;
      var n;
      ghost var parts;
      ghost var allocd := Min(ops.Length, total - curOp);
      outcome, n, held, left, parts := Cycle(tb, ops, Min(ops.Length, total - curOp), burst, left, all);
      CountedTurn(parts, outcome, allocd, n, held, burst);
      CountedMore(calls, parts.Calls(), curOp, outcome, n, held);
      calls := calls + parts.Calls();
      curOp := curOp + n;
    }
  }

  /** The calls of one iteration: allocation, enqueue, dequeue, and the operations given back;
      `a` is the array as allocated, `b` as it is in the end. */
  datatype Parts = Parts(build: seq<Call>, enq: seq<Call>, deq: seq<Call>, put: seq<Call>, a: seq<Op>, b: seq<Op>) {
    function Calls(): seq<Call> {
      build + enq + deq + put
    }
  }

  /** What an iteration did: it allocated `allocd` operations, offered them in order until the
      device took no more, drained the `n` operations taken to the front of the same array, and
      gave everything back that it had allocated. */
  ghost predicate Turned(p: Parts, outcome: Outcome, allocd: nat, n: nat, held: Held, burst: nat) {
    match outcome
    case AllocFailed =>
      n == 0 && p.enq == p.deq == p.put == [] && Walked(p.build, FromPool, p.a, held.front, allocd, burst)
    case Polling =>
      && n == 0 && p.put == [] && held.to == allocd && Walked(p.build, FromPool, p.a, allocd, allocd, burst)
      && Walked(p.enq, ToDevice, p.a, held.from, allocd, burst)
      && Walked(p.deq, FromDevice, p.b, held.front, held.from, burst)
    case Completed =>
      && n <= allocd <= |p.b| && Walked(p.build, FromPool, p.a, allocd, allocd, burst)
      && Walked(p.enq, ToDevice, p.a, n, allocd, burst) && Walked(p.deq, FromDevice, p.b, n, n, burst)
      && p.put == [Put(p.b[0..allocd])]
  }

  lemma CountedTurn(p: Parts, outcome: Outcome, allocd: nat, n: nat, held: Held, burst: nat)
    requires Turned(p, outcome, allocd, n, held, burst)
    ensures Counted(p.Calls(), outcome, n, held)
  {
    hide Flow, Walked;
    SplitFlow(p, ToDevice);
    SplitFlow(p, FromDevice);
    MovesNone();
    match outcome
    case AllocFailed => WalkedMoves(p.build, FromPool, p.a, held.front, allocd, burst);
    case Polling =>
      WalkedMoves(p.build, FromPool, p.a, allocd, allocd, burst);
      WalkedMoves(p.enq, ToDevice, p.a, held.from, allocd, burst);
      WalkedMoves(p.deq, FromDevice, p.b, held.front, held.from, burst);
    case Completed =>
      WalkedMoves(p.build, FromPool, p.a, allocd, allocd, burst);
      WalkedMoves(p.enq, ToDevice, p.a, n, allocd, burst);
      WalkedMoves(p.deq, FromDevice, p.b, n, n, burst);
      MovesOne(p.put[0]);
  }

  lemma WalkedMoves(cs: seq<Call>, w: Way, a: seq<Op>, cur: nat, needed: nat, burst: nat)
    requires Walked(cs, w, a, cur, needed, burst) && w != ToPool
    ensures |Flow(cs, ToDevice)| == (if w == ToDevice then cur else 0)
    ensures |Flow(cs, FromDevice)| == (if w == FromDevice then cur else 0)
  {
  }

  lemma SplitFlow(p: Parts, w: Way)
    ensures Flow(p.Calls(), w) == Flow(p.build, w) + Flow(p.enq, w) + Flow(p.deq, w) + Flow(p.put, w)
  {
    hide Flow;
    FlowConcat(p.build, p.enq, w);
    FlowConcat(p.build + p.enq, p.deq, w);
    FlowConcat(p.build + p.enq + p.deq, p.put, w);
  }

  /** One iteration: allocate `allocd` operations, offer them, drain what was taken, give
      everything back. */
  method Cycle(tb: Testbed, ops: array<Op>, allocd: nat, burst: uint16, polls: nat, ghost all: set<Op>)
      returns (outcome: Outcome, n: nat, held: Held, left: nat, ghost parts: Parts)
    requires 1 <= burst && allocd <= ops.Length && tb.pool == all && tb.device == {}
    modifies tb, ops
    ensures Owned(tb, ops, held, all) && n <= allocd && left <= polls
    ensures outcome == Completed ==> tb.pool == all && tb.device == {} && held == Held(0, 0, 0)
    ensures tb.traffic == old(tb.traffic) + parts.Calls() && Turned(parts, outcome, allocd, n, held, burst)
    ensures old(Balanced(tb.traffic, tb.device)) ==> Balanced(tb.traffic, tb.device)
  {
    hide Split, TwoSlices, Distinct, Range, Balanced, Walked;
    left, n, parts := polls, 0, Parts([], [], [], [], ops[..], ops[..]);
    ghost var build, enq, deq;
    var ok, built;
    ok, built, build := BuildOps(tb, ops, allocd, burst, all);
    parts := Parts(build, [], [], [], ops[..], ops[..]);
    if !ok {
      OwnsPrefix(tb, ops, built, all);
      return AllocFailed, 0, Held(built, built, built), left, parts;
    }
    n, enq := BenchEnq(tb, ops, allocd, burst, all);
    parts := parts.(enq := enq);
    var cur;
    cur, left, deq := BenchDeq(tb, ops, n, burst, left, allocd, all);
    parts := parts.(deq := deq, b := ops[..]);
    if cur < n {
      return Polling, 0, Held(cur, n, allocd), left, parts;
    }
    GiveBack(tb, ops, n, allocd, all);
    parts := parts.(put := [Put(ops[0..allocd])]);
    OwnsNothing(tb, ops, all);
    return Completed, n, Held(0, 0, 0), left, parts;
  }

  method GiveBack(tb: Testbed, ops: array<Op>, ghost n: nat, allocd: nat, ghost all: set<Op>)
    requires TwoSlices(ops[..], n, n, allocd) && |tb.device| == 0
    requires Split(tb.pool, tb.device, Range(ops[0..n]) + Range(ops[n..allocd]), all)
    modifies tb`pool, tb`traffic
    ensures tb.pool == all && tb.device == {} && tb.traffic == old(tb.traffic) + [Put(ops[0..allocd])]
    ensures old(Balanced(tb.traffic, tb.device)) ==> Balanced(tb.traffic, tb.device)
  {
    hide Distinct, Range, Split, Balanced;
    PasteSlices(ops[..], n, allocd);
    ghost var held := Range(ops[0..allocd]);
    assert held == {} + held;
    SplitPut(tb.pool, tb.device, {}, held, all);
    tb.PutBulk(ops, 0, allocd);
    SplitWhole(tb.pool, tb.device, all);
  }
}
