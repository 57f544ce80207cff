/** The two library objects the crypto benchmarks talk to: a mempool of crypto
    operations and one queue pair of a crypto device.

    Neither library's source is part of this model.  What the benchmarks rely on
    is stated as contracts: a bulk get is all or nothing and may fail at any time,
    an enqueue accepts an arbitrary prefix of the burst, and a dequeue returns an
    arbitrary selection, in arbitrary order, of the operations the device holds. */
module CryptoTestbed {
  import opened Basics

  type Op = nat

  /** How a benchmark loop ends: all operations done, an allocation failed, or the device
      is still being polled. */
  datatype Outcome = Completed | AllocFailed | Polling

  lemma RangeConcat(a: seq<Op>, b: seq<Op>)
    ensures Range(a + b) == Range(a) + Range(b)
  {
  }

  /** A slice without repetitions refers to as many operations as it has entries. */
  lemma {:induction false} DistinctCardinality(s: seq<Op>)
    requires Distinct(s)
    ensures |Range(s)| == |s|
  {
    if s == [] {
      assert Range(s) == {};
    } else {
      var rest := s[..|s| - 1];
      DistinctCardinality(rest);
      assert s == rest + [s[|s| - 1]];
      assert Range(s) == Range(rest) + {s[|s| - 1]};
      assert s[|s| - 1] !in rest;
    }
  }

  /** Cutting a repetition-free slice gives two disjoint repetition-free slices. */
  lemma DistinctSplit(s: seq<Op>, k: nat)
    requires Distinct(s) && k <= |s|
    ensures Distinct(s[..k]) && Distinct(s[k..])
    ensures Range(s[..k]) !! Range(s[k..])
    ensures Range(s) == Range(s[..k]) + Range(s[k..])
  {
    assert s == s[..k] + s[k..];
    RangeConcat(s[..k], s[k..]);
  }

  /** A prefix of a repetition-free slice refers to that many of its operations. */
  lemma PrefixRange(a: seq<Op>, at: nat, n: nat, k: nat)
    requires k <= n && at + n <= |a| && Distinct(a[at..at + n])
    ensures Range(a[at..at + k]) <= Range(a[at..at + n]) && |Range(a[at..at + k])| == k && Distinct(a[at..at + k])
  {
    var s := a[at..at + n];
    assert a[at..at + k] == s[..k];
    DistinctCardinality(s[..k]);
  }

  /** Pasting two disjoint repetition-free slices gives a repetition-free slice. */
  lemma DistinctConcat(a: seq<Op>, b: seq<Op>)
    requires Distinct(a) && Distinct(b) && Range(a) !! Range(b)
    ensures Distinct(a + b)
    ensures Range(a + b) == Range(a) + Range(b)
  {
    forall i, j | 0 <= i < j < |a + b|
      ensures (a + b)[i] != (a + b)[j]
    {
      if i < |a| <= j {
        assert (a + b)[i] in Range(a) && (a + b)[j] in Range(b);
      }
    }
    RangeConcat(a, b);
  }

  /** An arbitrary selection, in arbitrary order, of `n` members of `s`. */
  method Select(s: set<Op>, n: nat) returns (r: seq<Op>)
    requires n <= |s|
    ensures |r| == n && Distinct(r) && Range(r) <= s
    ensures |s - Range(r)| == |s| - n
  {
    r := [];
    ghost var left := s;
    while |r| < n
      invariant |r| <= n && Distinct(r) && Range(r) <= s
      invariant left == s - Range(r) && |left| == |s| - |r|
    {
      assert left != {};
      var x :| x in s && x !in r;
      assert Range(r + [x]) == Range(r) + {x} by { RangeConcat(r, [x]); }
      r := r + [x];
      left := left - {x};
    }
  }

  /** Writes `s` into `a` from index `at` on. */
  method Store(a: array<Op>, at: nat, s: seq<Op>)
    requires at + |s| <= a.Length
    modifies a
    ensures a[at..at + |s|] == s
    ensures a[..at] == old(a[..at]) && a[at + |s|..] == old(a[at + |s|..])
  {
    forall i | 0 <= i < |s| {
      a[at + i] := s[i];
    }
  }

  // ---------------------------------------------------------------- traffic

  /** One call of a benchmark to a library, with what it answered, or a reading of the clock. */
  datatype Call =
    | Got(ops: seq<Op>)
    | GetFailed(wanted: nat)
    | Put(ops: seq<Op>)
    | Enqueued(offered: seq<Op>, taken: seq<Op>)
    | Dequeued(room: nat, ops: seq<Op>)
    | Clock(time: int)

  /** The four ways operations move, seen from the application. */
  datatype Way = FromPool | ToPool | ToDevice | FromDevice

  function Part(c: Call, w: Way): seq<Op> {
    match c
    case Got(ops) => if w == FromPool then ops else []
    case GetFailed(_) => []
    case Put(ops) => if w == ToPool then ops else []
    case Enqueued(_, taken) => if w == ToDevice then taken else []
    case Dequeued(_, ops) => if w == FromDevice then ops else []
    case Clock(_) => []
  }

  /** The operations that moved one way in a series of calls, in order. */
  function Flow(cs: seq<Call>, w: Way): seq<Op> {
    if cs == [] then [] else Flow(cs[..|cs| - 1], w) + Part(cs[|cs| - 1], w)
  }

  lemma {:induction false} FlowConcat(a: seq<Call>, b: seq<Call>, w: Way)
    ensures Flow(a + b, w) == Flow(a, w) + Flow(b, w)
    decreases |b|
  {
    if b == [] {
      assert a + b == a;
    } else {
      hide Flow, Part;
      var n := |b| - 1;
      FlowConcat(a, b[..n], w);
      LastCall(a, b);
      FlowSnoc(a + b[..n], b[n], w);
      FlowSnoc(b[..n], b[n], w);
      Assoc(Flow(a, w), Flow(b[..n], w), Part(b[n], w));
    }
  }

  lemma LastCall(a: seq<Call>, b: seq<Call>)
    requires b != []
    ensures var n := |b| - 1; a + b[..n] + [b[n]] == a + b && b[..n] + [b[n]] == b
  {
  }

  lemma Assoc(x: seq<Op>, y: seq<Op>, z: seq<Op>)
    ensures x + y + z == x + (y + z)
  {
  }

  lemma FlowOne(c: Call, w: Way)
    ensures Flow([c], w) == Part(c, w) && Flow([], w) == []
  {
    assert [c][..0] == [];
  }

  lemma FlowSnoc(cs: seq<Call>, c: Call, w: Way)
    ensures Flow(cs + [c], w) == Flow(cs, w) + Part(c, w)
  {
    assert (cs + [c])[..|cs|] == cs;
  }

  /** A burst of operations joins the device, or leaves it. */
  lemma {:induction false} RangeMultiset(s: seq<Op>)
    requires Distinct(s)
    ensures multiset(Range(s)) == multiset(s)
  {
    if s != [] {
      var rest, x := s[..|s| - 1], s[|s| - 1];
      assert s == rest + [x] && x !in rest;
      RangeMultiset(rest);
      assert Range(s) == Range(rest) + {x};
    } else {
      assert Range(s) == {};
    }
  }

  /** The device holds what it was given and has not handed back, each as often. */
  ghost predicate Balanced(traffic: seq<Call>, device: set<Op>) {
    multiset(Flow(traffic, ToDevice)) == multiset(Flow(traffic, FromDevice)) + multiset(device)
  }

  lemma BalancedEnqueue(traffic: seq<Call>, device: set<Op>, offered: seq<Op>, taken: seq<Op>)
    requires Distinct(taken) && Range(taken) !! device
    ensures Balanced(traffic, device) ==> Balanced(traffic + [Enqueued(offered, taken)], device + Range(taken))
  {
    FlowSnoc(traffic, Enqueued(offered, taken), ToDevice);
    FlowSnoc(traffic, Enqueued(offered, taken), FromDevice);
    RangeMultiset(taken);
    assert multiset(device + Range(taken)) == multiset(device) + multiset(Range(taken));
  }

  lemma BalancedDequeue(traffic: seq<Call>, device: set<Op>, room: nat, ops: seq<Op>)
    requires Distinct(ops) && Range(ops) <= device
    ensures Balanced(traffic, device) ==> Balanced(traffic + [Dequeued(room, ops)], device - Range(ops))
  {
    FlowSnoc(traffic, Dequeued(room, ops), ToDevice);
    FlowSnoc(traffic, Dequeued(room, ops), FromDevice);
    RangeMultiset(ops);
    assert multiset(device) == multiset(device - Range(ops)) + multiset(Range(ops));
  }

  lemma BalancedOther(traffic: seq<Call>, device: set<Op>, c: Call)
    requires !c.Enqueued? && !c.Dequeued?
    ensures Balanced(traffic, device) ==> Balanced(traffic + [c], device)
  {
    FlowSnoc(traffic, c, ToDevice);
    FlowSnoc(traffic, c, FromDevice);
  }

  /** What a run has to do with the device: every burst offered is as large as the burst size
      and what is still to be taken allow, and every dequeue leaves room for a burst. */
  ghost predicate Traffic(cs: seq<Call>, total: nat, burst: nat) {
    forall i :: 0 <= i < |cs| ==> Fitting(cs[i], |Flow(cs[..i], ToDevice)|, total, burst)
  }

  predicate Fitting(c: Call, taken: nat, total: nat, burst: nat) {
    match c
    case Enqueued(offered, _) => taken <= total && |offered| == Min(burst, total - taken)
    case Dequeued(room, _) => room == burst
    case _ => true
  }

  /** What has passed between application and device so far. */
  ghost predicate Carried(cs: seq<Call>, total: nat, burst: nat, sent: nat, back: nat) {
    Traffic(cs, total, burst) && |Flow(cs, ToDevice)| == sent && |Flow(cs, FromDevice)| == back
  }

  lemma CarriedNone(total: nat, burst: nat)
    ensures Carried([], total, burst, 0, 0)
  {
  }

  lemma CarriedOne(cs: seq<Call>, total: nat, burst: nat, sent: nat, back: nat, c: Call)
    requires Carried(cs, total, burst, sent, back) && Fitting(c, sent, total, burst)
    ensures Carried(cs + [c], total, burst, sent + |Part(c, ToDevice)|, back + |Part(c, FromDevice)|)
  {
    FlowSnoc(cs, c, ToDevice);
    FlowSnoc(cs, c, FromDevice);
    hide Flow;
    var more := cs + [c];
    forall i | 0 <= i < |more|
      ensures Fitting(more[i], |Flow(more[..i], ToDevice)|, total, burst)
    {
      assert more[..i] == if i < |cs| then cs[..i] else cs;
    }
  }

  class Testbed {
    /** Operations the mempool can hand out. */
    var pool: set<Op>
    /** Operations the device holds, accepted but not handed back. */
    var device: set<Op>
    /** Every call so far. */
    ghost var traffic: seq<Call>

    constructor (ops: set<Op>)
      ensures pool == ops && device == {} && traffic == [] && Balanced(traffic, device)
    {
      pool := ops;
      device := {};
      traffic := [];
    }

    /** `rte_mempool_get_bulk`: fills `ops[at..at + n]` or takes nothing. */
    method GetBulk(ops: array<Op>, at: nat, n: nat) returns (ok: bool)
      requires at + n <= ops.Length
      modifies this`pool, this`traffic, ops
      ensures traffic == old(traffic) + [if ok then Got(ops[at..at + n]) else GetFailed(n)]
      ensures old(Balanced(traffic, device)) ==> Balanced(traffic, device)
      ensures !ok ==> pool == old(pool) && ops[..] == old(ops[..])
      ensures ok ==> Distinct(ops[at..at + n])
      ensures ok ==> Range(ops[at..at + n]) <= old(pool) && pool == old(pool) - Range(ops[at..at + n])
      ensures ops[..at] == old(ops[..at]) && ops[at + n..] == old(ops[at + n..])
    {
      hide Balanced;
      ok := *;
      if |pool| < n {
        ok := false;
      }
      if ok {
        var r := Select(pool, n);
        Store(ops, at, r);
        pool := pool - set x | x in r;
      }
      ghost var call := if ok then Got(ops[at..at + n]) else GetFailed(n);
      BalancedOther(traffic, device, call);
      traffic := traffic + [call];
    }

    /** `rte_mempool_put_bulk`: the caller must own what it gives back, so nothing
        is ever returned twice or while the device still holds it. */
    method PutBulk(ops: array<Op>, at: nat, n: nat)
      requires at + n <= ops.Length
      requires Distinct(ops[at..at + n])
      requires Range(ops[at..at + n]) !! pool && Range(ops[at..at + n]) !! device
      modifies this`pool, this`traffic
      ensures pool == old(pool) + Range(ops[at..at + n])
      ensures traffic == old(traffic) + [Put(ops[at..at + n])]
      ensures old(Balanced(traffic, device)) ==> Balanced(traffic, device)
    {
      hide Balanced;
      var r := ops[at..at + n];
      pool := pool + set x | x in r;
      BalancedOther(traffic, device, Put(r));
      traffic := traffic + [Put(r)];
    }

    /** `rte_cryptodev_enqueue_burst`: accepts an arbitrary prefix of a burst of
        distinct operations that belong to the caller. */
    method EnqueueBurst(ops: array<Op>, at: nat, n: nat) returns (k: nat)
      requires at + n <= ops.Length
      requires Distinct(ops[at..at + n])
      requires Range(ops[at..at + n]) !! pool && Range(ops[at..at + n]) !! device
      modifies this`device, this`traffic
      ensures k <= n
      ensures device == old(device) + Range(ops[at..at + k])
      ensures |device| == |old(device)| + k
      ensures traffic == old(traffic) + [Enqueued(ops[at..at + n], ops[at..at + k])]
      ensures old(Balanced(traffic, device)) ==> Balanced(traffic, device)
    {
      hide Balanced;
      k :| 0 <= k <= n;
      var taken := ops[at..at + k];
      PrefixRange(ops[..], at, n, k);
      BalancedEnqueue(traffic, device, ops[at..at + n], taken);
      device := device + set x | x in taken;
      traffic := traffic + [Enqueued(ops[at..at + n], taken)];
    }

    /** `rte_cryptodev_dequeue_burst`: writes at most `n` held operations. */
    method DequeueBurst(ops: array<Op>, at: nat, n: nat) returns (k: nat)
      requires at + n <= ops.Length
      modifies this`device, this`traffic, ops
      ensures k <= n && traffic == old(traffic) + [Dequeued(n, ops[at..at + k])]
      ensures old(Balanced(traffic, device)) ==> Balanced(traffic, device)
      ensures Distinct(ops[at..at + k])
      ensures Range(ops[at..at + k]) <= old(device)
      ensures device == old(device) - Range(ops[at..at + k])
      ensures |device| == |old(device)| - k
      ensures ops[..at] == old(ops[..at]) && ops[at + k..] == old(ops[at + k..])
    {
      hide Balanced;
      k :| 0 <= k <= n && k <= |device|;
      var r := Select(device, k);
      Store(ops, at, r);
      BalancedDequeue(traffic, device, n, r);
      device := device - set x | x in r;
      traffic := traffic + [Dequeued(n, r)];
    }
  }

  /** Ownership: mempool, device and the application split `all` without overlap. */
  ghost predicate Split(pool: set<Op>, device: set<Op>, held: set<Op>, all: set<Op>) {
    && pool !! device
    && held !! pool
    && held !! device
    && pool + device + held == all
  }

  /** Ownership with the application's operations in `ops[at..at + n]`, each once. */
  ghost predicate Partition(tb: Testbed, ops: array<Op>, at: nat, n: nat, all: set<Op>)
    reads tb, ops
  {
    && at + n <= ops.Length
    && Distinct(ops[at..at + n])
    && Split(tb.pool, tb.device, Range(ops[at..at + n]), all)
  }

  /** `got` leaves the mempool for the application. */
  lemma SplitGet(pool: set<Op>, device: set<Op>, got: set<Op>, all: set<Op>)
    requires Split(pool, device, {}, all) && got <= pool
    ensures Split(pool - got, device, got, all)
  {
  }

  /** `done` leaves the device for the application. */
  lemma SplitDequeue(pool: set<Op>, device: set<Op>, held: set<Op>, done: set<Op>, all: set<Op>)
    requires Split(pool, device, held, all) && done <= device
    ensures Split(pool, device - done, held + done, all)
    ensures done !! pool && done !! held && done !! device - done
  {
  }

  /** `back` leaves the application for the mempool. */
  lemma SplitPut(pool: set<Op>, device: set<Op>, held: set<Op>, back: set<Op>, all: set<Op>)
    requires Split(pool, device, held + back, all) && held !! back
    ensures Split(pool + back, device, held, all)
    ensures back !! pool && back !! device
  {
  }

  /** Nothing in the device or with the application: the mempool is whole. */
  lemma SplitWhole(pool: set<Op>, device: set<Op>, all: set<Op>)
    requires Split(pool, device, {}, all) && |device| == 0
    ensures pool == all && device == {}
  {
  }

  /** The device accepts the first `k` operations of a burst the application owns. */
  lemma SplitOffer(pool: set<Op>, device: set<Op>, ops: seq<Op>, n: nat, k: nat, all: set<Op>)
    requires k <= n <= |ops| && Distinct(ops[0..n]) && Split(pool, device, Range(ops[0..n]), all)
    ensures Distinct(ops[0..k]) && Distinct(ops[k..k + (n - k)])
    ensures Range(ops[0..k]) !! device
    ensures Split(pool, device + Range(ops[0..k]), Range(ops[k..k + (n - k)]), all)
  {
    var burst := ops[0..n];
    assert burst[..k] == ops[0..k] && burst[k..] == ops[k..k + (n - k)];
    DistinctSplit(burst, k);
  }

  /** Enqueues a burst; the device keeps a prefix and the rest stays with the app. */
  method Offer(tb: Testbed, ops: array<Op>, n: nat, ghost all: set<Op>) returns (enqd: nat)
    requires Partition(tb, ops, 0, n, all)
    modifies tb`device, tb`traffic
    ensures enqd <= n && |tb.device| == |old(tb.device)| + enqd
    ensures tb.traffic == old(tb.traffic) + [Enqueued(ops[0..n], ops[0..enqd])]
    ensures old(Balanced(tb.traffic, tb.device)) ==> Balanced(tb.traffic, tb.device)
    ensures Distinct(ops[0..enqd]) && Range(ops[0..enqd]) !! old(tb.device)
    ensures tb.device == old(tb.device) + Range(ops[0..enqd])
    ensures Partition(tb, ops, enqd, n - enqd, all)
  {
    hide Distinct, Range, Balanced;
    enqd := tb.EnqueueBurst(ops, 0, n);
    SplitOffer(tb.pool, old(tb.device), ops[..], n, enqd, all);
  }

  /** A burst of length 0, which makes a software device go on. */
  method Flush(tb: Testbed, ops: array<Op>)
    modifies tb`device, tb`traffic
    ensures tb.device == old(tb.device) && tb.traffic == old(tb.traffic) + [Enqueued([], [])]
    ensures old(Balanced(tb.traffic, tb.device)) ==> Balanced(tb.traffic, tb.device)
  {
    hide Balanced;
    var _ := tb.EnqueueBurst(ops, 0, 0);
    assert ops[0..0] == [];
  }
}
