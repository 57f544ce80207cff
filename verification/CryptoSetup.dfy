/** Setting up a crypto benchmark (app/test-crypto-perf/main.c): which queue pair of which
    device each worker lcore gets, and the packet sizes of an IMIX distribution. */
module CryptoSetup {
  import opened Basics
  import opened Arith

  // ------------------------------------------------------------- queue pairs

  /** `nb_qps`: workers per device, rounded up. */
  function QueuePairs(workers: nat, devices: nat): nat
    requires devices > 0
  {
    if workers % devices != 0 then workers / devices + 1 else workers / devices
  }

  /** It is the least number of queue pairs per device that serves every worker. */
  lemma QueuePairsLeast(workers: nat, devices: nat, n: nat)
    requires devices > 0
    ensures workers <= n * devices <==> QueuePairs(workers, devices) <= n
  {
    var q, r := workers / devices, workers % devices;
    assert workers == devices * q + r;
    if n <= q {
      MulMonotone(n, q, devices);
      if n < q {
        MulMonotone(n + 1, q, devices);
        assert (n + 1) * devices == n * devices + devices;
      }
    } else {
      MulMonotone(q + 1, n, devices);
      assert (q + 1) * devices == q * devices + devices;
    }
  }

  /** A worker's place. */
  datatype Place = Place(device: byte, queue: byte)

  /** The device whose queue pairs the k-th worker falls among. */
  function Row(k: nat, nbQps: nat): (q: nat)
    requires nbQps > 0
    ensures q * nbQps <= k < q * nbQps + nbQps
  {
    k / nbQps
  }

  lemma RowUnique(k: nat, nbQps: nat, q: nat)
    requires nbQps > 0 && q * nbQps <= k < q * nbQps + nbQps
    ensures Row(k, nbQps) == q
  {
    hide Row;
    var p := Row(k, nbQps);
    if p < q {
      MulMonotone(p + 1, q, nbQps);
    } else if q < p {
      MulMonotone(q + 1, p, nbQps);
    }
  }

  lemma RowInRange(k: nat, nbQps: nat, devices: nat)
    requires nbQps > 0 && k < devices * nbQps
    ensures Row(k, nbQps) < devices
  {
    hide Row;
    if Row(k, nbQps) >= devices {
      MulMonotone(devices, Row(k, nbQps), nbQps);
    }
  }

  /** The place of the k-th worker: device by device, queue pair by queue pair. */
  function PlaceOf(enabled: seq<byte>, nbQps: nat, k: nat): (p: Place)
    requires 0 < nbQps <= 0x100 && k < |enabled| * nbQps
    ensures p.device in enabled && p.queue < nbQps
  {
    RowInRange(k, nbQps, |enabled|);
    var q := Row(k, nbQps);
    Place(enabled[q], k - q * nbQps)
  }

  /** No two workers share a queue pair. */
  lemma PlacesDiffer(enabled: seq<byte>, nbQps: nat, j: nat, k: nat)
    requires 0 < nbQps <= 0x100 && j < k < |enabled| * nbQps && Distinct(enabled)
    ensures PlaceOf(enabled, nbQps, j) != PlaceOf(enabled, nbQps, k)
  {
    hide Row;
    RowInRange(j, nbQps, |enabled|);
    RowInRange(k, nbQps, |enabled|);
  }

  /** The assignment loop of `main`: one place for each worker, until all queue pairs are
      taken. */
  method Assign(workers: nat, enabled: seq<byte>, nbQps: nat) returns (places: seq<Place>)
    requires 0 < nbQps <= 0x100 && 0 < |enabled| && Distinct(enabled)
    ensures |places| == if workers <= |enabled| * nbQps then workers else |enabled| * nbQps
    ensures forall i :: 0 <= i < |places| ==> places[i] == PlaceOf(enabled, nbQps, i)
    ensures forall i, j :: 0 <= i < j < |places| ==> places[i] != places[j]
  {
    hide PlaceOf, Distinct;
    var total := |enabled| * nbQps;
    places := [];
    var i, cdev, qp := 0, 0, 0;
    while i < workers && i < total
      invariant 0 <= i <= total && i <= workers && |places| == i
      invariant 0 <= qp < nbQps && i == cdev * nbQps + qp && 0 <= cdev
      invariant forall k :: 0 <= k < i ==> places[k] == PlaceOf(enabled, nbQps, k)
    {
      PlaceAt(enabled, nbQps, cdev, qp);
      places := places + [Place(enabled[cdev], qp)];
      qp := Step(qp, nbQps);
      if qp == 0 {
        cdev := cdev + 1;
      }
      i := i + 1;
    }
    forall j, k | 0 <= j < k < |places|
      ensures places[j] != places[k]
    {
      PlacesDiffer(enabled, nbQps, j, k);
    }
  }

  lemma PlaceAt(enabled: seq<byte>, nbQps: nat, cdev: nat, qp: nat)
    requires qp < nbQps <= 0x100 && cdev * nbQps + qp < |enabled| * nbQps
    ensures cdev < |enabled| && PlaceOf(enabled, nbQps, cdev * nbQps + qp) == Place(enabled[cdev], qp)
  {
    hide Row;
    RowUnique(cdev * nbQps + qp, nbQps, cdev);
    RowInRange(cdev * nbQps + qp, nbQps, |enabled|);
  }

  /** `(qp_id + 1) % nb_qps`. */
  function Step(qp: nat, nbQps: nat): (r: nat)
    requires qp < nbQps
    ensures r == if qp + 1 == nbQps then 0 else qp + 1
  {
    DivModUnique(qp + 1, nbQps, if qp + 1 == nbQps then 1 else 0, if qp + 1 == nbQps then 0 else qp + 1);
    (qp + 1) % nbQps
  }

  /** With `nb_qps` computed from the workers, every worker gets a place. */
  lemma EveryWorkerPlaced(workers: nat, devices: nat)
    requires 0 < devices
    ensures workers <= devices * QueuePairs(workers, devices)
  {
    QueuePairsLeast(workers, devices, QueuePairs(workers, devices));
  }

  // ------------------------------------------------------------------- IMIX

  /** The sum of the first `n` weights. */
  function Sum(weights: seq<uint32>, n: nat): nat
    requires n <= |weights|
  {
    if n == 0 then 0 else Sum(weights, n - 1) + weights[n - 1]
  }

  /** The accumulated distribution, kept in 16 bits. */
  function Totals(weights: seq<uint32>): (t: seq<uint16>)
    ensures |t| == |weights|
  {
    seq(|weights|, i requires 0 <= i < |weights| => Sum(weights, i + 1) % 0x1_0000)
  }

  method Accumulate(weights: seq<uint32>) returns (totals: array<uint16>)
    requires |weights| > 0
    ensures totals[..] == Totals(weights)
  {
    totals := new uint16[|weights|];
    totals[0] := weights[0] % 0x1_0000;
    assert Sum(weights, 1) == weights[0];
    var i := 1;
    while i < |weights|
      invariant 1 <= i <= |weights|
      invariant forall k :: 0 <= k < i ==> totals[k] == Sum(weights, k + 1) % 0x1_0000
    {
      ModSum(Sum(weights, i), weights[i], 0x1_0000);
      totals[i] := (weights[i] + totals[i - 1]) % 0x1_0000;
      i := i + 1;
    }
  }

  /** The first size whose total exceeds the random number. */
  function Pick(totals: seq<uint16>, r: nat): (i: nat)
    ensures i <= |totals|
    ensures i < |totals| ==> r < totals[i]
    ensures forall k :: 0 <= k < i ==> totals[k] <= r
  {
    PickFrom(totals, r, 0)
  }

  function PickFrom(totals: seq<uint16>, r: nat, n: nat): (i: nat)
    requires n <= |totals|
    ensures n <= i <= |totals|
    ensures i < |totals| ==> r < totals[i]
    ensures forall k :: n <= k < i ==> totals[k] <= r
    decreases |totals| - n
  {
    if n == |totals| || r < totals[n] then n else PickFrom(totals, r, n + 1)
  }

  /** One size of the random sequence; `None` stands for the division by a zero total. */
  method Choose(totals: array<uint16>, sizes: seq<uint32>, random: nat) returns (size: Option<uint32>)
    requires 0 < totals.Length == |sizes|
    ensures size.None? <==> totals[totals.Length - 1] == 0
    ensures size.Some? ==>
              var i := Pick(totals[..], random % totals[totals.Length - 1]);
              i < |sizes| && size.value == sizes[i]
  {
    var last := totals[totals.Length - 1];
    if last == 0 {
      return None;
    }
    var r := random % last;
    ghost var t := totals[..];
    assert t[|t| - 1] == last;
    var i := 0;
    while i < totals.Length && r >= totals[i]
      invariant 0 <= i <= totals.Length
      invariant forall k :: 0 <= k < i ==> totals[k] <= r
    {
      i := i + 1;
    }
    PickUnique(t, r, i);
    return Some(sizes[i]);
  }

  lemma PickUnique(totals: seq<uint16>, r: nat, i: nat)
    requires i < |totals| && r < totals[i] && forall k :: 0 <= k < i ==> totals[k] <= r
    ensures Pick(totals, r) == i
  {
  }

  /** Random residues below `n` that select size `i`. */
  function Hits(totals: seq<uint16>, n: nat, i: nat): nat {
    if n == 0 then 0 else Hits(totals, n - 1, i) + if Pick(totals, n - 1) == i then 1 else 0
  }

  lemma {:induction false} SumMonotone(weights: seq<uint32>, i: nat, j: nat)
    requires i <= j <= |weights|
    ensures Sum(weights, i) <= Sum(weights, j)
  {
    if i < j {
      SumMonotone(weights, i, j - 1);
    }
  }

  lemma TotalsExact(weights: seq<uint32>, i: nat)
    requires Sum(weights, |weights|) <= 0xFFFF && i < |weights|
    ensures Totals(weights)[i] == Sum(weights, i + 1)
  {
    SumMonotone(weights, i + 1, |weights|);
  }

  /** Without overflow a residue selects the size in whose stretch of the sum it lies. */
  lemma PickInStretch(weights: seq<uint32>, r: nat, i: nat)
    requires Sum(weights, |weights|) <= 0xFFFF && r < Sum(weights, |weights|) && i < |weights|
    ensures Pick(Totals(weights), r) == i <==> Sum(weights, i) <= r < Sum(weights, i + 1)
  {
    var t := Totals(weights);
    TotalsExact(weights, i);
    if Sum(weights, i) <= r < Sum(weights, i + 1) {
      forall k | 0 <= k < i
        ensures t[k] <= r
      {
        TotalsExact(weights, k);
        SumMonotone(weights, k + 1, i);
      }
      PickUnique(t, r, i);
    } else if Pick(t, r) == i && i > 0 {
      TotalsExact(weights, i - 1);
    }
  }

  function Clip(x: int, lo: nat, hi: nat): nat
    requires lo <= hi
  {
    if x < lo then 0 else if x > hi then hi - lo else x - lo
  }

  lemma {:induction false} HitsBelow(weights: seq<uint32>, n: nat, i: nat)
    requires Sum(weights, |weights|) <= 0xFFFF && n <= Sum(weights, |weights|) && i < |weights|
    ensures Hits(Totals(weights), n, i) == Clip(n, Sum(weights, i), Sum(weights, i + 1))
  {
    if n > 0 {
      HitsBelow(weights, n - 1, i);
      PickInStretch(weights, n - 1, i);
    }
  }

  /** All hits together are no more than the residues. */
  function AllHits(totals: seq<uint16>, n: nat, m: nat): nat {
    if m == 0 then 0 else AllHits(totals, n, m - 1) + Hits(totals, n, m - 1)
  }

  lemma {:induction false} AllHitsStep(totals: seq<uint16>, n: nat, m: nat)
    ensures AllHits(totals, n + 1, m) == AllHits(totals, n, m) + if Pick(totals, n) < m then 1 else 0
  {
    if m > 0 {
      AllHitsStep(totals, n, m - 1);
    }
  }

  lemma {:induction false} AllHitsBounded(totals: seq<uint16>, n: nat, m: nat)
    ensures AllHits(totals, n, m) <= n
  {
    if n == 0 {
      NoHits(totals, m);
    } else {
      AllHitsBounded(totals, n - 1, m);
      AllHitsStep(totals, n - 1, m);
    }
  }

  lemma {:induction false} NoHits(totals: seq<uint16>, m: nat)
    ensures AllHits(totals, 0, m) == 0
  {
    if m > 0 {
      NoHits(totals, m - 1);
    }
  }

  lemma {:induction false} ExactHitsAddUp(weights: seq<uint32>, totals: seq<uint16>, n: nat, m: nat)
    requires m <= |weights| && forall i :: 0 <= i < m ==> Hits(totals, n, i) == weights[i]
    ensures AllHits(totals, n, m) == Sum(weights, m)
  {
    if m > 0 {
      ExactHitsAddUp(weights, totals, n, m - 1);
    }
  }

  /** The random sequence follows the weights, each size being selected by exactly as many
      residues as its weight says, if and only if the weights fit 16 bits together. */
  lemma ImixExact(weights: seq<uint32>)
    requires |weights| > 0
    ensures var t := Totals(weights);
            (forall i :: 0 <= i < |weights| ==> Hits(t, t[|t| - 1], i) == weights[i]) <==>
            Sum(weights, |weights|) <= 0xFFFF
  {
    var t := Totals(weights);
    var n := |weights|;
    if Sum(weights, n) <= 0xFFFF {
      TotalsExact(weights, n - 1);
      forall i | 0 <= i < n
        ensures Hits(t, t[n - 1], i) == weights[i]
      {
        HitsBelow(weights, t[n - 1], i);
        SumMonotone(weights, i + 1, n);
      }
    } else if forall i :: 0 <= i < n ==> Hits(t, t[n - 1], i) == weights[i] {
      ExactHitsAddUp(weights, t, t[n - 1], n);
      AllHitsBounded(t, t[n - 1], n);
    }
  }
}
