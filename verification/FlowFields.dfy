/** Storing parsed values into fields (app/test-pmd/cmdline_flow.c): spreading a value
    over the bits of a mask, prefix masks, and plain integers, in either byte order. */
module FlowFields {
  import opened Basics
  import opened Arith

  /** `struct arg`: where and how a value is stored.  `hton` asks for network byte
      order; the model's CPU is little-endian. */
  datatype Arg = Arg(hton: bool, sign: bool, bounded: bool, min: int, max: int,
                     offset: nat, size: nat, mask: Option<seq<byte>>)

  // ------------------------------------------------------------------- bits

  function Pow2(n: nat): (r: nat)
    ensures r > 0
  {
    if n == 0 then 1 else 2 * Pow2(n - 1)
  }

  /** `b >> k`, bit `k` of `b`, and `b` with bit `k` replaced by `v`. */
  function Shr(b: nat, k: nat): nat {
    if k == 0 then b else Shr(b / 2, k - 1)
  }

  function GetBit(b: nat, k: nat): nat {
    if k == 0 then b % 2 else GetBit(b / 2, k - 1)
  }

  function PutBit(b: nat, k: nat, v: nat): nat {
    if k == 0 then b - b % 2 + v else b % 2 + 2 * PutBit(b / 2, k - 1, v)
  }

  lemma {:induction false} PutBitGet(b: nat, k: nat, v: nat, j: nat)
    requires v < 2
    ensures GetBit(PutBit(b, k, v), j) == if j == k then v else GetBit(b, j)
  {
    if k == 0 {
      if j > 0 {
        assert (b - b % 2 + v) / 2 == b / 2;
      }
    } else {
      var p := PutBit(b / 2, k - 1, v);
      assert (b % 2 + 2 * p) / 2 == p && (b % 2 + 2 * p) % 2 == b % 2;
      if j > 0 {
        PutBitGet(b / 2, k - 1, v, j - 1);
      }
    }
  }

  lemma {:induction false} PutBitFits(b: nat, k: nat, v: nat, n: nat)
    requires v < 2 && k < n && b < Pow2(n)
    ensures PutBit(b, k, v) < Pow2(n)
  {
    Pow2Next(n - 1);
    hide Pow2;
    if k > 0 {
      PutBitFits(b / 2, k - 1, v, n - 1);
    }
  }

  lemma {:induction false} NoBitsAbove(b: nat, k: nat, j: nat)
    requires Shr(b, k) == 0 && j >= k
    ensures GetBit(b, j) == 0
  {
    if k > 0 {
      NoBitsAbove(b / 2, k - 1, j - 1);
    } else if j > 0 {
      NoBitsAbove(b / 2, 0, j - 1);
    }
  }

  lemma {:induction false} ShrFits(b: nat, k: nat)
    requires b < Pow2(k)
    ensures Shr(b, k) == 0
  {
    if k > 0 {
      ShrFits(b / 2, k - 1);
    }
  }

  lemma {:induction false} BitIsBinary(b: nat, k: nat)
    ensures GetBit(b, k) < 2
  {
    if k > 0 {
      BitIsBinary(b / 2, k - 1);
    }
  }

  // ------------------------------------------------------- scatter and gather

  /** One bit of a field: byte `i`, bit `k`. */
  datatype Slot = Slot(i: nat, k: nat)

  /** The `n`-th least significant byte of a field of `size` bytes. */
  function ByteAt(size: nat, hton: bool, n: nat): nat
    requires n < size
  {
    if hton then size - 1 - n else n
  }

  /** The masked bits from bit `k` of the `n`-th least significant byte on, least
      significant first: the order in which a value's bits are dealt out. */
  function Slots(mask: seq<byte>, hton: bool, n: nat, k: nat): (r: seq<Slot>)
    requires n <= |mask| && k <= 8
    ensures forall s :: s in r ==> s.i < |mask| && s.k < 8
    decreases |mask| - n, 8 - k
  {
    if n == |mask| then []
    else if k == 8 then Slots(mask, hton, n + 1, 0)
    else
      var i := ByteAt(|mask|, hton, n);
      (if GetBit(mask[i], k) == 1 then [Slot(i, k)] else []) + Slots(mask, hton, n, k + 1)
  }

  /** All masked bits. */
  function AllSlots(mask: seq<byte>, hton: bool): seq<Slot> {
    Slots(mask, hton, 0, 0)
  }

  predicate InField(slots: seq<Slot>, size: nat) {
    forall s :: s in slots ==> s.i < size && s.k < 8
  }

  function PutSlot(buf: seq<byte>, s: Slot, v: nat): (r: seq<byte>)
    requires s.i < |buf| && s.k < 8 && v < 2
    ensures |r| == |buf|
  {
    assert PutBit(buf[s.i], s.k, v) < 0x100 by {
      assert Pow2(8) == 0x100;
      PutBitFits(buf[s.i], s.k, v, 8);
    }
    buf[s.i := PutBit(buf[s.i], s.k, v)]
  }

  /** Deals the bits of `val`, least significant first, to the given slots. */
  function Scatter(buf: seq<byte>, val: nat, slots: seq<Slot>): (r: seq<byte>)
    requires InField(slots, |buf|)
    ensures |r| == |buf|
    decreases |slots|
  {
    if slots == [] then buf
    else
      assert slots[0] in slots;
      Scatter(PutSlot(buf, slots[0], val % 2), val / 2, slots[1..])
  }

  /** Collects the bits of the given slots in the same order. */
  function Gather(buf: seq<byte>, slots: seq<Slot>): nat
    requires InField(slots, |buf|)
  {
    if slots == [] then 0
    else
      assert slots[0] in slots;
      GetBit(buf[slots[0].i], slots[0].k) + 2 * Gather(buf, slots[1..])
  }

  /** Bits outside the slots are left alone. */
  lemma {:induction false} ScatterFrame(buf: seq<byte>, val: nat, slots: seq<Slot>, s: Slot)
    requires InField(slots, |buf|) && s !in slots && s.i < |buf|
    ensures GetBit(Scatter(buf, val, slots)[s.i], s.k) == GetBit(buf[s.i], s.k)
    decreases |slots|
  {
    if slots != [] {
      var f := slots[0];
      assert f in slots;
      ScatterFrame(PutSlot(buf, f, val % 2), val / 2, slots[1..], s);
      if f.i == s.i {
        PutBitGet(buf[f.i], f.k, val % 2, s.k);
      }
    }
  }

  /** Round trip: gathering after scattering returns the value, cut to the number of
      slots. */
  lemma {:induction false} GatherScatter(buf: seq<byte>, val: nat, slots: seq<Slot>)
    requires InField(slots, |buf|) && Distinct(slots)
    ensures Gather(Scatter(buf, val, slots), slots) == val % Pow2(|slots|)
    decreases |slots|
  {
    if slots != [] {
      var f, rest := slots[0], slots[1..];
      assert f in slots && f !in rest;
      var put := PutSlot(buf, f, val % 2);
      GatherScatter(put, val / 2, rest);
      ScatterFrame(put, val / 2, rest, f);
      PutBitGet(buf[f.i], f.k, val % 2, f.k);
      ModPow2(val, |rest|);
    }
  }

  lemma ModPow2(val: nat, n: nat)
    ensures val % Pow2(n + 1) == val % 2 + 2 * (val / 2 % Pow2(n))
  {
    var p := Pow2(n);
    var q, r := val / 2 / p, val / 2 % p;
    assert val / 2 == p * q + r;
    assert val == 2 * p * q + (val % 2 + 2 * r);
    assert 2 * p * q == (2 * p) * q;
    DivModUnique(val, 2 * p, q, val % 2 + 2 * r);
  }

  /** A slot from bit `k` of the `n`-th least significant byte on. */
  ghost predicate From(size: nat, hton: bool, n: nat, k: nat, s: Slot) {
    exists m: nat :: n <= m < size && s.i == ByteAt(size, hton, m) && (m == n ==> s.k >= k)
  }

  ghost predicate AllFrom(size: nat, hton: bool, n: nat, k: nat, slots: seq<Slot>) {
    forall s :: s in slots ==> From(size, hton, n, k, s)
  }

  lemma FromEarlier(size: nat, hton: bool, n: nat, k: nat, s: Slot)
    requires n < size && From(size, hton, n, k + 1, s)
    ensures From(size, hton, n, k, s) && s != Slot(ByteAt(size, hton, n), k)
  {
  }

  lemma FromNextByte(size: nat, hton: bool, n: nat, k: nat, s: Slot)
    requires n < size && From(size, hton, n + 1, 0, s)
    ensures From(size, hton, n, k, s)
  {
  }

  lemma FromHere(size: nat, hton: bool, n: nat, k: nat)
    requires n < size
    ensures From(size, hton, n, k, Slot(ByteAt(size, hton, n), k))
  {
  }

  lemma DistinctCons(x: Slot, rest: seq<Slot>)
    requires Distinct(rest) && x !in rest
    ensures Distinct([x] + rest)
  {
  }

  /** Slots come in order, so none repeats. */
  lemma {:induction false} SlotsOrdered(mask: seq<byte>, hton: bool, n: nat, k: nat)
    requires n <= |mask| && k <= 8
    ensures Distinct(Slots(mask, hton, n, k)) && AllFrom(|mask|, hton, n, k, Slots(mask, hton, n, k))
    decreases |mask| - n, 8 - k
  {
    if n < |mask| {
      if k == 8 {
        SlotsOrdered(mask, hton, n + 1, 0);
        forall s | s in Slots(mask, hton, n + 1, 0)
          ensures From(|mask|, hton, n, 8, s)
        {
          hide Slots, Distinct, From;
          FromNextByte(|mask|, hton, n, 8, s);
        }
      } else {
        SlotsOrdered(mask, hton, n, k + 1);
        OneMoreSlot(mask, hton, n, k, Slots(mask, hton, n, k + 1));
      }
    }
  }

  lemma OneMoreSlot(mask: seq<byte>, hton: bool, n: nat, k: nat, rest: seq<Slot>)
    requires n < |mask| && k < 8 && Distinct(rest) && AllFrom(|mask|, hton, n, k + 1, rest)
    ensures var here := Slot(ByteAt(|mask|, hton, n), k);
            && Distinct(rest) && AllFrom(|mask|, hton, n, k, [] + rest)
            && Distinct([here] + rest) && AllFrom(|mask|, hton, n, k, [here] + rest)
            && [] + rest == rest
  {
    hide From, Distinct;
    var here := Slot(ByteAt(|mask|, hton, n), k);
    forall s | s in rest
      ensures From(|mask|, hton, n, k, s) && s != here
    {
      FromEarlier(|mask|, hton, n, k, s);
    }
    FromHere(|mask|, hton, n, k);
    DistinctCons(here, rest);
    assert [] + rest == rest;
  }

  lemma SlotsAtEnd(mask: seq<byte>, hton: bool, n: nat, k: nat)
    requires n < |mask| && k <= 8 && Shr(mask[ByteAt(|mask|, hton, n)], k) == 0
    ensures Slots(mask, hton, n, k) == Slots(mask, hton, n + 1, 0)
    decreases 8 - k
  {
    if k < 8 {
      var b := mask[ByteAt(|mask|, hton, n)];
      NoBitsAbove(b, k, k);
      ShrNext(b, k);
      SlotsAtEnd(mask, hton, n, k + 1);
    }
  }

  lemma {:induction false} ShrNext(b: nat, k: nat)
    ensures Shr(b, k + 1) == Shr(b, k) / 2
  {
    if k > 0 {
      ShrNext(b / 2, k - 1);
    }
  }

  /** Handling one bit of the mask. */
  lemma ScatterStep(buf: seq<byte>, val: nat, mask: seq<byte>, hton: bool, n: nat, k: nat)
    requires n < |mask| == |buf| && k < 8
    ensures var b := GetBit(mask[ByteAt(|mask|, hton, n)], k);
            var s := Slot(ByteAt(|mask|, hton, n), k);
            && |Slots(mask, hton, n, k)| == |Slots(mask, hton, n, k + 1)| + (if b == 1 then 1 else 0)
            && (b == 1 ==> Scatter(buf, val, Slots(mask, hton, n, k)) ==
                             Scatter(PutSlot(buf, s, val % 2), val / 2, Slots(mask, hton, n, k + 1)))
            && (b != 1 ==> Slots(mask, hton, n, k) == Slots(mask, hton, n, k + 1))
  {
    var slots := Slots(mask, hton, n, k);
    if GetBit(mask[ByteAt(|mask|, hton, n)], k) == 1 {
      assert slots[1..] == Slots(mask, hton, n, k + 1);
    }
  }

  /** The window of a buffer a field occupies. */
  ghost function Window(a: array<byte>, at: nat, n: nat): seq<byte>
    requires at + n <= a.Length
    reads a
  {
    a[at..at + n]
  }

  lemma ByteEnds(b: byte)
    ensures Shr(b, 8) == 0
  {
    assert Pow2(8) == 0x100;
    ShrFits(b, 8);
  }

  lemma NoSlotsLeft(buf: seq<byte>, val: nat, mask: seq<byte>, hton: bool)
    ensures Slots(mask, hton, |mask|, 0) == [] && Scatter(buf, val, []) == buf
  {
  }

  /** One byte of `arg_entry_bf_fill`: its masked bits take the next bits of `val`. */
  method FillByte(dst: array<byte>, at: nat, mask: seq<byte>, hton: bool, n: nat, val: nat)
      returns (val': nat, len: nat)
    requires n < |mask| && at + |mask| <= dst.Length
    modifies dst
    ensures dst[..at] == old(dst[..at]) && dst[at + |mask|..] == old(dst[at + |mask|..])
    ensures Scatter(Window(dst, at, |mask|), val', Slots(mask, hton, n + 1, 0)) ==
              Scatter(old(Window(dst, at, |mask|)), val, Slots(mask, hton, n, 0))
    ensures len + |Slots(mask, hton, n + 1, 0)| == |Slots(mask, hton, n, 0)|
  {
    hide Scatter, Slots, PutSlot, GetBit, Shr;
    var i := ByteAt(|mask|, hton, n);
    var shift := 0;
    val', len := val, 0;
    ByteEnds(mask[i]);
    while Shr(mask[i], shift) != 0
      invariant 0 <= shift <= 8
      invariant dst[..at] == old(dst[..at]) && dst[at + |mask|..] == old(dst[at + |mask|..])
      invariant Scatter(Window(dst, at, |mask|), val', Slots(mask, hton, n, shift)) ==
                  Scatter(old(Window(dst, at, |mask|)), val, Slots(mask, hton, n, 0))
      invariant len + |Slots(mask, hton, n, shift)| == |Slots(mask, hton, n, 0)|
      decreases 8 - shift
    {
      ScatterStep(Window(dst, at, |mask|), val', mask, hton, n, shift);
      if GetBit(mask[i], shift) == 1 {
        len := len + 1;
        StoreBit(dst, at, |mask|, Slot(i, shift), val' % 2);
        val' := val' / 2;
      }
      shift := shift + 1;
    }
    SlotsAtEnd(mask, hton, n, shift);
  }

  /** Clears one bit of the buffer and sets it to `v`. */
  method StoreBit(dst: array<byte>, at: nat, size: nat, s: Slot, v: nat)
    requires at + size <= dst.Length && s.i < size && s.k < 8 && v < 2
    modifies dst
    ensures dst[..at] == old(dst[..at]) && dst[at + size..] == old(dst[at + size..])
    ensures Window(dst, at, size) == PutSlot(old(Window(dst, at, size)), s, v)
  {
    ghost var w := Window(dst, at, size);
    var b := PutBit(dst[at + s.i], s.k, v);
    assert b < 0x100 by {
      assert Pow2(8) == 0x100;
      PutBitFits(dst[at + s.i], s.k, v, 8);
    }
    dst[at + s.i] := b;
    assert Window(dst, at, size) == w[s.i := b];
  }

  /** The effect of a masked store on a field (none without a mask). */
  function MaskStore(buf: seq<byte>, val: nat, mask: Option<seq<byte>>, hton: bool): seq<byte>
    requires mask.Some? ==> |mask.value| == |buf|
  {
    if mask.None? then buf else Scatter(buf, val, AllSlots(mask.value, hton))
  }

  /** `arg_entry_bf_fill`: spreads `val` over the masked bits of the field and returns
      how many there are (nothing is stored without a buffer). */
  method BfFill(dst: array?<byte>, at: nat, val: nat, arg: Arg) returns (len: nat)
    requires arg.mask.Some? ==> |arg.mask.value| == arg.size
    requires dst != null ==> at + arg.size <= dst.Length
    modifies dst
    ensures len == if arg.mask.None? then 0 else |AllSlots(arg.mask.value, arg.hton)|
    ensures dst != null ==> dst[..at] == old(dst[..at]) && dst[at + arg.size..] == old(dst[at + arg.size..])
    ensures dst != null ==>
              Window(dst, at, arg.size) == MaskStore(old(Window(dst, at, arg.size)), val, arg.mask, arg.hton)
  {
    len := 0;
    if arg.mask.None? {
      return;
    }
    if dst == null {
      len := CountBits(arg.mask.value, arg.hton);
    } else {
      len := FillBits(dst, at, val, arg.mask.value, arg.hton);
    }
  }

  method CountBits(mask: seq<byte>, hton: bool) returns (len: nat)
    ensures len == |AllSlots(mask, hton)|
  {
    len := 0;
    var n := 0;
    while n < |mask|
      invariant n <= |mask| && len + |Slots(mask, hton, n, 0)| == |AllSlots(mask, hton)|
    {
      var c := CountByte(mask, hton, n);
      len := len + c;
      n := n + 1;
    }
  }

  method FillBits(dst: array<byte>, at: nat, val: nat, mask: seq<byte>, hton: bool) returns (len: nat)
    requires at + |mask| <= dst.Length
    modifies dst
    ensures len == |AllSlots(mask, hton)|
    ensures dst[..at] == old(dst[..at]) && dst[at + |mask|..] == old(dst[at + |mask|..])
    ensures Window(dst, at, |mask|) == Scatter(old(Window(dst, at, |mask|)), val, AllSlots(mask, hton))
  {
    hide Slots, Scatter;
    len := 0;
    var v, n := val, 0;
    while n < |mask|
      invariant n <= |mask| && len + |Slots(mask, hton, n, 0)| == |AllSlots(mask, hton)|
      invariant dst[..at] == old(dst[..at]) && dst[at + |mask|..] == old(dst[at + |mask|..])
      invariant Scatter(Window(dst, at, |mask|), v, Slots(mask, hton, n, 0)) ==
                  Scatter(old(Window(dst, at, |mask|)), val, AllSlots(mask, hton))
    {
      var c;
      v, c := FillByte(dst, at, mask, hton, n, v);
      len := len + c;
      n := n + 1;
    }
    NoSlotsLeft(Window(dst, at, |mask|), v, mask, hton);
  }

  method CountByte(mask: seq<byte>, hton: bool, n: nat) returns (len: nat)
    requires n < |mask|
    ensures len + |Slots(mask, hton, n + 1, 0)| == |Slots(mask, hton, n, 0)|
  {
    var i := ByteAt(|mask|, hton, n);
    var shift := 0;
    len := 0;
    ByteEnds(mask[i]);
    while Shr(mask[i], shift) != 0
      invariant 0 <= shift <= 8
      invariant len + |Slots(mask, hton, n, shift)| == |Slots(mask, hton, n, 0)|
      decreases 8 - shift
    {
      if GetBit(mask[i], shift) == 1 {
        len := len + 1;
      }
      shift := shift + 1;
    }
    SlotsAtEnd(mask, hton, n, shift);
  }

  // ------------------------------------------------------ counting mask bits

  function Ones(b: nat): nat {
    if b == 0 then 0 else b % 2 + Ones(b / 2)
  }

  /** Number of bits set in a mask. */
  function PopCount(mask: seq<byte>): nat {
    if mask == [] then 0 else PopCount(mask[1..]) + Ones(mask[0])
  }

  lemma {:induction false} PopCountSnoc(mask: seq<byte>)
    requires mask != []
    ensures PopCount(mask) == PopCount(mask[..|mask| - 1]) + Ones(mask[|mask| - 1])
  {
    if |mask| > 1 {
      PopCountSnoc(mask[1..]);
      assert mask[1..][..|mask| - 2] == mask[..|mask| - 1][1..];
    }
  }

  lemma {:induction false} BitIsShr(b: nat, k: nat)
    ensures GetBit(b, k) == Shr(b, k) % 2
  {
    if k > 0 {
      BitIsShr(b / 2, k - 1);
    }
  }

  /** `arg_entry_bf_fill` returns the number of bits set in the mask, whatever the byte
      order. */
  lemma {:induction false} SlotsCount(mask: seq<byte>, hton: bool, n: nat, k: nat)
    requires n <= |mask| && k <= 8
    ensures n < |mask| ==>
              |Slots(mask, hton, n, k)| ==
                Ones(Shr(mask[ByteAt(|mask|, hton, n)], k)) + PopCount(Beyond(mask, hton, n + 1))
    ensures k == 0 ==> |Slots(mask, hton, n, k)| == PopCount(Beyond(mask, hton, n))
    ensures n == |mask| ==> Slots(mask, hton, n, k) == []
    decreases |mask| - n, 8 - k
  {
    if n < |mask| {
      var b := mask[ByteAt(|mask|, hton, n)];
      if k == 8 {
        ByteEnds(b);
        SlotsCount(mask, hton, n + 1, 0);
      } else {
        SlotsCount(mask, hton, n, k + 1);
        BitIsShr(b, k);
        ShrNext(b, k);
      }
      BeyondStep(mask, hton, n);
    }
  }

  /** The bytes of a mask from the `n`-th least significant one on. */
  function Beyond(mask: seq<byte>, hton: bool, n: nat): seq<byte>
    requires n <= |mask|
  {
    if hton then mask[..|mask| - n] else mask[n..]
  }

  lemma BeyondStep(mask: seq<byte>, hton: bool, n: nat)
    requires n < |mask|
    ensures PopCount(Beyond(mask, hton, n)) == Ones(mask[ByteAt(|mask|, hton, n)]) + PopCount(Beyond(mask, hton, n + 1))
  {
    if hton {
      PopCountSnoc(mask[..|mask| - n]);
      assert mask[..|mask| - n][..|mask| - n - 1] == mask[..|mask| - (n + 1)];
    } else {
      assert mask[n..][1..] == mask[n + 1..];
    }
  }

  lemma AllSlotsCount(mask: seq<byte>, hton: bool)
    ensures |AllSlots(mask, hton)| == PopCount(mask)
  {
    SlotsCount(mask, hton, 0, 0);
    assert mask[..|mask|] == mask && mask[0..] == mask;
  }

  // ------------------------------------------------------------ field values

  /** The number a field stands for, from its `n`-th least significant byte on. */
  function Value(buf: seq<byte>, hton: bool, n: nat): nat
    requires n <= |buf|
    decreases |buf| - n
  {
    if n == |buf| then 0 else buf[ByteAt(|buf|, hton, n)] + 0x100 * Value(buf, hton, n + 1)
  }

  /** A field's bytes are determined by the number they stand for. */
  lemma {:induction false} ValueUnique(a: seq<byte>, b: seq<byte>, hton: bool, n: nat)
    requires |a| == |b| && n <= |a| && Value(a, hton, n) == Value(b, hton, n)
    ensures forall m :: n <= m < |a| ==> a[ByteAt(|a|, hton, m)] == b[ByteAt(|a|, hton, m)]
    decreases |a| - n
  {
    if n < |a| {
      ValueUnique(a, b, hton, n + 1);
    }
  }

  lemma SameValueSameBytes(a: seq<byte>, b: seq<byte>, hton: bool)
    requires |a| == |b| && Value(a, hton, 0) == Value(b, hton, 0)
    ensures a == b
  {
    ValueUnique(a, b, hton, 0);
    forall i | 0 <= i < |a|
      ensures a[i] == b[i]
    {
      assert i == ByteAt(|a|, hton, if hton then |a| - 1 - i else i);
    }
  }

  ghost predicate FullMask(mask: seq<byte>) {
    forall i :: 0 <= i < |mask| ==> mask[i] == 0xFF
  }

  lemma {:induction false} FullBits(k: nat)
    requires k < 8
    ensures GetBit(0xFF, k) == 1
  {
    hide GetBit, Shr, Pow2;
    BitIsShr(0xFF, k);
    FullShr(k);
    Pow2Next(7 - k);
  }

  lemma {:induction false} FullShr(k: nat)
    requires k <= 8
    ensures Shr(0xFF, k) == Pow2(8 - k) - 1
  {
    if k == 0 {
      assert Pow2(8) == 0x100;
    } else {
      FullShr(k - 1);
      ShrNext(0xFF, k - 1);
    }
  }

  /** With every bit masked, gathering reads the field as a number. */
  lemma {:induction false} GatherFull(buf: seq<byte>, mask: seq<byte>, hton: bool, n: nat, k: nat)
    requires n < |mask| == |buf| && k <= 8 && FullMask(mask)
    ensures Gather(buf, Slots(mask, hton, n, k)) ==
              Shr(buf[ByteAt(|buf|, hton, n)], k) + Pow2(8 - k) * Value(buf, hton, n + 1)
    ensures |Slots(mask, hton, n, k)| == 8 - k + 8 * (|mask| - n - 1)
    decreases |mask| - n, 8 - k
  {
    hide Gather, Slots, Value, GetBit, Shr, Pow2;
    var i := ByteAt(|buf|, hton, n);
    if k == 8 {
      EndOfByte(buf, mask, hton, n);
      if n + 1 < |mask| {
        GatherFull(buf, mask, hton, n + 1, 0);
      }
    } else {
      Pow2Next(7 - k);
      GatherFull(buf, mask, hton, n, k + 1);
      GatherOne(buf, mask, hton, n, k);
      Carry(Shr(buf[i], k), Pow2(7 - k), Value(buf, hton, n + 1));
    }
  }

  lemma EndOfByte(buf: seq<byte>, mask: seq<byte>, hton: bool, n: nat)
    requires n < |mask| == |buf|
    ensures Slots(mask, hton, n, 8) == Slots(mask, hton, n + 1, 0)
    ensures Shr(buf[ByteAt(|buf|, hton, n)], 8) == 0 && Pow2(0) == 1 && Pow2(8) == 0x100
    ensures n + 1 == |mask| ==> Slots(mask, hton, n, 8) == [] && Gather(buf, []) == 0 && Value(buf, hton, n + 1) == 0
    ensures n + 1 < |mask| ==>
              Value(buf, hton, n + 1) == Shr(buf[ByteAt(|buf|, hton, n + 1)], 0) + 0x100 * Value(buf, hton, n + 2)
  {
    ByteEnds(buf[ByteAt(|buf|, hton, n)]);
  }

  lemma Pow2Next(n: nat)
    ensures Pow2(n + 1) == 2 * Pow2(n)
  {
  }

  lemma GatherOne(buf: seq<byte>, mask: seq<byte>, hton: bool, n: nat, k: nat)
    requires n < |mask| == |buf| && k < 8 && FullMask(mask)
    ensures var b := buf[ByteAt(|buf|, hton, n)];
            && Gather(buf, Slots(mask, hton, n, k)) == Shr(b, k) % 2 + 2 * Gather(buf, Slots(mask, hton, n, k + 1))
            && Shr(b, k + 1) == Shr(b, k) / 2
            && |Slots(mask, hton, n, k)| == 1 + |Slots(mask, hton, n, k + 1)|
  {
    var i := ByteAt(|buf|, hton, n);
    FullBits(k);
    BitIsShr(buf[i], k);
    ShrNext(buf[i], k);
    var slots := Slots(mask, hton, n, k);
    assert slots[0] == Slot(i, k) && slots[1..] == Slots(mask, hton, n, k + 1);
  }

  lemma Carry(x: nat, p: nat, v: nat)
    ensures x % 2 + 2 * (x / 2 + p * v) == x + (2 * p) * v
  {
  }

  /** A masked store through a full mask stores the number. */
  lemma FullMaskStore(buf: seq<byte>, val: nat, mask: seq<byte>, hton: bool)
    requires |mask| == |buf| && FullMask(mask)
    ensures |AllSlots(mask, hton)| == 8 * |buf|
    ensures Value(Scatter(buf, val, AllSlots(mask, hton)), hton, 0) == val % Pow2(8 * |buf|)
  {
    hide Scatter, Slots, Gather, Value, Pow2;
    var r := Scatter(buf, val, AllSlots(mask, hton));
    GatherFullValue(r, mask, hton);
    SlotsOrdered(mask, hton, 0, 0);
    GatherScatter(buf, val, AllSlots(mask, hton));
  }

  lemma GatherFullValue(buf: seq<byte>, mask: seq<byte>, hton: bool)
    requires |mask| == |buf| && FullMask(mask)
    ensures Gather(buf, AllSlots(mask, hton)) == Value(buf, hton, 0) && |AllSlots(mask, hton)| == 8 * |buf|
  {
    if buf != [] {
      GatherFull(buf, mask, hton, 0, 0);
      assert Pow2(8) == 0x100;
    }
  }

  // ---------------------------------------------------------- plain integers

  function IntByte(u: nat, n: nat): byte {
    if n == 0 then u % 0x100 else IntByte(u / 0x100, n - 1)
  }

  /** The low `size` bytes of `u` in the requested order. */
  function IntBytes(u: nat, size: nat, hton: bool): (r: seq<byte>)
    ensures |r| == size
  {
    seq(size, i requires 0 <= i < size => IntByte(u, if hton then size - 1 - i else i))
  }

  /** `u` without its low `n` bytes, and its low `m` bytes. */
  function High(u: nat, n: nat): nat {
    if n == 0 then u else High(u / 0x100, n - 1)
  }

  function Low(u: nat, m: nat): nat {
    if m == 0 then 0 else u % 0x100 + 0x100 * Low(u / 0x100, m - 1)
  }

  lemma {:induction false} HighNext(u: nat, n: nat)
    ensures High(u, n + 1) == High(u, n) / 0x100 && IntByte(u, n) == High(u, n) % 0x100
  {
    if n > 0 {
      HighNext(u / 0x100, n - 1);
    }
  }

  lemma {:induction false} Pow2Add(a: nat, b: nat)
    ensures Pow2(a + b) == Pow2(a) * Pow2(b)
  {
    if a > 0 {
      Pow2Add(a - 1, b);
    }
  }

  lemma {:induction false} IntBytesLow(u: nat, size: nat, hton: bool, n: nat)
    requires n <= size
    ensures Value(IntBytes(u, size, hton), hton, n) == Low(High(u, n), size - n)
    decreases size - n
  {
    if n < size {
      IntBytesLow(u, size, hton, n + 1);
      HighNext(u, n);
      assert IntBytes(u, size, hton)[ByteAt(size, hton, n)] == IntByte(u, n);
    }
  }

  lemma {:induction false} LowIsMod(u: nat, m: nat)
    ensures Low(u, m) == u % Pow2(8 * m)
  {
    if m > 0 {
      LowIsMod(u / 0x100, m - 1);
      ModPow256(u, m - 1);
      assert 8 * (m - 1 + 1) == 8 * m;
    }
  }

  /** A plain store stores the number, cut to the field's size. */
  lemma IntBytesValue(u: nat, size: nat, hton: bool)
    ensures Value(IntBytes(u, size, hton), hton, 0) == u % Pow2(8 * size)
  {
    IntBytesLow(u, size, hton, 0);
    LowIsMod(u, size);
  }

  lemma ModPow256(x: nat, m: nat)
    ensures x % Pow2(8 * (m + 1)) == x % 0x100 + 0x100 * (x / 0x100 % Pow2(8 * m))
  {
    var p := Pow2(8 * m);
    Pow2Add(8, 8 * m);
    assert Pow2(8) == 0x100;
    var q, r := x / 0x100 / p, x / 0x100 % p;
    assert x / 0x100 == p * q + r;
    assert 0x100 * (p * q) == (0x100 * p) * q;
    DivModUnique(x, 0x100 * p, q, x % 0x100 + 0x100 * r);
  }
}
