/** Prefix masks and the equivalent ways of spelling a full match
    (app/test-pmd/cmdline_flow.c: `parse_prefix`, `parse_int`, `parse_vc_spec`). */
module FlowMasks {
  import opened Basics
  import opened Arith
  import opened FlowFields

  // ------------------------------------------------------------ prefix masks

  /** The source's conversion table: a byte with its `e` most significant bits set. */
  const CONV: seq<byte> := [0x00, 0x80, 0xC0, 0xE0, 0xF0, 0xF8, 0xFC, 0xFE, 0xFF]

  lemma ConvMeaning(e: nat)
    requires e <= 8
    ensures CONV[e] as int == 0x100 - Pow2(8 - e)
  {
    assert Pow2(8) == 0x100 && Pow2(7) == 0x80 && Pow2(6) == 0x40 && Pow2(5) == 0x20;
    assert Pow2(4) == 0x10 && Pow2(3) == 8 && Pow2(2) == 4 && Pow2(1) == 2 && Pow2(0) == 1;
  }

  /** Byte `j`, counted from the most significant one, of a prefix of `u` bits. */
  function PrefixByte(j: nat, u: nat): byte {
    if 8 * (j + 1) <= u then 0xFF
    else if 8 * j < u then CONV[u - 8 * j]
    else 0x00
  }

  function PrefixBytes(size: nat, u: nat, hton: bool): (r: seq<byte>)
    ensures |r| == size
  {
    seq(size, i requires 0 <= i < size => PrefixByte(if hton then i else size - 1 - i, u))
  }

  /** The number with the top `u` of `w` bits set. */
  function PrefixNumber(w: nat, u: nat): (r: nat)
    requires u <= w
  {
    Pow2Monotone(w - u, w);
    Pow2(w) - Pow2(w - u)
  }

  lemma {:induction false} Pow2Monotone(a: nat, b: nat)
    requires a <= b
    ensures Pow2(a) <= Pow2(b)
  {
    if a < b {
      Pow2Monotone(a, b - 1);
    }
  }

  /** A prefix mask written byte by byte is the number it should be, in either order. */
  lemma {:induction false} PrefixBytesValue(size: nat, u: nat, hton: bool, n: nat)
    requires n <= size
    ensures Value(PrefixBytes(size, u, hton), hton, n) == PrefixNumber(8 * (size - n), Min(u, 8 * (size - n)))
    decreases size - n
  {
    hide Value, PrefixNumber, PrefixByte, PrefixBytes, Pow2;
    var buf := PrefixBytes(size, u, hton);
    if n == size {
      NoBytes(buf, hton);
    } else {
      PrefixBytesValue(size, u, hton, n + 1);
      var j := size - n - 1;
      assert 8 * (size - (n + 1)) == 8 * j && 8 * (size - n) == 8 * (j + 1);
      ValueStep(buf, hton, n);
      PrefixByteAt(size, u, hton, n);
      PrefixNumberStep(j, u);
    }
  }

  lemma NoBytes(buf: seq<byte>, hton: bool)
    ensures Value(buf, hton, |buf|) == 0 && PrefixNumber(0, 0) == 0
  {
  }

  lemma ValueStep(buf: seq<byte>, hton: bool, n: nat)
    requires n < |buf|
    ensures Value(buf, hton, n) == buf[ByteAt(|buf|, hton, n)] + 0x100 * Value(buf, hton, n + 1)
  {
  }

  lemma PrefixByteAt(size: nat, u: nat, hton: bool, n: nat)
    requires n < size
    ensures PrefixBytes(size, u, hton)[ByteAt(size, hton, n)] == PrefixByte(size - n - 1, u)
  {
  }

  lemma PrefixNumberStep(j: nat, u: nat)
    ensures PrefixByte(j, u) as int + 0x100 * PrefixNumber(8 * j, Min(u, 8 * j)) ==
              PrefixNumber(8 * (j + 1), Min(u, 8 * (j + 1)))
  {
    hide Pow2;
    Pow2Scale(8 * j);
    Pow2Scale(8 * j - Min(u, 8 * j));
    assert Pow2(0) == 1 by { ConvMeaning(8); }
    if 8 * j < u < 8 * (j + 1) {
      ConvMeaning(u - 8 * j);
      assert 8 * (j + 1) - u == 8 - (u - 8 * j);
    }
  }

  lemma Pow2Scale(n: nat)
    ensures Pow2(n + 8) == 0x100 * Pow2(n)
  {
    Pow2Add(8, n);
    assert Pow2(8) == 0x100;
  }

  /** The unmasked path of `parse_prefix`: fill, clear, and one converted byte. */
  method StorePrefix(dst: array<byte>, at: nat, size: nat, bytes: nat, extra: nat, hton: bool)
    requires at + size <= dst.Length && extra < 8 && bytes + (if extra != 0 then 1 else 0) <= size
    modifies dst
    ensures dst[..at] == old(dst[..at]) && dst[at + size..] == old(dst[at + size..])
    ensures Window(dst, at, size) == PrefixBytes(size, 8 * bytes + extra, hton)
  {
    hide PrefixByte, PrefixBytes;
    var u := 8 * bytes + extra;
    if !hton {
      FillLow(dst, at, size, bytes, extra);
    } else {
      FillHigh(dst, at, size, bytes, extra);
    }
    forall i | 0 <= i < size
      ensures dst[at + i] == PrefixBytes(size, u, hton)[i]
    {
      PrefixBytesAt(size, u, hton, i);
    }
  }

  /** Little-endian: the most significant bytes are the last ones. */
  method FillLow(dst: array<byte>, at: nat, size: nat, bytes: nat, extra: nat)
    requires at + size <= dst.Length && extra < 8 && bytes + (if extra != 0 then 1 else 0) <= size
    modifies dst
    ensures dst[..at] == old(dst[..at]) && dst[at + size..] == old(dst[at + size..])
    ensures forall i :: at <= i < at + size ==>
              dst[i] == if i >= at + size - bytes then 0xFF
                        else if i == at + size - bytes - 1 && extra != 0 then CONV[extra] else 0x00
  {
    Memset(dst, at + size - bytes, 0xFF, bytes);
    Memset(dst, at, 0x00, size - bytes);
    if extra != 0 {
      dst[at + size - bytes - 1] := CONV[extra];
    }
  }

  /** Network order: the most significant bytes are the first ones. */
  method FillHigh(dst: array<byte>, at: nat, size: nat, bytes: nat, extra: nat)
    requires at + size <= dst.Length && extra < 8 && bytes + (if extra != 0 then 1 else 0) <= size
    modifies dst
    ensures dst[..at] == old(dst[..at]) && dst[at + size..] == old(dst[at + size..])
    ensures forall i :: at <= i < at + size ==>
              dst[i] == if i < at + bytes then 0xFF else if i == at + bytes && extra != 0 then CONV[extra] else 0x00
  {
    Memset(dst, at, 0xFF, bytes);
    Memset(dst, at + bytes, 0x00, size - bytes);
    if extra != 0 {
      dst[at + bytes] := CONV[extra];
    }
  }

  /** The three cases of the stored bytes. */
  lemma PrefixBytesAt(size: nat, u: nat, hton: bool, i: nat)
    requires i < size
    ensures var j := if hton then i else size - 1 - i;
            PrefixBytes(size, u, hton)[i] ==
              if j < u / 8 then 0xFF else if j == u / 8 && u % 8 != 0 then CONV[u % 8] else 0x00
  {
  }

  method Memset(dst: array<byte>, at: nat, b: byte, n: nat)
    requires at + n <= dst.Length
    modifies dst
    ensures forall i :: 0 <= i < dst.Length ==> dst[i] == if at <= i < at + n then b else old(dst[i])
  {
    forall i | at <= i < at + n {
      dst[i] := b;
    }
  }

  lemma ModDouble(x: nat, p: nat)
    requires p > 0
    ensures (2 * (x % p) + 1) % p == (2 * x + 1) % p
  {
    assert 2 * (x % p) + 1 == 2 * x + 1 - p * (2 * (x / p));
    ModShift(2 * x + 1, 2 * (x / p), p);
  }

  lemma ModScale(x: nat, m: nat, p: nat)
    requires p > 0
    ensures (x % p) * m % p == x * m % p
  {
    var q, r := x / p, x % p;
    assert x == p * q + r;
    assert r * m == x * m - p * (q * m) by {
      assert (p * q + r) * m == p * q * m + r * m;
      assert p * q * m == p * (q * m);
    }
    ModShift(x * m, q * m, p);
  }

  /** `v <<= n` on 64 bits; a count of 64 or more has no defined result, except that
      nothing comes out of 0. */
  method ShiftLeft(v: nat, n: nat) returns (r: nat)
    ensures r < Pow2(64)
    ensures n < 64 || v == 0 ==> r == v * Pow2(n) % Pow2(64)
  {
    if n < 64 || v == 0 {
      r := v * Pow2(n) % Pow2(64);
    } else {
      r :| 0 <= r < Pow2(64);
    }
  }

  /** What the masked path of `parse_prefix` may build for a prefix of `u` of `w` bits: 64
      bits of the number, as far as its shift is defined. */
  ghost predicate Built(v: nat, w: nat, u: nat)
    requires u <= w
  {
    v < Pow2(64) && (w - u < 64 || u == 0 ==> v == PrefixNumber(w, u) % Pow2(64))
  }

  /** `u` ones shifted in from the right, in 64 bits. */
  method OnesBits(u: nat) returns (v: nat)
    ensures v == (Pow2(u) - 1) % Pow2(64)
  {
    hide Pow2;
    v := 0;
    var i := u;
    NoOnes();
    while i > 0
      invariant 0 <= i <= u && v == (Pow2(u - i) - 1) % Pow2(64)
    {
      OneMoreOne(u - i);
      v := (2 * v + 1) % Pow2(64);
      i := i - 1;
    }
  }

  lemma NoOnes()
    ensures (Pow2(0) - 1) % Pow2(64) == 0
  {
    hide Pow2;
    PowZero();
    DivModUnique(0, Pow2(64), 0, 0);
  }

  lemma OneMoreOne(n: nat)
    ensures (2 * ((Pow2(n) - 1) % Pow2(64)) + 1) % Pow2(64) == (Pow2(n + 1) - 1) % Pow2(64)
  {
    hide Pow2;
    var x, y, p := Pow2(n) - 1, Pow2(n + 1) - 1, Pow2(64);
    Pow2Next(n);
    assert 2 * x + 1 == y;
    ModDouble(x, p);
  }

  /** The masked path of `parse_prefix` builds its value bit by bit, in 64 bits. */
  method PrefixBits(u: nat, extra: nat) returns (v: nat)
    ensures Built(v, u + extra, u)
    ensures v == PrefixNumber(u + extra, u) <==> u + extra <= 64 || u == 0
  {
    hide Pow2, Built;
    var low := OnesBits(u);
    NoOnes();
    v := ShiftLeft(low, extra);
    ShiftedPrefix(u, extra, v);
    BuiltExact(v, u + extra, u);
  }

  lemma PowZero()
    ensures Pow2(0) == 1
  {
  }

  lemma ScaledOnes(u: nat, extra: nat)
    ensures (Pow2(u) - 1) * Pow2(extra) == PrefixNumber(u + extra, u)
  {
    hide Pow2;
    Pow2Add(u, extra);
    TimesLess(Pow2(u), Pow2(extra));
  }

  lemma TimesLess(a: nat, b: nat)
    ensures (a - 1) * b == a * b - b
  {
  }

  lemma ShiftedPrefix(u: nat, extra: nat, v: nat)
    ensures var low := (Pow2(u) - 1) % Pow2(64);
            v < Pow2(64) && (extra < 64 || low == 0 ==> v == low * Pow2(extra) % Pow2(64)) ==> Built(v, u + extra, u)
  {
    hide Pow2, PrefixNumber;
    ModScale(Pow2(u) - 1, Pow2(extra), Pow2(64));
    ScaledOnes(u, extra);
    if u == 0 {
      NoOnes();
    }
  }

  /** It is the number itself if and only if the mask has at most 64 bits or the prefix is
      empty. */
  lemma BuiltExact(v: nat, w: nat, u: nat)
    requires u <= w && Built(v, w, u)
    ensures v == PrefixNumber(w, u) <==> w <= 64 || u == 0
  {
    hide Pow2;
    PrefixFits64(w, u);
    if w <= 64 || u == 0 {
      DivModUnique(PrefixNumber(w, u), Pow2(64), 0, PrefixNumber(w, u));
    }
  }

  /** That value fits the source's 64 bits if and only if the mask has at most 64 bits
      (or the prefix is empty). */
  lemma PrefixFits64(w: nat, u: nat)
    requires u <= w
    ensures PrefixNumber(w, u) < Pow2(64) <==> w <= 64 || u == 0
  {
    hide Pow2;
    if w <= 64 {
      Pow2Monotone(w, 64);
    } else if u > 0 {
      Pow2Monotone(w - u, w - 1);
      Pow2Monotone(64, w - 1);
      Pow2Next(w - 1);
    }
  }

  // ------------------------------------------------------------ field stores

  /** A mask covers its field. */
  predicate WellFormed(arg: Arg) {
    arg.mask.Some? ==> |arg.mask.value| == arg.size
  }

  /** Bits a field has. */
  function Width(arg: Arg): nat {
    if arg.mask.Some? then PopCount(arg.mask.value) else 8 * arg.size
  }

  predicate IntStorable(arg: Arg) {
    if arg.mask.Some? then PopCount(arg.mask.value) > 0 else arg.size in {1, 2, 3, 4, 8}
  }

  /** Without a bit-mask the parser counts the bytes of a prefix in 32 bits, so it acts on
      the prefix length modulo 2^35. */
  const PREFIX_CUT: nat := 0x8_0000_0000

  function ActsOn(arg: Arg, u: nat): nat {
    if arg.mask.Some? then u else u % PREFIX_CUT
  }

  /** The byte and bit counts of that length, and what comparing them with the size of a
      field amounts to. */
  lemma ByteCount(u: nat, size: nat)
    ensures var bytes, extra := u / 8 % 0x1_0000_0000, u % 8;
            && 8 * bytes + extra == u % PREFIX_CUT
            && bytes == u % PREFIX_CUT / 8 && extra == u % PREFIX_CUT % 8
            && (bytes > size || bytes + (if extra != 0 then 1 else 0) > size <==> u % PREFIX_CUT > 8 * size)
  {
    var bytes, extra := u / 8 % 0x1_0000_0000, u % 8;
    var q := u / 8 / 0x1_0000_0000;
    assert u / 8 == 0x1_0000_0000 * q + bytes;
    assert u == PREFIX_CUT * q + (8 * bytes + extra);
    DivModUnique(u, PREFIX_CUT, q, 8 * bytes + extra);
  }

  predicate PrefixStorable(arg: Arg, u: nat) {
    ActsOn(arg, u) <= Width(arg) && (arg.mask.Some? ==> Width(arg) > 0)
  }

  /** The prefix mask that is left is the one asked for. */
  predicate PrefixExact(arg: Arg, u: nat) {
    if arg.mask.Some? then Width(arg) <= 64 || u == 0 else u < PREFIX_CUT
  }

  /** What storing the number `u`, or a prefix mask of `u` bits, makes of a field. */
  function IntStore(buf: seq<byte>, u: nat, arg: Arg): (r: seq<byte>)
    requires WellFormed(arg) && |buf| == arg.size
    ensures |r| == |buf|
  {
    if arg.mask.Some? then Scatter(buf, u, AllSlots(arg.mask.value, arg.hton)) else IntBytes(u, arg.size, arg.hton)
  }

  function PrefixStore(buf: seq<byte>, u: nat, arg: Arg): (r: seq<byte>)
    requires WellFormed(arg) && |buf| == arg.size && u <= Width(arg)
    ensures |r| == |buf|
  {
    if arg.mask.Some? then Scatter(buf, PrefixNumber(Width(arg), u), AllSlots(arg.mask.value, arg.hton))
    else PrefixBytes(arg.size, u, arg.hton)
  }

  /** What `parse_prefix` leaves: on the masked path, the value it built. */
  function PrefixStored(buf: seq<byte>, u: nat, v: nat, arg: Arg): (r: seq<byte>)
    requires WellFormed(arg) && |buf| == arg.size
    ensures |r| == |buf|
  {
    if arg.mask.Some? then IntStore(buf, v, arg) else PrefixBytes(arg.size, ActsOn(arg, u), arg.hton)
  }

  /** An accepted prefix, and for a field with a bit-mask a value that may be built for it. */
  ghost predicate MayBuild(arg: Arg, u: nat, v: nat) {
    PrefixStorable(arg, u) && (arg.mask.Some? ==> Built(v, Width(arg), u))
  }

  /** The storing half of `parse_int` for one object. */
  method StoreInt(dst: array<byte>, at: nat, u: nat, arg: Arg) returns (ok: bool)
    requires WellFormed(arg) && at + arg.size <= dst.Length
    modifies dst
    ensures ok == IntStorable(arg)
    ensures dst[..at] == old(dst[..at]) && dst[at + arg.size..] == old(dst[at + arg.size..])
    ensures ok ==> Window(dst, at, arg.size) == IntStore(old(Window(dst, at, arg.size)), u, arg)
    ensures !ok ==> Window(dst, at, arg.size) == old(Window(dst, at, arg.size))
  {
    if arg.mask.Some? {
      AllSlotsCount(arg.mask.value, arg.hton);
      NoSlotsNoChange(Window(dst, at, arg.size), u, AllSlots(arg.mask.value, arg.hton));
      var len := BfFill(dst, at, u, arg);
      ok := len != 0;
    } else {
      ok := arg.size in {1, 2, 3, 4, 8};
      if ok {
        var bytes := IntBytes(u, arg.size, arg.hton);
        forall i | 0 <= i < arg.size {
          dst[at + i] := bytes[i];
        }
      }
    }
  }

  lemma NoSlotsNoChange(buf: seq<byte>, u: nat, slots: seq<Slot>)
    requires InField(slots, |buf|)
    ensures |slots| == 0 ==> Scatter(buf, u, slots) == buf
  {
  }

  /** The masked path of `parse_prefix`. */
  method StoreMaskedPrefix(dst: array<byte>, at: nat, u: nat, arg: Arg) returns (ok: bool, ghost v: nat)
    requires WellFormed(arg) && arg.mask.Some? && at + arg.size <= dst.Length
    modifies dst
    ensures ok == PrefixStorable(arg, u)
    ensures dst[..at] == old(dst[..at]) && dst[at + arg.size..] == old(dst[at + arg.size..])
    ensures ok ==> Built(v, Width(arg), u)
    ensures Window(dst, at, arg.size) ==
              if ok then IntStore(old(Window(dst, at, arg.size)), v, arg) else old(Window(dst, at, arg.size))
  {
    hide Built;
    v := 0;
    ghost var was := Window(dst, at, arg.size);
    AllSlotsCount(arg.mask.value, arg.hton);
    var extra := BfFill(null, 0, 0, arg);
    if u > extra {
      return false, v;
    }
    var built := PrefixBits(u, extra - u);
    NoSlotsNoChange(was, built, AllSlots(arg.mask.value, arg.hton));
    var len := BfFill(dst, at, built, arg);
    ok, v := len != 0, built;
  }

  /** The storing half of `parse_prefix`: what it leaves is the prefix asked for if and only
      if, with a bit-mask, that has at most 64 bits or the prefix is empty, and without one,
      the length is below 2^35. */
  method StorePrefixField(dst: array<byte>, at: nat, u: nat, arg: Arg) returns (ok: bool, ghost v: nat)
    requires WellFormed(arg) && arg.size < 0xFFFF_FFFF && at + arg.size <= dst.Length
    modifies dst
    ensures ok == PrefixStorable(arg, u)
    ensures dst[..at] == old(dst[..at]) && dst[at + arg.size..] == old(dst[at + arg.size..])
    ensures ok ==> MayBuild(arg, u, v)
    ensures ok ==> Window(dst, at, arg.size) == PrefixStored(old(Window(dst, at, arg.size)), u, v, arg)
    ensures ok ==>
              (u <= Width(arg) && Window(dst, at, arg.size) == PrefixStore(old(Window(dst, at, arg.size)), u, arg) <==>
               PrefixExact(arg, u))
    ensures !ok ==> Window(dst, at, arg.size) == old(Window(dst, at, arg.size))
  {
    hide Built, IntStore, PrefixBytes, PrefixExact, PrefixStore;
    ghost var was := Window(dst, at, arg.size);
    if arg.mask.Some? {
      ok, v := StoreMaskedPrefix(dst, at, u, arg);
    } else {
      v := 0;
      var bytes, extra := u / 8 % 0x1_0000_0000, u % 8;
      ByteCount(u, arg.size);
      if bytes > arg.size || bytes + (if extra != 0 then 1 else 0) > arg.size {
        return false, v;
      }
      StorePrefix(dst, at, arg.size, bytes, extra, arg.hton);
      ok := true;
    }
    if ok {
      StoredExact(was, u, v, arg);
    }
  }

  // ----------------------------------------------------- the two mask writers

  lemma {:induction false} ScatterDependsOnLowBits(buf: seq<byte>, u: nat, v: nat, slots: seq<Slot>)
    requires InField(slots, |buf|) && u % Pow2(|slots|) == v % Pow2(|slots|)
    ensures Scatter(buf, u, slots) == Scatter(buf, v, slots)
    decreases |slots|
  {
    if slots != [] {
      var n := |slots| - 1;
      ModPow2(u, n);
      ModPow2(v, n);
      assert slots[0] in slots;
      ScatterDependsOnLowBits(PutSlot(buf, slots[0], u % 2), u / 2, v / 2, slots[1..]);
    }
  }

  /** Two numbers leave the same bytes in a field if and only if they agree on the bits
      the field has. */
  lemma SameStore(buf: seq<byte>, u: nat, v: nat, arg: Arg)
    requires WellFormed(arg) && |buf| == arg.size
    ensures IntStore(buf, u, arg) == IntStore(buf, v, arg) <==> u % Pow2(Width(arg)) == v % Pow2(Width(arg))
  {
    hide Scatter, Gather, Slots, Pow2, IntBytes, Value;
    if arg.mask.Some? {
      var slots := AllSlots(arg.mask.value, arg.hton);
      AllSlotsCount(arg.mask.value, arg.hton);
      SlotsOrdered(arg.mask.value, arg.hton, 0, 0);
      GatherScatter(buf, u, slots);
      GatherScatter(buf, v, slots);
      if u % Pow2(|slots|) == v % Pow2(|slots|) {
        ScatterDependsOnLowBits(buf, u, v, slots);
      }
    } else {
      IntBytesValue(u, arg.size, arg.hton);
      IntBytesValue(v, arg.size, arg.hton);
      if u % Pow2(8 * arg.size) == v % Pow2(8 * arg.size) {
        SameValueSameBytes(IntBytes(u, arg.size, arg.hton), IntBytes(v, arg.size, arg.hton), arg.hton);
      }
    }
  }

  lemma PrefixNumberFits(w: nat, u: nat)
    requires u <= w
    ensures PrefixNumber(w, u) < Pow2(w) && PrefixNumber(w, u) % Pow2(w) == PrefixNumber(w, u)
  {
    DivModUnique(PrefixNumber(w, u), Pow2(w), 0, PrefixNumber(w, u));
  }

  /** A prefix mask is the corresponding number stored as an integer, masked or not. */
  lemma PrefixIsInt(buf: seq<byte>, u: nat, arg: Arg)
    requires WellFormed(arg) && |buf| == arg.size && u <= Width(arg)
    ensures PrefixStore(buf, u, arg) == IntStore(buf, PrefixNumber(Width(arg), u), arg)
  {
    hide Value, IntBytes, PrefixBytes, Pow2;
    if arg.mask.None? {
      var p := PrefixNumber(8 * arg.size, u);
      PrefixBytesValue(arg.size, u, arg.hton, 0);
      IntBytesValue(p, arg.size, arg.hton);
      PrefixNumberFits(8 * arg.size, u);
      SameValueSameBytes(PrefixBytes(arg.size, u, arg.hton), IntBytes(p, arg.size, arg.hton), arg.hton);
    }
  }

  lemma SmallMod(v: nat, w: nat)
    requires v < Pow2(64) && 64 <= w
    ensures v % Pow2(w) == v
  {
    hide Pow2;
    Pow2Monotone(64, w);
    DivModUnique(v, Pow2(w), 0, v);
  }

  /** On the masked path, what is stored is the prefix mask exactly when the value built is
      the whole number. */
  lemma MaskedExact(buf: seq<byte>, u: nat, v: nat, arg: Arg)
    requires WellFormed(arg) && |buf| == arg.size && arg.mask.Some? && u <= Width(arg) && Built(v, Width(arg), u)
    ensures IntStore(buf, v, arg) == PrefixStore(buf, u, arg) <==> Width(arg) <= 64 || u == 0
  {
    hide IntStore, Pow2;
    var w := Width(arg);
    var p := PrefixNumber(w, u);
    BuiltExact(v, w, u);
    PrefixIsInt(buf, u, arg);
    SameStore(buf, v, p, arg);
    PrefixNumberFits(w, u);
    if w > 64 {
      SmallMod(v, w);
    }
  }

  /** What is stored is the prefix asked for, exactly under the stated condition. */
  lemma StoredExact(buf: seq<byte>, u: nat, v: nat, arg: Arg)
    requires WellFormed(arg) && arg.size < 0xFFFF_FFFF && |buf| == arg.size && MayBuild(arg, u, v)
    ensures u <= Width(arg) && PrefixStored(buf, u, v, arg) == PrefixStore(buf, u, arg) <==> PrefixExact(arg, u)
  {
    hide IntStore, PrefixBytes, Built;
    if arg.mask.Some? {
      MaskedExact(buf, u, v, arg);
    } else if u < PREFIX_CUT {
      DivModUnique(u, PREFIX_CUT, 0, u);
    }
  }

  /** On an IPv4 address, a prefix of 2^35 is accepted and leaves the empty prefix, and one of
      2^35 + 32 leaves the full one. */
  lemma HugePrefixes(buf: seq<byte>, arg: Arg)
    requires arg.mask.None? && |buf| == arg.size == 4
    ensures PrefixStorable(arg, 0x8_0000_0000) && PrefixStored(buf, 0x8_0000_0000, 0, arg) == [0, 0, 0, 0]
    ensures PrefixStorable(arg, 0x8_0000_0020) && PrefixStored(buf, 0x8_0000_0020, 0, arg) == [0xFF, 0xFF, 0xFF, 0xFF]
    ensures !PrefixStorable(arg, 33)
  {
  }

  /** The two mask generators of `parse_prefix`: with an all-ones bit-mask the masked path,
      which builds its value in 64 bits, leaves the bytes the `memset` path leaves if and
      only if the field has at most 8 bytes or the prefix is empty; those bytes stand for
      2^w - 2^(w-u) in the declared byte order. */
  lemma PrefixPathsAgree(buf: seq<byte>, u: nat, v: nat, mask: seq<byte>, hton: bool)
    requires |mask| == |buf| && FullMask(mask) && u <= 8 * |buf| && Built(v, 8 * |buf|, u)
    ensures |AllSlots(mask, hton)| == 8 * |buf|
    ensures Scatter(buf, v, AllSlots(mask, hton)) == PrefixBytes(|buf|, u, hton) <==> |buf| <= 8 || u == 0
    ensures Value(PrefixBytes(|buf|, u, hton), hton, 0) == Pow2(8 * |buf|) - Pow2(8 * |buf| - u)
  {
    hide Scatter, Value, PrefixBytes, Pow2, Slots;
    var p := PrefixNumber(8 * |buf|, u);
    FullMaskStore(buf, p, mask, hton);
    PrefixBytesValue(|buf|, u, hton, 0);
    PrefixNumberFits(8 * |buf|, u);
    SameValueSameBytes(Scatter(buf, p, AllSlots(mask, hton)), PrefixBytes(|buf|, u, hton), hton);
    AllSlotsCount(mask, hton);
    var arg := Arg(hton, false, false, 0, 0, 0, |buf|, Some(mask));
    assert Width(arg) == 8 * |buf|;
    MaskedExact(buf, u, v, arg);
  }

  /** A field of nine bytes and the prefix of all its 72 bits: the masked path does
      not leave what the other one leaves. */
  lemma NineBytesDisagree(buf: seq<byte>, v: nat, mask: seq<byte>, hton: bool)
    requires |mask| == |buf| == 9 && FullMask(mask)
    ensures Built(v, 72, 72) ==> Scatter(buf, v, AllSlots(mask, hton)) != PrefixBytes(9, 72, hton)
  {
    hide Built, Scatter, PrefixBytes;
    if Built(v, 72, 72) {
      PrefixPathsAgree(buf, 72, v, mask, hton);
    }
  }

  // --------------------------------------------------------------- spellings

  const UINTMAX: nat := 0xFFFF_FFFF_FFFF_FFFF

  /** The three sub-blocks of a pattern item, and which of its pointers are set. */
  datatype ItemData = ItemData(spec: seq<byte>, last: seq<byte>, mask: seq<byte>,
                               hasSpec: bool, hasLast: bool, hasMask: bool)

  predicate Fits(d: ItemData, arg: Arg) {
    WellFormed(arg) && arg.offset + arg.size <= |d.spec| == |d.mask|
  }

  function Patch(block: seq<byte>, at: nat, bytes: seq<byte>): (r: seq<byte>)
    requires at + |bytes| <= |block|
    ensures |r| == |block|
  {
    block[..at] + bytes + block[at + |bytes|..]
  }

  function Field(block: seq<byte>, arg: Arg): (r: seq<byte>)
    requires arg.offset + arg.size <= |block|
    ensures |r| == arg.size
  {
    block[arg.offset..arg.offset + arg.size]
  }

  /** `<field> is u`, `<field> spec u`, `<field> mask u` and `<field> prefix u`. */
  function ApplyIs(d: ItemData, u: nat, arg: Arg): ItemData
    requires Fits(d, arg)
  {
    d.(spec := Patch(d.spec, arg.offset, IntStore(Field(d.spec, arg), u, arg)), hasSpec := true,
       mask := Patch(d.mask, arg.offset, IntStore(Field(d.mask, arg), UINTMAX, arg)), hasMask := true)
  }

  function ApplySpec(d: ItemData, u: nat, arg: Arg): ItemData
    requires Fits(d, arg)
  {
    d.(spec := Patch(d.spec, arg.offset, IntStore(Field(d.spec, arg), u, arg)), hasSpec := true)
  }

  function ApplyMask(d: ItemData, u: nat, arg: Arg): ItemData
    requires Fits(d, arg)
  {
    d.(mask := Patch(d.mask, arg.offset, IntStore(Field(d.mask, arg), u, arg)), hasMask := true)
  }

  /** `v` is the value built for a field with a bit-mask. */
  function ApplyPrefix(d: ItemData, u: nat, v: nat, arg: Arg): ItemData
    requires Fits(d, arg)
  {
    d.(mask := Patch(d.mask, arg.offset, PrefixStored(Field(d.mask, arg), u, v, arg)), hasMask := true)
  }

  /** The bytes of a block outside a field, and the field itself. */
  lemma PatchShape(was: seq<byte>, now: seq<byte>, at: nat, bytes: seq<byte>)
    requires |was| == |now| && at + |bytes| <= |was|
    requires now[..at] == was[..at] && now[at + |bytes|..] == was[at + |bytes|..]
    requires now[at..at + |bytes|] == bytes
    ensures now == Patch(was, at, bytes)
  {
    assert now == now[..at] + now[at..at + |bytes|] + now[at + |bytes|..];
  }

  lemma PatchNothing(was: seq<byte>, now: seq<byte>, at: nat, n: nat)
    requires |was| == |now| && at + n <= |was|
    requires now[..at] == was[..at] && now[at + n..] == was[at + n..] && now[at..at + n] == was[at..at + n]
    ensures now == was
  {
    assert now == now[..at] + now[at..at + n] + now[at + n..];
    assert was == was[..at] + was[at..at + n] + was[at + n..];
  }

  /** `parse_int` on the context's object and, if there is one, the object that takes the
      full mask: the value goes to the one and all ones to the other. */
  method StoreValue(target: array<byte>, full: array?<byte>, u: nat, arg: Arg) returns (ok: bool)
    requires WellFormed(arg) && arg.offset + arg.size <= target.Length
    requires full != null ==> full != target && full.Length == target.Length
    modifies target, full
    ensures ok == IntStorable(arg)
    ensures target[..] == if ok then Patch(old(target[..]), arg.offset, IntStore(Field(old(target[..]), arg), u, arg))
                          else old(target[..])
    ensures full != null ==>
              full[..] == if ok then Patch(old(full[..]), arg.offset, IntStore(Field(old(full[..]), arg), UINTMAX, arg))
                          else old(full[..])
  {
    hide IntStore, IntStorable, Patch;
    ok := StoreAt(target, u, arg);
    if ok && full != null {
      ok := StoreAt(full, UINTMAX, arg);
    }
  }

  /** One pass of the store, over the whole object. */
  method StoreAt(target: array<byte>, u: nat, arg: Arg) returns (ok: bool)
    requires WellFormed(arg) && arg.offset + arg.size <= target.Length
    modifies target
    ensures ok == IntStorable(arg)
    ensures target[..] == if ok then Patch(old(target[..]), arg.offset, IntStore(Field(old(target[..]), arg), u, arg))
                          else old(target[..])
  {
    hide IntStore, IntStorable, Patch;
    ghost var was := target[..];
    var at := arg.offset;
    assert Window(target, at, arg.size) == Field(was, arg);
    ok := StoreInt(target, at, u, arg);
    ghost var now := target[..];
    assert now[..at] == was[..at] && now[at + arg.size..] == was[at + arg.size..];
    assert now[at..at + arg.size] == Window(target, at, arg.size);
    if ok {
      PatchShape(was, now, at, IntStore(Field(was, arg), u, arg));
    } else {
      PatchNothing(was, now, at, arg.size);
    }
  }

  lemma PatchSame(block: seq<byte>, at: nat, a: seq<byte>, b: seq<byte>)
    requires |a| == |b| && at + |a| <= |block|
    ensures Patch(block, at, a) == Patch(block, at, b) <==> a == b
  {
    if Patch(block, at, a) == Patch(block, at, b) {
      forall i | 0 <= i < |a|
        ensures a[i] == b[i]
      {
        assert Patch(block, at, a)[at + i] == a[i] && Patch(block, at, b)[at + i] == b[i];
      }
    }
  }

  lemma AllOnes(w: nat)
    requires w <= 64
    ensures UINTMAX % Pow2(w) == Pow2(w) - 1
  {
    hide Pow2;
    Pow2Add(w, 64 - w);
    Pow64();
    var p, q := Pow2(w), Pow2(64 - w);
    assert p * q == UINTMAX + 1;
    assert p * (q - 1) == p * q - p;
    DivModUnique(UINTMAX, p, q - 1, p - 1);
  }

  lemma Pow64()
    ensures Pow2(64) == UINTMAX + 1
  {
    hide Pow2;
    Pow32();
    Pow2Add(32, 32);
  }

  lemma Pow32()
    ensures Pow2(32) == 0x1_0000_0000
  {
    hide Pow2;
    assert Pow2(8) == 0x100 by { ConvMeaning(0); }
    Pow2Add(8, 8);
    Pow2Add(16, 16);
  }

  /** Equivalent spellings: `is v` leaves the same bytes and pointers as `spec v` with
      `mask w`, exactly when `w` has all bits of the field set (of a field of more than 64
      bits, all bits a number has), and as `spec v` with `prefix u`, exactly when `u`, as far
      as the parser counts it, is the full width; for every field an integer can be stored
      in, with or without a bit-mask, in either byte order, and every accepted prefix.  A
      prefix is excluded only where the source shifts a non-zero value by 64 places or more. */
  lemma EquivalentSpellings(d: ItemData, v: nat, w: nat, u: nat, built: nat, arg: Arg)
    requires Fits(d, arg) && IntStorable(arg) && w <= UINTMAX && MayBuild(arg, u, built)
    requires arg.mask.Some? ==> Width(arg) - u < 64 || u == 0
    ensures var bits := Min(Width(arg), 64);
            ApplyMask(ApplySpec(d, v, arg), w, arg) == ApplyIs(d, v, arg) <==> w % Pow2(bits) == Pow2(bits) - 1
    ensures ApplyPrefix(ApplySpec(d, v, arg), u, built, arg) == ApplyIs(d, v, arg) <==> ActsOn(arg, u) == Width(arg)
  {
    var n := Width(arg);
    StorableWidth(arg);
    hide IntStore, PrefixStored, Patch, Pow2, Width, IntStorable, MayBuild, ActsOn;
    var field := Field(d.mask, arg);
    SameStore(field, w, UINTMAX, arg);
    PatchSame(d.mask, arg.offset, IntStore(field, w, arg), IntStore(field, UINTMAX, arg));
    FullNumber(n, w);
    PatchSame(d.mask, arg.offset, PrefixStored(field, u, built, arg), IntStore(field, UINTMAX, arg));
    FullPrefixStored(field, u, built, arg);
  }

  lemma StorableWidth(arg: Arg)
    requires WellFormed(arg) && IntStorable(arg)
    ensures Width(arg) > 0 && (arg.mask.None? ==> Width(arg) <= 64)
  {
  }

  /** A 64-bit number agrees with all ones on a field exactly when its bits there are set. */
  lemma FullNumber(n: nat, w: nat)
    requires w <= UINTMAX
    ensures w % Pow2(n) == UINTMAX % Pow2(n) <==> w % Pow2(Min(n, 64)) == Pow2(Min(n, 64)) - 1
  {
    hide Pow2;
    Pow64();
    AllOnes(Min(n, 64));
    if n > 64 {
      SmallMod(w, n);
      SmallMod(UINTMAX, n);
      SmallMod(w, 64);
    }
  }

  lemma FullPrefixStored(field: seq<byte>, u: nat, built: nat, arg: Arg)
    requires WellFormed(arg) && |field| == arg.size && IntStorable(arg) && MayBuild(arg, u, built)
    requires arg.mask.Some? ==> Width(arg) - u < 64 || u == 0
    ensures PrefixStored(field, u, built, arg) == IntStore(field, UINTMAX, arg) <==> ActsOn(arg, u) == Width(arg)
  {
    var n := Width(arg);
    StorableWidth(arg);
    hide IntStore, Pow2, Width, IntStorable;
    if n <= 64 {
      var u' := ActsOn(arg, u);
      assert PrefixStored(field, u, built, arg) == PrefixStore(field, u', arg) by {
        if arg.mask.Some? {
          MaskedExact(field, u, built, arg);
        }
      }
      PrefixIsInt(field, u', arg);
      PrefixNumberFits(n, u');
      SameStore(field, PrefixNumber(n, u'), UINTMAX, arg);
      AllOnes(n);
      FullPrefix(n, u');
    } else {
      Pow64();
      SameStore(field, built, UINTMAX, arg);
      SmallMod(built, n);
      SmallMod(UINTMAX, n);
      WideFull(n, u, built);
    }
  }

  /** Of a full prefix of more than 64 bits, all 64 bits built are ones, and of no other. */
  lemma WideFull(n: nat, u: nat, built: nat)
    requires u <= n && n > 64 && Built(built, n, u) && (n - u < 64 || u == 0)
    ensures built == UINTMAX <==> u == n
  {
    hide Pow2;
    Pow64();
    var p := Pow2(64);
    if u == 0 {
      assert PrefixNumber(n, 0) == 0;
      DivModUnique(0, p, 0, 0);
    } else {
      Pow2Add(64, n - 64);
      var q, low := Pow2(n - 64), Pow2(n - u);
      Pow2Monotone(n - u, 64);
      assert p * (q - 1) == p * q - p;
      DivModUnique(PrefixNumber(n, u), p, q - 1, p - low);
      PowZero();
      if u < n {
        Pow2Next(n - u - 1);
      }
    }
  }

  lemma FullPrefix(w: nat, u: nat)
    requires u <= w
    ensures PrefixNumber(w, u) == Pow2(w) - 1 <==> u == w
  {
    if u < w {
      Pow2Monotone(1, w - u);
      assert Pow2(1) == 2;
    }
  }

  /** Addresses are copied as they are: `is` fills the mask with 0xFF, which is what a mask
      address of all ones leaves, and a prefix exactly if it is accepted and, as far as the
      parser counts it, of the full width. */
  lemma EquivalentAddressMasks(mask: seq<byte>, arg: Arg, address: seq<byte>, u: nat)
    requires arg.mask.None? && |address| == arg.size > 0 && arg.offset + arg.size <= |mask|
    ensures Patch(mask, arg.offset, address) == Patch(mask, arg.offset, seq(arg.size, _ => 0xFF)) <==>
              forall i :: 0 <= i < |address| ==> address[i] == 0xFF
    ensures u % PREFIX_CUT == 8 * arg.size <==>
              PrefixStorable(arg, u) &&
              Patch(mask, arg.offset, PrefixStored(Field(mask, arg), u, 0, arg)) ==
              Patch(mask, arg.offset, seq(arg.size, _ => 0xFF))
  {
    var ones: seq<byte> := seq(arg.size, _ => 0xFF);
    var u' := u % PREFIX_CUT;
    PatchSame(mask, arg.offset, address, ones);
    PatchSame(mask, arg.offset, PrefixBytes(arg.size, u', arg.hton), ones);
    FullPrefixBytes(arg.size, u', arg.hton);
  }

  lemma FullPrefixBytes(size: nat, u: nat, hton: bool)
    requires size > 0
    ensures PrefixBytes(size, u, hton) == seq(size, _ => 0xFF) <==> u >= 8 * size
  {
    var k := if hton then size - 1 else 0;
    PrefixBytesAt(size, u, hton, k);
    if u >= 8 * size {
      forall i | 0 <= i < size
        ensures PrefixBytes(size, u, hton)[i] == 0xFF
      {
        PrefixBytesAt(size, u, hton, i);
      }
    }
  }
}
