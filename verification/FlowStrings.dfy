/** Strings in flow commands (app/test-pmd/cmdline_flow.c: `parse_string`): what is stored for
    one, and which spellings of a match on a string are equivalent. */
module FlowStrings {
  import opened Basics
  import opened FlowFields
  import opened FlowMasks

  /** The fields a string is stored in: its bytes, their number and their address. */
  datatype StringArgs = StringArgs(data: Arg, length: Arg, addr: Arg)

  predicate Ends(arg: Arg, n: nat) {
    arg.offset + arg.size <= n
  }

  predicate Inside(a: StringArgs, n: nat) {
    WellFormed(a.length) && Ends(a.data, n) && Ends(a.length, n) && Ends(a.addr, n)
  }

  predicate Apart(x: Arg, y: Arg) {
    x.offset + x.size <= y.offset || y.offset + y.size <= x.offset
  }

  predicate Disjoint(a: StringArgs) {
    Apart(a.data, a.length) && Apart(a.data, a.addr) && Apart(a.length, a.addr)
  }

  /** A string of `n` bytes is stored. */
  predicate StringStorable(a: StringArgs, n: nat) {
    a.data.mask.None? && n <= a.data.size && (a.length.bounded ==> a.length.min <= n <= a.length.max) &&
    IntStorable(a.length)
  }

  function Padded(s: seq<byte>, size: nat): (r: seq<byte>)
    requires |s| <= size
    ensures |r| == size
  {
    s + seq(size - |s|, _ => 0)
  }

  /** The data field of a full mask: as many bytes as the string has are set. */
  function Covered(field: seq<byte>, n: nat): (r: seq<byte>)
    requires n <= |field|
    ensures |r| == |field|
  {
    seq(n, _ => 0xFF) + field[n..]
  }

  /** The object with the length stored in it. */
  function Counted(block: seq<byte>, a: StringArgs, u: nat): (r: seq<byte>)
    requires Inside(a, |block|)
    ensures |r| == |block|
  {
    Patch(block, a.length.offset, IntStore(Field(block, a.length), u, a.length))
  }

  /** The object at address `base` with a length, the bytes and their address stored in it. */
  function Put(block: seq<byte>, a: StringArgs, u: nat, bytes: seq<byte>, base: nat): (r: seq<byte>)
    requires Inside(a, |block|) && |bytes| == a.data.size
    ensures |r| == |block|
  {
    Patch(Patch(Counted(block, a, u), a.data.offset, bytes), a.addr.offset,
          IntBytes(base + a.data.offset, a.addr.size, false))
  }

  function PutString(block: seq<byte>, a: StringArgs, s: seq<byte>, base: nat): (r: seq<byte>)
    requires Inside(a, |block|) && |s| <= a.data.size
    ensures |r| == |block|
  {
    Put(block, a, |s|, Padded(s, a.data.size), base)
  }

  function PutCover(block: seq<byte>, a: StringArgs, n: nat, base: nat): (r: seq<byte>)
    requires Inside(a, |block|) && n <= a.data.size
    ensures |r| == |block|
  {
    Put(block, a, UINTMAX, Covered(Field(Counted(block, a, UINTMAX), a.data), n), base)
  }

  // ------------------------------------------------------------- the method

  method Write(dst: array<byte>, at: nat, bytes: seq<byte>)
    requires at + |bytes| <= dst.Length
    modifies dst
    ensures dst[..] == Patch(old(dst[..]), at, bytes)
  {
    ghost var was := dst[..];
    forall i | 0 <= i < |bytes| {
      dst[at + i] := bytes[i];
    }
    ghost var now := dst[..];
    assert now[..at] == was[..at] && now[at + |bytes|..] == was[at + |bytes|..];
    PatchShape(was, now, at, bytes);
  }

  lemma PatchEmpty(block: seq<byte>, at: nat)
    requires at <= |block|
    ensures Patch(block, at, []) == block
  {
  }

  /** The storing half of `parse_string`, on the context's object at address `base` and, if
      there is one, the object at `fullBase` that takes the full mask: all fields of both, or
      nothing at all. */
  method StoreString(target: array<byte>, full: array?<byte>, base: nat, fullBase: nat, s: seq<byte>, a: StringArgs)
      returns (ok: bool)
    requires Inside(a, target.Length) && a.addr.size <= 8
    requires full != null ==> full != target && full.Length == target.Length
    modifies target, full
    ensures ok == StringStorable(a, |s|)
    ensures target[..] == if ok then PutString(old(target[..]), a, s, base) else old(target[..])
    ensures full != null ==> full[..] == if ok then PutCover(old(full[..]), a, |s|, fullBase) else old(full[..])
  {
    hide Patch, IntStore, IntStorable, IntBytes, Field;
    if a.data.mask.Some? || a.data.size < |s| || (a.length.bounded && !(a.length.min <= |s| <= a.length.max)) {
      return false;
    }
    ok := StoreValue(target, full, |s|, a.length);
    if !ok {
      return;
    }
    Write(target, a.data.offset, Padded(s, a.data.size));
    if full != null {
      CoverField(full, a.data, |s|);
    }
    WriteAddress(target, a, base);
    if full != null {
      WriteAddress(full, a, fullBase);
    }
  }

  method CoverField(full: array<byte>, data: Arg, n: nat)
    requires Ends(data, full.Length) && n <= data.size
    modifies full
    ensures full[..] == Patch(old(full[..]), data.offset, Covered(Field(old(full[..]), data), n))
  {
    ghost var was := full[..];
    var at := data.offset;
    forall i | 0 <= i < n {
      full[at + i] := 0xFF;
    }
    ghost var now := full[..];
    assert now[..at] == was[..at] && now[at + data.size..] == was[at + data.size..];
    assert now[at..at + data.size] == Covered(Field(was, data), n);
    PatchShape(was, now, at, Covered(Field(was, data), n));
  }

  /** The address is saved if it has a field. */
  method WriteAddress(dst: array<byte>, a: StringArgs, base: nat)
    requires Ends(a.addr, dst.Length)
    modifies dst
    ensures dst[..] == Patch(old(dst[..]), a.addr.offset, IntBytes(base + a.data.offset, a.addr.size, false))
  {
    if a.addr.size > 0 {
      Write(dst, a.addr.offset, IntBytes(base + a.data.offset, a.addr.size, false));
    } else {
      assert IntBytes(base + a.data.offset, 0, false) == [];
      PatchEmpty(dst[..], a.addr.offset);
    }
  }

  // ----------------------------------------------------------- reading back

  lemma FieldPatched(block: seq<byte>, arg: Arg, bytes: seq<byte>, other: Arg)
    requires Ends(arg, |block|) && |bytes| == arg.size && Ends(other, |block|)
    ensures Field(Patch(block, arg.offset, bytes), arg) == bytes
    ensures Apart(arg, other) ==> Field(Patch(block, arg.offset, bytes), other) == Field(block, other)
  {
    var now := Patch(block, arg.offset, bytes);
    if Apart(arg, other) {
      forall i | 0 <= i < other.size
        ensures Field(now, other)[i] == Field(block, other)[i]
      {
      }
    }
  }

  /** Each field holds what was stored in it. */
  lemma PutFields(block: seq<byte>, a: StringArgs, u: nat, bytes: seq<byte>, base: nat)
    requires Inside(a, |block|) && Disjoint(a) && |bytes| == a.data.size
    ensures var r := Put(block, a, u, bytes, base);
            && Field(r, a.data) == bytes
            && Field(r, a.length) == IntStore(Field(block, a.length), u, a.length)
            && Field(r, a.addr) == IntBytes(base + a.data.offset, a.addr.size, false)
            && Field(Counted(block, a, u), a.data) == Field(block, a.data)
  {
    hide Patch, IntStore, IntBytes, Field;
    var pointer := IntBytes(base + a.data.offset, a.addr.size, false);
    var counted := Counted(block, a, u);
    var filled := Patch(counted, a.data.offset, bytes);
    var number := IntStore(Field(block, a.length), u, a.length);
    FieldPatched(block, a.length, number, a.data);
    FieldPatched(counted, a.data, bytes, a.length);
    FieldPatched(filled, a.addr, pointer, a.data);
    FieldPatched(filled, a.addr, pointer, a.length);
  }

  /** A stored string can be read back: its bytes from the data field, which is cleared
      behind them, their number from a length field wide enough for it, and their address. */
  lemma StringReadBack(block: seq<byte>, a: StringArgs, s: seq<byte>, base: nat)
    requires Inside(a, |block|) && Disjoint(a) && StringStorable(a, |s|) && a.length.mask.None?
    requires |s| < Pow2(8 * a.length.size) && base + a.data.offset < Pow2(8 * a.addr.size)
    ensures var r := PutString(block, a, s, base);
            && Value(Field(r, a.length), a.length.hton, 0) == |s|
            && Field(r, a.data)[..|s|] == s
            && (forall i :: |s| <= i < a.data.size ==> Field(r, a.data)[i] == 0)
            && Value(Field(r, a.addr), false, 0) == base + a.data.offset
  {
    hide Pow2, Value, Put, Field, IntBytes;
    PutFields(block, a, |s|, Padded(s, a.data.size), base);
    IntBytesValue(|s|, a.length.size, a.length.hton);
    IntBytesValue(base + a.data.offset, a.addr.size, false);
    Unreduced(|s|, Pow2(8 * a.length.size));
    Unreduced(base + a.data.offset, Pow2(8 * a.addr.size));
  }

  lemma Unreduced(x: nat, m: nat)
    requires x < m
    ensures x % m == x
  {
  }

  // -------------------------------------------------------------- spellings

  /** `<field> is s`, `<field> spec s` and `<field> mask s`, on an item whose objects lie one
      behind the other from address `base`. */
  function ApplyIs(d: ItemData, base: nat, s: seq<byte>, a: StringArgs): ItemData
    requires Inside(a, |d.spec|) && |d.mask| == |d.spec| && |s| <= a.data.size
  {
    d.(spec := PutString(d.spec, a, s, base), hasSpec := true,
       mask := PutCover(d.mask, a, |s|, base + 2 * |d.spec|), hasMask := true)
  }

  function ApplySpec(d: ItemData, base: nat, s: seq<byte>, a: StringArgs): ItemData
    requires Inside(a, |d.spec|) && |s| <= a.data.size
  {
    d.(spec := PutString(d.spec, a, s, base), hasSpec := true)
  }

  function ApplyMask(d: ItemData, base: nat, s: seq<byte>, a: StringArgs): ItemData
    requires Inside(a, |d.mask|) && |s| <= a.data.size
  {
    d.(mask := PutString(d.mask, a, s, base + 2 * |d.spec|), hasMask := true)
  }

  lemma SamePut(block: seq<byte>, a: StringArgs, u: nat, x: seq<byte>, v: nat, y: seq<byte>, base: nat)
    requires Inside(a, |block|) && Disjoint(a) && |x| == |y| == a.data.size
    ensures Put(block, a, u, x, base) == Put(block, a, v, y, base) <==>
              u % Pow2(Width(a.length)) == v % Pow2(Width(a.length)) && x == y
  {
    PutFields(block, a, u, x, base);
    PutFields(block, a, v, y, base);
    hide Pow2, IntStore, Field, Width, Patch;
    SameStore(Field(block, a.length), u, v, a.length);
  }

  /** Equivalent spellings of a string: `is s` leaves what `spec s` with `mask t` leaves if and
      only if `t` is so long that its length sets all bits of the length field, and the bytes
      of `t`, filled up with zeros, are all ones for the bytes of `s` and what was in the mask
      behind them. */
  lemma StringSpellings(d: ItemData, base: nat, s: seq<byte>, t: seq<byte>, a: StringArgs)
    requires Inside(a, |d.spec|) && |d.mask| == |d.spec| && Disjoint(a)
    requires StringStorable(a, |s|) && StringStorable(a, |t|) && |t| <= UINTMAX
    ensures var bits := Min(Width(a.length), 64);
            ApplyMask(ApplySpec(d, base, s, a), base, t, a) == ApplyIs(d, base, s, a) <==>
              |t| % Pow2(bits) == Pow2(bits) - 1 &&
              Padded(t, a.data.size) == Covered(Field(d.mask, a.data), |s|)
  {
    hide Pow2, Put, Width, Padded, Covered, Field, IntStorable, Disjoint;
    var at := base + 2 * |d.spec|;
    var cover := Covered(Field(Counted(d.mask, a, UINTMAX), a.data), |s|);
    PutFields(d.mask, a, UINTMAX, cover, at);
    SamePut(d.mask, a, |t|, Padded(t, a.data.size), UINTMAX, cover, at);
    FullNumber(Width(a.length), |t|);
  }

  /** So it never does where the length field can hold more than the data field. */
  lemma NeverEquivalent(d: ItemData, base: nat, s: seq<byte>, t: seq<byte>, a: StringArgs)
    requires Inside(a, |d.spec|) && |d.mask| == |d.spec| && Disjoint(a)
    requires StringStorable(a, |s|) && StringStorable(a, |t|)
    ensures a.data.size < Pow2(Min(Width(a.length), 64)) - 1 ==>
              ApplyMask(ApplySpec(d, base, s, a), base, t, a) != ApplyIs(d, base, s, a)
  {
    hide Width, IntStorable, Inside, Disjoint, Pow2;
    var bits := Min(Width(a.length), 64);
    Pow2Monotone(bits, 64);
    Pow64();
    if a.data.size < Pow2(bits) - 1 {
      StringSpellings(d, base, s, t, a);
      Unreduced(|t|, Pow2(bits));
    }
  }
}
