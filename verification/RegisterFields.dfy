/** Bit fields of device registers (app/test-pmd/config.c: `port_reg_bit_field_set` and
    `port_reg_bit_field_display`). */
module RegisterFields {
  import opened Basics
  import opened FlowFields
  import opened FlowMasks

  // ------------------------------------------------------ operators on 32 bits

  /** `x & y`, `x | y`, `~x` and `x << l`. */
  function And(x: nat, y: nat): nat {
    if x == 0 then 0 else 2 * And(x / 2, y / 2) + (if x % 2 == 1 && y % 2 == 1 then 1 else 0)
  }

  function Or(x: nat, y: nat): nat
    decreases x + y
  {
    if x == 0 && y == 0 then 0 else 2 * Or(x / 2, y / 2) + (if x % 2 == 1 || y % 2 == 1 then 1 else 0)
  }

  function Not(x: nat, n: nat): nat {
    if n == 0 then 0 else 2 * Not(x / 2, n - 1) + (1 - x % 2)
  }

  function Shl(x: nat, l: nat): nat
    decreases l
  {
    if l == 0 then x else Shl(2 * x % 0x1_0000_0000, l - 1)
  }

  lemma BitOfSum(a: nat, b: nat, k: nat)
    requires b < 2
    ensures GetBit(2 * a + b, k) == if k == 0 then b else GetBit(a, k - 1)
  {
    assert (2 * a + b) / 2 == a && (2 * a + b) % 2 == b;
  }

  lemma {:induction false} ZeroBits(k: nat)
    ensures GetBit(0, k) == 0
  {
    if k > 0 {
      ZeroBits(k - 1);
    }
  }

  lemma {:induction false} BitAnd(x: nat, y: nat, k: nat)
    ensures GetBit(And(x, y), k) == if GetBit(x, k) == 1 && GetBit(y, k) == 1 then 1 else 0
  {
    if x == 0 {
      ZeroBits(k);
    } else {
      BitOfSum(And(x / 2, y / 2), if x % 2 == 1 && y % 2 == 1 then 1 else 0, k);
      if k > 0 {
        BitAnd(x / 2, y / 2, k - 1);
      }
    }
  }

  lemma {:induction false} BitOr(x: nat, y: nat, k: nat)
    ensures GetBit(Or(x, y), k) == if GetBit(x, k) == 1 || GetBit(y, k) == 1 then 1 else 0
  {
    if x == 0 && y == 0 {
      ZeroBits(k);
    } else {
      BitOfSum(Or(x / 2, y / 2), if x % 2 == 1 || y % 2 == 1 then 1 else 0, k);
      if k > 0 {
        BitOr(x / 2, y / 2, k - 1);
      }
    }
  }

  lemma {:induction false} BitNot(x: nat, n: nat, k: nat)
    ensures GetBit(Not(x, n), k) == if k < n then 1 - GetBit(x, k) else 0
  {
    if n == 0 {
      ZeroBits(k);
    } else {
      BitOfSum(Not(x / 2, n - 1), 1 - x % 2, k);
      if k > 0 {
        BitNot(x / 2, n - 1, k - 1);
      }
    }
  }

  lemma ModNone(x: nat)
    ensures x % Pow2(0) == 0
  {
  }

  lemma {:induction false} BitMod(x: nat, n: nat, k: nat)
    ensures GetBit(x % Pow2(n), k) == if k < n then GetBit(x, k) else 0
  {
    hide Pow2;
    if n == 0 {
      ModNone(x);
      ZeroBits(k);
    } else {
      var low := x / 2 % Pow2(n - 1);
      ModPow2(x, n - 1);
      assert x % Pow2(n) == 2 * low + x % 2;
      BitOfSum(low, x % 2, k);
      if k > 0 {
        BitMod(x / 2, n - 1, k - 1);
      }
    }
  }

  lemma {:induction false} BitShl(x: nat, l: nat, k: nat)
    requires x < 0x1_0000_0000
    ensures GetBit(Shl(x, l), k) == if l <= k < 32 then GetBit(x, k - l) else 0
    decreases l
  {
    Pow32();
    if l == 0 {
      if k >= 32 {
        ShrFits(x, 32);
        NoBitsAbove(x, 32, k);
      }
    } else {
      var y := 2 * x % 0x1_0000_0000;
      BitShl(y, l - 1, k);
      if l - 1 <= k < 32 {
        BitMod(2 * x, 32, k - (l - 1));
        BitOfSum(x, 0, k - (l - 1));
      }
    }
  }

  lemma {:induction false} BitShr(x: nat, l: nat, k: nat)
    ensures GetBit(Shr(x, l), k) == GetBit(x, l + k)
  {
    if l > 0 {
      BitShr(x / 2, l - 1, k);
    }
  }

  lemma {:induction false} BitOnes(w: nat, k: nat)
    ensures GetBit(Pow2(w) - 1, k) == if k < w then 1 else 0
  {
    if w == 0 {
      ZeroBits(k);
    } else {
      BitOfSum(Pow2(w - 1) - 1, 1, k);
      if k > 0 {
        BitOnes(w - 1, k - 1);
      }
    }
  }

  /** A number is its bits. */
  lemma {:induction false} SameBits(x: nat, y: nat)
    requires forall k: nat :: GetBit(x, k) == GetBit(y, k)
    ensures x == y
    decreases x + y
  {
    if x != 0 || y != 0 {
      assert GetBit(x, 0) == GetBit(y, 0);
      forall k: nat
        ensures GetBit(x / 2, k) == GetBit(y / 2, k)
      {
        assert GetBit(x, k + 1) == GetBit(y, k + 1);
      }
      SameBits(x / 2, y / 2);
    }
  }

  // ------------------------------------------------------------------ fields

  /** The value the set command writes into a register, and the one the display command
      shows, for the field of the bits from `l` to `h`. */
  function Put(reg: nat, l: nat, h: nat, value: nat): nat
    requires l <= h < 32
  {
    Or(And(reg, Not(Shl(Pow2(h - l + 1) - 1, l), 32)), Shl(value, l))
  }

  function Get(reg: nat, l: nat, h: nat): nat
    requires l <= h < 32
  {
    if h < 31 then And(Shr(reg, l), Pow2(h - l + 1) - 1) else Shr(reg, l)
  }

  lemma {:induction false} Pow2Fits(w: nat)
    requires w <= 32
    ensures Pow2(w) <= 0x1_0000_0000
    decreases 32 - w
  {
    Pow32();
    if w < 32 {
      Pow2Fits(w + 1);
      assert Pow2(w + 1) == 2 * Pow2(w);
    }
  }

  lemma NoHighBits(value: nat, w: nat, k: nat)
    requires value < Pow2(w) && k >= w
    ensures GetBit(value, k) == 0
  {
    ShrFits(value, w);
    NoBitsAbove(value, w, k);
  }

  /** Setting a field changes exactly its bits, to the bits of the value. */
  lemma PutBits(reg: uint32, l: nat, h: nat, value: nat, k: nat)
    requires l <= h < 32 && value < Pow2(h - l + 1)
    ensures GetBit(Put(reg, l, h, value), k) == if l <= k <= h then GetBit(value, k - l) else GetBit(reg, k)
  {
    hide GetBit, And, Or, Not, Shl, Pow2;
    var w := h - l + 1;
    Pow2Fits(w);
    var ones := Pow2(w) - 1;
    var mask := Shl(ones, l);
    BitOr(And(reg, Not(mask, 32)), Shl(value, l), k);
    BitAnd(reg, Not(mask, 32), k);
    BitNot(mask, 32, k);
    BitShl(ones, l, k);
    BitShl(value, l, k);
    BitIsBinary(reg, k);
    if l <= k {
      BitOnes(w, k - l);
      BitIsBinary(value, k - l);
      if k > h {
        NoHighBits(value, w, k - l);
      }
    }
    Pow32();
    if k >= 32 {
      NoHighBits(reg, 32, k);
    }
  }

  lemma GetBits(reg: uint32, l: nat, h: nat, k: nat)
    requires l <= h < 32
    ensures GetBit(Get(reg, l, h), k) == if k <= h - l then GetBit(reg, l + k) else 0
  {
    hide GetBit, And, Shr, Pow2;
    BitShr(reg, l, k);
    BitIsBinary(reg, l + k);
    if h < 31 {
      BitAnd(Shr(reg, l), Pow2(h - l + 1) - 1, k);
      BitOnes(h - l + 1, k);
    } else if k > h - l {
      Pow32();
      NoHighBits(reg, 32, l + k);
    }
  }

  /** What is displayed after a set is the value that was set. */
  lemma DisplayAfterSet(reg: uint32, l: nat, h: nat, value: nat)
    requires l <= h < 32 && value < Pow2(h - l + 1)
    ensures Put(reg, l, h, value) < 0x1_0000_0000 && Get(Put(reg, l, h, value), l, h) == value
  {
    PutFits(reg, l, h, value);
    hide GetBit, Put, Get, Pow2;
    var after := Put(reg, l, h, value);
    forall k: nat
      ensures GetBit(Get(after, l, h), k) == GetBit(value, k)
    {
      GetBits(after, l, h, k);
      if k <= h - l {
        PutBits(reg, l, h, value, l + k);
      } else {
        NoHighBits(value, h - l + 1, k);
      }
    }
    SameBits(Get(after, l, h), value);
  }

  lemma PutFits(reg: uint32, l: nat, h: nat, value: nat)
    requires l <= h < 32 && value < Pow2(h - l + 1)
    ensures Put(reg, l, h, value) < 0x1_0000_0000
  {
    hide GetBit, Put, Pow2;
    var after := Put(reg, l, h, value);
    forall k: nat
      ensures GetBit(after, k) == GetBit(after % Pow2(32), k)
    {
      BitMod(after, 32, k);
      if k >= 32 {
        PutBits(reg, l, h, value, k);
        Pow32();
        NoHighBits(reg, 32, k);
      }
    }
    SameBits(after, after % Pow2(32));
    Pow32();
  }

  /** A field that does not overlap keeps its value. */
  lemma OtherFieldsKept(reg: uint32, l: nat, h: nat, value: nat, l': nat, h': nat)
    requires l <= h < 32 && value < Pow2(h - l + 1) && l' <= h' < 32 && (h < l' || h' < l)
    ensures Get(Put(reg, l, h, value), l', h') == Get(reg, l', h')
  {
    PutFits(reg, l, h, value);
    hide GetBit, Put, Get, Pow2;
    var after := Put(reg, l, h, value);
    forall k: nat
      ensures GetBit(Get(after, l', h'), k) == GetBit(Get(reg, l', h'), k)
    {
      GetBits(after, l', h', k);
      GetBits(reg, l', h', k);
      if k <= h' - l' {
        PutBits(reg, l, h, value, l' + k);
      }
    }
    SameBits(Get(after, l', h'), Get(reg, l', h'));
  }

  // --------------------------------------------------------------- the commands

  function Max(a: nat, b: nat): nat {
    if a > b then a else b
  }

  /** A port's registers. */
  class Device {
    const regs: array<uint32>

    constructor (n: nat)
      ensures fresh(regs) && regs.Length == n
    {
      regs := new uint32[n];
    }

    /** `port_reg_bit_field_set`: refused for a bad register, a bad position or a value too
        large for the field; the two positions may come in either order. */
    method SetField(reg: nat, bit1: byte, bit2: byte, value: uint32) returns (ok: bool)
      modifies regs
      ensures ok <==> reg < regs.Length && bit1 < 32 && bit2 < 32 && value < Pow2(Max(bit1, bit2) - Min(bit1, bit2) + 1)
      ensures ok ==> regs[reg] == Put(old(regs[reg]), Min(bit1, bit2), Max(bit1, bit2), value)
      ensures ok ==> Get(regs[reg], Min(bit1, bit2), Max(bit1, bit2)) == value
      ensures forall i :: 0 <= i < regs.Length && (i != reg || !ok) ==> regs[i] == old(regs[i])
    {
      hide Pow2, And, Or, Not, Shl, Get;
      if reg >= regs.Length || bit1 > 31 || bit2 > 31 {
        return false;
      }
      var l, h := bit1, bit2;
      if bit1 > bit2 {
        l, h := bit2, bit1;
      }
      Pow32();
      var max := if h - l < 31 then Pow2(h - l + 1) - 1 else 0xFFFF_FFFF;
      if value > max {
        return false;
      }
      DisplayAfterSet(regs[reg], l, h, value);
      var v := And(regs[reg], Not(Shl(max, l), 32));
      regs[reg] := Or(v, Shl(value, l));
      return true;
    }

    /** `port_reg_bit_field_display`. */
    method DisplayField(reg: nat, bit1: byte, bit2: byte) returns (shown: Option<nat>)
      ensures shown.Some? <==> reg < regs.Length && bit1 < 32 && bit2 < 32
      ensures shown.Some? ==> shown.value == Get(regs[reg], Min(bit1, bit2), Max(bit1, bit2))
    {
      hide Pow2, And, Shr;
      if reg >= regs.Length || bit1 > 31 || bit2 > 31 {
        return None;
      }
      var l, h := bit1, bit2;
      if bit1 > bit2 {
        l, h := bit2, bit1;
      }
      var v := Shr(regs[reg], l);
      if h < 31 {
        v := And(v, Pow2(h - l + 1) - 1);
      }
      return Some(v);
    }
  }
}
