/** The Internet checksum of the flow generator (app/test-pmd/flowgen.c, `ip_sum`),
    compared with the one's-complement sum of section 2 of RFC 1071. */
module Checksum {
  import opened Basics

  /** One's-complement addition: a carry out of bit 15 is added back in. */
  function OnesAdd(a: uint16, b: uint16): uint16 {
    if a + b > 0xFFFF then a + b - 0xFFFF else a + b
  }

  function OnesSum(ws: seq<uint16>): uint16 {
    if ws == [] then 0 else OnesAdd(OnesSum(ws[..|ws| - 1]), ws[|ws| - 1])
  }

  /** The plain integer sum. */
  function Sum(ws: seq<uint16>): nat {
    if ws == [] then 0 else Sum(ws[..|ws| - 1]) + ws[|ws| - 1]
  }

  /** The one's-complement value a partial sum stands for; only 0 stands for 0. */
  function Canon(n: nat): uint16 {
    if n == 0 then 0 else (n - 1) % 0xFFFF + 1
  }

  /** The words `ip_sum` reads from a header on a little-endian CPU: a trailing odd
      byte is not part of any word. */
  function Words(bytes: seq<byte>): seq<uint16> {
    seq(|bytes| / 2, i requires 0 <= i < |bytes| / 2 => Word(bytes[2 * i], bytes[2 * i + 1]))
  }

  /** What a header's bytes sum to, read from the end: a byte on an even place counts once, one
      on an odd place 0x100 times, and a last byte without a partner not at all. */
  function Weigh(bytes: seq<byte>): nat {
    if bytes == [] then 0
    else
      var n := |bytes| - 1;
      Weigh(bytes[..n]) + if n % 2 == 1 then 0x100 * (bytes[n] as int) + bytes[n - 1] else 0
  }

  /** The same with a last byte counted as if a zero byte followed it, as RFC 1071 has it. */
  function WeighPadded(bytes: seq<byte>): nat {
    Weigh(bytes) + if |bytes| % 2 == 1 then bytes[|bytes| - 1] else 0
  }

  lemma {:induction false} WordsWeigh(bytes: seq<byte>)
    ensures Sum(Words(bytes)) == Weigh(bytes)
  {
    if bytes != [] {
      var n := |bytes| - 1;
      WordsWeigh(bytes[..n]);
      var ws, before := Words(bytes), Words(bytes[..n]);
      if n % 2 == 1 {
        assert ws == before + [Word(bytes[n - 1], bytes[n])];
        assert ws[..|ws| - 1] == before;
      } else {
        assert ws == before;
      }
    }
  }

  function Word(first: byte, second: byte): uint16 {
    first as int + 0x100 * second as int
  }

  /** What RFC 1071 sums: an odd byte is padded with a zero byte. */
  function PaddedWords(bytes: seq<byte>): seq<uint16> {
    if |bytes| % 2 == 0 then Words(bytes) else Words(bytes + [0])
  }

  lemma CanonFold(s: nat)
    ensures Canon(s % 0x1_0000 + s / 0x1_0000) == Canon(s)
  {
    var hi, lo := s / 0x1_0000, s % 0x1_0000;
    assert s == 0xFFFF * hi + (hi + lo);
    CanonShift(hi + lo, hi);
  }

  /** Multiples of 0xFFFF do not change a non-zero partial sum. */
  lemma CanonShift(n: nat, k: nat)
    requires n > 0 || k == 0
    ensures Canon(n + 0xFFFF * k) == Canon(n)
  {
    if n > 0 {
      assert (n + 0xFFFF * k - 1) % 0xFFFF == (n - 1) % 0xFFFF by {
        assert n + 0xFFFF * k - 1 == (n - 1) + 0xFFFF * k;
      }
    }
  }

  lemma CanonSmall(n: nat)
    ensures n <= 0xFFFF ==> Canon(n) == n
  {
  }

  /** Adding a byte changes the sum unless it is zero. */
  lemma CanonByte(s: nat, b: byte)
    ensures Canon(s + b) == Canon(s) <==> b == 0
  {
    CanonAdd(s, b);
  }

  lemma CanonAdd(s: nat, w: uint16)
    ensures Canon(s + w) == OnesAdd(Canon(s), w)
  {
  }

  lemma {:induction false} OnesSumIsCanon(ws: seq<uint16>)
    ensures OnesSum(ws) == Canon(Sum(ws))
  {
    if ws != [] {
      OnesSumIsCanon(ws[..|ws| - 1]);
      CanonAdd(Sum(ws[..|ws| - 1]), ws[|ws| - 1]);
    }
  }

  /** `ip_sum`.  The accumulator never leaves 32 bits, and folding it early changes
      nothing: the result is the complement of the one's-complement sum. */
  method IpSum(hdr: seq<byte>) returns (r: uint16)
    ensures r == 0xFFFF - Canon(Weigh(hdr))
    ensures r == 0xFFFF - OnesSum(Words(hdr))
  {
    hide Weigh, Canon;
    var ws := Words(hdr);
    OnesSumIsCanon(ws);
    WordsWeigh(hdr);
    CanonSmall(0);
    var sum: uint32 := 0;
    var len := |hdr|;
    var i := 0;
    while len > 1
      invariant 0 <= i <= |ws| && len == |hdr| - 2 * i
      invariant sum < 0x8000_0000
      invariant Canon(sum) == OnesSum(ws[..i])
    {
      assert ws[..i + 1][..i] == ws[..i];
      CanonAdd(sum, ws[i]);
      sum := sum + ws[i];
      if sum >= 0x8000_0000 {
        CanonFold(sum);
        sum := sum % 0x1_0000 + sum / 0x1_0000;
      }
      len := len - 2;
      i := i + 1;
    }
    assert ws[..i] == ws;
    while sum >= 0x1_0000
      invariant Canon(sum) == OnesSum(ws)
    {
      CanonFold(sum);
      sum := sum % 0x1_0000 + sum / 0x1_0000;
    }
    CanonSmall(sum);
    r := 0xFFFF - sum;
  }

  lemma {:induction false} SumUpdate(ws: seq<uint16>, p: nat, w: uint16)
    requires p < |ws|
    ensures Sum(ws[p := w]) == Sum(ws) - ws[p] + w
  {
    var n := |ws| - 1;
    if p == n {
      assert ws[p := w][..n] == ws[..n];
    } else {
      assert ws[p := w][..n] == ws[..n][p := w];
      SumUpdate(ws[..n], p, w);
    }
  }

  lemma {:induction false} SumBound(ws: seq<uint16>, p: nat)
    requires p < |ws|
    ensures ws[p] <= Sum(ws)
  {
    if p < |ws| - 1 {
      SumBound(ws[..|ws| - 1], p);
    }
  }

  /** Storing a word at `p`: the one's-complement sum gains that word when the place
      was zero. */
  lemma OnesSumStore(ws: seq<uint16>, p: nat, w: uint16)
    requires p < |ws| && ws[p] == 0
    ensures OnesSum(ws[p := w]) == OnesAdd(OnesSum(ws), w)
  {
    OnesSumIsCanon(ws);
    OnesSumIsCanon(ws[p := w]);
    SumUpdate(ws, p, w);
    CanonAdd(Sum(ws), w);
  }

  /** A header summed with a zero checksum field re-sums to 0 once the result is
      stored, and no other value does, except that 0 and 0xFFFF both stand for zero. */
  lemma StoredChecksumVerifies(ws: seq<uint16>, p: nat, c: uint16)
    requires p < |ws| && ws[p] == 0
    ensures OnesSum(ws[p := c]) == 0xFFFF <==>
              c == 0xFFFF - OnesSum(ws) || (OnesSum(ws) == 0xFFFF && c == 0xFFFF)
  {
    OnesSumStore(ws, p, c);
  }

  /** Re-summing detects the change of any one word of a valid header, except an
      exchange of 0 and 0xFFFF, the two representations of zero. */
  lemma SingleWordChangeDetected(ws: seq<uint16>, p: nat, w: uint16)
    requires p < |ws| && OnesSum(ws) == 0xFFFF && w != ws[p]
    ensures OnesSum(ws[p := w]) == 0xFFFF <==>
              (w == 0xFFFF && ws[p] == 0)
              || (w == 0 && ws[p] == 0xFFFF && OnesSum(ws[p := 0]) != 0)
  {
    var zeroed := ws[p := 0];
    assert zeroed[p := w] == ws[p := w] && zeroed[p := ws[p]] == ws;
    OnesSumStore(zeroed, p, w);
    OnesSumStore(zeroed, p, ws[p]);
  }

  lemma {:induction false} SumPermutation(a: seq<uint16>, b: seq<uint16>)
    requires multiset(a) == multiset(b)
    ensures Sum(a) == Sum(b)
  {
    if a == [] {
      assert |multiset(b)| == 0;
    } else {
      var n := |a| - 1;
      assert a[n] in multiset(b);
      var j :| 0 <= j < |b| && b[j] == a[n];
      MultisetRemove(a, n);
      MultisetRemove(b, j);
      assert a[..n] + a[n + 1..] == a[..n];
      SumPermutation(a[..n], b[..j] + b[j + 1..]);
      SumRemove(b, j);
    }
  }

  lemma MultisetRemove(b: seq<uint16>, j: nat)
    requires j < |b|
    ensures multiset(b[..j] + b[j + 1..]) == multiset(b) - multiset{b[j]}
  {
    assert b == b[..j] + [b[j]] + b[j + 1..];
  }

  lemma {:induction false} SumRemove(b: seq<uint16>, j: nat)
    requires j < |b|
    ensures Sum(b) == Sum(b[..j] + b[j + 1..]) + b[j]
  {
    var n := |b| - 1;
    if j == n {
      assert b[..j] + b[j + 1..] == b[..n];
    } else {
      var rest := b[..j] + b[j + 1..];
      assert rest[..|rest| - 1] == b[..n][..j] + b[..n][j + 1..];
      assert rest[|rest| - 1] == b[n];
      SumRemove(b[..n], j);
    }
  }

  /** The checksum does not depend on the order of the words. */
  lemma OrderIndependent(a: seq<uint16>, b: seq<uint16>)
    requires multiset(a) == multiset(b)
    ensures OnesSum(a) == OnesSum(b)
  {
    SumPermutation(a, b);
    OnesSumIsCanon(a);
    OnesSumIsCanon(b);
  }

  function Swap(w: uint16): uint16 {
    (w % 0x100) * 0x100 + w / 0x100
  }

  function SwapAll(ws: seq<uint16>): seq<uint16> {
    seq(|ws|, i requires 0 <= i < |ws| => Swap(ws[i]))
  }

  /** Swapping the bytes of a word multiplies it by 256 in one's complement. */
  lemma SwapIsCanon(w: uint16)
    ensures Swap(w) == Canon(0x100 * w)
  {
    var hi, lo := w / 0x100, w % 0x100;
    assert 0x100 * w == Swap(w) + 0xFFFF * hi;
    CanonShift(Swap(w), hi);
  }

  lemma SwapAdd(a: uint16, b: uint16)
    ensures OnesAdd(Swap(a), Swap(b)) == Swap(OnesAdd(a, b))
  {
    SwapIsCanon(a);
    SwapIsCanon(OnesAdd(a, b));
    CanonAdd(0x100 * a, Swap(b));
    assert 0x100 * (a + b) == 0x100 * a + Swap(b) + 0xFFFF * (b / 0x100);
    CanonShift(0x100 * a + Swap(b), b / 0x100);
    if a + b > 0xFFFF {
      CanonShift(0x100 * (a + b - 0xFFFF), 0x100);
    }
  }

  /** Byte-swapping all words byte-swaps the sum, so the checksum can be computed in
      either byte order. */
  lemma {:induction false} ByteOrderIndependent(ws: seq<uint16>)
    ensures OnesSum(SwapAll(ws)) == Swap(OnesSum(ws))
  {
    if ws != [] {
      var n := |ws| - 1;
      ByteOrderIndependent(ws[..n]);
      assert SwapAll(ws)[..n] == SwapAll(ws[..n]);
      SwapAdd(OnesSum(ws[..n]), ws[n]);
    }
  }

  /** `ip_sum` computes the checksum RFC 1071 asks for if and only if the length is
      even or the byte it leaves out is zero. */
  lemma MatchesRfc1071(bytes: seq<byte>)
    ensures Canon(Weigh(bytes)) == Canon(WeighPadded(bytes)) <==> |bytes| % 2 == 0 || bytes[|bytes| - 1] == 0
    ensures OnesSum(Words(bytes)) == Canon(Weigh(bytes)) && OnesSum(PaddedWords(bytes)) == Canon(WeighPadded(bytes))
  {
    hide Weigh, Canon, Words, PaddedWords, OnesSum;
    SumWeighs(bytes);
    PaddedSumWeighs(bytes);
    if |bytes| % 2 == 1 {
      CanonByte(Weigh(bytes), bytes[|bytes| - 1]);
    }
  }

  lemma SumWeighs(bytes: seq<byte>)
    ensures OnesSum(Words(bytes)) == Canon(Weigh(bytes))
  {
    hide Canon;
    OnesSumIsCanon(Words(bytes));
    WordsWeigh(bytes);
  }

  lemma PaddedSumWeighs(bytes: seq<byte>)
    ensures OnesSum(PaddedWords(bytes)) == Canon(WeighPadded(bytes))
  {
    hide Canon, Weigh, OnesSum, Words;
    if |bytes| % 2 == 1 {
      SumWeighs(bytes + [0]);
      PaddedWeighs(bytes);
    } else {
      SumWeighs(bytes);
    }
  }

  lemma PaddedWeighs(bytes: seq<byte>)
    requires |bytes| % 2 == 1
    ensures Weigh(bytes + [0]) == WeighPadded(bytes)
  {
    assert (bytes + [0])[..|bytes|] == bytes;
  }
}
