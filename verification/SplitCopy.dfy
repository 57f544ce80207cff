/** Copying a packet into a chain of freshly allocated mbufs (app/test-pmd/csumonly.c,
    `mbuf_copy_split` and `pkt_copy_split`). */
module SplitCopy {
  import opened Basics

  class Mbuf {
    const tailroom: nat
    /** The bytes written from the start of the data area on. */
    var data: seq<byte>
    var dataLen: nat
    var next: Mbuf?
    var nbSegs: nat
    var pktLen: nat

    constructor (tailroom: nat)
      ensures this.tailroom == tailroom
    {
      this.tailroom := tailroom;
      data, dataLen, next, nbSegs, pktLen := [], 0, null, 1, 0;
    }
  }

  datatype CopyResult = Copied | NoBufs | Invalid

  /** The contents of a list of segments. */
  function Flat(ss: seq<seq<byte>>): seq<byte> {
    if ss == [] then [] else Flat(ss[..|ss| - 1]) + ss[|ss| - 1]
  }

  lemma {:induction false} FlatConcat(a: seq<seq<byte>>, b: seq<seq<byte>>)
    ensures Flat(a + b) == Flat(a) + Flat(b)
  {
    if b == [] {
      assert a + b == a;
    } else {
      var n := |b| - 1;
      assert (a + b)[..|a| + n] == a + b[..n];
      FlatConcat(a, b[..n]);
    }
  }

  lemma FlatFirst(ss: seq<seq<byte>>)
    requires ss != []
    ensures Flat(ss) == ss[0] + Flat(ss[1..])
  {
    assert ss == [ss[0]] + ss[1..];
    FlatConcat([ss[0]], ss[1..]);
    assert Flat([ss[0]]) == ss[0];
  }

  lemma FlatSnoc(ss: seq<seq<byte>>, s: seq<byte>)
    ensures Flat(ss + [s]) == Flat(ss) + s
  {
    assert (ss + [s])[..|ss|] == ss;
  }

  function Total(lens: seq<nat>): nat {
    if lens == [] then 0 else Total(lens[..|lens| - 1]) + lens[|lens| - 1]
  }

  lemma {:induction false} TotalPrefix(lens: seq<nat>, i: nat, j: nat)
    requires i <= j <= |lens|
    ensures Total(lens[..i]) <= Total(lens[..j])
  {
    if i < j {
      TotalPrefix(lens, i, j - 1);
      assert lens[..j][..j - 1] == lens[..j - 1];
    }
  }

  /** Bytes the next destination segment takes: it never reaches across the end of the
      current source segment. */
  function TakeLen(rem: seq<seq<byte>>, seglen: nat): nat
    requires rem != []
  {
    Min(seglen, |rem[0]|)
  }

  /** The source after its first `n` bytes were taken. */
  function Advance(rem: seq<seq<byte>>, n: nat): seq<seq<byte>>
    requires rem != [] && n <= |rem[0]|
  {
    if n == |rem[0]| then rem[1..] else [rem[0][n..]] + rem[1..]
  }

  /** The destination segments the copy fills, and what is left of the source. */
  function Pieces(rem: seq<seq<byte>>, seglen: seq<nat>): seq<seq<byte>>
    decreases |seglen|
  {
    if rem == [] || seglen == [] then []
    else [rem[0][..TakeLen(rem, seglen[0])]] + Pieces(Advance(rem, TakeLen(rem, seglen[0])), seglen[1..])
  }

  function Leftover(rem: seq<seq<byte>>, seglen: seq<nat>): seq<seq<byte>>
    decreases |seglen|
  {
    if rem == [] || seglen == [] then rem
    else Leftover(Advance(rem, TakeLen(rem, seglen[0])), seglen[1..])
  }

  lemma AdvanceFlat(rem: seq<seq<byte>>, n: nat)
    requires rem != [] && n <= |rem[0]|
    ensures rem[0][..n] + Flat(Advance(rem, n)) == Flat(rem)
  {
    FlatFirst(rem);
    var rest := Advance(rem, n);
    hide Flat;
    if n < |rem[0]| {
      FlatFirst(rest);
      assert rest[0] == rem[0][n..] && rest[1..] == rem[1..];
      Rejoin(rem[0], n, Flat(rem[1..]));
    } else {
      assert rest == rem[1..] && rem[0][..n] == rem[0];
    }
  }

  lemma Rejoin(s: seq<byte>, n: nat, t: seq<byte>)
    requires n <= |s|
    ensures s[..n] + (s[n..] + t) == s + t
  {
    assert s == s[..n] + s[n..];
  }

  /** Nothing is lost, repeated or reordered, and no segment gets more than its length. */
  lemma {:induction false} PiecesFlat(rem: seq<seq<byte>>, seglen: seq<nat>)
    ensures Flat(Pieces(rem, seglen)) + Flat(Leftover(rem, seglen)) == Flat(rem)
    ensures |Pieces(rem, seglen)| <= |seglen|
    ensures forall k :: 0 <= k < |Pieces(rem, seglen)| ==> |Pieces(rem, seglen)[k]| <= seglen[k]
    decreases |seglen|
  {
    if rem != [] && seglen != [] {
      var n := TakeLen(rem, seglen[0]);
      var rest := Pieces(Advance(rem, n), seglen[1..]);
      PiecesFlat(Advance(rem, n), seglen[1..]);
      AdvanceFlat(rem, n);
      FlatConcat([rem[0][..n]], rest);
      assert Flat([rem[0][..n]]) == rem[0][..n];
    }
  }

  lemma {:induction false} PiecesTotal(ps: seq<seq<byte>>, seglen: seq<nat>)
    requires |ps| <= |seglen| && forall k :: 0 <= k < |ps| ==> |ps[k]| <= seglen[k]
    ensures |Flat(ps)| <= Total(seglen[..|ps|])
  {
    if ps != [] {
      var n := |ps| - 1;
      PiecesTotal(ps[..n], seglen);
      assert seglen[..|ps|][..n] == seglen[..n];
    }
  }

  /** If all but the last segment are too small for the packet and the source is used
      up, every segment is used. */
  lemma EverySegmentUsed(src: seq<seq<byte>>, seglen: seq<nat>)
    requires seglen != [] && Leftover(src, seglen) == []
    requires Total(seglen[..|seglen| - 1]) < |Flat(src)|
    ensures |Pieces(src, seglen)| == |seglen| && Flat(Pieces(src, seglen)) == Flat(src)
  {
    var ps := Pieces(src, seglen);
    PiecesFlat(src, seglen);
    assert Flat(Leftover(src, seglen)) == [];
    hide Pieces, Leftover, Flat, Total;
    PiecesTotal(ps, seglen);
    if |ps| < |seglen| {
      TotalPrefix(seglen, |ps|, |seglen| - 1);
    }
  }

  /** A packet in one segment is always split successfully when the lengths suffice. */
  lemma {:induction false} OneSegmentFits(s: seq<byte>, seglen: seq<nat>)
    requires |s| <= Total(seglen) && seglen != []
    ensures Leftover([s], seglen) == []
    decreases |seglen|
  {
    TotalFirst(seglen);
    var n := TakeLen([s], seglen[0]);
    if n < |s| {
      assert Advance([s], n) == [s[n..]];
      OneSegmentFits(s[n..], seglen[1..]);
    }
  }

  lemma {:induction false} TotalFirst(lens: seq<nat>)
    requires lens != []
    ensures Total(lens) == lens[0] + Total(lens[1..])
  {
    var n := |lens| - 1;
    if n > 0 {
      TotalFirst(lens[..n]);
      assert lens[..n][1..] == lens[1..][..n - 1];
    }
  }

  // ------------------------------------------------- several source segments

  function Lengths(src: seq<seq<byte>>): (r: seq<nat>)
    ensures |r| == |src|
  {
    seq(|src|, i requires 0 <= i < |src| => |src[i]|)
  }

  /** The destination lengths can be cut into consecutive runs, one for each source segment
      and none of them empty, that are each at least as long as their segment. */
  ghost predicate CutsInto(lens: seq<nat>, seglen: seq<nat>)
    decreases |lens|
  {
    lens == [] || exists k: nat :: RunFits(lens, seglen, k) && CutsInto(lens[1..], seglen[k..])
  }

  predicate RunFits(lens: seq<nat>, seglen: seq<nat>, k: nat) {
    lens != [] && 1 <= k <= |seglen| && lens[0] <= Total(seglen[..k])
  }

  /** More lengths in front do no harm. */
  lemma {:induction false} CutsMore(lens: seq<nat>, extra: nat, seglen: seq<nat>)
    requires CutsInto(lens, seglen)
    ensures CutsInto(lens, [extra] + seglen)
  {
    if lens != [] {
      var k: nat :| RunFits(lens, seglen, k) && CutsInto(lens[1..], seglen[k..]);
      var more := [extra] + seglen;
      assert more[..k + 1] == [extra] + seglen[..k] && more[k + 1..] == seglen[k..];
      TotalFirst([extra] + seglen[..k]);
      assert ([extra] + seglen[..k])[1..] == seglen[..k];
      assert RunFits(lens, more, k + 1);
    }
  }

  lemma {:induction false} CutsEarlier(lens: seq<nat>, seglen: seq<nat>, i: nat, j: nat)
    requires i <= j <= |seglen| && CutsInto(lens, seglen[j..])
    ensures CutsInto(lens, seglen[i..])
    decreases j - i
  {
    if i < j {
      CutsEarlier(lens, seglen, i + 1, j);
      CutsMore(lens, seglen[i], seglen[i + 1..]);
      assert seglen[i..] == [seglen[i]] + seglen[i + 1..];
    }
  }

  /** A first destination that covers the first source segment takes just that one. */
  lemma CutCovered(lens: seq<nat>, seglen: seq<nat>)
    requires lens != [] && seglen != [] && lens[0] <= seglen[0]
    ensures CutsInto(lens, seglen) <==> CutsInto(lens[1..], seglen[1..])
  {
    if CutsInto(lens, seglen) {
      var k: nat :| RunFits(lens, seglen, k) && CutsInto(lens[1..], seglen[k..]);
      CutsEarlier(lens[1..], seglen, 1, k);
    }
    assert seglen[..1] == [seglen[0]];
    TotalFirst(seglen[..1]);
    assert RunFits(lens, seglen, 1);
  }

  /** One that does not covers a part of it. */
  lemma CutPartly(lens: seq<nat>, seglen: seq<nat>)
    requires lens != [] && seglen != [] && seglen[0] < lens[0]
    ensures CutsInto(lens, seglen) <==> CutsInto([lens[0] - seglen[0]] + lens[1..], seglen[1..])
  {
    var lens', rest := [lens[0] - seglen[0]] + lens[1..], seglen[1..];
    assert lens'[1..] == lens[1..];
    forall k: nat | 1 <= k <= |rest|
      ensures RunFits(lens', rest, k) <==> RunFits(lens, seglen, k + 1)
      ensures seglen[k + 1..] == rest[k..]
    {
      TotalFirst(seglen[..k + 1]);
      assert seglen[..k + 1][1..] == rest[..k];
    }
    TotalFirst(seglen[..1]);
    assert seglen[..1][1..] == [] && !RunFits(lens, seglen, 1);
    if CutsInto(lens, seglen) {
      var k: nat :| RunFits(lens, seglen, k) && CutsInto(lens[1..], seglen[k..]);
      assert RunFits(lens', rest, k - 1) && CutsInto(lens'[1..], rest[k - 1..]);
    }
    if CutsInto(lens', rest) {
      var k: nat :| RunFits(lens', rest, k) && CutsInto(lens'[1..], rest[k..]);
      assert RunFits(lens, seglen, k + 1) && CutsInto(lens[1..], seglen[k + 1..]);
    }
  }

  lemma AdvanceLengths(rem: seq<seq<byte>>, n: nat)
    requires rem != [] && n <= |rem[0]|
    ensures Lengths(Advance(rem, n)) ==
              if n == |rem[0]| then Lengths(rem)[1..] else [|rem[0]| - n] + Lengths(rem)[1..]
  {
  }

  /** The copy uses up its source if and only if the destination lengths can be cut into
      runs that cover the source segments one by one. */
  lemma {:induction false} CopiedExactly(rem: seq<seq<byte>>, seglen: seq<nat>)
    ensures Leftover(rem, seglen) == [] <==> CutsInto(Lengths(rem), seglen)
    decreases |seglen|
  {
    if rem != [] && seglen != [] {
      hide CutsInto;
      var n := TakeLen(rem, seglen[0]);
      AdvanceLengths(rem, n);
      CopiedExactly(Advance(rem, n), seglen[1..]);
      if |rem[0]| <= seglen[0] {
        CutCovered(Lengths(rem), seglen);
      } else {
        CutPartly(Lengths(rem), seglen);
      }
    }
  }

  /** Two source segments of 10 bytes do not go into one destination of 20: a destination
      never reaches across the end of a source segment. */
  lemma TwoIntoOneFails(a: seq<byte>, b: seq<byte>)
    requires |a| == |b| == 10
    ensures Total([20]) == |Flat([a, b])| == 20 && Leftover([a, b], [20]) != [] && !CutsInto([10, 10], [20])
  {
    FlatFirst([a, b]);
    assert [a, b][1..] == [b];
    FlatFirst([b]);
    TotalFirst([20]);
    assert Advance([a, b], 10) == [b];
    CopiedExactly([a, b], [20]);
    assert Lengths([a, b]) == [10, 10];
  }

  /** `md` is linked in order and ends the chain. */
  ghost predicate Chained(md: seq<Mbuf>, n: nat)
    reads md
  {
    n <= |md| && forall k :: 0 <= k < n ==> md[k].next == if k + 1 == |md| then null else md[k + 1]
  }

  /** The first `|ps|` mbufs hold `ps`. */
  ghost predicate Holds(md: seq<Mbuf>, ps: seq<seq<byte>>)
    reads md
  {
    |ps| <= |md| && forall k :: 0 <= k < |ps| ==> md[k].data == ps[k] && md[k].dataLen == |ps[k]|
  }

  /** The remaining source at segment `j` with `slen` bytes of it left to copy (0 when
      the segment has not been opened). */
  function Remaining(src: seq<seq<byte>>, j: nat, slen: nat): seq<seq<byte>>
    requires j <= |src| && (slen > 0 ==> j < |src| && slen <= |src[j]|)
  {
    if slen == 0 then src[j..] else [src[j][|src[j]| - slen..]] + src[j + 1..]
  }

  /** One round of the copy in terms of the remaining source. */
  lemma OpenAndTake(src: seq<seq<byte>>, j: nat, slen0: nat, slen: nat, seg: nat)
    requires j < |src| && slen0 <= |src[j]| && slen == if slen0 == 0 then |src[j]| else slen0
    ensures var rem, off, len := Remaining(src, j, slen0), |src[j]| - slen, Min(seg, slen);
            && rem != [] && TakeLen(rem, seg) == len
            && rem[0][..len] == src[j][off..off + len]
            && Advance(rem, len) == if len == slen then Remaining(src, j + 1, 0) else Remaining(src, j, slen - len)
  {
    var rem, off, len := Remaining(src, j, slen0), |src[j]| - slen, Min(seg, slen);
    assert rem == [src[j][off..]] + src[j + 1..];
    assert rem[0] == src[j][off..];
    assert src[j][off..][..len] == src[j][off..off + len];
    assert src[j][off..][len..] == src[j][off + len..];
  }

  lemma PiecesStep(rem: seq<seq<byte>>, seglen: seq<nat>, i: nat)
    requires rem != [] && i < |seglen|
    ensures var n := TakeLen(rem, seglen[i]);
            && Pieces(rem, seglen[i..]) == [rem[0][..n]] + Pieces(Advance(rem, n), seglen[i + 1..])
            && Leftover(rem, seglen[i..]) == Leftover(Advance(rem, n), seglen[i + 1..])
  {
    assert seglen[i..][0] == seglen[i] && seglen[i..][1..] == seglen[i + 1..];
  }

  lemma PiecesEnd(rem: seq<seq<byte>>, seglen: seq<nat>)
    requires rem == [] || seglen == []
    ensures Pieces(rem, seglen) == [] && Leftover(rem, seglen) == rem
  {
  }

  /** State of the copy after `|done|` destination segments, with `rem` to come. */
  ghost predicate Progress(src: seq<seq<byte>>, seglen: seq<nat>, done: seq<seq<byte>>, rem: seq<seq<byte>>) {
    && |done| <= |seglen|
    && done + Pieces(rem, seglen[|done|..]) == Pieces(src, seglen)
    && Leftover(rem, seglen[|done|..]) == Leftover(src, seglen)
  }

  lemma ProgressStart(src: seq<seq<byte>>, seglen: seq<nat>)
    ensures Progress(src, seglen, [], src) && Remaining(src, 0, 0) == src && Flat([]) == []
  {
    assert seglen[0..] == seglen && src[0..] == src;
  }

  lemma ProgressStep(src: seq<seq<byte>>, seglen: seq<nat>, done: seq<seq<byte>>, rem: seq<seq<byte>>)
    requires Progress(src, seglen, done, rem) && rem != [] && |done| < |seglen|
    ensures var n := TakeLen(rem, seglen[|done|]);
            Progress(src, seglen, done + [rem[0][..n]], Advance(rem, n))
  {
    hide Pieces, Leftover, Advance;
    PiecesStep(rem, seglen, |done|);
    var n := TakeLen(rem, seglen[|done|]);
    var tail := Pieces(Advance(rem, n), seglen[|done| + 1..]);
    assert done + ([rem[0][..n]] + tail) == done + [rem[0][..n]] + tail;
  }

  lemma ProgressEnd(src: seq<seq<byte>>, seglen: seq<nat>, done: seq<seq<byte>>, rem: seq<seq<byte>>)
    requires Progress(src, seglen, done, rem) && (rem == [] || |done| == |seglen|)
    ensures done == Pieces(src, seglen) && rem == Leftover(src, seglen)
    ensures |Flat(done)| + |Flat(rem)| == |Flat(src)|
  {
    PiecesEnd(rem, seglen[|done|..]);
    PiecesFlat(src, seglen);
  }

  /** Some mbuf received more than it has room for. */
  ghost predicate Overrun(md: seq<Mbuf>, ps: seq<seq<byte>>) {
    |ps| <= |md| && exists k :: 0 <= k < |ps| && |ps[k]| > md[k].tailroom
  }

  lemma OverrunStep(md: seq<Mbuf>, ps: seq<seq<byte>>, p: seq<byte>)
    requires |ps| < |md|
    ensures Overrun(md, ps + [p]) <==> Overrun(md, ps) || |p| > md[|ps|].tailroom
  {
    if Overrun(md, ps) {
      var k :| 0 <= k < |ps| && |ps[k]| > md[k].tailroom;
      assert (ps + [p])[k] == ps[k];
    }
    if |p| > md[|ps|].tailroom {
      assert (ps + [p])[|ps|] == p;
    }
  }

  /** Sets up destination segment `i` and copies `chunk` into it. */
  method FillSegment(md: seq<Mbuf>, i: nat, chunk: seq<byte>, ghost done: seq<seq<byte>>) returns (over: bool)
    requires i < |md| && |done| == i && Distinct(md) && Holds(md, done) && Chained(md, i)
    modifies md
    ensures Holds(md, done + [chunk]) && Chained(md, i + 1)
    ensures over <==> |chunk| > md[i].tailroom
  {
    md[i].dataLen := |chunk|;
    md[i].next := if i + 1 == |md| then null else md[i + 1];
    md[i].data := chunk;
    over := |chunk| > md[i].tailroom;
  }

  /** `mbuf_copy_split`: fills `md` from the source chain `src`.  `overran` reports a
      write past the tail of an mbuf. */
  method CopySplit(src: seq<seq<byte>>, pktLen: nat, md: seq<Mbuf>, seglen: seq<uint16>)
      returns (rc: CopyResult, overran: bool)
    requires |md| == |seglen| >= 1 && Distinct(md)
    modifies md
    ensures Holds(md, Pieces(src, seglen)) && Chained(md, |Pieces(src, seglen)|)
    ensures rc == NoBufs <==> Leftover(src, seglen) != []
    ensures rc == Invalid <==> Leftover(src, seglen) == [] && |Flat(src)| != pktLen
    ensures rc == Copied ==> md[0].nbSegs == |md| && md[0].pktLen == pktLen
    ensures overran <==> Overrun(md, Pieces(src, seglen))
  {
    hide Progress, Pieces, Leftover, Holds, Chained, Overrun, Remaining, Flat, Advance;
    var i, j, slen, tlen := 0, 0, 0, 0;
    ghost var done := [];
    overran := Nothing(md, done);
    ProgressStart(src, seglen);
    while j < |src| && i != |md|
      invariant 0 <= i <= |md| && j <= |src| && (slen > 0 ==> j < |src| && slen <= |src[j]|) && slen >= 0
      invariant |done| == i && Holds(md, done) && Chained(md, i)
      invariant Progress(src, seglen, done, Remaining(src, j, slen))
      invariant tlen == |Flat(done)| && (overran <==> Overrun(md, done))
      decreases |md| - i
    {
      ghost var slen0 := slen;
      if slen == 0 {
        slen := |src[j]|;
      }
      // a destination segment is opened only while source bytes are at hand, so it is
      // filled in the same round
      var dlen := Min(seglen[i], slen);
      var off := |src[j]| - slen;
      var chunk := src[j][off..off + dlen];
      OpenAndTake(src, j, slen0, slen, seglen[i]);
      ProgressStep(src, seglen, done, Remaining(src, j, slen0));
      OverrunStep(md, done, chunk);
      FlatSnoc(done, chunk);
      var over := FillSegment(md, i, chunk, done);
      overran := overran || over;
      done := done + [chunk];
      tlen := tlen + dlen;
      slen := slen - dlen;
      if slen == 0 {
        j := j + 1;
      }
      i := i + 1;
    }
    RemainingNone(src, j, slen);
    ProgressEnd(src, seglen, done, Remaining(src, j, slen));
    if j < |src| {
      rc := NoBufs;
    } else if tlen != pktLen {
      rc := Invalid;
    } else {
      rc := Copied;
      SetHeader(md, pktLen, done);
    }
  }

  method Nothing(md: seq<Mbuf>, ghost ps: seq<seq<byte>>) returns (overran: bool)
    requires ps == []
    ensures !overran && !Overrun(md, ps) && Holds(md, ps) && Chained(md, 0)
  {
    overran := false;
  }

  lemma RemainingNone(src: seq<seq<byte>>, j: nat, slen: nat)
    requires j <= |src| && (slen > 0 ==> j < |src| && slen <= |src[j]|)
    ensures Remaining(src, j, slen) == [] <==> j == |src|
    ensures j == |src| ==> Flat(Remaining(src, j, slen)) == []
  {
  }

  method SetHeader(md: seq<Mbuf>, pktLen: nat, ghost ps: seq<seq<byte>>)
    requires md != [] && Holds(md, ps) && Chained(md, |ps|)
    modifies md
    ensures Holds(md, ps) && Chained(md, |ps|) && md[0].nbSegs == |md| && md[0].pktLen == pktLen
  {
    md[0].nbSegs := |md|;
    md[0].pktLen := pktLen;
  }

  /** How many of the configured segments are used: as many as it takes to hold the packet,
      or all. */
  function Used(pktLen: nat, lens: seq<uint16>): (n: nat)
    ensures n <= |lens| && (n == 0 <==> pktLen == 0 || lens == [])
    decreases |lens|
  {
    if pktLen == 0 || lens == [] then 0 else 1 + Used(if lens[0] < pktLen then pktLen - lens[0] else 0, lens[1..])
  }

  /** Their lengths: the last one takes what the packet has left over, in 16 bits. */
  function Planned(pktLen: nat, lens: seq<uint16>): (r: seq<uint16>)
    requires pktLen > 0 && lens != []
    ensures |r| == Used(pktLen, lens)
  {
    var seglen := lens[..Used(pktLen, lens)];
    var last := |seglen| - 1;
    if Total(seglen) <= pktLen then seglen[last := (seglen[last] + pktLen - Total(seglen)) % 0x1_0000] else seglen
  }

  lemma {:induction false} UsedIs(pktLen: nat, lens: seq<uint16>, i: nat)
    requires i <= |lens| && (i > 0 ==> Total(lens[..i - 1]) < pktLen)
    requires i == |lens| || pktLen <= Total(lens[..i])
    ensures Used(pktLen, lens) == i
    decreases |lens|
  {
    if i > 0 {
      TotalFirst(lens[..i]);
      assert lens[..i][1..] == lens[1..][..i - 1];
      if i > 1 {
        TotalFirst(lens[..i - 1]);
        assert lens[..i - 1][1..] == lens[1..][..i - 2];
        UsedIs(pktLen - lens[0], lens[1..], i - 1);
      }
    }
  }

  /** The planned lengths.  If no segment is used, because the packet is empty or none is
      configured, the source adjusts the entry before its array: `None`, and only then. */
  method PlanSegments(pktLen: nat, lens: seq<uint16>) returns (plan: Option<seq<uint16>>)
    ensures plan.None? <==> pktLen == 0 || lens == []
    ensures plan.Some? ==> plan.value == Planned(pktLen, lens)
    ensures plan.Some? ==> 1 <= |plan.value| <= |lens|
    ensures plan.Some? ==> plan.value[..|plan.value| - 1] == lens[..|plan.value| - 1]
    ensures plan.Some? ==> Total(plan.value[..|plan.value| - 1]) < pktLen
    ensures plan.Some? && pktLen < 0x1_0000 ==> pktLen <= Total(plan.value)
  {
    var i, len := 0, 0;
    while i != |lens| && len < pktLen
      invariant 0 <= i <= |lens| && len == Total(lens[..i])
      invariant i > 0 ==> Total(lens[..i - 1]) < pktLen
      invariant i == 0 ==> len == 0
      decreases |lens| - i
    {
      assert lens[..i + 1][..i] == lens[..i];
      len := len + lens[i];
      i := i + 1;
    }
    UsedIs(pktLen, lens, i);
    var n := pktLen - len;
    if i == 0 {
      assert n >= 0;
      return None;
    }
    var seglen := lens[..i];
    assert lens[..i][..i - 1] == lens[..i - 1];
    if n >= 0 {
      seglen := seglen[i - 1 := (seglen[i - 1] + n) % 0x1_0000];
      assert seglen[..i - 1] == lens[..i - 1];
      assert Total(seglen) == Total(lens[..i - 1]) + seglen[i - 1];
    }
    return Some(seglen);
  }

  /** What a mempool answers to the `t`-th allocation of a call: nothing, or an mbuf with that
      much tailroom. */
  type Pool = nat -> Option<nat>

  /** `rte_pktmbuf_alloc`: a new mbuf with the tailroom its pool gives, or none. */
  method Alloc(pool: Pool, t: nat) returns (p: Mbuf?)
    ensures p != null ==> fresh(p)
    ensures if p == null then pool(t).None? else pool(t) == Some(p.tailroom)
  {
    p := null;
    if pool(t).Some? {
      p := new Mbuf(pool(t).value);
    }
  }

  /** The mempool has an mbuf for every segment, each but the first large enough. */
  predicate Supplies(pool: Pool, seglen: seq<nat>) {
    forall t :: 0 <= t < |seglen| ==>
      pool(t).Some? && (t < |seglen| - 1 ==> seglen[|seglen| - 1 - t] <= pool(t).value)
  }

  /** Allocates from the last segment to the first, stopping at the first failure or
      too small an mbuf. */
  method AllocSegments(seglen: seq<uint16>, pool: Pool) returns (i: nat, md: seq<Mbuf>)
    ensures i + |md| == |seglen| && Distinct(md) && forall k :: 0 <= k < |md| ==> fresh(md[k])
    ensures forall k :: 0 < k < |md| ==> seglen[i + k] <= md[k].tailroom
    ensures From(md, pool)
    ensures i > 0 ==> pool(|md|).None? || (md != [] && md[0].tailroom < seglen[i])
  {
    i, md := |seglen|, [];
    while i != 0
      invariant i + |md| == |seglen| && Distinct(md) && From(md, pool)
      invariant forall k :: 0 <= k < |md| ==> fresh(md[k]) && seglen[i + k] <= md[k].tailroom
    {
      var p := Alloc(pool, |md|);
      if p == null {
        return;
      }
      i := i - 1;
      FromMore(md, pool, p);
      md := [p] + md;
      if p.tailroom < seglen[i] {
        return;
      }
    }
  }

  /** The mbufs are the mempool's answers, the last one first. */
  ghost predicate From(md: seq<Mbuf>, pool: Pool) {
    forall k :: 0 <= k < |md| ==> pool(|md| - 1 - k) == Some(md[k].tailroom)
  }

  lemma FromMore(md: seq<Mbuf>, pool: Pool, p: Mbuf)
    requires From(md, pool) && pool(|md|) == Some(p.tailroom)
    ensures From([p] + md, pool)
  {
    var more := [p] + md;
    forall k | 0 <= k < |more|
      ensures pool(|more| - 1 - k) == Some(more[k].tailroom)
    {
      if k > 0 {
        assert pool(|md| - 1 - (k - 1)) == Some(md[k - 1].tailroom);
      }
    }
  }

  /** All segments get an mbuf exactly if the mempool supplies them: a failed check stops the
      allocation short, unless it is that of the first mbuf. */
  lemma SuppliedExactly(seglen: seq<nat>, pool: Pool, md: seq<Mbuf>, i: nat)
    requires i + |md| == |seglen| && From(md, pool)
    requires forall k :: 0 < k < |md| ==> seglen[i + k] <= md[k].tailroom
    requires i > 0 ==> pool(|md|).None? || (md != [] && md[0].tailroom < seglen[i])
    ensures i == 0 <==> Supplies(pool, seglen)
  {
    if i == 0 {
      forall t | 0 <= t < |seglen|
        ensures pool(t).Some? && (t < |seglen| - 1 ==> seglen[|seglen| - 1 - t] <= pool(t).value)
      {
        assert pool(|md| - 1 - (|md| - 1 - t)) == Some(md[|md| - 1 - t].tailroom);
      }
    } else if md != [] {
      assert pool(|md| - 1 - 0) == Some(md[0].tailroom);
    }
  }

  /** `pkt_copy_split`.  A non-null result heads a chain of exactly the planned number
      of mbufs holding the packet; otherwise every allocated mbuf has been freed, once.
      The only mbuf that can be written past its tail is the first one, because the
      check of its tailroom leaves the allocation loop with the same counter value as
      success.  `defined` is false when no segment is planned: the source then writes before
      its array and returns a pointer it never set. */
  method PktCopySplit(src: seq<seq<byte>>, pktLen: nat, lens: seq<uint16>, pool: Pool)
      returns (defined: bool, head: Mbuf?, overran: bool,
               ghost seglen: seq<uint16>, ghost allocd: seq<Mbuf>, ghost freed: seq<Mbuf>)
    ensures defined <==> pktLen > 0 && lens != []
    ensures !defined ==> head == null && allocd == []
    ensures Distinct(allocd) && (forall k :: 0 <= k < |allocd| ==> fresh(allocd[k]))
    ensures defined ==> seglen == Planned(pktLen, lens) && 1 <= |seglen|
    ensures defined && pktLen < 0x1_0000 ==> pktLen <= Total(seglen)
    ensures defined ==>
              (head != null <==> Supplies(pool, seglen) && CutsInto(Lengths(src), seglen) && |Flat(src)| == pktLen)
    ensures defined ==> (|allocd| == |seglen| <==> Supplies(pool, seglen))
    ensures From(allocd, pool)
    ensures head == null ==> freed == allocd
    ensures head != null ==> freed == [] && |allocd| > 0 && head == allocd[0] && Chained(allocd, |allocd|)
    ensures head != null ==> exists ps :: |ps| == |allocd| && Holds(allocd, ps) && Flat(ps) == Flat(src)
    ensures head != null ==> head.nbSegs == |allocd| && head.pktLen == pktLen
    ensures defined && |src| == 1 && |src[0]| == pktLen < 0x1_0000 && Supplies(pool, seglen) ==> head != null
    ensures overran <==>
              defined && Supplies(pool, seglen) && src != [] &&
              Min(seglen[0], |src[0]|) > pool(|seglen| - 1).value
  {
    hide Pieces, Leftover, Flat, Holds, Chained, Overrun, Total, Distinct, CutsInto, Lengths, Planned, Supplies;
    var plan := PlanSegments(pktLen, lens);
    seglen, allocd, freed, overran, head := [], [], [], false, null;
    NoneDistinct();
    if plan.None? {
      return false, null, false, [], [], [];
    }
    defined, seglen := true, plan.value;
    head, overran, allocd, freed := CopyInto(src, pktLen, plan.value, pool);
  }

  lemma NoneDistinct()
    ensures Distinct<Mbuf>([])
  {
  }

  /** The rest of `pkt_copy_split`, with the segments planned. */
  method CopyInto(src: seq<seq<byte>>, pktLen: nat, seglen: seq<uint16>, pool: Pool)
      returns (head: Mbuf?, overran: bool, ghost allocd: seq<Mbuf>, ghost freed: seq<Mbuf>)
    requires 1 <= |seglen| && Total(seglen[..|seglen| - 1]) < pktLen && (pktLen < 0x1_0000 ==> pktLen <= Total(seglen))
    ensures Distinct(allocd) && (forall k :: 0 <= k < |allocd| ==> fresh(allocd[k]))
    ensures head != null <==> Supplies(pool, seglen) && CutsInto(Lengths(src), seglen) && |Flat(src)| == pktLen
    ensures |allocd| == |seglen| <==> Supplies(pool, seglen)
    ensures From(allocd, pool)
    ensures head == null ==> freed == allocd
    ensures head != null ==> freed == [] && head == allocd[0] && Chained(allocd, |allocd|)
    ensures head != null ==> exists ps :: |ps| == |allocd| && Holds(allocd, ps) && Flat(ps) == Flat(src)
    ensures head != null ==> head.nbSegs == |allocd| && head.pktLen == pktLen
    ensures |src| == 1 && |src[0]| == pktLen < 0x1_0000 && Supplies(pool, seglen) ==> head != null
    ensures overran <==> Supplies(pool, seglen) && src != [] && Min(seglen[0], |src[0]|) > allocd[0].tailroom
  {
    hide Pieces, Leftover, Flat, Holds, Chained, Overrun, Total, Distinct, CutsInto, Lengths, Supplies;
    CopiedExactly(src, seglen);
    var i, md := AllocSegments(seglen, pool);
    SuppliedExactly(seglen, pool, md, i);
    allocd, overran, head := md, false, null;
    if i == 0 {
      var rc;
      rc, overran := CopySplit(src, pktLen, md, seglen);
      OnlyFirstOverruns(src, seglen, md);
      if rc == Copied {
        EverySegmentUsed(src, seglen);
        i := |seglen|;
        head := md[0];
      }
    }
    freed := Free(md, if head == null then 0 else |md|);
    OneSegmentPlan(src, seglen, pktLen);
  }

  /** Frees `md[k..]`. */
  method Free(md: seq<Mbuf>, k: nat) returns (ghost freed: seq<Mbuf>)
    requires k <= |md|
    ensures freed == md[k..]
  {
    var i := k;
    freed := [];
    while i != |md|
      invariant k <= i <= |md| && freed == md[k..i]
    {
      freed := freed + [md[i]];
      i := i + 1;
    }
  }

  lemma OneSegmentPlan(src: seq<seq<byte>>, seglen: seq<nat>, pktLen: nat)
    requires seglen != []
    ensures |src| == 1 && |src[0]| == pktLen <= Total(seglen) ==> Leftover(src, seglen) == [] && |Flat(src)| == pktLen
  {
    if |src| == 1 && |src[0]| == pktLen <= Total(seglen) {
      OneSegmentFits(src[0], seglen);
      assert src == [src[0]] && Flat([src[0]]) == src[0];
    }
  }

  /** Every mbuf but the first was checked before the copy. */
  lemma OnlyFirstOverruns(src: seq<seq<byte>>, seglen: seq<nat>, md: seq<Mbuf>)
    requires |md| == |seglen| >= 1
    requires forall k :: 0 < k < |md| ==> seglen[k] <= md[k].tailroom
    ensures Overrun(md, Pieces(src, seglen)) <==> src != [] && Min(seglen[0], |src[0]|) > md[0].tailroom
  {
    PiecesFlat(src, seglen);
    if src != [] {
      assert Pieces(src, seglen)[0] == src[0][..TakeLen(src, seglen[0])];
    }
  }

  /** A packet of 100 bytes in one segment overruns a first mbuf with 64 bytes of room:
      the copy is attempted although the tailroom check failed. */
  lemma FirstTailroomUnchecked(m: Mbuf)
    requires m.tailroom == 64
    ensures Overrun([m], Pieces([seq(100, _ => 0)], [100]))
  {
    var s: seq<byte> := seq(100, _ => 0);
    assert Pieces([s], [100])[0] == s[..100];
  }
}
