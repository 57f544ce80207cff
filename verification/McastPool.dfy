/** The pool of filtered multicast addresses of a port (app/test-pmd/config.c): a
    compacted array that grows in chunks of 32 entries. */
module McastPool {
  import opened Basics

  type EtherAddr = x: int | 0 <= x < 0x1_0000_0000_0000

  const MCAST_POOL_INC: nat := 32

  datatype Command = Add(addr: EtherAddr, reallocOk: bool) | Remove(addr: EtherAddr)

  function RoundUp(n: nat): nat {
    (n + MCAST_POOL_INC - 1) / MCAST_POOL_INC * MCAST_POOL_INC
  }

  /** `s` without its entry `a`, the others in their order. */
  function Without(s: seq<EtherAddr>, a: EtherAddr): seq<EtherAddr> {
    if s == [] then []
    else if s[|s| - 1] == a then s[..|s| - 1]
    else Without(s[..|s| - 1], a) + [s[|s| - 1]]
  }

  /** Whether an addition finds a free entry or gets a larger pool. */
  predicate HasRoom(s: seq<EtherAddr>, reallocOk: bool) {
    |s| % MCAST_POOL_INC != 0 || reallocOk
  }

  /** The effect of one command on the recorded addresses. */
  function Step(s: seq<EtherAddr>, c: Command): seq<EtherAddr> {
    match c
    case Add(a, ok) => if a in s || !HasRoom(s, ok) then s else s + [a]
    case Remove(a) => Without(s, a)
  }

  function Recorded(cs: seq<Command>): seq<EtherAddr> {
    if cs == [] then [] else Step(Recorded(cs[..|cs| - 1]), cs[|cs| - 1])
  }

  lemma {:induction false} WithoutCuts(s: seq<EtherAddr>, i: nat)
    requires Distinct(s) && i < |s|
    ensures Without(s, s[i]) == s[..i] + s[i + 1..]
  {
    var n := |s| - 1;
    if i < n {
      WithoutCuts(s[..n], i);
      assert s[..i] + s[i + 1..] == s[..n][..i] + s[..n][i + 1..] + [s[n]];
    } else {
      assert s[..n] == s[..i] + s[i + 1..];
    }
  }

  lemma {:induction false} WithoutAbsent(s: seq<EtherAddr>, a: EtherAddr)
    requires a !in s
    ensures Without(s, a) == s
  {
    if s != [] {
      var n := |s| - 1;
      WithoutAbsent(s[..n], a);
      assert s == s[..n] + [s[n]];
    }
  }

  lemma WithoutMembers(s: seq<EtherAddr>, a: EtherAddr)
    requires Distinct(s)
    ensures Distinct(Without(s, a)) && a !in Without(s, a)
    ensures forall x :: x != a ==> (x in Without(s, a) <==> x in s)
  {
    if a in s {
      var i :| 0 <= i < |s| && s[i] == a;
      WithoutCuts(s, i);
      forall x | x != a
        ensures x in Without(s, a) <==> x in s
      {
        assert s == s[..i] + [a] + s[i + 1..];
      }
    } else {
      WithoutAbsent(s, a);
    }
  }

  lemma {:induction false} RecordedNoDuplicates(cs: seq<Command>)
    ensures Distinct(Recorded(cs))
  {
    if cs != [] {
      var n := |cs| - 1;
      RecordedNoDuplicates(cs[..n]);
      WithoutMembers(Recorded(cs[..n]), cs[n].addr);
    }
  }

  /** Command `i` of a history added `a`, found room, and nothing removed it since. */
  ghost predicate AddedAndKept(cs: seq<Command>, a: EtherAddr, i: nat) {
    && i < |cs|
    && cs[i].Add? && cs[i].addr == a
    && (a in Recorded(cs[..i]) || HasRoom(Recorded(cs[..i]), cs[i].reallocOk))
    && forall j :: i < j < |cs| ==> cs[j] != Remove(a)
  }

  lemma StepMembers(s: seq<EtherAddr>, c: Command, a: EtherAddr)
    requires Distinct(s)
    ensures a in Step(s, c) <==>
              || (c.Add? && c.addr == a && (a in s || HasRoom(s, c.reallocOk)))
              || (c != Remove(a) && a in s)
  {
    WithoutMembers(s, c.addr);
  }

  /** One more command keeps an earlier addition unless it is the removal. */
  lemma KeptStep(cs: seq<Command>, a: EtherAddr, i: nat)
    requires i < |cs| - 1
    ensures AddedAndKept(cs, a, i) <==>
              AddedAndKept(cs[..|cs| - 1], a, i) && cs[|cs| - 1] != Remove(a)
  {
    var n := |cs| - 1;
    assert cs[..n][..i] == cs[..i];
    if AddedAndKept(cs, a, i) {
      assert cs[n] != Remove(a);
    }
  }

  /** A set of addresses: after any history of additions, removals and failed
      reallocations an address is recorded if and only if an addition of it that
      found room was not followed by its removal. */
  lemma {:induction false} RecordedByHistory(cs: seq<Command>, a: EtherAddr)
    ensures a in Recorded(cs) <==> exists i: nat :: AddedAndKept(cs, a, i)
  {
    if cs != [] {
      var n := |cs| - 1;
      var before, c := Recorded(cs[..n]), cs[n];
      RecordedByHistory(cs[..n], a);
      RecordedNoDuplicates(cs[..n]);
      StepMembers(before, c, a);
      hide Step, Without, HasRoom;
      var now := AddedAndKept(cs, a, n);
      var earlier := c != Remove(a) && exists i: nat :: AddedAndKept(cs[..n], a, i);
      assert a in Recorded(cs) <==> now || earlier;
      if earlier {
        var i: nat :| AddedAndKept(cs[..n], a, i);
        KeptStep(cs, a, i);
      }
      if exists i: nat :: AddedAndKept(cs, a, i) {
        var i: nat :| AddedAndKept(cs, a, i);
        if i < n {
          KeptStep(cs, a, i);
        }
      }
    }
  }

  /** Command `i` of a history is the addition that put `a` where it is: it was not recorded
      before, there was room, and nothing removed it since. */
  ghost predicate PutBy(cs: seq<Command>, a: EtherAddr, i: nat) {
    && i < |cs|
    && cs[i].Add? && cs[i].addr == a
    && a !in Recorded(cs[..i]) && HasRoom(Recorded(cs[..i]), cs[i].reallocOk)
    && forall j :: i < j < |cs| ==> cs[j] != Remove(a)
  }

  ghost predicate Increasing(s: seq<nat>) {
    forall i, j :: 0 <= i < j < |s| ==> s[i] < s[j]
  }

  /** `adds` names, place by place, the additions that put the addresses `s` there. */
  ghost predicate PutInOrder(cs: seq<Command>, s: seq<EtherAddr>, adds: seq<nat>) {
    |adds| == |s| && Increasing(adds) && forall k :: 0 <= k < |adds| ==> PutBy(cs, s[k], adds[k])
  }

  /** One more command, which removes none of the addresses. */
  lemma OrderStays(cs: seq<Command>, s: seq<EtherAddr>, adds: seq<nat>)
    requires cs != [] && PutInOrder(cs[..|cs| - 1], s, adds)
    requires forall k :: 0 <= k < |s| ==> cs[|cs| - 1] != Remove(s[k])
    ensures PutInOrder(cs, s, adds) && forall k :: 0 <= k < |adds| ==> adds[k] < |cs| - 1
  {
    hide Recorded, HasRoom;
    forall k | 0 <= k < |adds|
      ensures PutBy(cs, s[k], adds[k])
    {
      assert cs[..|cs| - 1][..adds[k]] == cs[..adds[k]];
    }
  }

  lemma OrderWithout(cs: seq<Command>, s: seq<EtherAddr>, adds: seq<nat>, k: nat)
    requires PutInOrder(cs, s, adds) && k < |s|
    ensures PutInOrder(cs, s[..k] + s[k + 1..], adds[..k] + adds[k + 1..])
  {
    hide PutBy;
  }

  lemma OrderAppended(cs: seq<Command>, s: seq<EtherAddr>, adds: seq<nat>, a: EtherAddr, n: nat)
    requires PutInOrder(cs, s, adds) && PutBy(cs, a, n) && forall k :: 0 <= k < |adds| ==> adds[k] < n
    ensures PutInOrder(cs, s + [a], adds + [n])
  {
    hide PutBy;
  }

  /** The addresses are recorded in the order of the additions that put them there. */
  lemma {:induction false} RecordedInOrder(cs: seq<Command>) returns (adds: seq<nat>)
    ensures PutInOrder(cs, Recorded(cs), adds)
  {
    adds := [];
    if cs != [] {
      var n := |cs| - 1;
      var before, c := Recorded(cs[..n]), cs[n];
      adds := RecordedInOrder(cs[..n]);
      RecordedNoDuplicates(cs[..n]);
      hide HasRoom, Without, PutInOrder;
      if c.Remove? {
        adds := AfterRemove(cs, before, adds);
      } else {
        OrderStays(cs, before, adds);
        if c.addr !in before && HasRoom(before, c.reallocOk) {
          OrderAppended(cs, before, adds, c.addr, n);
          adds := adds + [n];
        }
      }
    }
  }

  lemma AfterRemove(cs: seq<Command>, before: seq<EtherAddr>, adds: seq<nat>) returns (adds': seq<nat>)
    requires cs != [] && cs[|cs| - 1].Remove? && Distinct(before) && PutInOrder(cs[..|cs| - 1], before, adds)
    ensures PutInOrder(cs, Without(before, cs[|cs| - 1].addr), adds')
  {
    assert |adds| == |before|;
    hide PutInOrder;
    var a := cs[|cs| - 1].addr;
    WithoutMembers(before, a);
    adds' := adds;
    if a in before {
      var k :| 0 <= k < |before| && before[k] == a;
      WithoutCuts(before, k);
      OrderWithout(cs[..|cs| - 1], before, adds, k);
      adds' := adds[..k] + adds[k + 1..];
    } else {
      WithoutAbsent(before, a);
    }
    OrderStays(cs, Without(before, a), adds');
  }

  /** Each address has one such addition. */
  lemma PutByUnique(cs: seq<Command>, a: EtherAddr, i: nat, j: nat)
    requires PutBy(cs, a, i) && PutBy(cs, a, j)
    ensures i == j
  {
    if i < j {
      StaysPut(cs, a, i, j);
    } else if j < i {
      StaysPut(cs, a, j, i);
    }
  }

  lemma {:induction false} StaysPut(cs: seq<Command>, a: EtherAddr, i: nat, j: nat)
    requires PutBy(cs, a, i) && i < j <= |cs|
    ensures a in Recorded(cs[..j])
  {
    assert cs[..j][..j - 1] == cs[..j - 1];
    RecordedNoDuplicates(cs[..j - 1]);
    StepMembers(Recorded(cs[..j - 1]), cs[j - 1], a);
    if i < j - 1 {
      StaysPut(cs, a, i, j - 1);
    }
  }

  class Port {
    /** `mc_addr_pool` and `mc_addr_nb`. */
    var pool: array?<EtherAddr>
    var nb: nat
    /** The list last handed to the driver. */
    var programmed: seq<EtherAddr>

    ghost predicate Valid()
      reads this, pool
    {
      && (pool == null <==> nb == 0)
      && (pool != null ==> RoundUp(nb) <= pool.Length)
      && Distinct(Contents())
      && programmed == Contents()
    }

    ghost function Contents(): seq<EtherAddr>
      reads this, pool
    {
      if pool == null || pool.Length < nb then [] else pool[..nb]
    }

    constructor ()
      ensures Valid() && Contents() == Recorded([])
    {
      pool, nb, programmed := null, 0, [];
    }

    /** `mcast_addr_pool_extend`: makes room for one more entry, or fails. */
    method Extend(reallocOk: bool) returns (ok: bool)
      requires Valid()
      modifies this`pool, this`nb
      ensures ok == HasRoom(old(Contents()), reallocOk)
      ensures !ok ==> pool == old(pool) && nb == old(nb)
      ensures ok ==> nb == old(nb) + 1 && pool != null && RoundUp(nb) <= pool.Length
      ensures ok ==> pool[..nb - 1] == old(Contents()) && (pool == old(pool) || fresh(pool))
    {
      if nb % MCAST_POOL_INC != 0 {
        nb := nb + 1;
        return true;
      }
      if !reallocOk {
        return false;
      }
      var bigger := new EtherAddr[nb + MCAST_POOL_INC];
      if pool != null {
        forall i | 0 <= i < nb {
          bigger[i] := pool[i];
        }
      }
      pool := bigger;
      nb := nb + 1;
      ok := true;
    }

    /** `mcast_addr_add`. */
    method AddAddress(a: EtherAddr, reallocOk: bool)
      requires Valid()
      modifies this, pool
      ensures Valid() && Contents() == Step(old(Contents()), Add(a, reallocOk))
      ensures pool == null || pool == old(pool) || fresh(pool)
    {
      var i := 0;
      while i < nb
        invariant 0 <= i <= nb && a !in Contents()[..i]
      {
        if pool[i] == a {
          assert Contents()[i] == a;
          return;
        }
        i := i + 1;
      }
      assert Contents()[..nb] == Contents();
      var ok := Extend(reallocOk);
      if !ok {
        return;
      }
      pool[i] := a;
      programmed := pool[..nb];
      assert pool[..nb] == pool[..nb - 1] + [a];
    }

    /** `mcast_addr_pool_remove`: drops entry `i` and closes the gap. */
    method RemoveEntry(i: nat)
      requires Valid() && i < nb
      modifies this`pool, this`nb, pool
      ensures nb == old(nb) - 1 && (pool == null <==> nb == 0)
      ensures pool != null ==> pool == old(pool)
      ensures Contents() == old(Contents()[..i]) + old(Contents()[i + 1..])
    {
      ghost var was := Contents();
      nb := nb - 1;
      if i == nb {
        if nb == 0 {
          pool := null;
        }
        assert was[..i] + was[i + 1..] == was[..nb];
        return;
      }
      forall k | i <= k < nb {
        pool[k] := pool[k + 1];
      }
      assert pool[..nb] == was[..i] + was[i + 1..];
    }

    /** `mcast_addr_remove`. */
    method RemoveAddress(a: EtherAddr)
      requires Valid()
      modifies this, pool
      ensures Valid() && Contents() == Step(old(Contents()), Remove(a))
      ensures pool == null || pool == old(pool) || fresh(pool)
    {
      ghost var was := Contents();
      var i := 0;
      while i < nb && pool[i] != a
        invariant 0 <= i <= nb && a !in was[..i]
      {
        i := i + 1;
      }
      if i == nb {
        assert was[..nb] == was;
        WithoutAbsent(was, a);
        return;
      }
      WithoutCuts(was, i);
      WithoutMembers(was, a);
      RemoveEntry(i);
      programmed := if pool == null then [] else pool[..nb];
    }

    /** Runs a history of commands on a fresh port. */
    method Replay(cs: seq<Command>)
      requires Valid() && Contents() == []
      modifies this, pool
      ensures Valid() && Contents() == Recorded(cs)
    {
      for n := 0 to |cs|
        invariant Valid() && Contents() == Recorded(cs[..n])
        invariant pool == null || pool == old(pool) || fresh(pool)
      {
        assert cs[..n + 1][..n] == cs[..n];
        match cs[n] {
          case Add(a, ok) => AddAddress(a, ok);
          case Remove(a) => RemoveAddress(a);
        }
      }
      assert cs[..|cs|] == cs;
    }
  }
}
