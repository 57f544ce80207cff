/** The list of flow rules of a port (app/test-pmd/config.c): creation at the head,
    unlinking while walking, flushing, and the sorted listing threaded through a
    second link field. */
module FlowRules {
  import opened Basics

  const UINT32_MAX: uint32 := 0xFFFF_FFFF

  /** `struct port_flow`: one rule and its two links. */
  class Rule {
    const id: uint32
    const group: uint32
    const priority: uint32
    /** The flow object the device returned. */
    const flow: nat
    var next: Rule?
    /** Link of the listing; whatever an earlier listing left in it. */
    var tmp: Rule?

    constructor (id: uint32, group: uint32, priority: uint32, flow: nat, next: Rule?)
      ensures this.id == id && this.group == group && this.priority == priority
      ensures this.flow == flow && this.next == next
    {
      this.id, this.group, this.priority, this.flow := id, group, priority, flow;
      this.next, this.tmp := next, null;
    }
  }

  /** `head` and the `next` links run through exactly the rules of `s`. */
  ghost predicate Linked(head: Rule?, s: seq<Rule>)
    reads s
  {
    && head == (if s == [] then null else s[0])
    && (forall i :: 0 <= i < |s| ==> s[i].next == After(s, i))
  }

  /** What follows entry `i`. */
  ghost function After(s: seq<Rule>, i: nat): Rule? {
    if i + 1 < |s| then s[i + 1] else null
  }

  ghost predicate Descending(s: seq<Rule>) {
    forall i, j :: 0 <= i < j < |s| ==> s[i].id > s[j].id
  }

  /** Identifiers decrease, and every rule has a flow of its own in the device. */
  ghost predicate Sound(s: seq<Rule>, device: set<nat>) {
    && Descending(s)
    && (forall i :: 0 <= i < |s| ==> s[i].flow in device)
    && (forall i, j :: 0 <= i < j < |s| ==> s[i].flow != s[j].flow)
  }

  lemma SoundPush(s: seq<Rule>, device: set<nat>, r: Rule)
    requires Sound(s, device) && r.flow !in device && (s != [] ==> r.id > s[0].id)
    ensures Sound([r] + s, device + {r.flow})
  {
  }

  lemma SoundMore(s: seq<Rule>, device: set<nat>, flow: nat)
    requires Sound(s, device) && flow !in device
    ensures Sound(s, device + {flow}) && device + {flow} - {flow} == device
  {
  }

  /** The rules of `s` whose identifiers are not in `gone`, in their order. */
  function Keep(s: seq<Rule>, gone: set<uint32>): seq<Rule> {
    if s == [] then []
    else if s[|s| - 1].id in gone then Keep(s[..|s| - 1], gone)
    else Keep(s[..|s| - 1], gone) + [s[|s| - 1]]
  }

  lemma {:induction false} KeepMembers(s: seq<Rule>, gone: set<uint32>)
    ensures |Keep(s, gone)| <= |s|
    ensures forall i :: 0 <= i < |Keep(s, gone)| ==> Keep(s, gone)[i] in s && Keep(s, gone)[i].id !in gone
    ensures forall i :: 0 <= i < |s| && s[i].id !in gone ==> s[i] in Keep(s, gone)
  {
    if s != [] {
      KeepMembers(s[..|s| - 1], gone);
      assert s == s[..|s| - 1] + [s[|s| - 1]];
    }
  }

  lemma {:induction false} KeepDescending(s: seq<Rule>, gone: set<uint32>)
    requires Descending(s)
    ensures Descending(Keep(s, gone))
  {
    if s != [] {
      var n := |s| - 1;
      KeepDescending(s[..n], gone);
      KeepMembers(s[..n], gone);
      var kept := Keep(s[..n], gone);
      forall i | 0 <= i < |kept|
        ensures kept[i].id > s[n].id
      {
        assert kept[i] in s[..n];
      }
    }
  }

  /** Identifiers that do not occur do not matter. */
  lemma {:induction false} KeepIrrelevant(s: seq<Rule>, gone: set<uint32>, id: uint32)
    requires forall i :: 0 <= i < |s| ==> s[i].id != id
    ensures Keep(s, gone + {id}) == Keep(s, gone)
  {
    if s != [] {
      KeepIrrelevant(s[..|s| - 1], gone, id);
    }
  }

  lemma {:induction false} KeepAll(s: seq<Rule>)
    ensures Keep(s, {}) == s
  {
    if s != [] {
      KeepAll(s[..|s| - 1]);
      assert s == s[..|s| - 1] + [s[|s| - 1]];
    }
  }

  /** The device flows of the rules in `gone`. */
  ghost function Flows(s: seq<Rule>, gone: set<uint32>): set<nat> {
    set i | 0 <= i < |s| && s[i].id in gone :: s[i].flow
  }

  lemma FlowsMore(s: seq<Rule>, m: nat, gone: set<uint32>)
    requires m < |s| && Descending(s)
    ensures Flows(s, gone + {s[m].id}) == Flows(s, gone) + {s[m].flow}
  {
  }

  lemma KeepSnoc(s: seq<Rule>, m: nat, gone: set<uint32>)
    requires m < |s|
    ensures s[m].id !in gone ==> Keep(s[..m + 1], gone) == Keep(s[..m], gone) + [s[m]]
  {
    assert s[..m + 1][..m] == s[..m];
  }

  lemma KeepDrop(s: seq<Rule>, m: nat, gone: set<uint32>)
    requires m < |s| && Descending(s)
    ensures Keep(s[..m + 1], gone + {s[m].id}) == Keep(s[..m], gone)
  {
    assert s[..m + 1][..m] == s[..m];
    KeepIrrelevant(s[..m], gone, s[m].id);
  }

  ghost predicate Among(s: seq<Rule>, t: seq<Rule>) {
    forall i :: 0 <= i < |s| ==> s[i] in t
  }

  lemma UnlinkedAt(s: seq<Rule>, t: seq<Rule>, k: nat)
    requires k < |s| && Descending(s) && Among(s, t)
    ensures Descending(s[..k] + s[k + 1..]) && Among(s[..k] + s[k + 1..], t)
  {
  }

  /** State of the destroying walk over `was`: `m` rules have been visited, `k` of
      them kept, and `rules` is the list at this moment. */
  ghost predicate Walked(was: seq<Rule>, m: nat, rules: seq<Rule>, k: nat, destroyed: set<uint32>,
                         ids: seq<uint32>, err: bool)
  {
    && m <= |was|
    && Descending(was)
    && k == |Keep(was[..m], destroyed)|
    && rules == Keep(was[..m], destroyed) + was[m..]
    && Descending(rules)
    && Among(rules, was)
    && (forall id :: id in destroyed ==> id in ids)
    && (forall i :: m <= i < |was| ==> was[i].id !in destroyed)
    && (!err ==> forall i :: 0 <= i < m && was[i].id in ids ==> was[i].id in destroyed)
  }

  lemma WalkStart(was: seq<Rule>, ids: seq<uint32>, device: set<nat>)
    requires Sound(was, device)
    ensures Walked(was, 0, was, 0, {}, ids, false)
  {
    assert Keep(was[..0], {}) + was[0..] == was;
  }

  lemma NoFlows(was: seq<Rule>)
    ensures Flows(was, {}) == {}
  {
  }

  lemma WalkOver(was: seq<Rule>, m: nat, rules: seq<Rule>, k: nat, destroyed: set<uint32>, ids: seq<uint32>, err: bool)
    requires Walked(was, m, rules, k, destroyed, ids, err) && k >= |rules|
    ensures m == |was|
  {
  }

  lemma WalkSound(was: seq<Rule>, m: nat, rules: seq<Rule>, k: nat, destroyed: set<uint32>, ids: seq<uint32>, err: bool)
    requires Walked(was, m, rules, k, destroyed, ids, err) && k < |rules|
    ensures m < |was| && Flows(was, destroyed + {was[m].id}) == Flows(was, destroyed) + {was[m].flow}
  {
    WalkAt(was, m, rules, k, destroyed, ids, err);
    FlowsMore(was, m, destroyed);
  }

  lemma OwnFlows(s: seq<Rule>, device: set<nat>)
    requires Sound(s, device)
    ensures forall i, j :: 0 <= i < j < |s| ==> s[i].flow != s[j].flow
  {
  }

  lemma WalkAt(was: seq<Rule>, m: nat, rules: seq<Rule>, k: nat, destroyed: set<uint32>, ids: seq<uint32>, err: bool)
    requires Walked(was, m, rules, k, destroyed, ids, err) && k < |rules|
    ensures m < |was| && rules[k] == was[m] && was[m].id !in destroyed
    ensures Descending(was) && Descending(rules) && Among(rules, was)
  {
  }

  /** What remains after the walk still exists in the device, each flow once. */
  lemma StillValid(was: seq<Rule>, rules: seq<Rule>, destroyed: set<uint32>, device: set<nat>)
    requires Among(rules, was) && Descending(rules) && Sound(was, device)
    requires forall i :: 0 <= i < |rules| ==> rules[i].id !in destroyed
    ensures Sound(rules, device - Flows(was, destroyed))
  {
    forall i | 0 <= i < |rules|
      ensures rules[i].flow in device - Flows(was, destroyed)
    {
      var n :| 0 <= n < |was| && was[n] == rules[i];
    }
    forall i, j | 0 <= i < j < |rules|
      ensures rules[i].flow != rules[j].flow
    {
      var n :| 0 <= n < |was| && was[n] == rules[i];
      var p :| 0 <= p < |was| && was[p] == rules[j];
      assert n != p;
    }
  }

  /** The visited rule stays: the device refused it or it was not requested. */
  lemma WalkKeep(was: seq<Rule>, m: nat, rules: seq<Rule>, k: nat, destroyed: set<uint32>, ids: seq<uint32>,
                 err: bool, e: bool)
    requires Walked(was, m, rules, k, destroyed, ids, err) && k < |rules|
    requires was[m].id in ids ==> e
    ensures Walked(was, m + 1, rules, k + 1, destroyed, ids, err || e)
  {
    WalkAt(was, m, rules, k, destroyed, ids, err);
    KeepSnoc(was, m, destroyed);
    assert was[m..] == [was[m]] + was[m + 1..];
  }

  /** The visited rule is destroyed and unlinked. */
  lemma WalkDrop(was: seq<Rule>, m: nat, rules: seq<Rule>, k: nat, destroyed: set<uint32>, ids: seq<uint32>,
                 err: bool, e: bool)
    requires Walked(was, m, rules, k, destroyed, ids, err) && k < |rules|
    requires was[m].id in ids
    ensures Walked(was, m + 1, rules[..k] + rules[k + 1..], k, destroyed + {was[m].id}, ids, err || e)
  {
    WalkAt(was, m, rules, k, destroyed, ids, err);
    KeepDrop(was, m, destroyed);
    UnlinkedAt(rules, was, k);
    assert rules[..k] == Keep(was[..m], destroyed);
    assert rules[k + 1..] == was[m + 1..];
    hide Among, Keep;
  }

  lemma WalkEnd(was: seq<Rule>, m: nat, rules: seq<Rule>, k: nat, destroyed: set<uint32>, ids: seq<uint32>, err: bool)
    requires Walked(was, m, rules, k, destroyed, ids, err) && k >= |rules|
    ensures rules == Keep(was, destroyed) && Descending(rules) && Among(rules, was)
    ensures forall id :: id in destroyed ==> id in ids
    ensures forall i :: 0 <= i < |rules| ==> rules[i].id !in destroyed
    ensures !err ==> rules == Keep(was, set id | id in ids)
  {
    assert was[..m] == was;
    KeepMembers(was, destroyed);
    if !err {
      KeepSame(was, destroyed, set id | id in ids);
    }
  }

  lemma {:induction false} KeepSame(s: seq<Rule>, a: set<uint32>, b: set<uint32>)
    requires forall i :: 0 <= i < |s| ==> (s[i].id in a <==> s[i].id in b)
    ensures Keep(s, a) == Keep(s, b)
  {
    if s != [] {
      KeepSame(s[..|s| - 1], a, b);
    }
  }

  // -------------------------------------------------- what the device was asked

  /** One attempt to destroy a flow, and whether the device did. */
  type Answer = (nat, bool)

  /** The attempts made for one rule: `refused` times in vain, and at last successfully or not at
      all. */
  ghost function Attempts(flow: nat, refused: nat, gone: bool): seq<Answer> {
    seq(refused, _ => (flow, false)) + if gone then [(flow, true)] else []
  }

  /** The attempts made for the first `m` rules of `was`: exactly the requested ones were asked
      for, those destroyed are those the device said yes to, and an error is a refusal. */
  ghost predicate Asked(was: seq<Rule>, m: nat, answers: seq<Answer>, destroyed: set<uint32>, ids: seq<uint32>,
                        err: bool)
  {
    && m <= |was|
    && (forall i :: 0 <= i < m ==>
          (was[i].id in ids <==> (was[i].flow, true) in answers || (was[i].flow, false) in answers))
    && (forall i :: 0 <= i < m ==> (was[i].id in destroyed <==> (was[i].flow, true) in answers))
    && (forall a :: a in answers ==> exists i :: 0 <= i < m && was[i].flow == a.0 && was[i].id in ids)
    && (err <==> exists a :: a in answers && !a.1)
  }

  lemma AskedNone(was: seq<Rule>, ids: seq<uint32>)
    ensures Asked(was, 0, [], {}, ids, false)
  {
  }

  lemma AttemptsMembers(flow: nat, refused: nat, gone: bool, a: Answer)
    ensures a in Attempts(flow, refused, gone) <==> a.0 == flow && (if a.1 then gone else refused > 0)
  {
    var s := seq(refused, _ => (flow, false));
    if refused > 0 {
      assert s[0] == (flow, false);
    }
  }

  lemma AskedMore(was: seq<Rule>, m: nat, answers: seq<Answer>, destroyed: set<uint32>, ids: seq<uint32>, err: bool,
                  refused: nat, gone: bool)
    requires m < |was| && Asked(was, m, answers, destroyed, ids, err) && Descending(was)
    requires forall i, j :: 0 <= i < j < |was| ==> was[i].flow != was[j].flow
    requires gone || refused > 0 <==> was[m].id in ids
    requires was[m].id !in destroyed
    ensures Asked(was, m + 1, answers + Attempts(was[m].flow, refused, gone),
                  if gone then destroyed + {was[m].id} else destroyed, ids, err || refused > 0)
  {
    var more := answers + Attempts(was[m].flow, refused, gone);
    forall a: Answer
      ensures a in more <==> a in answers || (a.0 == was[m].flow && (if a.1 then gone else refused > 0))
    {
      AttemptsMembers(was[m].flow, refused, gone, a);
    }
    hide Attempts;
    forall a | a in more
      ensures exists i :: 0 <= i < m + 1 && was[i].flow == a.0 && was[i].id in ids
    {
      if a in answers {
        var i :| 0 <= i < m && was[i].flow == a.0 && was[i].id in ids;
      } else {
        assert was[m].flow == a.0;
      }
    }
    assert forall a :: a in answers ==> a.0 != was[m].flow;
    if refused > 0 {
      assert (was[m].flow, false) in more;
    }
  }

  datatype CreateResult = Created(id: uint32) | DeviceRefused | IdsExhausted | NoMemory

  class Port {
    var flowList: Rule?
    /** The rules the list holds, from its head. */
    ghost var rules: seq<Rule>
    /** The flows that exist in the device, and how it has answered requests to destroy one. */
    ghost var device: set<nat>
    ghost var answers: seq<Answer>

    /** The list is well linked, identifiers decrease from the head (so they are
        unique), and every listed rule exists in the device. */
    ghost predicate Valid()
      reads this, rules
    {
      Linked(flowList, rules) && Sound(rules, device)
    }

    constructor ()
      ensures Valid() && rules == []
    {
      flowList, rules, device, answers := null, [], {}, [];
    }

    /** `port_flow_create`.  The device returns `flow` or refuses the rule, memory
        may run out; a rule that cannot be recorded is destroyed in the device again,
        which the device may also refuse (`cleanupOk`). */
    method Create(group: uint32, priority: uint32, deviceOk: bool, flow: nat, memoryOk: bool, cleanupOk: bool)
        returns (r: CreateResult)
      requires Valid() && flow !in device
      modifies this
      ensures Valid()
      ensures !r.Created? ==> rules == old(rules)
      ensures device == if r.DeviceRefused? || (!r.Created? && cleanupOk) then old(device) else old(device) + {flow}
      ensures r.Created? ==> |rules| == |old(rules)| + 1 && rules[1..] == old(rules) && fresh(rules[0])
      ensures r.Created? ==>
                rules[0].id == r.id && rules[0].group == group && rules[0].priority == priority && rules[0].flow == flow
      ensures r.Created? ==> r.id == if old(rules) == [] then 0 else old(rules)[0].id + 1
      ensures r.DeviceRefused? <==> !deviceOk
      ensures r.IdsExhausted? <==> deviceOk && old(rules) != [] && old(rules)[0].id == UINT32_MAX
      ensures r.NoMemory? <==> deviceOk && !memoryOk && !r.IdsExhausted?
    {
      if !deviceOk {
        return DeviceRefused;
      }
      SoundMore(rules, device, flow);
      assert flowList == null <==> rules == [];
      hide Sound, Linked;
      device := device + {flow};
      var id := 0;
      if flowList != null {
        if flowList.id == UINT32_MAX {
          device := if cleanupOk then device - {flow} else device;
          return IdsExhausted;
        }
        id := flowList.id + 1;
      }
      if !memoryOk {
        device := if cleanupOk then device - {flow} else device;
        return NoMemory;
      }
      var pf := new Rule(id, group, priority, flow, flowList);
      SoundPush(rules, old(device), pf);
      Push(pf);
      r := Created(id);
    }

    /** Puts a new rule, already linked to the old head, at the head. */
    method Push(pf: Rule)
      requires Linked(flowList, rules) && pf !in rules && pf.next == flowList
      modifies this`flowList, this`rules
      ensures Linked(flowList, rules) && rules == [pf] + old(rules)
    {
      ghost var was := rules;
      ghost var now := [pf] + was;
      flowList := pf;
      rules := now;
      forall i | 0 <= i < |now|
        ensures now[i].next == After(now, i)
      {
        if i > 0 {
          assert now[i] == was[i - 1] && After(now, i) == After(was, i - 1);
        }
      }
      assert Linked(pf, now);
    }

    /** `rte_flow_destroy`: succeeds or leaves the flow where it is. */
    method DeviceDestroy(flow: nat) returns (ok: bool)
      modifies this`device, this`answers
      ensures device == if ok then old(device) - {flow} else old(device)
      ensures answers == old(answers) + [(flow, ok)]
    {
      ok := *;
      if ok {
        device := device - {flow};
      }
      answers := answers + [(flow, ok)];
    }

    /** Tries to destroy the rule `pf` once per matching entry of `ids`, up to the
        first success; `err` reports that the device refused at least once. */
    method TryDestroy(pf: Rule, ids: seq<uint32>) returns (destroyed: bool, err: bool, ghost refused: nat)
      modifies this`device, this`answers
      ensures device == if destroyed then old(device) - {pf.flow} else old(device)
      ensures destroyed || err <==> pf.id in ids
      ensures answers == old(answers) + Attempts(pf.flow, refused, destroyed) && (err <==> refused > 0)
      ensures if destroyed then refused < multiset(ids)[pf.id] else refused == multiset(ids)[pf.id]
    {
      destroyed, err, refused := false, false, 0;
      var i := 0;
      while i != |ids|
        invariant 0 <= i <= |ids| && device == old(device)
        invariant err <==> pf.id in ids[..i]
        invariant answers == old(answers) + Attempts(pf.flow, refused, false) && (err <==> refused > 0)
        invariant refused == multiset(ids[..i])[pf.id]
        decreases |ids| - i
      {
        assert ids[..i + 1] == ids[..i] + [ids[i]];
        assert ids == ids[..i + 1] + ids[i + 1..];
        if ids[i] == pf.id {
          destroyed := DeviceDestroy(pf.flow);
          if destroyed {
            return;
          }
          err, refused := true, refused + 1;
        }
        i := i + 1;
      }
      assert ids[..i] == ids;
    }

    /** Redirects the link that leads to entry `k` (the list head or the `next` of
        entry `k - 1`) past it. */
    method Unlink(prev: Rule?, pf: Rule, ghost k: nat)
      requires k < |rules| && pf == rules[k]
      requires prev == if k == 0 then null else rules[k - 1]
      requires Linked(flowList, rules) && Descending(rules)
      modifies this`flowList, this`rules, rules
      ensures rules == old(rules[..k]) + old(rules[k + 1..])
      ensures Linked(flowList, rules)
    {
      ghost var was := rules;
      assert forall i, j :: 0 <= i < j < |was| ==> was[i] != was[j];
      assert pf.next == After(was, k);
      if prev == null {
        flowList := pf.next;
      } else {
        prev.next := pf.next;
      }
      ghost var now := was[..k] + was[k + 1..];
      rules := now;
      forall i | 0 <= i < |now|
        ensures now[i].next == After(now, i)
      {
        var j := if i < k then i else i + 1;
        assert now[i] == was[j];
        if j == k - 1 {
          assert After(now, i) == After(was, k);
        } else {
          assert was[j] != prev && After(now, i) == After(was, j);
        }
      }
      assert Linked(flowList, now);
    }

    /** `port_flow_destroy`: afterwards the list holds, in order, exactly the rules
        that were not destroyed; only requested rules are destroyed, and the device
        no longer has them.  Without a refusal by the device, exactly the requested
        rules are gone; and the device was asked for exactly the requested ones. */
    method Destroy(ids: seq<uint32>) returns (err: bool, ghost destroyed: set<uint32>)
      requires Valid()
      modifies this, rules
      ensures Valid()
      ensures rules == Keep(old(rules), destroyed)
      ensures forall id :: id in destroyed ==> id in ids
      ensures device == old(device) - Flows(old(rules), destroyed)
      ensures !err ==> rules == Keep(old(rules), set id | id in ids)
      ensures old(answers) <= answers
      ensures Asked(old(rules), |old(rules)|, answers[|old(answers)|..], destroyed, ids, err)
    {
      hide Keep, Flows, Walked, Linked, Descending, Among, Sound, Asked;
      ghost var was := rules;
      WalkStart(was, ids, device);
      OwnFlows(was, device);
      ghost var k, asked;
      err, destroyed, k, asked := Walk(ids, was);
      WalkEnd(was, |was|, rules, k, destroyed, ids, err);
      StillValid(was, rules, destroyed, old(device));
    }

    /** The walk along the list, through the link that leads to the current rule. */
    method Walk(ids: seq<uint32>, ghost was: seq<Rule>)
        returns (err: bool, ghost destroyed: set<uint32>, ghost k: nat, ghost asked: seq<Answer>)
      requires was == rules && Walked(was, 0, rules, 0, {}, ids, false) && Linked(flowList, rules)
      requires forall i, j :: 0 <= i < j < |was| ==> was[i].flow != was[j].flow
      modifies this, was
      ensures Walked(was, |was|, rules, k, destroyed, ids, err) && k == |rules| && Linked(flowList, rules)
      ensures device == old(device) - Flows(was, destroyed)
      ensures answers == old(answers) + asked && Asked(was, |was|, asked, destroyed, ids, err)
    {
      hide Keep, Flows, Walked, Linked, Descending, Among, Sound, Asked, Attempts;
      var prev: Rule? := null;
      ghost var m := 0;
      err, destroyed, k, asked := false, {}, 0, [];
      NoFlows(was);
      AskedNone(was, ids);
      var cur := Deref(prev, k);
      while cur != null
        invariant m <= |was| && Walked(was, m, rules, k, destroyed, ids, err) && Linked(flowList, rules)
        invariant k <= |rules| && prev == (if k == 0 then null else rules[k - 1])
        invariant cur == if k < |rules| then rules[k] else null
        invariant device == old(device) - Flows(was, destroyed)
        invariant answers == old(answers) + asked && Asked(was, m, asked, destroyed, ids, err)
        decreases |was| - m
      {
        var gone, e;
        WalkSound(was, m, rules, k, destroyed, ids, err);
        gone, e, destroyed, asked := VisitAsking(prev, cur, ids, was, m, k, destroyed, err, asked);
        if !gone {
          prev := cur;
          k := k + 1;
        }
        err := err || e;
        m := m + 1;
        cur := Deref(prev, k);
      }
      WalkOver(was, m, rules, k, destroyed, ids, err);
    }

    /** `*tmp`: what the link before entry `k` leads to. */
    method Deref(prev: Rule?, ghost k: nat) returns (cur: Rule?)
      requires Linked(flowList, rules) && k <= |rules|
      requires prev == if k == 0 then null else rules[k - 1]
      ensures cur == if k < |rules| then rules[k] else null
    {
      cur := if prev == null then flowList else prev.next;
      assert prev != null ==> prev.next == After(rules, k - 1);
    }

    /** One step of the walk, with the attempts it makes appended to those before. */
    method VisitAsking(prev: Rule?, cur: Rule, ids: seq<uint32>, ghost was: seq<Rule>, ghost m: nat,
                       ghost k: nat, ghost destroyed: set<uint32>, ghost err: bool, ghost asked: seq<Answer>)
        returns (gone: bool, e: bool, ghost destroyed': set<uint32>, ghost asked': seq<Answer>)
      requires Walked(was, m, rules, k, destroyed, ids, err) && Linked(flowList, rules)
      requires k < |rules| && cur == rules[k] && prev == if k == 0 then null else rules[k - 1]
      requires Asked(was, m, asked, destroyed, ids, err)
      requires forall i, j :: 0 <= i < j < |was| ==> was[i].flow != was[j].flow
      modifies this, was
      ensures Linked(flowList, rules) && m < |was| && k <= |rules|
      ensures Walked(was, m + 1, rules, if gone then k else k + 1, destroyed', ids, err || e)
      ensures gone ==> k == 0 || (k <= |rules| && rules[k - 1] == prev)
      ensures !gone ==> rules == old(rules)
      ensures destroyed' == (if gone then destroyed + {cur.id} else destroyed) && cur == was[m]
      ensures device == if gone then old(device) - {cur.flow} else old(device)
      ensures asked <= asked' && answers == old(answers) + asked'[|asked|..]
      ensures Asked(was, m + 1, asked', destroyed', ids, err || e)
    {
      hide Keep, Flows, Walked, Linked, Descending, Among, Asked, Attempts;
      WalkAt(was, m, rules, k, destroyed, ids, err);
      ghost var refused;
      gone, e, destroyed', refused := Visit(prev, cur, ids, was, m, k, destroyed, err);
      AskedMore(was, m, asked, destroyed, ids, err, refused, gone);
      asked' := asked + Attempts(was[m].flow, refused, gone);
    }

    /** One step of the walk: try to destroy the current rule, unlink it if that worked. */
    method Visit(prev: Rule?, cur: Rule, ids: seq<uint32>, ghost was: seq<Rule>, ghost m: nat,
                 ghost k: nat, ghost destroyed: set<uint32>, ghost err: bool)
        returns (gone: bool, e: bool, ghost destroyed': set<uint32>, ghost refused: nat)
      requires Walked(was, m, rules, k, destroyed, ids, err) && Linked(flowList, rules)
      requires k < |rules| && cur == rules[k] && prev == if k == 0 then null else rules[k - 1]
      modifies this, was
      ensures Linked(flowList, rules) && m < |was| && k <= |rules|
      ensures Walked(was, m + 1, rules, if gone then k else k + 1, destroyed', ids, err || e)
      ensures gone ==> k == 0 || (k <= |rules| && rules[k - 1] == prev)
      ensures !gone ==> rules == old(rules)
      ensures destroyed' == (if gone then destroyed + {cur.id} else destroyed) && cur == was[m]
      ensures device == if gone then old(device) - {cur.flow} else old(device)
      ensures answers == old(answers) + Attempts(cur.flow, refused, gone) && (e <==> refused > 0)
      ensures gone || refused > 0 <==> cur.id in ids
    {
      hide Keep, Flows, Walked, Linked, Descending, Attempts;
      WalkAt(was, m, rules, k, destroyed, ids, err);
      gone, e, refused := TryDestroy(cur, ids);
      if gone {
        WalkDrop(was, m, rules, k, destroyed, ids, err, e);
        Unlink(prev, cur, k);
        destroyed' := destroyed + {cur.id};
      } else {
        WalkKeep(was, m, rules, k, destroyed, ids, err, e);
        destroyed' := destroyed;
      }
    }

    /** `port_flow_flush`: whatever the device reports, the list ends up empty; if the
        device did flush, it has no flows left either. */
    method Flush(deviceOk: bool) returns (err: bool)
      requires Valid()
      modifies this
      ensures Valid() && rules == [] && flowList == null && err == !deviceOk
      ensures device == if deviceOk then {} else old(device)
    {
      err := !deviceOk;
      while flowList != null
        invariant Linked(flowList, rules) && device == old(device)
        decreases |rules|
      {
        assert rules[0].next == After(rules, 0);
        flowList := flowList.next;
        ghost var rest := rules[1..];
        assert forall i :: 0 <= i < |rest| ==> rest[i] == rules[i + 1] && After(rest, i) == After(rules, i + 1);
        rules := rest;
      }
      device := if deviceOk then {} else device;
    }

    /** `port_flow_list`: threads the rules of the wanted groups (all of them if no
        group is named) into a list strictly sorted by group, priority and identifier,
        whatever the `tmp` links held before, and leaves the rule list as it was. */
    method List(groups: seq<uint32>) returns (list: Rule?, ghost sorted: seq<Rule>)
      requires Valid()
      modifies rules`tmp
      ensures Threaded(list, sorted) && Ordered(sorted)
      ensures multiset(sorted) == multiset(Wanted(rules, groups))
      ensures forall i, j :: 0 <= i < j < |sorted| ==> SortKey(sorted[i]) < SortKey(sorted[j])
      ensures forall r :: r in sorted <==>
                r in rules && (groups == [] || exists g :: 0 <= g < |groups| && groups[g] == r.group)
      ensures Valid()
    {
      hide Wanted, Ordered, Sound, SortKey;
      SoundDescends(rules, device);
      OrderedNone();
      list, sorted := null, [];
      var pf := flowList;
      ghost var m := 0;
      while pf != null
        invariant m <= |rules| && pf == if m < |rules| then rules[m] else null
        invariant Threaded(list, sorted) && Ordered(sorted)
        invariant multiset(sorted) == multiset(Wanted(rules[..m], groups))
        decreases |rules| - m
      {
        list, sorted := ListOne(list, pf, groups, sorted, m);
        assert pf.next == After(rules, m);
        pf := pf.next;
        m := m + 1;
      }
      assert rules[..m] == rules;
      ListedExactly(rules, groups, sorted);
    }

    /** One rule of the listing: skipped, or inserted where it belongs. */
    method ListOne(list: Rule?, pf: Rule, groups: seq<uint32>, ghost sorted: seq<Rule>, ghost m: nat)
        returns (list': Rule?, ghost sorted': seq<Rule>)
      requires m < |rules| && pf == rules[m] && Descending(rules)
      requires Threaded(list, sorted) && Ordered(sorted)
      requires multiset(sorted) == multiset(Wanted(rules[..m], groups))
      modifies rules`tmp
      ensures Threaded(list', sorted') && Ordered(sorted')
      ensures multiset(sorted') == multiset(Wanted(rules[..m + 1], groups))
    {
      hide Wanted, Ordered, Sound, Descending;
      WantedSnoc(rules, m, groups);
      hide Selected;
      list', sorted' := list, sorted;
      if Selected(pf, groups) {
        NotYetListed(rules, m, groups, sorted);
        list', sorted' := Insert(list, pf, sorted);
      }
    }
  }

  /** `list` and the `tmp` links run through exactly the rules of `s`. */
  ghost predicate Threaded(list: Rule?, s: seq<Rule>)
    reads s
  {
    && list == (if s == [] then null else s[0])
    && (forall i :: 0 <= i < |s| ==> s[i].tmp == After(s, i))
  }

  /** The listing's order. */
  predicate Before(a: Rule, b: Rule) {
    || a.group < b.group
    || (a.group == b.group && a.priority < b.priority)
    || (a.group == b.group && a.priority == b.priority && a.id < b.id)
  }

  ghost predicate Ordered(s: seq<Rule>) {
    forall i, j :: 0 <= i < j < |s| ==> Before(s[i], s[j])
  }

  predicate Selected(r: Rule, groups: seq<uint32>) {
    groups == [] || r.group in groups
  }

  function Wanted(s: seq<Rule>, groups: seq<uint32>): seq<Rule> {
    if s == [] then []
    else if Selected(s[|s| - 1], groups) then Wanted(s[..|s| - 1], groups) + [s[|s| - 1]]
    else Wanted(s[..|s| - 1], groups)
  }

  /** Group, priority and identifier read as one number. */
  function SortKey(r: Rule): nat {
    (r.group * 0x1_0000_0000 + r.priority) * 0x1_0000_0000 + r.id
  }

  lemma BeforeIsSmaller(a: Rule, b: Rule)
    ensures Before(a, b) <==> SortKey(a) < SortKey(b)
  {
  }

  /** The wanted rules are those of the list whose group is named, all of them if none is. */
  lemma {:induction false} WantedExactly(s: seq<Rule>, groups: seq<uint32>, r: Rule)
    ensures r in Wanted(s, groups) <==>
              r in s && (groups == [] || exists g :: 0 <= g < |groups| && groups[g] == r.group)
  {
    if s != [] {
      var n := |s| - 1;
      WantedExactly(s[..n], groups, r);
      assert s == s[..n] + [s[n]];
    }
  }

  lemma ListedExactly(s: seq<Rule>, groups: seq<uint32>, sorted: seq<Rule>)
    requires Ordered(sorted) && multiset(sorted) == multiset(Wanted(s, groups))
    ensures forall i, j :: 0 <= i < j < |sorted| ==> SortKey(sorted[i]) < SortKey(sorted[j])
    ensures forall r :: r in sorted <==>
              r in s && (groups == [] || exists g :: 0 <= g < |groups| && groups[g] == r.group)
  {
    hide Wanted, SortKey;
    forall i, j | 0 <= i < j < |sorted|
      ensures SortKey(sorted[i]) < SortKey(sorted[j])
    {
      BeforeIsSmaller(sorted[i], sorted[j]);
    }
    forall r: Rule
      ensures r in sorted <==> r in s && (groups == [] || exists g :: 0 <= g < |groups| && groups[g] == r.group)
    {
      WantedExactly(s, groups, r);
      assert r in sorted <==> r in multiset(sorted);
      assert r in Wanted(s, groups) <==> r in multiset(Wanted(s, groups));
    }
  }

  lemma OrderedNone()
    ensures Ordered([]) && forall groups :: Wanted([], groups) == []
  {
  }

  lemma SoundDescends(s: seq<Rule>, device: set<nat>)
    requires Sound(s, device)
    ensures Descending(s)
  {
  }

  lemma WantedSnoc(s: seq<Rule>, m: nat, groups: seq<uint32>)
    requires m < |s|
    ensures Wanted(s[..m + 1], groups) ==
              if Selected(s[m], groups) then Wanted(s[..m], groups) + [s[m]] else Wanted(s[..m], groups)
  {
    assert s[..m + 1][..m] == s[..m];
  }

  lemma {:induction false} WantedAmong(s: seq<Rule>, groups: seq<uint32>)
    ensures Among(Wanted(s, groups), s)
  {
    if s != [] {
      WantedAmong(s[..|s| - 1], groups);
    }
  }

  lemma NotYetListed(s: seq<Rule>, m: nat, groups: seq<uint32>, sorted: seq<Rule>)
    requires m < |s| && Descending(s) && multiset(sorted) == multiset(Wanted(s[..m], groups))
    ensures forall i :: 0 <= i < |sorted| ==> sorted[i].id != s[m].id && sorted[i] in s
  {
    WantedAmong(s[..m], groups);
    forall i | 0 <= i < |sorted|
      ensures sorted[i].id != s[m].id && sorted[i] in s
    {
      assert sorted[i] in multiset(sorted);
      assert sorted[i] in Wanted(s[..m], groups);
      assert sorted[i] in s[..m];
    }
  }

  /** Inserting at the first place whose rule does not come before `pf`. */
  lemma OrderedInsert(s: seq<Rule>, j: nat, pf: Rule)
    requires Ordered(s) && j <= |s|
    requires forall i :: 0 <= i < |s| ==> s[i].id != pf.id
    requires forall i :: 0 <= i < j ==> Before(s[i], pf)
    requires j < |s| ==> !Before(s[j], pf)
    ensures Ordered(s[..j] + [pf] + s[j..])
    ensures multiset(s[..j] + [pf] + s[j..]) == multiset(s) + multiset{pf}
  {
    assert s == s[..j] + s[j..];
    assert j < |s| ==> Before(pf, s[j]);
    forall i | j <= i < |s|
      ensures Before(pf, s[i])
    {
      assert i > j ==> Before(s[j], s[i]);
    }
  }

  /** The inner loop of the listing: the first rule `pf` does not come after, and the
      link that leads to it. */
  method FindPlace(list: Rule?, pf: Rule, ghost s: seq<Rule>)
      returns (prev: Rule?, cur: Rule?, ghost j: nat)
    requires Threaded(list, s)
    ensures j <= |s| && cur == (if j < |s| then s[j] else null)
    ensures prev == if j == 0 then null else s[j - 1]
    ensures forall i :: 0 <= i < j ==> Before(s[i], pf)
    ensures j < |s| ==> !Before(s[j], pf)
  {
    prev, cur, j := null, list, 0;
    while cur != null && Before(cur, pf)
      invariant j <= |s| && cur == (if j < |s| then s[j] else null)
      invariant prev == if j == 0 then null else s[j - 1]
      invariant forall i :: 0 <= i < j ==> Before(s[i], pf)
      decreases |s| - j
    {
      assert cur.tmp == After(s, j);
      prev, cur, j := cur, cur.tmp, j + 1;
    }
  }

  /** Links `pf` in behind entry `j - 1`. */
  method LinkIn(list: Rule?, pf: Rule, prev: Rule?, cur: Rule?, ghost s: seq<Rule>, ghost j: nat)
      returns (list': Rule?)
    requires Threaded(list, s) && pf !in s && j <= |s|
    requires forall i, k :: 0 <= i < k < |s| ==> s[i] != s[k]
    requires cur == (if j < |s| then s[j] else null) && prev == (if j == 0 then null else s[j - 1])
    modifies s`tmp, pf`tmp
    ensures Threaded(list', s[..j] + [pf] + s[j..])
  {
    ghost var s' := s[..j] + [pf] + s[j..];
    pf.tmp := cur;
    list' := if prev == null then pf else list;
    if prev != null {
      prev.tmp := pf;
    }
    forall i | 0 <= i < |s'|
      ensures s'[i].tmp == After(s', i)
    {
      if i < j - 1 {
        assert s'[i] == s[i] != prev && After(s', i) == After(s, i);
      } else if i > j {
        assert s'[i] == s[i - 1] != prev && After(s', i) == After(s, i - 1);
      }
    }
    assert Threaded(list', s');
  }

  /** Inserts `pf` into the sorted listing. */
  method Insert(list: Rule?, pf: Rule, ghost s: seq<Rule>) returns (list': Rule?, ghost s': seq<Rule>)
    requires Threaded(list, s) && Ordered(s) && pf !in s
    requires forall i :: 0 <= i < |s| ==> s[i].id != pf.id
    modifies s`tmp, pf`tmp
    ensures Threaded(list', s') && Ordered(s') && multiset(s') == multiset(s) + multiset{pf}
  {
    var prev, cur;
    ghost var j;
    prev, cur, j := FindPlace(list, pf, s);
    OrderedInsert(s, j, pf);
    OrderedDistinct(s);
    list' := LinkIn(list, pf, prev, cur, s, j);
    s' := s[..j] + [pf] + s[j..];
  }

  lemma OrderedDistinct(s: seq<Rule>)
    requires Ordered(s)
    ensures forall i, k :: 0 <= i < k < |s| ==> s[i] != s[k]
  {
  }
}
