/** The parsing context as the callbacks update it (app/test-pmd/cmdline_flow.c): two
    fixed-size stacks, popped and pushed in place, and the callbacks that try a word
    against them.  What the callbacks store is in FlowMasks and FlowArena. */
module FlowContext {
  import opened Basics
  import opened FlowFields
  import opened FlowParser
  import FlowMasks
  import FlowArena

  /** What every value callback promises of the argument stack: it takes exactly its `n`
      arguments or leaves everything as it was. */
  predicate Takes(before: seq<Arg>, after: seq<Arg>, n: nat, ok: bool) {
    if ok then n <= |before| && after == before[..|before| - n] else after == before
  }

  lemma PortAccepts(lib: Library, args: seq<Arg>, bound: bool, src: string, len: nat, buf: bool)
    requires len <= |src|
    ensures ValueAccepts(lib, Port, args, bound, src, len, buf) ==
              (|args| > 0 && IntAccepts(lib, args[|args| - 1], bound || !buf, src, len))
  {
  }

  lemma OnlyPortsNeedBuffer(lib: Library, c: Callback, args: seq<Arg>, bound: bool, src: string, len: nat, buf: bool)
    requires len <= |src| && c != Port
    ensures ValueAccepts(lib, c, args, bound, src, len, buf) == ValueAccepts(lib, c, args, bound, src, len, true)
  {
  }

  /** The digit a boolean name stands for, found by position. */
  method BooleanDigit(src: string, len: nat) returns (text: string)
    requires len <= |src|
    ensures text == BooleanText(src, len)
  {
    var i := 0;
    while i < |BOOLEAN_NAMES| && BOOLEAN_NAMES[i] != src[..len]
      invariant 0 <= i <= |BOOLEAN_NAMES|
      invariant src[..len] !in BOOLEAN_NAMES[..i]
    {
      assert BOOLEAN_NAMES[..i + 1] == BOOLEAN_NAMES[..i] + [BOOLEAN_NAMES[i]];
      i := i + 1;
    }
    if i < |BOOLEAN_NAMES| {
      BooleanParity(i);
      return if i % 2 == 1 then "1" else "0";
    }
    assert BOOLEAN_NAMES[..i] == BOOLEAN_NAMES;
    return src;
  }

  lemma BooleanParity(i: nat)
    requires i < |BOOLEAN_NAMES|
    ensures BOOLEAN_NAMES[i] in TRUE_NAMES <==> i % 2 == 1
  {
    assert |BOOLEAN_NAMES[0]| == 1 && BOOLEAN_NAMES[0][0] == '0';
    assert |BOOLEAN_NAMES[6]| == 1 && BOOLEAN_NAMES[6][0] == 'N';
  }

  /** `struct context`. */
  class Parser<I(!new, ==)> {
    const args: array<Arg>
    const next: array<seq<I>>
    var argsNum: nat
    var nextNum: nat
    var curr: I
    var bound: bool
    var count: nat
    var last: bool
    var status: Status
    ghost var taken: seq<I>
    /** A callback has asked for an argument that was not there. */
    ghost var starved: bool

    ghost predicate Valid()
      reads this
    {
      args.Length == next.Length == CTX_STACK_SIZE && argsNum <= CTX_STACK_SIZE && nextNum <= CTX_STACK_SIZE
    }

    ghost function Args(): seq<Arg>
      reads this, args
      requires Valid()
    {
      args[..argsNum]
    }

    ghost function Next(): seq<seq<I>>
      reads this, next
      requires Valid()
    {
      next[..nextNum]
    }

    ghost function View(): State<I>
      reads this, args, next
      requires Valid()
    {
      State(Args(), Next(), bound, count)
    }

    ghost function Ctx(): Context<I>
      reads this, args, next
      requires Valid()
    {
      Context(curr, View(), last, status, taken)
    }

    constructor (tbl: Table<I>)
      ensures Valid() && Ctx() == Initial(tbl) && !starved
      ensures fresh(args) && fresh(next)
    {
      args := new Arg[CTX_STACK_SIZE];
      next := new seq<I>[CTX_STACK_SIZE];
      argsNum, nextNum, curr := 0, 0, tbl.zero;
      bound, count, last, status := false, 0, false, Open;
      taken, starved := [], false;
    }

    // --------------------------------------------------------- the argument stack

    method PopArgs() returns (arg: Option<Arg>)
      requires Valid()
      modifies this`argsNum, this`starved
      ensures Valid()
      ensures old(argsNum) == 0 ==> arg == None && argsNum == 0 && starved
      ensures old(argsNum) > 0 ==>
                argsNum == old(argsNum) - 1 && arg == Some(args[argsNum]) && Args() + [args[argsNum]] == old(Args()) &&
                starved == old(starved)
    {
      if argsNum == 0 {
        starved := true;
        return None;
      }
      argsNum := argsNum - 1;
      return Some(args[argsNum]);
    }

    method PushArgs(arg: Arg) returns (ok: bool)
      requires Valid()
      modifies this`argsNum, args
      ensures Valid() && ok == (old(argsNum) < CTX_STACK_SIZE)
      ensures Args() == if ok then old(Args()) + [arg] else old(Args())
    {
      if argsNum == CTX_STACK_SIZE {
        return false;
      }
      args[argsNum] := arg;
      argsNum := argsNum + 1;
      return true;
    }

    // ---------------------------------------------------------- value callbacks

    /** `parse_int`. */
    method ParseInt(lib: Library, src: string, len: nat, bound: bool) returns (ok: bool)
      requires Valid()
      modifies this`argsNum, this`starved, args
      ensures Valid() && Takes(old(Args()), Args(), 1, ok) && starved == (old(starved) || old(argsNum) < 1)
      ensures ok == (old(argsNum) > 0 && IntAccepts(lib, old(args[argsNum - 1]), bound, src, len))
    {
      var arg := PopArgs();
      if arg.None? {
        return false;
      }
      var n := if arg.value.sign then lib.strtoimax(src) else lib.strtoumax(src);
      if n.Number? && n.consumed == len && (arg.value.bounded ==> arg.value.min <= n.value <= arg.value.max) {
        if !bound || FlowMasks.IntStorable(arg.value) {
          return true;
        }
      }
      var _ := PushArgs(arg.value);
      return false;
    }

    /** `parse_prefix`. */
    method ParsePrefix(lib: Library, src: string, len: nat) returns (ok: bool)
      requires Valid()
      modifies this`argsNum, this`starved, args
      ensures Valid() && Takes(old(Args()), Args(), 1, ok) && starved == (old(starved) || old(argsNum) < 1)
      ensures ok == (old(argsNum) > 0 && PrefixAccepts(lib, old(args[argsNum - 1]), bound, src, len))
    {
      var arg := PopArgs();
      if arg.None? {
        return false;
      }
      var n := lib.strtoumax(src);
      if n.Number? && n.consumed == len && n.value >= 0 {
        var width := FlowMasks.Width(arg.value);
        if arg.value.mask.Some? {
          if n.value <= width && (!bound || width != 0) {
            return true;
          }
        } else {
          var bytes, extra := n.value / 8 % 0x1_0000_0000, n.value % 8;
          FlowMasks.ByteCount(n.value, arg.value.size);
          if bytes <= arg.value.size && bytes + (if extra != 0 then 1 else 0) <= arg.value.size {
            return true;
          }
        }
      }
      var _ := PushArgs(arg.value);
      return false;
    }

    /** `parse_boolean`: a known name is handed to `parse_int` as a digit. */
    method ParseBoolean(lib: Library, src: string, len: nat) returns (ok: bool)
      requires Valid() && len <= |src|
      modifies this`argsNum, this`starved, args
      ensures Valid() && Takes(old(Args()), Args(), 1, ok) && starved == (old(starved) || old(argsNum) < 1)
      ensures ok == (old(argsNum) > 0 &&
                var text := BooleanText(src, len);
                |text| > 0 && IntAccepts(lib, old(args[argsNum - 1]), bound, text, |text|))
    {
      hide IntAccepts;
      var arg := PopArgs();
      if arg.None? {
        return false;
      }
      var text := BooleanDigit(src, len);
      var _ := PushArgs(arg.value);
      assert Args() == old(Args());
      if |text| == 0 {
        return false;
      }
      ok := ParseInt(lib, text, |text|, bound);
    }

    /** Three arguments, or none. */
    method PopThree() returns (data: Option<Arg>, length: Option<Arg>, addr: Option<Arg>)
      requires Valid()
      modifies this`argsNum, this`starved, args
      ensures Valid() && starved == (old(starved) || old(argsNum) < 3)
      ensures addr.Some? <==> old(argsNum) >= 3
      ensures addr.Some? ==>
                data.Some? && length.Some? && Args() + [addr.value] + [length.value] + [data.value] == old(Args())
      ensures addr.None? ==> Args() == old(Args())
    {
      data := PopArgs();
      length := PopArgs();
      addr := PopArgs();
      if data.None? {
        return;
      }
      if length.None? {
        var _ := PushArgs(data.value);
        return;
      }
      if addr.None? {
        var _ := PushArgs(length.value);
        var _ := PushArgs(data.value);
      }
    }

    /** `parse_string`: data, length and address arguments, the data argument on top. */
    method ParseString(lib: Library, src: string, len: nat) returns (ok: bool)
      requires Valid() && len <= |src|
      modifies this`argsNum, this`starved, args
      ensures Valid() && Takes(old(Args()), Args(), 3, ok) && starved == (old(starved) || old(argsNum) < 3)
      ensures ok == (old(argsNum) >= 3 &&
                StringAccepts(lib, old(args[argsNum - 1]), old(args[argsNum - 2]), bound, len))
    {
      hide IntAccepts;
      var data, length, addr := PopThree();
      if addr.None? {
        return false;
      }
      if data.value.mask.None? && len <= data.value.size {
        ok := true;
        if bound {
          ok := StoreLength(lib, length.value, len);
        }
        if ok {
          return;
        }
      }
      PushThree(data.value, length.value, addr.value);
      return false;
    }

    /** `parse_int` on the decimal text of a length, with its argument pushed for it. */
    method StoreLength(lib: Library, arg: Arg, len: nat) returns (ok: bool)
      requires Valid() && argsNum < CTX_STACK_SIZE
      modifies this`argsNum, this`starved, args
      ensures Valid() && starved == old(starved) && Args() == old(Args())
      ensures ok == IntAccepts(lib, arg, bound, lib.decimal(len), |lib.decimal(len)|)
    {
      hide IntAccepts;
      var _ := PushArgs(arg);
      var tmp := lib.decimal(len);
      ok := ParseInt(lib, tmp, |tmp|, bound);
      if !ok {
        var _ := PopArgs();
      }
    }

    method PushThree(data: Arg, length: Arg, addr: Arg)
      requires Valid() && argsNum + 3 <= CTX_STACK_SIZE
      modifies this`argsNum, args
      ensures Valid() && Args() == old(Args()) + [addr] + [length] + [data]
    {
      var _ := PushArgs(addr);
      var _ := PushArgs(length);
      var _ := PushArgs(data);
    }

    /** `parse_mac_addr` and `parse_ipv6_addr`: an address of a fixed size, read by the
        library, which says how far it read. */
    method ParseAddress(size: nat, fits: bool) returns (ok: bool)
      requires Valid()
      modifies this`argsNum, this`starved, args
      ensures Valid() && Takes(old(Args()), Args(), 1, ok) && starved == (old(starved) || old(argsNum) < 1)
      ensures ok == (old(argsNum) > 0 && AddressField(old(args[argsNum - 1]), size) && fits)
    {
      var arg := PopArgs();
      if arg.None? {
        return false;
      }
      if arg.value.mask.None? && arg.value.size == size && arg.value.hton && fits {
        return true;
      }
      var _ := PushArgs(arg.value);
      return false;
    }

    /** `parse_ipv4_addr`: what is not an address may still be an integer. */
    method ParseIpv4(lib: Library, src: string, len: nat) returns (ok: bool)
      requires Valid() && len <= |src|
      modifies this`argsNum, this`starved, args
      ensures Valid() && Takes(old(Args()), Args(), 1, ok) && starved == (old(starved) || old(argsNum) < 1)
      ensures ok == (old(argsNum) > 0 && AddressField(old(args[argsNum - 1]), 4) &&
                (lib.inet4(src[..len]) || IntAccepts(lib, old(args[argsNum - 1]), bound, src, len)))
    {
      hide IntAccepts;
      var arg := PopArgs();
      if arg.None? {
        return false;
      }
      if arg.value.mask.Some? || arg.value.size != 4 || !arg.value.hton {
        var _ := PushArgs(arg.value);
        return false;
      }
      if !lib.inet4(src[..len]) {
        var _ := PushArgs(arg.value);
        assert Args() == old(Args());
        ok := ParseInt(lib, src, len, bound);
        return;
      }
      return true;
    }

    /** `parse_action`. */
    method ParseAction(known: bool) returns (ok: bool)
      requires Valid()
      modifies this`argsNum, this`starved, args
      ensures Valid() && Takes(old(Args()), Args(), 1, ok) && starved == (old(starved) || old(argsNum) < 1)
      ensures ok == (old(argsNum) > 0 && known)
    {
      var arg := PopArgs();
      if arg.None? {
        return false;
      }
      if known {
        return true;
      }
      var _ := PushArgs(arg.value);
      return false;
    }

    /** `parse_port`: without a buffer, a temporary object takes the number. */
    method ParsePort(lib: Library, src: string, len: nat, buf: bool) returns (ok: bool)
      requires Valid()
      modifies this`argsNum, this`starved, this`bound, this`count, args
      ensures Valid() && Takes(old(Args()), Args(), 1, ok) && starved == (old(starved) || old(argsNum) < 1)
      ensures ok == (old(argsNum) > 0 && IntAccepts(lib, old(args[argsNum - 1]), old(bound) || !buf, src, len))
      ensures if buf then bound == old(bound) && count == old(count) else !bound && count == 0
    {
      hide IntAccepts;
      if !buf {
        bound, count := true, 0;
      }
      ok := ParseInt(lib, src, len, bound);
      if !buf {
        bound := false;
      }
    }

    /** Numbers, prefixes and booleans. */
    method ParseNumeric(lib: Library, c: Callback, src: string, len: nat) returns (ok: bool)
      requires Valid() && len <= |src| && (c == Int || c == Prefix || c == Boolean)
      modifies this`argsNum, this`starved, args
      ensures Valid() && Takes(old(Args()), Args(), Pops(c), ok)
      ensures starved == (old(starved) || old(argsNum) < Pops(c))
      ensures ok == ValueAccepts(lib, c, old(Args()), bound, src, len, true)
    {
      hide IntAccepts, PrefixAccepts, StringAccepts, AddressField, BooleanText;
      ghost var was := Args();
      assert argsNum > 0 ==> args[argsNum - 1] == was[|was| - 1];
      match c
      case Int =>
        ok := ParseInt(lib, src, len, bound);
      case Prefix =>
        ok := ParsePrefix(lib, src, len);
      case Boolean =>
        ok := ParseBoolean(lib, src, len);
    }

    /** Strings, addresses and action names. */
    method ParseText(lib: Library, c: Callback, src: string, len: nat) returns (ok: bool)
      requires Valid() && len <= |src|
      requires c == String || c == Mac || c == Ipv4 || c == Ipv6 || c == ActionName
      modifies this`argsNum, this`starved, args
      ensures Valid() && Takes(old(Args()), Args(), Pops(c), ok)
      ensures starved == (old(starved) || old(argsNum) < Pops(c))
      ensures ok == ValueAccepts(lib, c, old(Args()), bound, src, len, true)
    {
      hide IntAccepts, PrefixAccepts, StringAccepts, AddressField, BooleanText;
      ghost var was := Args();
      assert argsNum > 0 ==> args[argsNum - 1] == was[|was| - 1];
      assert argsNum > 1 ==> args[argsNum - 2] == was[|was| - 2];
      match c
      case String =>
        ok := ParseString(lib, src, len);
      case Mac =>
        ok := ParseAddress(6, lib.etheraddr(src) == len);
      case Ipv4 =>
        ok := ParseIpv4(lib, src, len);
      case Ipv6 =>
        ok := ParseAddress(16, lib.inet6(src[..len]));
      case ActionName =>
        ok := ParseAction(lib.isAction(src[..len]));
    }

    /** The value callbacks together. */
    method ParseValue(lib: Library, c: Callback, src: string, len: nat, buf: bool) returns (ok: bool)
      requires Valid() && len <= |src| && Pops(c) > 0
      modifies this`argsNum, this`starved, this`bound, this`count, args
      ensures Valid() && Takes(old(Args()), Args(), Pops(c), ok)
      ensures Reply(View(), ok) == CallValue(lib, old(View()), c, src, len, buf)
      ensures starved == (old(starved) || old(argsNum) < Pops(c))
    {
      ghost var was := Args();
      ghost var had := bound;
      if c == Port {
        PortAccepts(lib, was, had, src, len, buf);
        assert argsNum > 0 ==> args[argsNum - 1] == was[|was| - 1];
        hide ValueAccepts, IntAccepts;
        ok := ParsePort(lib, src, len, buf);
      } else {
        OnlyPortsNeedBuffer(lib, c, was, had, src, len, buf);
        hide ValueAccepts;
        if c == Int || c == Prefix || c == Boolean {
          ok := ParseNumeric(lib, c, src, len);
        } else {
          ok := ParseText(lib, c, src, len);
        }
      }
    }

    // ------------------------------------------------------------ the list stack

    method PushNext(list: seq<I>) returns (ok: bool)
      requires Valid()
      modifies this`nextNum, next
      ensures Valid() && ok == (old(nextNum) < CTX_STACK_SIZE)
      ensures Next() == if ok then old(Next()) + [list] else old(Next())
    {
      if nextNum == CTX_STACK_SIZE {
        return false;
      }
      next[nextNum] := list;
      nextNum := nextNum + 1;
      return true;
    }

    /** `parse_vc_spec` on `prefix`: the list below the top becomes the prefix length. */
    method ParsePrefixParameter(tbl: Table<I>, e: Effect) returns (ok: bool)
      requires Valid()
      modifies this`bound, this`count, next
      ensures Valid() && Reply(View(), ok) == CallPrefix(tbl, old(View()), e)
      ensures ok == (old(nextNum) >= 2 && e.accepted) && nextNum == old(nextNum)
      ensures nextNum >= 2 ==> next[nextNum - 2] == [tbl.prefix] && next[nextNum - 1] == old(next[nextNum - 1])
      ensures forall i :: 0 <= i < nextNum && (nextNum < 2 || i != nextNum - 2) ==> next[i] == old(next[i])
    {
      if nextNum < 2 {
        return false;
      }
      next[nextNum - 2] := [tbl.prefix];
      assert Next() == Substituted(tbl, old(Next()));
      bound, count := e.bound, e.count;
      return e.accepted;
    }

    /** `parse_vc_action_rss_type`. */
    method ParseRssType(lib: Library, x: I, word: string) returns (ok: bool)
      requires Valid()
      modifies this`nextNum, this`count, next
      ensures Valid() && Reply(View(), ok) == CallRssType(lib, old(View()), x, word)
    {
      if word == "end" {
        count := 0;
        return true;
      }
      if !lib.isRssType(word) {
        return false;
      }
      count := 1;
      ok := PushNext([x]);
    }

    /** `parse_vc_action_rss_queue`: an argument is made up for `parse_int`. */
    method ParseRssQueue(lib: Library, x: I, src: string, len: nat) returns (ok: bool)
      requires Valid() && len <= |src|
      modifies this`argsNum, this`nextNum, this`count, this`starved, args, next
      ensures Valid() && starved == old(starved)
      ensures Reply(View(), ok) == CallRssQueue(lib, old(View()), x, src, len)
    {
      hide IntAccepts;
      if src[..len] == "end" {
        count := 0;
        return true;
      }
      if count >= ACTION_RSS_QUEUE_NUM {
        return false;
      }
      var pushed := PushArgs(QueueArg(lib, count));
      if !pushed {
        return false;
      }
      ok := ParseInt(lib, src, len, bound);
      if !ok {
        var _ := PopArgs();
        assert Args() == old(Args());
        return false;
      }
      assert Args() == old(Args());
      count := count + 1;
      ok := PushNext([x]);
    }

    // --------------------------------------------------------------- candidates

    /** One candidate, whatever its callback. */
    method TryToken(tbl: Table<I>, lib: Library, x: I, w: Input<I>) returns (ok: bool)
      requires Valid() && Sensible(w)
      modifies this`argsNum, this`nextNum, this`bound, this`count, this`starved, args, next
      ensures Valid() && Reply(View(), ok) == Call(tbl, lib, old(View()), x, w)
      ensures starved == (old(starved) || old(argsNum) < Pops(tbl.token(x).call))
    {
      hide CallPrefix, CallRssType, CallRssQueue, CallValue;
      var token := tbl.token(x);
      var word := w.src[..w.len];
      match token.call {
        case Name =>
          ok := word == token.name;
        case Keyword =>
          ok := word == token.name;
          if ok {
            var e := w.keyword(x);
            bound, count, ok := e.bound, e.count, e.accepted;
          }
        case PrefixParameter =>
          ok := word == token.name;
          if ok {
            ok := ParsePrefixParameter(tbl, w.keyword(x));
          }
        case RssType =>
          ok := ParseRssType(lib, x, word);
        case RssQueue =>
          ok := ParseRssQueue(lib, x, w.src, w.len);
        case _ =>
          ok := ParseValue(lib, token.call, w.src, w.len, w.buf);
      }
    }

    // -------------------------------------------------------------- words

    /** The candidates on top of the stack, in order.  On a typed stack none of them is
        ever short of arguments. */
    method TryCandidates(tbl: Table<I>, lib: Library, w: Input<I>, ghost ty: Typing<I>, ghost p: Mode)
      returns (found: bool)
      requires Valid() && Sensible(w) && nextNum > 0 && WellTyped(tbl, ty) && Typed(tbl, ty, View(), p)
      modifies this`argsNum, this`nextNum, this`bound, this`count, this`starved, this`curr, args, next
      ensures Valid() && starved == old(starved) && nextNum > 0
      ensures match Try(tbl, lib, old(View()), old(next[nextNum - 1]), w)
              case Accepted(t, x) => found && curr == x && View() == t
              case Refused(t) => !found && View() == t
    {
      hide WellTyped, Typed, Call;
      var list := next[nextNum - 1];
      ghost var s := View();
      var i := 0;
      while i < |list|
        invariant 0 <= i <= |list| && Valid() && starved == old(starved)
        invariant Try(tbl, lib, View(), list[i..], w) == Try(tbl, lib, s, list, w)
        invariant Typed(tbl, ty, View(), p) && nextNum > 0 && next[nextNum - 1] == list
      {
        curr := list[i];
        CallTyped(tbl, lib, ty, View(), p, curr, w);
        CallFrame(tbl, lib, View(), curr, w);
        assert list[i..][0] == list[i] && list[i..][1..] == list[i + 1..];
        found := TryToken(tbl, lib, curr, w);
        if found {
          return;
        }
        i := i + 1;
      }
      return false;
    }

    method PushLists(lists: seq<seq<I>>) returns (ok: bool)
      requires Valid()
      modifies this`nextNum, next
      ensures Valid() && ok == (old(nextNum) + |lists| <= CTX_STACK_SIZE)
      ensures ok ==> Next() == old(Next()) + lists
    {
      var i := 0;
      while i < |lists|
        invariant 0 <= i <= |lists| && Valid()
        invariant Next() == old(Next()) + lists[..i]
      {
        ok := PushNext(lists[i]);
        if !ok {
          return;
        }
        assert lists[..i + 1] == lists[..i] + [lists[i]];
        i := i + 1;
      }
      assert lists[..i] == lists;
      return true;
    }

    method PushAllArgs(more: seq<Arg>) returns (ok: bool)
      requires Valid()
      modifies this`argsNum, args
      ensures Valid() && ok == (old(argsNum) + |more| <= CTX_STACK_SIZE)
      ensures ok ==> Args() == old(Args()) + more
    {
      var i := 0;
      while i < |more|
        invariant 0 <= i <= |more| && Valid()
        invariant Args() == old(Args()) + more[..i]
      {
        ok := PushArgs(more[i]);
        if !ok {
          return;
        }
        assert more[..i + 1] == more[..i] + [more[i]];
        i := i + 1;
      }
      assert more[..i] == more;
      return true;
    }

    /** The end of `cmd_flow_parse`: drop the consumed list, push what the token brings. */
    method Bring(tbl: Table<I>, x: I) returns (ok: bool)
      requires Valid() && nextNum > 0
      modifies this`argsNum, this`nextNum, args, next
      ensures Valid()
      ensures match Advance(tbl, old(View()), x)
              case Taken(t, _) => ok && View() == t
              case _ => !ok
    {
      var token := tbl.token(x);
      nextNum := nextNum - 1;
      assert Next() == old(Next())[..nextNum];
      ok := PushLists(token.next);
      if ok {
        ok := PushAllArgs(token.args);
      }
    }

    /** Match a word against the list on top of the stack. */
    method ParseTop(tbl: Table<I>, lib: Library, w: Input<I>, ghost ty: Typing<I>, ghost p: Mode)
      returns (result: Status)
      requires Valid() && Sensible(w) && nextNum > 0 && WellTyped(tbl, ty) && Typed(tbl, ty, View(), p)
      modifies this`argsNum, this`nextNum, this`bound, this`count, this`starved, this`curr, args, next
      ensures Valid() && starved == old(starved)
      ensures match Parse(tbl, lib, old(View()), w)
              case Taken(t, x) => result == Open && View() == t && curr == x
              case Unmatched(t) => result == Failed && View() == t
              case Overflow(_) => false
    {
      hide WellTyped, Typed, Try;
      ParseTyped(tbl, lib, ty, View(), p, w);
      var found := TryCandidates(tbl, lib, w, ty, p);
      if !found {
        return Failed;
      }
      var ok := Bring(tbl, curr);
      return if ok then Open else Overflowed;
    }

    /** `cmd_flow_parse`. */
    method ParseWord(tbl: Table<I>, lib: Library, w: Input<I>, ghost ty: Typing<I>, ghost p: Mode)
      requires Valid() && Sensible(w) && WellTyped(tbl, ty) && Sound(tbl, ty, Ctx(), p)
      requires status == Open && !Finished(tbl, Ctx())
      modifies this, args, next
      ensures Valid() && starved == old(starved)
      ensures Mirrors(Feed(tbl, lib, old(Ctx()), w))
    {
      hide WellTyped, Typed, Parse, Sound, Finished;
      last := w.last;
      if w.len == 0 {
        status := Failed;
        return;
      }
      ghost var c := old(Ctx());
      EntryTyped(tbl, ty, c, p);
      if nextNum == 0 {
        next[0] := tbl.token(curr).next[0];
        nextNum := 1;
      }
      assert View() == Entry(tbl, c);
      status := ParseTop(tbl, lib, w, ty, p);
      taken := if status == Open then taken + [curr] else taken;
    }

    /** This object is in state `c`, except for `curr` after a failure. */
    ghost predicate Mirrors(c: Context<I>)
      reads this, args, next
      requires Valid()
    {
      c.status == status && c.taken == taken && c.state == View() && (status != Failed ==> c == Ctx())
    }

    /** Ask for a word if one is expected, and parse it. */
    method NextWord(
        tbl: Table<I>, lib: Library, w: Input<I>, ghost ty: Typing<I>, ghost c: Context<I>, ghost p: Mode)
      returns (ghost q: Mode)
      requires Valid() && Sensible(w) && WellTyped(tbl, ty) && Sound(tbl, ty, c, p) && Mirrors(c) && status == Open
      modifies this, args, next
      ensures Valid() && starved == old(starved)
      ensures Sound(tbl, ty, Feed(tbl, lib, c, w), q) && Mirrors(Feed(tbl, lib, c, w))
    {
      hide WellTyped, Feed, Sound, Finished;
      q := FeedSound(tbl, lib, ty, c, p, w);
      var done := IsFinished(tbl);
      if done {
        FeedCases(tbl, lib, c, w);
        status := Ended;
      } else {
        ParseWord(tbl, lib, w, ty, p);
      }
    }

    /** A whole line: `cmd_flow_tok` asks for words until the command is complete.  Whatever
        the words are, no callback is ever short of arguments and no stack overflows. */
    method ParseLine(tbl: Table<I>, lib: Library, words: seq<Input<I>>, ghost ty: Typing<I>)
      requires Valid() && Ctx() == Initial(tbl) && !starved && WellTyped(tbl, ty)
      requires forall i :: 0 <= i < |words| ==> Sensible(words[i])
      modifies this, args, next
      ensures Valid() && !starved && status != Overflowed
      ensures argsNum == Needs(ty, Next()) && (nextNum == 0 ==> argsNum == 0)
      ensures Mirrors(FeedAll(tbl, lib, Initial(tbl), words))
    {
      hide WellTyped, Feed, Sound, Finished, Needs;
      ghost var c, p := Initial(tbl), START;
      StartSound(tbl, ty);
      var i := 0;
      assert words[0..] == words;
      while i < |words| && status == Open
        invariant 0 <= i <= |words| && Valid() && !starved
        invariant FeedAll(tbl, lib, c, words[i..]) == FeedAll(tbl, lib, Initial(tbl), words)
        invariant Sound(tbl, ty, c, p) && Mirrors(c)
        decreases |words| - i
      {
        assert words[i..][0] == words[i] && words[i..][1..] == words[i + 1..];
        p := NextWord(tbl, lib, words[i], ty, c, p);
        c := Feed(tbl, lib, c, words[i]);
        i := i + 1;
      }
      FeedAllStuck(tbl, lib, c, words[i..]);
      StacksStayTyped(tbl, lib, ty, words);
    }

    /** `cmd_flow_tok`. */
    method IsFinished(tbl: Table<I>) returns (done: bool)
      requires Valid()
      ensures done == Finished(tbl, Ctx())
    {
      if nextNum == 0 {
        return curr != tbl.zero;
      }
      if !last {
        return false;
      }
      var list := next[nextNum - 1];
      var i := 0;
      while i < |list|
        invariant 0 <= i <= |list| && tbl.end !in list[..i]
      {
        if list[i] == tbl.end {
          return true;
        }
        assert list[..i + 1] == list[..i] + [list[i]];
        i := i + 1;
      }
      assert list[..i] == list;
      return false;
    }
  }

  lemma StartSound<I(!new)>(tbl: Table<I>, ty: Typing<I>)
    ensures Sound(tbl, ty, Initial(tbl), START)
  {
  }

  lemma FeedCases<I(!new)>(tbl: Table<I>, lib: Library, c: Context<I>, w: Input<I>)
    requires Sensible(w) && c.status == Open && Finished(tbl, c)
    ensures Feed(tbl, lib, c, w) == c.(status := Ended)
  {
  }

  lemma {:induction false} FeedAllStuck<I(!new)>(tbl: Table<I>, lib: Library, c: Context<I>, words: seq<Input<I>>)
    requires forall i :: 0 <= i < |words| ==> Sensible(words[i])
    ensures c.status != Open || words == [] ==> FeedAll(tbl, lib, c, words) == c
    decreases |words|
  {
    if words != [] {
      FeedAllStuck(tbl, lib, c, words[1..]);
    }
  }
}
