/** The table-driven parser of flow commands (app/test-pmd/cmdline_flow.c): every word is
    matched against the token list on top of the `next` stack, value tokens take their
    arguments from the `args` stack, and an accepted token pushes further lists and
    arguments.  The token table is a parameter. */
module FlowParser {
  import opened Basics
  import opened FlowFields
  import FlowMasks
  import FlowArena

  const CTX_STACK_SIZE: nat := 16
  const ACTION_RSS_QUEUE_NUM: nat := 32

  /** The callbacks of the token table.  `Keyword` stands for every callback that matches
      its own name and then only works on the output buffer. */
  datatype Callback =
    | Name
    | Keyword
    | PrefixParameter
    | RssType
    | RssQueue
    | Int
    | Prefix
    | Boolean
    | String
    | Mac
    | Ipv4
    | Ipv6
    | Port
    | ActionName

  /** `struct token`.  `places` is what the callback does to a create command's buffer,
      `binds` the size of the object that the callbacks of other commands make current, and
      `writes` how many bytes of the current object a callback writes by itself. */
  datatype Token<!I> = Token(name: string, call: Callback, next: seq<seq<I>>, args: seq<Arg>,
                             places: seq<FlowArena.Token>, binds: Option<nat>, writes: nat)

  /** `header` and `attr` are the sizes of the output buffer's header and of the attributes
      in it. */
  datatype Table<!I> = Table(token: I -> Token<I>, zero: I, end: I, prefix: I, header: nat, attr: nat)

  // ---------------------------------------------------------- the outside world

  /** What a C library conversion makes of a string. */
  datatype Number = Number(value: int, consumed: nat) | Unreadable

  datatype Library = Library(
    strtoumax: string -> Number,
    strtoimax: string -> Number,
    etheraddr: string -> int,
    inet4: string -> bool,
    inet6: string -> bool,
    decimal: nat -> string,
    isRssType: string -> bool,
    isAction: string -> bool,
    queueOffset: nat)

  /** What a keyword's work on the buffer leaves: whether it was accepted, whether there
      is a current object, and the upper half of `objdata`. */
  datatype Effect = Effect(accepted: bool, bound: bool, count: nat)

  /** One word: the rest of the line, the word's length, whether the command may end with
      it, whether there is an output buffer, and the keywords' work. */
  datatype Input<!I> = Input(src: string, len: nat, last: bool, buf: bool, keyword: I -> Effect)

  predicate Sensible<I(!new)>(w: Input<I>) {
    w.len <= |w.src|
  }

  // ------------------------------------------------------------- value callbacks

  /** Arguments a callback takes from the stack when it accepts. */
  function Pops(c: Callback): nat {
    match c
    case Int => 1
    case Prefix => 1
    case Boolean => 1
    case String => 3
    case Mac => 1
    case Ipv4 => 1
    case Ipv6 => 1
    case Port => 1
    case ActionName => 1
    case _ => 0
  }

  predicate IntAccepts(lib: Library, arg: Arg, bound: bool, src: string, len: nat) {
    var n := if arg.sign then lib.strtoimax(src) else lib.strtoumax(src);
    n.Number? && n.consumed == len &&
    (arg.bounded ==> arg.min <= n.value <= arg.max) &&
    (bound ==> FlowMasks.IntStorable(arg))
  }

  predicate PrefixAccepts(lib: Library, arg: Arg, bound: bool, src: string, len: nat) {
    var n := lib.strtoumax(src);
    n.Number? && n.consumed == len && 0 <= n.value && FlowMasks.ActsOn(arg, n.value) <= FlowMasks.Width(arg) &&
    (bound && arg.mask.Some? ==> FlowMasks.Width(arg) > 0)
  }

  /** Even positions stand for false. */
  const BOOLEAN_NAMES: seq<string> := ["0", "1", "false", "true", "no", "yes", "N", "Y", "off", "on"]

  const TRUE_NAMES: seq<string> := ["1", "true", "yes", "Y", "on"]

  /** A boolean name is read as the digit it stands for; anything else must be a number
      up to the end of the line. */
  function BooleanText(src: string, len: nat): string
    requires len <= |src|
  {
    var word := src[..len];
    if word in BOOLEAN_NAMES then
      if word in TRUE_NAMES then "1" else "0"
    else src
  }

  /** The string must fit its field, and the length field must be able to hold its length. */
  predicate StringAccepts(lib: Library, data: Arg, length: Arg, bound: bool, len: nat) {
    data.mask.None? && len <= data.size &&
    (bound ==> IntAccepts(lib, length, bound, lib.decimal(len), |lib.decimal(len)|))
  }

  predicate AddressField(arg: Arg, size: nat) {
    arg.mask.None? && arg.size == size && arg.hton
  }

  /** Whether a value callback accepts a word, given the arguments on the stack. */
  predicate ValueAccepts(lib: Library, c: Callback, args: seq<Arg>, bound: bool, src: string, len: nat, buf: bool)
    requires len <= |src|
  {
    0 < Pops(c) <= |args| &&
    var arg := args[|args| - 1];
    match c
    case Int => IntAccepts(lib, arg, bound, src, len)
    case Prefix => PrefixAccepts(lib, arg, bound, src, len)
    case Boolean => var text := BooleanText(src, len); |text| > 0 && IntAccepts(lib, arg, bound, text, |text|)
    case String => StringAccepts(lib, arg, args[|args| - 2], bound, len)
    case Mac => AddressField(arg, 6) && lib.etheraddr(src) == len
    case Ipv4 => AddressField(arg, 4) && (lib.inet4(src[..len]) || IntAccepts(lib, arg, bound, src, len))
    case Ipv6 => AddressField(arg, 16) && lib.inet6(src[..len])
    case Port => IntAccepts(lib, arg, bound || !buf, src, len)
    case ActionName => lib.isAction(src[..len])
    case _ => false
  }

  // --------------------------------------------------------------- one word

  /** The stacks and the parts of the context the callbacks depend on. */
  datatype State<!I> = State(args: seq<Arg>, next: seq<seq<I>>, bound: bool, count: nat)

  datatype Reply<!I> = Reply(state: State<I>, accepted: bool)

  function QueueArg(lib: Library, i: nat): Arg {
    Arg(false, false, false, 0, 0, lib.queueOffset + 2 * i, 2, None)
  }

  /** One candidate's callback. */
  function Call<I(!new)>(tbl: Table<I>, lib: Library, s: State<I>, x: I, w: Input<I>): Reply<I>
    requires Sensible(w)
  {
    var token := tbl.token(x);
    var word := w.src[..w.len];
    match token.call
    case Name => Reply(s, word == token.name)
    case Keyword => if word == token.name then Work(s, w.keyword(x)) else Reply(s, false)
    case PrefixParameter => if word == token.name then CallPrefix(tbl, s, w.keyword(x)) else Reply(s, false)
    case RssType => CallRssType(lib, s, x, word)
    case RssQueue => CallRssQueue(lib, s, x, w.src, w.len)
    case _ => CallValue(lib, s, token.call, w.src, w.len, w.buf)
  }

  /** `prefix` as an item parameter: the value expected next becomes a prefix length. */
  function CallPrefix<I>(tbl: Table<I>, s: State<I>, e: Effect): Reply<I> {
    if |s.next| < 2 then Reply(s, false) else Work(s.(next := Substituted(tbl, s.next)), e)
  }

  function CallRssType<I>(lib: Library, s: State<I>, x: I, word: string): Reply<I> {
    if word == "end" then Reply(s.(count := 0), true)
    else if !lib.isRssType(word) then Reply(s, false)
    else Repeat(s.(count := 1), x)
  }

  function CallRssQueue<I>(lib: Library, s: State<I>, x: I, src: string, len: nat): Reply<I>
    requires len <= |src|
  {
    if src[..len] == "end" then Reply(s.(count := 0), true)
    else if s.count >= ACTION_RSS_QUEUE_NUM || |s.args| == CTX_STACK_SIZE then Reply(s, false)
    else if !IntAccepts(lib, QueueArg(lib, s.count), s.bound, src, len) then Reply(s, false)
    else Repeat(s.(count := s.count + 1), x)
  }

  /** `parse_port` lends itself an object when there is no buffer. */
  function CallValue<I>(lib: Library, s: State<I>, c: Callback, src: string, len: nat, buf: bool): Reply<I>
    requires len <= |src|
  {
    var ok := ValueAccepts(lib, c, s.args, s.bound, src, len, buf);
    var t := if c == Port && !buf then s.(bound := false, count := 0) else s;
    Reply(if ok then t.(args := s.args[..|s.args| - Pops(c)]) else t, ok)
  }

  /** The stack after `prefix` has replaced the list below the top. */
  function Substituted<I>(tbl: Table<I>, next: seq<seq<I>>): seq<seq<I>>
    requires |next| >= 2
  {
    next[|next| - 2 := [tbl.prefix]]
  }

  function Work<I>(s: State<I>, e: Effect): Reply<I> {
    Reply(s.(bound := e.bound, count := e.count), e.accepted)
  }

  /** Push the token's own list once more. */
  function Repeat<I>(s: State<I>, x: I): Reply<I> {
    if |s.next| == CTX_STACK_SIZE then Reply(s, false) else Reply(s.(next := s.next + [[x]]), true)
  }

  datatype Tried<!I> = Accepted(state: State<I>, token: I) | Refused(state: State<I>)

  /** The candidates of a list, in order; what a refused one leaves is what the next sees. */
  function Try<I(!new)>(tbl: Table<I>, lib: Library, s: State<I>, list: seq<I>, w: Input<I>): Tried<I>
    requires Sensible(w)
    decreases |list|
  {
    if list == [] then Refused(s)
    else
      var r := Call(tbl, lib, s, list[0], w);
      if r.accepted then Accepted(r.state, list[0]) else Try(tbl, lib, r.state, list[1..], w)
  }

  datatype Verdict<!I> =
    | Taken(state: State<I>, token: I)
    | Unmatched(state: State<I>)
    | Overflow(state: State<I>)

  /** `cmd_flow_parse` on a word, with at least one list on the stack. */
  function Parse<I(!new)>(tbl: Table<I>, lib: Library, s: State<I>, w: Input<I>): Verdict<I>
    requires Sensible(w) && s.next != []
  {
    match Try(tbl, lib, s, s.next[|s.next| - 1], w)
    case Refused(t) => Unmatched(t)
    case Accepted(t, x) => Advance(tbl, t, x)
  }

  /** Drop the consumed list, then push what the token brings. */
  function Advance<I>(tbl: Table<I>, t: State<I>, x: I): Verdict<I> {
    var token := tbl.token(x);
    var base := if t.next == [] then [] else t.next[..|t.next| - 1];
    if |base| + |token.next| > CTX_STACK_SIZE || |t.args| + |token.args| > CTX_STACK_SIZE then Overflow(t)
    else Taken(t.(next := base + token.next, args := t.args + token.args), x)
  }

  // ------------------------------------------------------------- typing

  /** Where a line is: the phase of a create command, the object size of its current record,
      and how many bytes there are at the current object. */
  datatype Mode = Mode(phase: FlowArena.Phase, size: nat, room: nat)

  const START: Mode := Mode(FlowArena.Idle, 0, 0)

  /** What a token does to a create command, followed on the side. */
  function Track<I>(tbl: Table<I>, m: Mode, t: FlowArena.Token): Option<Mode> {
    match FlowArena.Follow(m.phase, t)
    case None => None
    case Some(q) =>
      match t
      case Command => Some(Mode(q, 0, tbl.header))
      case Attribute => Some(Mode(q, 0, tbl.attr))
      case Record(_, size) => Some(Mode(q, size, 0))
      case Parameter(_) => Some(Mode(q, m.size, m.size))
      case Conf => Some(Mode(q, m.size, m.size))
      case _ => Some(Mode(q, 0, 0))
  }

  function TrackAll<I>(tbl: Table<I>, m: Mode, ts: seq<FlowArena.Token>): Option<Mode>
    decreases |ts|
  {
    if ts == [] then Some(m)
    else
      match Track(tbl, m, ts[0])
      case None => None
      case Some(n) => TrackAll(tbl, n, ts[1..])
  }

  /** The mode after an accepted token; other commands bind objects only outside a create
      command. */
  function After<I>(tbl: Table<I>, x: I, m: Mode): Option<Mode> {
    match TrackAll(tbl, m, tbl.token(x).places)
    case None => None
    case Some(n) =>
      match tbl.token(x).binds
      case None => Some(n)
      case Some(k) => if n.phase == FlowArena.Idle then Some(n.(room := k)) else None
  }

  /** A typing of a table: for each token, the arguments it takes together with everything
      it brings, the stack slots and argument slots it may use, and the modes it leads
      through.  With `aimed` it also vouches for where arguments are stored. */
  datatype Typing<!I> = Typing(demand: I -> nat, tall: I -> nat, wide: I -> nat,
                               leads: (I, Mode) -> Option<Goal>, aimed: bool)

  /** Where a token leads: to a mode, or to the end of the command, after which nothing is
      expected. */
  datatype Goal = In(mode: Mode) | Over

  /** The candidates of a list take the same number of arguments. */
  ghost predicate Uniform<I(!new)>(ty: Typing<I>, list: seq<I>) {
    list != [] && forall x :: x in list ==> ty.demand(x) == ty.demand(list[0])
  }

  function Need<I>(ty: Typing<I>, list: seq<I>): nat {
    if list == [] then 0 else ty.demand(list[0])
  }

  /** Arguments the lists on a stack need, the top of the stack last. */
  function Needs<I>(ty: Typing<I>, lists: seq<seq<I>>): nat {
    if lists == [] then 0 else Needs(ty, lists[..|lists| - 1]) + Need(ty, lists[|lists| - 1])
  }

  /** Where a list leads: where all its candidates lead. */
  ghost function Lead<I(!new)>(ty: Typing<I>, list: seq<I>, g: Goal): Option<Goal> {
    if list != [] && g.In? && Agree(ty, list, g.mode) then ty.leads(list[0], g.mode) else None
  }

  ghost predicate Agree<I(!new)>(ty: Typing<I>, list: seq<I>, m: Mode)
    requires list != []
  {
    forall x :: x in list ==> ty.leads(x, m) == ty.leads(list[0], m)
  }

  /** Where all lists on a stack lead, worked off from the top. */
  ghost function Leads<I(!new)>(ty: Typing<I>, lists: seq<seq<I>>, g: Goal): Option<Goal> {
    if lists == [] then Some(g)
    else
      match Lead(ty, lists[|lists| - 1], g)
      case None => None
      case Some(h) => Leads(ty, lists[..|lists| - 1], h)
  }

  predicate Repeats(c: Callback) {
    c == RssType || c == RssQueue
  }

  predicate AsksPrefix<I>(tbl: Table<I>, x: I) {
    tbl.token(x).call == PrefixParameter
  }

  /** A list that may ask for a prefix sits on a list that a prefix can replace. */
  ghost predicate PrefixReady<I(!new)>(tbl: Table<I>, ty: Typing<I>, lists: seq<seq<I>>, j: nat)
    requires j < |lists|
  {
    (exists x :: x in lists[j] && AsksPrefix(tbl, x)) ==>
      j > 0 && Replaceable(tbl, ty, lists[j - 1])
  }

  /** A list that takes what a prefix takes, and leads where a prefix leads. */
  ghost predicate Replaceable<I(!new)>(tbl: Table<I>, ty: Typing<I>, v: seq<I>) {
    && v != [] && ty.demand(v[0]) == ty.demand(tbl.prefix)
    && forall m: Mode :: Lead(ty, v, In(m)).Some? ==> ty.leads(tbl.prefix, m) == Lead(ty, v, In(m))
  }

  /** A list of more than one candidate matches by name, and no two names are the same. */
  ghost predicate WellNamed<I(!new)>(tbl: Table<I>, list: seq<I>) {
    |list| > 1 ==>
      && (forall i :: 0 <= i < |list| ==> ByName(tbl.token(list[i]).call))
      && (forall i, j :: 0 <= i < j < |list| ==> tbl.token(list[i]).name != tbl.token(list[j]).name)
  }

  predicate ByName(c: Callback) {
    c == Name || c == Keyword || c == PrefixParameter
  }

  /** A list that can be on the stack at all. */
  ghost predicate Listed<I(!new)>(tbl: Table<I>, ty: Typing<I>, a: seq<I>) {
    Uniform(ty, a) && tbl.zero !in a && (ty.aimed ==> WellNamed(tbl, a))
  }

  ghost predicate Stackable<I(!new)>(tbl: Table<I>, ty: Typing<I>, lists: seq<seq<I>>) {
    forall j :: 0 <= j < |lists| ==> Listed(tbl, ty, lists[j]) && PrefixReady(tbl, ty, lists, j)
  }

  /** Every candidate at slot `j` has the slots it may use: `tall` of them from `j` up,
      and `wide` arguments above those of the lists below. */
  ghost predicate Fits<I(!new)>(ty: Typing<I>, lists: seq<seq<I>>, slots: nat, width: nat) {
    forall j, x :: 0 <= j < |lists| && x in lists[j] ==>
      j + ty.tall(x) <= slots && Needs(ty, lists[..j]) + ty.wide(x) <= width
  }

  ghost predicate ArgsIn(args: seq<Arg>, room: nat) {
    forall k :: 0 <= k < |args| ==> args[k].offset + args[k].size <= room
  }

  /** Every argument on the stack lies inside the object that will be current when the list
      it is for is worked off. */
  ghost predicate Aimed<I(!new)>(ty: Typing<I>, lists: seq<seq<I>>, args: seq<Arg>, g: Goal)
    requires |args| == Needs(ty, lists)
  {
    lists == [] ||
    var n := |lists| - 1;
    var k := |args| - Need(ty, lists[n]);
    && (args[k..] != [] ==> g.In? && ArgsIn(args[k..], g.mode.room))
    && match Lead(ty, lists[n], g) case None => true case Some(h) => Aimed(ty, lists[..n], args[..k], h)
  }

  ghost predicate WellAimedToken<I(!new)>(tbl: Table<I>, ty: Typing<I>, x: I)
    requires |tbl.token(x).args| + ty.demand(x) == Needs(ty, tbl.token(x).next) + Pops(tbl.token(x).call)
  {
    var token := tbl.token(x);
    && ty.demand(x) == Pops(token.call)
    && forall p: Mode :: ty.leads(x, p).Some? && After(tbl, x, p).Some? ==>
         token.writes <= p.room && Aimed(ty, token.next, token.args, In(After(tbl, x, p).value))
  }

  ghost predicate WellTypedToken<I(!new)>(tbl: Table<I>, ty: Typing<I>, x: I) {
    var token := tbl.token(x);
    && Stackable(tbl, ty, token.next)
    && Pops(token.call) <= ty.demand(x)
    && ty.demand(x) - Pops(token.call) + |token.args| == Needs(ty, token.next)
    && |token.next| <= ty.tall(x) && 1 <= ty.tall(x)
    && ty.demand(x) <= ty.wide(x) && Needs(ty, token.next) <= ty.wide(x)
    && Fits(ty, token.next, ty.tall(x), ty.wide(x))
    && (Repeats(token.call) ==>
          token.next == [] && token.args == [] && token.places == [] && token.binds == None &&
          ty.tall(x) >= 2 && ty.wide(x) > ty.demand(x))
    && (forall p: Mode :: ty.leads(x, p).Some? ==>
          After(tbl, x, p).Some? &&
          var reached := Leads(ty, token.next, In(After(tbl, x, p).value));
          reached.Some? && (ty.leads(x, p) == Some(Over) || reached == ty.leads(x, p)))
    && (ty.aimed ==> WellAimedToken(tbl, ty, x))
  }

  ghost predicate WellTyped<I(!new)>(tbl: Table<I>, ty: Typing<I>) {
    && (forall x :: WellTypedToken(tbl, ty, x))
    && tbl.token(tbl.prefix).call == Prefix && tbl.prefix != tbl.zero
    && ty.demand(tbl.prefix) == 1 && ty.tall(tbl.prefix) == 1 && ty.wide(tbl.prefix) == 1
    && tbl.token(tbl.zero).next != []
    && Start(tbl, ty, tbl.token(tbl.zero).next[0])
  }

  /** The list a command starts with. */
  ghost predicate Start<I(!new)>(tbl: Table<I>, ty: Typing<I>, list: seq<I>) {
    Stackable(tbl, ty, [list]) && Fits(ty, [list], CTX_STACK_SIZE, CTX_STACK_SIZE) && Need(ty, list) == 0 &&
    Lead(ty, list, In(START)).Some?
  }

  /** Stack typing: the arguments on the stack are exactly those the lists need, and the
      lists lead somewhere from the current phase. */
  ghost predicate Typed<I(!new)>(tbl: Table<I>, ty: Typing<I>, s: State<I>, p: Mode) {
    && Stackable(tbl, ty, s.next)
    && |s.args| == Needs(ty, s.next)
    && Fits(ty, s.next, CTX_STACK_SIZE, CTX_STACK_SIZE)
    && Leads(ty, s.next, In(p)).Some?
    && (ty.aimed ==> Aimed(ty, s.next, s.args, In(p)))
  }

  // ----------------------------------------------------------- stack algebra

  lemma {:induction false} NeedsConcat<I(!new)>(ty: Typing<I>, a: seq<seq<I>>, b: seq<seq<I>>)
    ensures Needs(ty, a + b) == Needs(ty, a) + Needs(ty, b)
    decreases |b|
  {
    if b == [] {
      assert a + b == a;
    } else {
      var c := b[..|b| - 1];
      assert (a + b)[..|a + b| - 1] == a + c;
      NeedsConcat(ty, a, c);
    }
  }

  lemma {:induction false} LeadsConcat<I(!new)>(ty: Typing<I>, a: seq<seq<I>>, b: seq<seq<I>>, g: Goal)
    ensures Leads(ty, a + b, g) == match Leads(ty, b, g) case None => None case Some(h) => Leads(ty, a, h)
    decreases |b|
  {
    if b == [] {
      assert a + b == a;
    } else {
      var c := b[..|b| - 1];
      assert (a + b)[..|a + b| - 1] == a + c;
      match Lead(ty, b[|b| - 1], g)
      case None =>
      case Some(h) => LeadsConcat(ty, a, c, h);
    }
  }

  lemma NeedsOne<I(!new)>(ty: Typing<I>, list: seq<I>)
    ensures Needs(ty, [list]) == Need(ty, list)
  {
    assert [list][..0] == [];
  }

  lemma LeadsOne<I(!new)>(ty: Typing<I>, list: seq<I>, g: Goal)
    ensures Leads(ty, [list], g) == Lead(ty, list, g)
  {
    assert [list][..0] == [];
  }

  /** The typing of a stack, split below its top. */
  lemma Top<I(!new)>(ty: Typing<I>, lists: seq<seq<I>>, g: Goal)
    requires lists != []
    ensures var rest, top := lists[..|lists| - 1], lists[|lists| - 1];
            Needs(ty, lists) == Needs(ty, rest) + Need(ty, top) &&
            Leads(ty, lists, g) == match Lead(ty, top, g) case None => None case Some(h) => Leads(ty, rest, h)
  {
  }

  /** A prefix can stand for a list it may replace, inside a stack. */
  lemma Exchange<I(!new)>(tbl: Table<I>, ty: Typing<I>, a: seq<seq<I>>, v: seq<I>, g: Goal)
    requires Replaceable(tbl, ty, v)
    ensures Needs(ty, a + [v]) == Needs(ty, a + [[tbl.prefix]])
    ensures Leads(ty, a + [v], g).Some? ==> Leads(ty, a + [[tbl.prefix]], g) == Leads(ty, a + [v], g)
  {
    var u := [tbl.prefix];
    NeedsConcat(ty, a, [v]);
    NeedsConcat(ty, a, [u]);
    NeedsOne(ty, v);
    NeedsOne(ty, u);
    LeadsConcat(ty, a, [v], g);
    LeadsConcat(ty, a, [u], g);
    LeadsOne(ty, v, g);
    LeadsOne(ty, u, g);
  }

  lemma {:induction false} AimedConcat<I(!new)>(
      ty: Typing<I>, a: seq<seq<I>>, argsA: seq<Arg>, b: seq<seq<I>>, argsB: seq<Arg>, g: Goal)
    requires |argsA| == Needs(ty, a) && |argsB| == Needs(ty, b) && Aimed(ty, b, argsB, g)
    requires Leads(ty, b, g).Some? ==> Aimed(ty, a, argsA, Leads(ty, b, g).value)
    ensures |argsA + argsB| == Needs(ty, a + b) && Aimed(ty, a + b, argsA + argsB, g)
    decreases |b|
  {
    NeedsConcat(ty, a, b);
    if b == [] {
      assert a + b == a && argsA + argsB == argsA;
    } else {
      var n := |b| - 1;
      var k := |argsB| - Need(ty, b[n]);
      assert (a + b)[..|a + b| - 1] == a + b[..n] && (a + b)[|a + b| - 1] == b[n];
      assert (argsA + argsB)[..|argsA| + k] == argsA + argsB[..k];
      assert (argsA + argsB)[|argsA| + k..] == argsB[k..];
      match Lead(ty, b[n], g)
      case None =>
      case Some(h) => AimedConcat(ty, a, argsA, b[..n], argsB[..k], h);
    }
  }

  /** What an aimed stack says of its top. */
  lemma AimedTop<I(!new)>(ty: Typing<I>, lists: seq<seq<I>>, args: seq<Arg>, p: Mode)
    requires lists != [] && |args| == Needs(ty, lists) && Aimed(ty, lists, args, In(p))
    ensures var rest, top := lists[..|lists| - 1], lists[|lists| - 1];
            var k := |args| - Need(ty, top);
            && k == Needs(ty, rest) && ArgsIn(args[k..], p.room)
            && (Lead(ty, top, In(p)).Some? ==> Aimed(ty, rest, args[..k], Lead(ty, top, In(p)).value))
  {
  }

  // ------------------------------------------------- the prefix substitution

  lemma SubstitutedShape<I(!new)>(tbl: Table<I>, next: seq<seq<I>>)
    requires |next| >= 2
    ensures var n := |next|; var next' := Substituted(tbl, next);
            next[..n - 1] == next[..n - 2] + [next[n - 2]] && next'[..n - 1] == next[..n - 2] + [[tbl.prefix]] &&
            next'[n - 1] == next[n - 1] && next'[n - 2] == [tbl.prefix]
  {
  }

  lemma SubstitutedNeeds<I(!new)>(tbl: Table<I>, ty: Typing<I>, next: seq<seq<I>>, g: Goal)
    requires |next| >= 2 && Replaceable(tbl, ty, next[|next| - 2])
    ensures var n := |next|; var next' := Substituted(tbl, next);
            Needs(ty, next'[..n - 1]) == Needs(ty, next[..n - 1]) && Needs(ty, next') == Needs(ty, next) &&
            (Leads(ty, next, g).Some? ==> Leads(ty, next', g) == Leads(ty, next, g))
  {
    var n := |next|;
    var next' := Substituted(tbl, next);
    SubstitutedShape(tbl, next);
    Top(ty, next, g);
    Top(ty, next', g);
    hide Substituted, Replaceable;
    var a, v := next[..n - 2], next[n - 2];
    Exchange(tbl, ty, a, v, g);
    match Lead(ty, next[n - 1], g)
    case None =>
    case Some(h) => Exchange(tbl, ty, a, v, h);
  }

  lemma SubstitutedStackable<I(!new)>(tbl: Table<I>, ty: Typing<I>, next: seq<seq<I>>)
    requires |next| >= 2 && Stackable(tbl, ty, next) && !AsksPrefix(tbl, tbl.prefix) && tbl.prefix != tbl.zero
    ensures Stackable(tbl, ty, Substituted(tbl, next))
  {
    var n := |next|;
    var next' := Substituted(tbl, next);
    forall j | 0 <= j < n
      ensures Listed(tbl, ty, next'[j]) && PrefixReady(tbl, ty, next', j)
    {
      assert PrefixReady(tbl, ty, next, j) && Listed(tbl, ty, next[j]);
      if j == n - 2 {
        assert forall x :: x in next'[j] ==> x == tbl.prefix;
      } else {
        assert next'[j] == next[j];
      }
    }
  }

  lemma SubstitutedFits<I(!new)>(tbl: Table<I>, ty: Typing<I>, next: seq<seq<I>>, g: Goal)
    requires |next| >= 2 && Fits(ty, next, CTX_STACK_SIZE, CTX_STACK_SIZE)
    requires Replaceable(tbl, ty, next[|next| - 2])
    requires ty.tall(tbl.prefix) == 1 && ty.wide(tbl.prefix) == 1 <= ty.wide(next[|next| - 2][0])
    requires 1 <= ty.tall(next[|next| - 2][0])
    ensures Fits(ty, Substituted(tbl, next), CTX_STACK_SIZE, CTX_STACK_SIZE)
  {
    var n := |next|;
    var next' := Substituted(tbl, next);
    SubstitutedNeeds(tbl, ty, next, g);
    hide Needs, Replaceable;
    var v := next[n - 2][0];
    assert v in next[n - 2];
    forall j, x | 0 <= j < n && x in next'[j]
      ensures j + ty.tall(x) <= CTX_STACK_SIZE && Needs(ty, next'[..j]) + ty.wide(x) <= CTX_STACK_SIZE
    {
      if j == n - 2 {
        assert x == tbl.prefix && next'[..j] == next[..j];
      } else if j < n - 2 {
        assert next'[..j] == next[..j] && x in next[j];
      } else {
        assert x in next[j];
      }
    }
  }

  /** Being aimed, one list at a time. */
  lemma AimedOn<I(!new)>(ty: Typing<I>, rest: seq<seq<I>>, top: seq<I>, args: seq<Arg>, g: Goal)
    requires |args| == Needs(ty, rest + [top])
    ensures var k := |args| - Need(ty, top);
            && k == Needs(ty, rest)
            && (Aimed(ty, rest + [top], args, g) <==>
                && (args[k..] != [] ==> g.In? && ArgsIn(args[k..], g.mode.room))
                && (Lead(ty, top, g).Some? ==> Aimed(ty, rest, args[..k], Lead(ty, top, g).value)))
  {
    hide Lead, ArgsIn, Leads;
    var lists := rest + [top];
    assert lists[..|rest|] == rest && lists[|lists| - 1] == top;
    Top(ty, lists, g);
    hide Needs, Need;
  }

  lemma ExchangeAimed<I(!new)>(tbl: Table<I>, ty: Typing<I>, a: seq<seq<I>>, v: seq<I>, args: seq<Arg>, g: Goal)
    requires Replaceable(tbl, ty, v) && Lead(ty, v, g).Some?
    requires |args| == Needs(ty, a + [v]) && Aimed(ty, a + [v], args, g)
    ensures |args| == Needs(ty, a + [[tbl.prefix]]) && Aimed(ty, a + [[tbl.prefix]], args, g)
  {
    hide Aimed, Needs, ArgsIn;
    Exchange(tbl, ty, a, v, g);
    AimedOn(ty, a, v, args, g);
    AimedOn(ty, a, [tbl.prefix], args, g);
    assert Lead(ty, [tbl.prefix], g) == Lead(ty, v, g);
  }

  lemma SubstitutedAimed<I(!new)>(tbl: Table<I>, ty: Typing<I>, next: seq<seq<I>>, args: seq<Arg>, g: Goal)
    requires |next| >= 2 && Replaceable(tbl, ty, next[|next| - 2]) && Leads(ty, next, g).Some?
    requires |args| == Needs(ty, next) && Aimed(ty, next, args, g)
    ensures |args| == Needs(ty, Substituted(tbl, next)) && Aimed(ty, Substituted(tbl, next), args, g)
  {
    var n := |next|;
    var next' := Substituted(tbl, next);
    SubstitutedNeeds(tbl, ty, next, g);
    SubstitutedShape(tbl, next);
    Top(ty, next, g);
    var a, v, top := next[..n - 2], next[n - 2], next[n - 1];
    var k := |args| - Need(ty, top);
    var h := Lead(ty, top, g).value;
    assert next == (a + [v]) + [top] && next' == (a + [[tbl.prefix]]) + [top];
    hide Substituted, Aimed, Needs, Lead, Replaceable, ArgsIn;
    AimedOn(ty, a + [v], top, args, g);
    AimedOn(ty, a + [[tbl.prefix]], top, args, g);
    LeadsConcat(ty, a, [v], h);
    LeadsOne(ty, v, h);
    ExchangeAimed(tbl, ty, a, v, args[..k], h);
  }

  /** What asking for a prefix relies on. */
  lemma PrefixBelow<I(!new)>(tbl: Table<I>, ty: Typing<I>, next: seq<seq<I>>, x: I)
    requires WellTyped(tbl, ty) && Stackable(tbl, ty, next) && next != []
    requires x in next[|next| - 1] && AsksPrefix(tbl, x)
    ensures |next| >= 2 && Replaceable(tbl, ty, next[|next| - 2])
    ensures var v := next[|next| - 2][0]; 1 <= ty.wide(v) && 1 <= ty.tall(v)
    ensures !AsksPrefix(tbl, tbl.prefix) && tbl.prefix != tbl.zero && ty.tall(tbl.prefix) == 1 == ty.wide(tbl.prefix)
  {
    var n := |next|;
    assert PrefixReady(tbl, ty, next, n - 1);
    var v := next[n - 2][0];
    assert WellTypedToken(tbl, ty, v) && ty.demand(v) == 1;
  }

  /** Asking for a prefix keeps the stack typed. */
  lemma SubstitutionTyped<I(!new)>(tbl: Table<I>, ty: Typing<I>, s: State<I>, p: Mode, x: I)
    requires WellTyped(tbl, ty) && Typed(tbl, ty, s, p) && s.next != []
    requires x in s.next[|s.next| - 1] && AsksPrefix(tbl, x)
    ensures |s.next| >= 2 && Typed(tbl, ty, s.(next := Substituted(tbl, s.next)), p)
  {
    PrefixBelow(tbl, ty, s.next, x);
    hide WellTyped, Stackable, Fits, Replaceable, Needs, Leads, Aimed, AsksPrefix, Substituted;
    SubstitutedNeeds(tbl, ty, s.next, In(p));
    SubstitutedStackable(tbl, ty, s.next);
    SubstitutedFits(tbl, ty, s.next, In(p));
    if ty.aimed {
      SubstitutedAimed(tbl, ty, s.next, s.args, In(p));
    }
  }

  // ------------------------------------------------------------ advancing

  lemma StackableConcat<I(!new)>(tbl: Table<I>, ty: Typing<I>, a: seq<seq<I>>, b: seq<seq<I>>)
    requires Stackable(tbl, ty, a) && Stackable(tbl, ty, b)
    ensures Stackable(tbl, ty, a + b)
  {
    var c := a + b;
    forall j | 0 <= j < |c|
      ensures Listed(tbl, ty, c[j]) && PrefixReady(tbl, ty, c, j)
    {
      if j < |a| {
        assert PrefixReady(tbl, ty, a, j);
      } else {
        assert PrefixReady(tbl, ty, b, j - |a|);
      }
    }
  }

  lemma StackableBelow<I(!new)>(tbl: Table<I>, ty: Typing<I>, a: seq<seq<I>>, n: nat)
    requires Stackable(tbl, ty, a) && n <= |a|
    ensures Stackable(tbl, ty, a[..n])
  {
    forall j | 0 <= j < n
      ensures Listed(tbl, ty, a[..n][j]) && PrefixReady(tbl, ty, a[..n], j)
    {
      assert PrefixReady(tbl, ty, a, j);
    }
  }

  lemma FitsBelow<I(!new)>(ty: Typing<I>, a: seq<seq<I>>, slots: nat, width: nat, n: nat)
    requires Fits(ty, a, slots, width) && n <= |a|
    ensures Fits(ty, a[..n], slots, width)
  {
    forall j, x | 0 <= j < n && x in a[..n][j]
      ensures j + ty.tall(x) <= slots && Needs(ty, a[..n][..j]) + ty.wide(x) <= width
    {
      assert a[..n][..j] == a[..j] && x in a[j];
    }
  }

  lemma FitsConcat<I(!new)>(ty: Typing<I>, a: seq<seq<I>>, b: seq<seq<I>>, slots: nat, width: nat, t: nat, w: nat)
    requires Fits(ty, a, slots, width) && Fits(ty, b, t, w) && |a| + t <= slots && Needs(ty, a) + w <= width
    ensures Fits(ty, a + b, slots, width)
  {
    var c := a + b;
    forall j, x | 0 <= j < |c| && x in c[j]
      ensures j + ty.tall(x) <= slots && Needs(ty, c[..j]) + ty.wide(x) <= width
    {
      if j < |a| {
        assert c[..j] == a[..j] && x in a[j];
      } else {
        var i := j - |a|;
        assert c[..j] == a + b[..i] && x in b[i];
        NeedsConcat(ty, a, b[..i]);
      }
    }
  }

  /** Only an empty stack leads on from the end of a command. */
  lemma OverAtBottom<I(!new)>(ty: Typing<I>, lists: seq<seq<I>>)
    ensures Leads(ty, lists, Over).Some? ==> lists == []
    ensures forall g :: lists == [] ==> Leads(ty, lists, g) == Some(g)
  {
  }

  /** What a typed stack says of a candidate on its top. */
  lemma Candidate<I(!new)>(tbl: Table<I>, ty: Typing<I>, s: State<I>, p: Mode, x: I)
    requires WellTyped(tbl, ty) && Typed(tbl, ty, s, p) && s.next != [] && x in s.next[|s.next| - 1]
    ensures var base := s.next[..|s.next| - 1];
            |s.args| == Needs(ty, base) + ty.demand(x) && Pops(tbl.token(x).call) <= ty.demand(x) &&
            |base| + ty.tall(x) <= CTX_STACK_SIZE && Needs(ty, base) + ty.wide(x) <= CTX_STACK_SIZE &&
            ty.leads(x, p).Some? && Leads(ty, base, ty.leads(x, p).value).Some?
    ensures ty.aimed ==>
              var base := s.next[..|s.next| - 1];
              var k := |s.args| - ty.demand(x);
              ArgsIn(s.args[k..], p.room) && Aimed(ty, base, s.args[..k], ty.leads(x, p).value) &&
              ty.demand(x) == Pops(tbl.token(x).call)
    ensures WellTypedToken(tbl, ty, x)
  {
    hide WellTyped, WellTypedToken, Stackable, Fits, Needs, Need, Leads, Lead, Aimed, ArgsIn, Pops;
    EachToken(tbl, ty, x);
    TopMember(tbl, ty, s.next, p, x);
    Top(ty, s.next, In(p));
    if ty.aimed {
      AimedTop(ty, s.next, s.args, p);
    }
  }

  lemma EachToken<I(!new)>(tbl: Table<I>, ty: Typing<I>, x: I)
    requires WellTyped(tbl, ty)
    ensures WellTypedToken(tbl, ty, x) && Pops(tbl.token(x).call) <= ty.demand(x)
    ensures ty.aimed ==> ty.demand(x) == Pops(tbl.token(x).call)
  {
    hide Stackable, Fits, Needs, Leads, After, Aimed;
  }

  /** A candidate of the list on top stands for the list. */
  lemma TopMember<I(!new)>(tbl: Table<I>, ty: Typing<I>, lists: seq<seq<I>>, p: Mode, x: I)
    requires Stackable(tbl, ty, lists) && lists != [] && x in lists[|lists| - 1]
    ensures var n := |lists| - 1;
            && Need(ty, lists[n]) == ty.demand(x)
            && (Lead(ty, lists[n], In(p)).Some? ==> ty.leads(x, p) == Lead(ty, lists[n], In(p)))
            && (Fits(ty, lists, CTX_STACK_SIZE, CTX_STACK_SIZE) ==>
                  n + ty.tall(x) <= CTX_STACK_SIZE && Needs(ty, lists[..n]) + ty.wide(x) <= CTX_STACK_SIZE)
  {
    hide Needs, PrefixReady;
    assert Listed(tbl, ty, lists[|lists| - 1]);
  }

  /** Dropping the consumed list and pushing what the token brings keeps the stack typed. */
  lemma AdvanceTyped<I(!new)>(tbl: Table<I>, ty: Typing<I>, s: State<I>, args: seq<Arg>, p: Mode, x: I)
    requires WellTyped(tbl, ty) && Typed(tbl, ty, s, p) && s.next != [] && x in s.next[|s.next| - 1]
    requires Pops(tbl.token(x).call) <= |s.args| && args == s.args[..|s.args| - Pops(tbl.token(x).call)]
    ensures After(tbl, x, p).Some?
    ensures var v := Advance(tbl, s.(args := args), x); v.Taken? && Typed(tbl, ty, v.state, After(tbl, x, p).value)
  {
    hide WellTyped, WellTypedToken, Stackable, Fits, Needs, Leads, After, Aimed, Pops, ArgsIn;
    Candidate(tbl, ty, s, p, x);
    var base := s.next[..|s.next| - 1];
    StackableBelow(tbl, ty, s.next, |base|);
    FitsBelow(ty, s.next, CTX_STACK_SIZE, CTX_STACK_SIZE, |base|);
    AdvanceLeads(tbl, ty, base, p, x);
    AdvanceFits(tbl, ty, base, args, x);
    if ty.aimed {
      AdvanceAimed(tbl, ty, base, args, p, x);
    }
  }

  /** What the lists below and those a token brings add up to. */
  lemma AdvanceFits<I(!new)>(tbl: Table<I>, ty: Typing<I>, base: seq<seq<I>>, args: seq<Arg>, x: I)
    requires WellTypedToken(tbl, ty, x) && Stackable(tbl, ty, base)
    requires Fits(ty, base, CTX_STACK_SIZE, CTX_STACK_SIZE)
    requires |args| == Needs(ty, base) + ty.demand(x) - Pops(tbl.token(x).call)
    requires |base| + ty.tall(x) <= CTX_STACK_SIZE && Needs(ty, base) + ty.wide(x) <= CTX_STACK_SIZE
    ensures var token := tbl.token(x);
            && Stackable(tbl, ty, base + token.next)
            && Fits(ty, base + token.next, CTX_STACK_SIZE, CTX_STACK_SIZE)
            && |args + token.args| == Needs(ty, base + token.next) <= CTX_STACK_SIZE
            && |base + token.next| <= CTX_STACK_SIZE
  {
    hide Stackable, Fits, Needs, Leads, After, WellAimedToken, Pops;
    var token := tbl.token(x);
    NeedsConcat(ty, base, token.next);
    StackableConcat(tbl, ty, base, token.next);
    FitsConcat(ty, base, token.next, CTX_STACK_SIZE, CTX_STACK_SIZE, ty.tall(x), ty.wide(x));
  }

  lemma AdvanceLeads<I(!new)>(tbl: Table<I>, ty: Typing<I>, base: seq<seq<I>>, p: Mode, x: I)
    requires WellTypedToken(tbl, ty, x) && ty.leads(x, p).Some?
    requires Leads(ty, base, ty.leads(x, p).value).Some?
    ensures After(tbl, x, p).Some? && Leads(ty, base + tbl.token(x).next, In(After(tbl, x, p).value)).Some?
  {
    hide Stackable, Fits, Needs, Leads, After, WellAimedToken, Pops;
    LeadsConcat(ty, base, tbl.token(x).next, In(After(tbl, x, p).value));
    OverAtBottom(ty, base);
  }

  lemma AdvanceAimed<I(!new)>(tbl: Table<I>, ty: Typing<I>, base: seq<seq<I>>, args: seq<Arg>, p: Mode, x: I)
    requires WellTypedToken(tbl, ty, x) && ty.aimed && ty.leads(x, p).Some?
    requires |args| == Needs(ty, base) && Aimed(ty, base, args, ty.leads(x, p).value)
    requires Leads(ty, base, ty.leads(x, p).value).Some?
    ensures After(tbl, x, p).Some?
    ensures var token := tbl.token(x);
            |args + token.args| == Needs(ty, base + token.next) &&
            Aimed(ty, base + token.next, args + token.args, In(After(tbl, x, p).value))
  {
    var token, g := tbl.token(x), In(After(tbl, x, p).value);
    hide Stackable, Fits, After, Pops;
    OverAtBottom(ty, base);
    hide Needs, Leads;
    if base == [] {
      NoneAimed(ty, args, Leads(ty, token.next, g).value);
    }
    AimedConcat(ty, base, args, token.next, token.args, g);
  }

  lemma NoneAimed<I(!new)>(ty: Typing<I>, args: seq<Arg>, g: Goal)
    ensures Needs(ty, []) == 0 && (args == [] ==> Aimed(ty, [], args, g))
  {
  }

  /** A repeated token pushes its own list and consumes it again: nothing changes. */
  lemma RepeatTyped<I(!new)>(tbl: Table<I>, ty: Typing<I>, s: State<I>, p: Mode, x: I)
    requires WellTyped(tbl, ty) && Typed(tbl, ty, s, p) && s.next != [] && x in s.next[|s.next| - 1]
    requires Repeats(tbl.token(x).call)
    ensures |s.next| < CTX_STACK_SIZE && |s.args| < CTX_STACK_SIZE
    ensures After(tbl, x, p) == Some(p) && Advance(tbl, Repeat(s, x).state, x) == Taken(s, x)
  {
    Candidate(tbl, ty, s, p, x);
    assert WellTypedToken(tbl, ty, x);
    hide WellTyped, Stackable, Fits, Needs, Leads;
    var pushed := Repeat(s, x).state;
    assert pushed.next[..|pushed.next| - 1] == s.next;
    assert s.next + [] == s.next && s.args + [] == s.args;
  }

  // ---------------------------------------------------------- one candidate

  /** What callbacks may do to the stacks without accepting: nothing, except that asking
      for a prefix may already have replaced the list below the top. */
  predicate Undisturbed<I(==)>(tbl: Table<I>, s: State<I>, t: State<I>) {
    t.args == s.args && (t.next == s.next || (|s.next| >= 2 && t.next == Substituted(tbl, s.next)))
  }

  /** Backtracking frame, for every table and state: a callback that refuses leaves the
      argument stack exactly as it found it, and one that accepts has taken exactly its
      own arguments from the top. */
  lemma CallFrame<I(!new)>(tbl: Table<I>, lib: Library, s: State<I>, x: I, w: Input<I>)
    requires Sensible(w)
    ensures var r := Call(tbl, lib, s, x, w); var c := tbl.token(x).call;
            if r.accepted then Pops(c) <= |s.args| && r.state.args == s.args[..|s.args| - Pops(c)]
            else Undisturbed(tbl, s, r.state)
    ensures |Call(tbl, lib, s, x, w).state.next| >= |s.next|
  {
    hide IntAccepts, PrefixAccepts, BooleanText, AddressField;
  }

  lemma PlainCallTyped<I(!new)>(tbl: Table<I>, ty: Typing<I>, s: State<I>, r: Reply<I>, p: Mode, x: I)
    requires WellTyped(tbl, ty) && Typed(tbl, ty, s, p) && s.next != [] && x in s.next[|s.next| - 1]
    requires r.state.next == s.next && Pops(tbl.token(x).call) <= |s.args|
    requires r.state.args == if r.accepted then s.args[..|s.args| - Pops(tbl.token(x).call)] else s.args
    ensures TypedReply(tbl, ty, s, r, p, x)
  {
    if r.accepted {
      AdvanceTyped(tbl, ty, r.state.(args := s.args), r.state.args, p, x);
      assert r.state.(args := s.args).(args := r.state.args) == r.state;
    }
  }

  /** What a reply to a candidate on top of a typed stack has to be. */
  ghost predicate TypedReply<I(!new)>(tbl: Table<I>, ty: Typing<I>, s: State<I>, r: Reply<I>, p: Mode, x: I)
    requires s.next != []
  {
    if r.accepted then
      var v := Advance(tbl, r.state, x);
      After(tbl, x, p).Some? && v.Taken? && Typed(tbl, ty, v.state, After(tbl, x, p).value)
    else
      Typed(tbl, ty, r.state, p) && r.state.next != [] && r.state.next[|r.state.next| - 1] == s.next[|s.next| - 1]
  }

  lemma PrefixCallTyped<I(!new)>(
      tbl: Table<I>, lib: Library, ty: Typing<I>, s: State<I>, p: Mode, x: I, w: Input<I>)
    requires Sensible(w) && WellTyped(tbl, ty) && Typed(tbl, ty, s, p) && s.next != [] && x in s.next[|s.next| - 1]
    requires tbl.token(x).call == PrefixParameter
    ensures TypedReply(tbl, ty, s, Call(tbl, lib, s, x, w), p, x)
  {
    SubstitutionTyped(tbl, ty, s, p, x);
    var t := s.(next := Substituted(tbl, s.next));
    var r := Call(tbl, lib, s, x, w);
    if w.src[..w.len] == tbl.token(x).name {
      PlainCallTyped(tbl, ty, t, r, p, x);
    } else {
      PlainCallTyped(tbl, ty, s, r, p, x);
    }
  }

  lemma RepeatCallTyped<I(!new)>(
      tbl: Table<I>, lib: Library, ty: Typing<I>, s: State<I>, p: Mode, x: I, w: Input<I>)
    requires Sensible(w) && WellTyped(tbl, ty) && Typed(tbl, ty, s, p) && s.next != [] && x in s.next[|s.next| - 1]
    requires Repeats(tbl.token(x).call)
    ensures TypedReply(tbl, ty, s, Call(tbl, lib, s, x, w), p, x)
  {
    hide WellTyped, IntAccepts, Advance;
    var r := Call(tbl, lib, s, x, w);
    if r.state.next == s.next {
      PlainCallTyped(tbl, ty, s, r, p, x);
    } else {
      var t := r.state.(next := s.next);
      RepeatTyped(tbl, ty, t, p, x);
      assert r.state == Repeat(t, x).state;
    }
  }

  /** All other callbacks leave the list stack alone. */
  lemma PlainCall<I(!new)>(tbl: Table<I>, lib: Library, s: State<I>, x: I, w: Input<I>)
    requires Sensible(w) && tbl.token(x).call != PrefixParameter && !Repeats(tbl.token(x).call)
    requires Pops(tbl.token(x).call) <= |s.args|
    ensures var r := Call(tbl, lib, s, x, w);
            r.state.next == s.next &&
            r.state.args == if r.accepted then s.args[..|s.args| - Pops(tbl.token(x).call)] else s.args
  {
    hide ValueAccepts;
  }

  /** No callback is ever short of arguments, and whatever it replies the stack stays typed. */
  lemma CallTyped<I(!new)>(
      tbl: Table<I>, lib: Library, ty: Typing<I>, s: State<I>, p: Mode, x: I, w: Input<I>)
    requires Sensible(w) && WellTyped(tbl, ty) && Typed(tbl, ty, s, p) && s.next != [] && x in s.next[|s.next| - 1]
    ensures Pops(tbl.token(x).call) <= |s.args|
    ensures TypedReply(tbl, ty, s, Call(tbl, lib, s, x, w), p, x)
  {
    Candidate(tbl, ty, s, p, x);
    hide WellTyped, Typed, TypedReply, Call;
    var c := tbl.token(x).call;
    if c == PrefixParameter {
      PrefixCallTyped(tbl, lib, ty, s, p, x, w);
    } else if Repeats(c) {
      RepeatCallTyped(tbl, lib, ty, s, p, x, w);
    } else {
      PlainCall(tbl, lib, s, x, w);
      PlainCallTyped(tbl, ty, s, Call(tbl, lib, s, x, w), p, x);
    }
  }

  // ------------------------------------------------------- words and commands

  lemma {:induction false} TryTyped<I(!new)>(
      tbl: Table<I>, lib: Library, ty: Typing<I>, s: State<I>, p: Mode, list: seq<I>, w: Input<I>)
    requires Sensible(w) && WellTyped(tbl, ty) && Typed(tbl, ty, s, p) && s.next != []
    requires forall i :: 0 <= i < |list| ==> list[i] in s.next[|s.next| - 1]
    ensures match Try(tbl, lib, s, list, w)
            case Refused(t) => Typed(tbl, ty, t, p) && t.next != []
            case Accepted(t, x) =>
              var v := Advance(tbl, t, x);
              x in list && After(tbl, x, p).Some? && v.Taken? && Typed(tbl, ty, v.state, After(tbl, x, p).value)
    decreases |list|
  {
    if list != [] {
      hide WellTyped, Typed, Call, Advance;
      CallTyped(tbl, lib, ty, s, p, list[0], w);
      var r := Call(tbl, lib, s, list[0], w);
      if !r.accepted {
        TryTyped(tbl, lib, ty, r.state, p, list[1..], w);
      }
    }
  }

  /** One word keeps the stacks typed, in the phase the accepted token leads to, and never
      overflows them. */
  lemma ParseTyped<I(!new)>(tbl: Table<I>, lib: Library, ty: Typing<I>, s: State<I>, p: Mode, w: Input<I>)
    requires Sensible(w) && WellTyped(tbl, ty) && Typed(tbl, ty, s, p) && s.next != []
    ensures match Parse(tbl, lib, s, w)
            case Taken(t, x) =>
              x in s.next[|s.next| - 1] && After(tbl, x, p).Some? && Typed(tbl, ty, t, After(tbl, x, p).value)
            case Unmatched(t) => Typed(tbl, ty, t, p) && t.next != []
            case Overflow(_) => false
  {
    hide WellTyped, Typed, Try;
    TryTyped(tbl, lib, ty, s, p, s.next[|s.next| - 1], w);
  }

  datatype Status = Open | Ended | Failed | Overflowed

  /** A command being read; `taken` are the tokens accepted so far. */
  datatype Context<!I> = Context(curr: I, state: State<I>, last: bool, status: Status, taken: seq<I>)

  function Initial<I>(tbl: Table<I>): Context<I> {
    Context(tbl.zero, State([], [], false, 0), false, Open, [])
  }

  /** `cmd_flow_tok`: no further token is expected. */
  predicate Finished<I(==)>(tbl: Table<I>, c: Context<I>) {
    var next := c.state.next;
    (next == [] && c.curr != tbl.zero) || (c.last && next != [] && tbl.end in next[|next| - 1])
  }

  /** The next word of the line. */
  function Feed<I(!new, ==)>(tbl: Table<I>, lib: Library, c: Context<I>, w: Input<I>): Context<I>
    requires Sensible(w)
  {
    if c.status != Open then c
    else if Finished(tbl, c) then c.(status := Ended)
    else
      var first := tbl.token(c.curr).next;
      if w.len == 0 || (c.state.next == [] && first == []) then c.(last := w.last, status := Failed)
      else
        Settle(c, w, Parse(tbl, lib, Entry(tbl, c), w))
  }

  /** The stacks with the first list of a command in place. */
  function Entry<I>(tbl: Table<I>, c: Context<I>): (s: State<I>)
    requires c.state.next != [] || tbl.token(c.curr).next != []
    ensures s.next != []
  {
    if c.state.next == [] then c.state.(next := [tbl.token(c.curr).next[0]]) else c.state
  }

  function Settle<I>(c: Context<I>, w: Input<I>, v: Verdict<I>): Context<I> {
    match v
    case Taken(t, x) => Context(x, t, w.last, Open, c.taken + [x])
    case Unmatched(t) => c.(state := t, last := w.last, status := Failed)
    case Overflow(t) => c.(state := t, last := w.last, status := Overflowed)
  }

  function FeedAll<I(!new, ==)>(tbl: Table<I>, lib: Library, c: Context<I>, words: seq<Input<I>>): Context<I>
    requires forall i :: 0 <= i < |words| ==> Sensible(words[i])
    decreases |words|
  {
    if words == [] then c else FeedAll(tbl, lib, Feed(tbl, lib, c, words[0]), words[1..])
  }

  /** What the accepted tokens do to a create command's buffer. */
  function Placings<I>(tbl: Table<I>, taken: seq<I>): seq<FlowArena.Token> {
    if taken == [] then [] else Placings(tbl, taken[..|taken| - 1]) + tbl.token(taken[|taken| - 1]).places
  }

  /** The mode the accepted tokens have led to. */
  function ModeAfter<I>(tbl: Table<I>, taken: seq<I>): Option<Mode> {
    if taken == [] then Some(START)
    else
      match ModeAfter(tbl, taken[..|taken| - 1])
      case None => None
      case Some(m) => After(tbl, taken[|taken| - 1], m)
  }

  /** The invariant of every run, in the mode it has led to. */
  ghost predicate Sound<I(!new)>(tbl: Table<I>, ty: Typing<I>, c: Context<I>, p: Mode) {
    && c.status != Overflowed
    && ModeAfter(tbl, c.taken) == Some(p)
    && if c.state.next == [] && c.curr == tbl.zero then c.state.args == [] && c.taken == []
       else Typed(tbl, ty, c.state, p)
  }

  lemma ModeAfterSnoc<I(!new)>(tbl: Table<I>, taken: seq<I>, x: I, p: Mode)
    requires ModeAfter(tbl, taken) == Some(p)
    ensures ModeAfter(tbl, taken + [x]) == After(tbl, x, p)
  {
    assert (taken + [x])[..|taken|] == taken;
  }

  lemma {:induction false} TrackAllPhase<I(!new)>(tbl: Table<I>, m: Mode, ts: seq<FlowArena.Token>)
    ensures FlowArena.PhaseAfter(m.phase, ts) ==
              match TrackAll(tbl, m, ts) case None => None case Some(n) => Some(n.phase)
    decreases |ts|
  {
    if ts != [] {
      match Track(tbl, m, ts[0])
      case None =>
      case Some(n) => TrackAllPhase(tbl, n, ts[1..]);
    }
  }

  /** The mode follows the buffer's own order of tokens. */
  lemma {:induction false} ModeFollowsPhase<I(!new)>(tbl: Table<I>, taken: seq<I>)
    requires ModeAfter(tbl, taken).Some?
    ensures FlowArena.PhaseAfter(FlowArena.Idle, Placings(tbl, taken)) == Some(ModeAfter(tbl, taken).value.phase)
  {
    if taken != [] {
      var n := |taken| - 1;
      var m := ModeAfter(tbl, taken[..n]).value;
      var places := tbl.token(taken[n]).places;
      ModeFollowsPhase(tbl, taken[..n]);
      FlowArena.PhaseAfterConcat(FlowArena.Idle, Placings(tbl, taken[..n]), places);
      TrackAllPhase(tbl, m, places);
    }
  }

  /** The list a command starts with makes a typed stack. */
  lemma StartTyped<I(!new)>(tbl: Table<I>, ty: Typing<I>, s: State<I>)
    requires WellTyped(tbl, ty) && s.args == [] && s.next == []
    ensures tbl.token(tbl.zero).next != []
    ensures Typed(tbl, ty, s.(next := [tbl.token(tbl.zero).next[0]]), START)
  {
    hide WellTypedToken, Stackable, Fits, Lead;
    var list := tbl.token(tbl.zero).next[0];
    NeedsOne(ty, list);
    LeadsOne(ty, list, In(START));
    if ty.aimed {
      assert [] + [list] == [list];
      AimedOn(ty, [], list, [], In(START));
      NoneAimed(ty, [], Lead(ty, list, In(START)).value);
    }
    hide Needs, Leads, Aimed;
  }

  /** A context that still expects a word has a typed stack once its first list is there. */
  lemma EntryTyped<I(!new)>(tbl: Table<I>, ty: Typing<I>, c: Context<I>, p: Mode)
    requires WellTyped(tbl, ty) && Sound(tbl, ty, c, p) && !Finished(tbl, c)
    ensures (c.state.next != [] || tbl.token(c.curr).next != []) && Typed(tbl, ty, Entry(tbl, c), p)
  {
    hide WellTyped, Typed;
    if c.state.next == [] {
      StartTyped(tbl, ty, c.state);
      assert p == START;
    }
  }

  lemma FeedSound<I(!new)>(
      tbl: Table<I>, lib: Library, ty: Typing<I>, c: Context<I>, p: Mode, w: Input<I>)
      returns (q: Mode)
    requires Sensible(w) && WellTyped(tbl, ty) && Sound(tbl, ty, c, p)
    ensures Sound(tbl, ty, Feed(tbl, lib, c, w), q)
  {
    hide Parse, Typed, WellTyped, Entry;
    q := p;
    if c.status == Open && !Finished(tbl, c) && w.len > 0 {
      EntryTyped(tbl, ty, c, p);
      var s := Entry(tbl, c);
      ParseTyped(tbl, lib, ty, s, p, w);
      match Parse(tbl, lib, s, w)
      case Taken(t, x) =>
        q := After(tbl, x, p).value;
        ModeAfterSnoc(tbl, c.taken, x, p);
        NeverZero(tbl, ty, s, p, x);
      case _ =>
    }
  }

  lemma NeverZero<I(!new)>(tbl: Table<I>, ty: Typing<I>, s: State<I>, p: Mode, x: I)
    requires Typed(tbl, ty, s, p) && s.next != [] && x in s.next[|s.next| - 1]
    ensures x != tbl.zero
  {
  }

  lemma {:induction false} FeedAllSound<I(!new)>(
      tbl: Table<I>, lib: Library, ty: Typing<I>, c: Context<I>, p: Mode, words: seq<Input<I>>)
      returns (q: Mode)
    requires forall i :: 0 <= i < |words| ==> Sensible(words[i])
    requires WellTyped(tbl, ty) && Sound(tbl, ty, c, p)
    ensures Sound(tbl, ty, FeedAll(tbl, lib, c, words), q)
    decreases |words|
  {
    hide WellTyped, Sound, Feed;
    if words == [] {
      q := p;
    } else {
      q := FeedSound(tbl, lib, ty, c, p, words[0]);
      q := FeedAllSound(tbl, lib, ty, Feed(tbl, lib, c, words[0]), q, words[1..]);
    }
  }

  /** Stack typing over all runs: for every well-typed table and every line, however the
      library conversions and the buffer respond, the argument stack holds exactly what
      the lists on the other stack need, neither stack ever overflows, a finished command
      leaves no argument behind, and the tokens that work on a create command's buffer
      come in the order the buffer needs. */
  lemma StacksStayTyped<I(!new)>(tbl: Table<I>, lib: Library, ty: Typing<I>, words: seq<Input<I>>)
    requires forall i :: 0 <= i < |words| ==> Sensible(words[i])
    requires WellTyped(tbl, ty)
    ensures var c := FeedAll(tbl, lib, Initial(tbl), words);
            c.status != Overflowed &&
            |c.state.args| == Needs(ty, c.state.next) &&
            |c.state.args| <= CTX_STACK_SIZE && |c.state.next| <= CTX_STACK_SIZE &&
            (c.state.next == [] ==> c.state.args == []) &&
            FlowArena.Ordered(FlowArena.Idle, Placings(tbl, c.taken))
  {
    hide WellTyped, Typed;
    var p := FeedAllSound(tbl, lib, ty, Initial(tbl), START, words);
    var c := FeedAll(tbl, lib, Initial(tbl), words);
    TypedBounds(tbl, ty, c.state, p);
    ModeFollowsPhase(tbl, c.taken);
    FlowArena.PhaseAfterOrdered(FlowArena.Idle, Placings(tbl, c.taken));
  }

  lemma TypedBounds<I(!new)>(tbl: Table<I>, ty: Typing<I>, s: State<I>, p: Mode)
    requires WellTyped(tbl, ty) && (Typed(tbl, ty, s, p) || (s.args == [] && s.next == []))
    ensures |s.args| == Needs(ty, s.next) <= CTX_STACK_SIZE && |s.next| <= CTX_STACK_SIZE
  {
    if s.next != [] {
      var n := |s.next| - 1;
      var top := s.next[n];
      assert Uniform(ty, top) && top[0] in top && WellTypedToken(tbl, ty, top[0]);
      assert Needs(ty, s.next) == Needs(ty, s.next[..n]) + ty.demand(top[0]);
    }
  }

  /** With that order, nothing a line can say makes the buffer unsafe. */
  lemma LinesKeepBufferSafe<I(!new)>(
      tbl: Table<I>, lib: Library, ty: Typing<I>, words: seq<Input<I>>, l: FlowArena.Layout)
    requires forall i :: 0 <= i < |words| ==> Sensible(words[i])
    requires WellTyped(tbl, ty)
    ensures var c := FeedAll(tbl, lib, Initial(tbl), words);
            FlowArena.Safe(l, FlowArena.Run(l, FlowArena.FRESH, Placings(tbl, c.taken)).arena)
  {
    hide WellTyped;
    StacksStayTyped(tbl, lib, ty, words);
    FlowArena.CommandIsSafe(l, Placings(tbl, FeedAll(tbl, lib, Initial(tbl), words).taken));
  }

  // --------------------------------------------- where arguments are stored

  predicate Unnamed<I(!new)>(tbl: Table<I>, list: seq<I>, word: string) {
    forall i :: 0 <= i < |list| ==> tbl.token(list[i]).name != word
  }

  /** Among distinct names at most one candidate does anything. */
  lemma {:induction false} TryByName<I(!new)>(tbl: Table<I>, lib: Library, s: State<I>, list: seq<I>, w: Input<I>)
    requires Sensible(w)
    requires forall i :: 0 <= i < |list| ==> ByName(tbl.token(list[i]).call)
    requires forall i, j :: 0 <= i < j < |list| ==> tbl.token(list[i]).name != tbl.token(list[j]).name
    ensures var r := Try(tbl, lib, s, list, w);
            r.Accepted? ==> r.token in list && Call(tbl, lib, s, r.token, w) == Reply(r.state, true)
    ensures Unnamed(tbl, list, w.src[..w.len]) ==> Try(tbl, lib, s, list, w) == Refused(s)
    decreases |list|
  {
    if list != [] {
      var r := Call(tbl, lib, s, list[0], w);
      TryByName(tbl, lib, r.state, list[1..], w);
      if tbl.token(list[0]).name != w.src[..w.len] {
        assert r == Reply(s, false);
      } else {
        assert Unnamed(tbl, list[1..], w.src[..w.len]);
      }
    }
  }

  /** Backtracking is invisible: the accepted candidate replies as if it had been the only
      one, whatever candidates were tried before it. */
  lemma TriedFirstInvisible<I(!new)>(tbl: Table<I>, lib: Library, s: State<I>, list: seq<I>, w: Input<I>)
    requires Sensible(w) && WellNamed(tbl, list)
    ensures var r := Try(tbl, lib, s, list, w);
            r.Accepted? ==> r.token in list && Call(tbl, lib, s, r.token, w) == Reply(r.state, true)
  {
    if |list| > 1 {
      hide Call;
      TryByName(tbl, lib, s, list, w);
    } else if |list| == 1 {
      hide Call;
      assert list[1..] == [];
      var r := Call(tbl, lib, s, list[0], w);
      assert Try(tbl, lib, r.state, [], w) == Refused(r.state);
    }
  }

  /** What accepting a word means for the object that is current. */
  ghost predicate StoresInside<I(!new)>(tbl: Table<I>, args: seq<Arg>, x: I, m: Mode) {
    var n := Pops(tbl.token(x).call);
    n <= |args| && ArgsIn(args[|args| - n..], m.room) && tbl.token(x).writes <= m.room
  }

  lemma ParseInside<I(!new)>(tbl: Table<I>, lib: Library, ty: Typing<I>, s: State<I>, p: Mode, w: Input<I>)
    requires Sensible(w) && WellTyped(tbl, ty) && ty.aimed && Typed(tbl, ty, s, p) && s.next != []
    ensures var v := Parse(tbl, lib, s, w);
            v.Taken? ==>
              StoresInside(tbl, s.args, v.token, p) && Call(tbl, lib, s, v.token, w).accepted &&
              Advance(tbl, Call(tbl, lib, s, v.token, w).state, v.token) == v
  {
    var list := s.next[|s.next| - 1];
    assert Listed(tbl, ty, list);
    TriedFirstInvisible(tbl, lib, s, list, w);
    match Try(tbl, lib, s, list, w)
    case Refused(_) =>
    case Accepted(t, x) =>
      Candidate(tbl, ty, s, p, x);
      assert WellTypedToken(tbl, ty, x);
  }

  /** On every line, every accepted token finds the arguments it takes, and whatever else its
      callback writes, inside the object that is current at that moment; and it is accepted
      in the very state the previous word left. */
  lemma ArgumentsStayInside<I(!new)>(
      tbl: Table<I>, lib: Library, ty: Typing<I>, words: seq<Input<I>>, w: Input<I>)
    requires forall i :: 0 <= i < |words| ==> Sensible(words[i])
    requires Sensible(w) && WellTyped(tbl, ty) && ty.aimed
    ensures var c := FeedAll(tbl, lib, Initial(tbl), words);
            var d := Feed(tbl, lib, c, w);
            ModeAfter(tbl, c.taken).Some? &&
            (d.taken == c.taken ||
             (|d.taken| == |c.taken| + 1 && d.taken[..|c.taken|] == c.taken &&
              StoresInside(tbl, c.state.args, d.taken[|c.taken|], ModeAfter(tbl, c.taken).value)))
  {
    hide WellTyped, Typed, Parse;
    var p := FeedAllSound(tbl, lib, ty, Initial(tbl), START, words);
    var c := FeedAll(tbl, lib, Initial(tbl), words);
    if c.status == Open && !Finished(tbl, c) && w.len > 0 {
      EntryTyped(tbl, ty, c, p);
      ParseInside(tbl, lib, ty, Entry(tbl, c), p, w);
    }
  }

  /** The argument for an accepted RSS queue is made up from an index below the number of queues
      there is room for, and the next queue gets the next index; `end` starts again. */
  lemma QueueCounted<I(!new)>(tbl: Table<I>, lib: Library, ty: Typing<I>, words: seq<Input<I>>, w: Input<I>)
    requires forall i :: 0 <= i < |words| ==> Sensible(words[i])
    requires Sensible(w) && WellTyped(tbl, ty) && ty.aimed
    ensures var c := FeedAll(tbl, lib, Initial(tbl), words);
            var d := Feed(tbl, lib, c, w);
            |d.taken| > |c.taken| && tbl.token(d.taken[|c.taken|]).call == RssQueue ==>
              if w.src[..w.len] == "end" then d.state.count == 0
              else c.state.count < ACTION_RSS_QUEUE_NUM && d.state.count == c.state.count + 1
  {
    hide WellTyped, Typed, Parse, IntAccepts;
    var p := FeedAllSound(tbl, lib, ty, Initial(tbl), START, words);
    var c := FeedAll(tbl, lib, Initial(tbl), words);
    if c.status == Open && !Finished(tbl, c) && w.len > 0 {
      EntryTyped(tbl, ty, c, p);
      ParseInside(tbl, lib, ty, Entry(tbl, c), p, w);
    }
  }

  // ------------------------------------------------------ accepting and storing

  /** A number is accepted exactly if it fills the word, keeps to the argument's bounds, and can
      be stored wherever there is an object to store it in; so accepting and storing never
      disagree, and what is accepted for a bounded argument is within its bounds. */
  lemma AcceptedIsStorable(lib: Library, arg: Arg, bound: bool, src: string, len: nat)
    ensures var n := if arg.sign then lib.strtoimax(src) else lib.strtoumax(src);
            IntAccepts(lib, arg, bound, src, len) <==>
              && n.Number? && n.consumed == len
              && !(arg.bounded && (n.value < arg.min || n.value > arg.max))
              && !(bound && !FlowMasks.IntStorable(arg))
    ensures var n := lib.strtoumax(src);
            n.Number? && n.value >= 0 ==>
              (PrefixAccepts(lib, arg, true, src, len) <==> n.consumed == len && FlowMasks.PrefixStorable(arg, n.value))
  {
  }

  // -------------------------------------------------- what a word is taken for

  /** The other half of invisible backtracking: a candidate that would accept a word alone is
      the one that gets it. */
  lemma {:induction false} NamedGetsWord<I(!new)>(
      tbl: Table<I>, lib: Library, s: State<I>, list: seq<I>, w: Input<I>, i: nat)
    requires Sensible(w) && i < |list| && Call(tbl, lib, s, list[i], w).accepted
    requires forall k :: 0 <= k < |list| ==> ByName(tbl.token(list[k]).call)
    requires forall k, j :: 0 <= k < j < |list| ==> tbl.token(list[k]).name != tbl.token(list[j]).name
    ensures Try(tbl, lib, s, list, w) == Accepted(Call(tbl, lib, s, list[i], w).state, list[i])
    decreases |list|
  {
    assert tbl.token(list[i]).name == w.src[..w.len];
    if i > 0 {
      assert Call(tbl, lib, s, list[0], w) == Reply(s, false);
      assert list[1..][i - 1] == list[i];
      hide Call;
      NamedGetsWord(tbl, lib, s, list[1..], w, i - 1);
    }
  }

  /** A list of distinct names accepts a word for a candidate exactly if that candidate would
      accept it alone. */
  lemma TakenExactly<I(!new)>(tbl: Table<I>, lib: Library, s: State<I>, list: seq<I>, w: Input<I>, x: I)
    requires Sensible(w) && WellNamed(tbl, list)
    ensures var r := Try(tbl, lib, s, list, w);
            (r.Accepted? && r.token == x) <==> x in list && Call(tbl, lib, s, x, w).accepted
  {
    TriedFirstInvisible(tbl, lib, s, list, w);
    if x in list && Call(tbl, lib, s, x, w).accepted {
      var i :| 0 <= i < |list| && list[i] == x;
      if |list| > 1 {
        NamedGetsWord(tbl, lib, s, list, w, i);
      }
    }
  }

  /** On every line: a word is taken for a token exactly if the token is a candidate of the list
      on top and its callback accepts the word; in particular a keyword that is expected is
      accepted. */
  lemma WordTakenExactly<I(!new)>(
      tbl: Table<I>, lib: Library, ty: Typing<I>, words: seq<Input<I>>, w: Input<I>, x: I)
    requires forall i :: 0 <= i < |words| ==> Sensible(words[i])
    requires Sensible(w) && WellTyped(tbl, ty) && ty.aimed
    ensures var c := FeedAll(tbl, lib, Initial(tbl), words);
            c.status == Open && !Finished(tbl, c) && w.len > 0 ==>
              && (c.state.next != [] || tbl.token(c.curr).next != [])
              && var s := Entry(tbl, c);
                 Feed(tbl, lib, c, w).taken == c.taken + [x] <==>
                   x in s.next[|s.next| - 1] && Call(tbl, lib, s, x, w).accepted
  {
    hide WellTyped, Typed, Parse, Call;
    var p := FeedAllSound(tbl, lib, ty, Initial(tbl), START, words);
    var c := FeedAll(tbl, lib, Initial(tbl), words);
    if c.status == Open && !Finished(tbl, c) && w.len > 0 {
      EntryTyped(tbl, ty, c, p);
      var s := Entry(tbl, c);
      ParseExactly(tbl, lib, ty, s, p, w, x);
      TakenGrows(c, w, Parse(tbl, lib, s, w), x);
    }
  }

  lemma TakenGrows<I(!new)>(c: Context<I>, w: Input<I>, v: Verdict<I>, x: I)
    ensures Settle(c, w, v).taken == c.taken + [x] <==> v.Taken? && v.token == x
  {
    if v.Taken? {
      assert (c.taken + [v.token])[|c.taken|] == v.token && (c.taken + [x])[|c.taken|] == x;
    }
  }

  lemma ParseExactly<I(!new)>(tbl: Table<I>, lib: Library, ty: Typing<I>, s: State<I>, p: Mode, w: Input<I>, x: I)
    requires Sensible(w) && WellTyped(tbl, ty) && ty.aimed && Typed(tbl, ty, s, p) && s.next != []
    ensures var v := Parse(tbl, lib, s, w);
            (v.Taken? && v.token == x) <==> x in s.next[|s.next| - 1] && Call(tbl, lib, s, x, w).accepted
  {
    var list := s.next[|s.next| - 1];
    assert Listed(tbl, ty, list);
    hide WellTyped, Typed, Call, Advance;
    TakenExactly(tbl, lib, s, list, w, x);
    ParseTyped(tbl, lib, ty, s, p, w);
    AdvanceNames(tbl, lib, s, w);
  }

  lemma AdvanceNames<I(!new)>(tbl: Table<I>, lib: Library, s: State<I>, w: Input<I>)
    requires Sensible(w) && s.next != []
    ensures var v, r := Parse(tbl, lib, s, w), Try(tbl, lib, s, s.next[|s.next| - 1], w);
            (v.Taken? ==> r.Accepted? && r.token == v.token) && (r.Accepted? ==> v.Overflow? || v.Taken?)
  {
    hide Try;
  }

  // ---------------------------------------------------- what is expected next

  /** The lists expected after a token: `prefix` puts the prefix length in the place of the
      value it is about, and any other token that brings nothing leaves the list below. */
  lemma ExpectedAfter<I(!new)>(tbl: Table<I>, lib: Library, s: State<I>, x: I, w: Input<I>)
    requires Sensible(w) && s.next != [] && !Repeats(tbl.token(x).call)
    requires Call(tbl, lib, s, x, w).accepted && Advance(tbl, Call(tbl, lib, s, x, w).state, x).Taken?
    ensures var n, v := |s.next|, Advance(tbl, Call(tbl, lib, s, x, w).state, x);
            if AsksPrefix(tbl, x) then n >= 2 && v.state.next == s.next[..n - 2] + [[tbl.prefix]] + tbl.token(x).next
            else v.state.next == s.next[..n - 1] + tbl.token(x).next
  {
    var n, t := |s.next|, Call(tbl, lib, s, x, w).state;
    hide ValueAccepts;
    if AsksPrefix(tbl, x) {
      SubstitutedShape(tbl, s.next);
      assert t.next[..n - 1] == s.next[..n - 2] + [[tbl.prefix]];
    } else {
      assert t.next == s.next;
    }
  }

  /** A line one word longer: the state it has led to, and which list was on top. */
  lemma TakenFrom<I(!new)>(tbl: Table<I>, lib: Library, ty: Typing<I>, words: seq<Input<I>>, w: Input<I>)
    requires forall i :: 0 <= i < |words| ==> Sensible(words[i])
    requires Sensible(w) && WellTyped(tbl, ty) && ty.aimed
    ensures var c := FeedAll(tbl, lib, Initial(tbl), words);
            var d := Feed(tbl, lib, c, w);
            |d.taken| > |c.taken| ==>
              && |d.taken| == |c.taken| + 1 && (c.state.next != [] || tbl.token(c.curr).next != [])
              && var s, x := Entry(tbl, c), d.taken[|c.taken|];
                 && x in s.next[|s.next| - 1] && Call(tbl, lib, s, x, w).accepted
                 && Advance(tbl, Call(tbl, lib, s, x, w).state, x) == Taken(d.state, x)
                 && d.curr == x && d.last == w.last && d.status == Open
  {
    hide WellTyped, Typed, Parse, Call, Advance;
    var p := FeedAllSound(tbl, lib, ty, Initial(tbl), START, words);
    var c := FeedAll(tbl, lib, Initial(tbl), words);
    if c.status == Open && !Finished(tbl, c) && w.len > 0 {
      EntryTyped(tbl, ty, c, p);
      ParseInside(tbl, lib, ty, Entry(tbl, c), p, w);
      ParseTyped(tbl, lib, ty, Entry(tbl, c), p, w);
    }
  }

  lemma {:induction false} FeedAllSnoc<I(!new)>(
      tbl: Table<I>, lib: Library, c: Context<I>, words: seq<Input<I>>, w: Input<I>)
    requires Sensible(w) && forall i :: 0 <= i < |words| ==> Sensible(words[i])
    ensures forall i :: 0 <= i < |words + [w]| ==> Sensible((words + [w])[i])
    ensures FeedAll(tbl, lib, c, words + [w]) == Feed(tbl, lib, FeedAll(tbl, lib, c, words), w)
    decreases |words|
  {
    hide Feed;
    if words != [] {
      assert (words + [w])[1..] == words[1..] + [w];
      FeedAllSnoc(tbl, lib, Feed(tbl, lib, c, words[0]), words[1..], w);
    } else {
      assert words + [w] == [w] && [w][1..] == [];
    }
  }

  /** On every line: the token accepted after one that brings nothing is the prefix length if
      that one was `prefix`, and else comes from the list below. */
  lemma NextTaken<I(!new)>(
      tbl: Table<I>, lib: Library, ty: Typing<I>, words: seq<Input<I>>, w: Input<I>, w': Input<I>)
    requires forall i :: 0 <= i < |words| ==> Sensible(words[i])
    requires Sensible(w) && Sensible(w') && WellTyped(tbl, ty) && ty.aimed
    ensures var c := FeedAll(tbl, lib, Initial(tbl), words);
            var d := Feed(tbl, lib, c, w);
            var e := Feed(tbl, lib, d, w');
            |d.taken| > |c.taken| && |e.taken| > |d.taken| ==>
              && |d.taken| == |c.taken| + 1 && (c.state.next != [] || tbl.token(c.curr).next != [])
              && var s, x, y := Entry(tbl, c), d.taken[|c.taken|], e.taken[|d.taken|];
                 var n, token := |s.next|, tbl.token(x);
                 && x in s.next[n - 1]
                 && (token.next == [] && AsksPrefix(tbl, x) ==> y == tbl.prefix)
                 && (token.next == [] && !AsksPrefix(tbl, x) && !Repeats(token.call) && n >= 2 ==> y in s.next[n - 2])
                 && (token.next != [] && !Repeats(token.call) ==> y in token.next[|token.next| - 1])
  {
    hide WellTyped, Call, Advance, Feed;
    var c := FeedAll(tbl, lib, Initial(tbl), words);
    var d := Feed(tbl, lib, c, w);
    var e := Feed(tbl, lib, d, w');
    TakenFrom(tbl, lib, ty, words, w);
    FeedAllSnoc(tbl, lib, Initial(tbl), words, w);
    TakenFrom(tbl, lib, ty, words + [w], w');
    if |d.taken| > |c.taken| && |e.taken| > |d.taken| {
      var x := d.taken[|c.taken|];
      if !Repeats(tbl.token(x).call) {
        ExpectedAfter(tbl, lib, Entry(tbl, c), x, w);
      }
    }
  }

  /** So for a field: a parameter follows, and then the field's own value, or the prefix length
      if the parameter was `prefix`. */
  lemma FieldSpelled<I(!new)>(
      tbl: Table<I>, lib: Library, ty: Typing<I>, words: seq<Input<I>>, w: Input<I>, w': Input<I>, w'': Input<I>)
    requires forall i :: 0 <= i < |words| ==> Sensible(words[i])
    requires Sensible(w) && Sensible(w') && Sensible(w'') && WellTyped(tbl, ty) && ty.aimed
    ensures var c := FeedAll(tbl, lib, Initial(tbl), words);
            var d := Feed(tbl, lib, c, w);
            var e := Feed(tbl, lib, d, w');
            var f := Feed(tbl, lib, e, w'');
            |d.taken| > |c.taken| && |e.taken| > |d.taken| && |f.taken| > |e.taken| ==>
              var x, y, z := d.taken[|c.taken|], e.taken[|d.taken|], f.taken[|e.taken|];
              var lists, token := tbl.token(x).next, tbl.token(y);
              |lists| >= 2 && !Repeats(tbl.token(x).call) ==>
                && y in lists[|lists| - 1]
                && (!Repeats(token.call) && token.next == [] ==>
                      if AsksPrefix(tbl, y) then z == tbl.prefix else z in lists[|lists| - 2])
  {
    hide WellTyped, Call, Advance, Feed;
    var c := FeedAll(tbl, lib, Initial(tbl), words);
    var d := Feed(tbl, lib, c, w);
    var e := Feed(tbl, lib, d, w');
    NextTaken(tbl, lib, ty, words, w, w');
    FeedAllSnoc(tbl, lib, Initial(tbl), words, w);
    NextTaken(tbl, lib, ty, words + [w], w', w'');
    TakenFrom(tbl, lib, ty, words, w);
    if |d.taken| > |c.taken| && |e.taken| > |d.taken| {
      var x := d.taken[|c.taken|];
      if !Repeats(tbl.token(x).call) {
        ExpectedAfter(tbl, lib, Entry(tbl, c), x, w);
      }
    }
  }

  // ------------------------------------------------------ checking a table

  ghost predicate NoPrefix<I(!new)>(tbl: Table<I>, a: seq<I>) {
    forall y :: y in a ==> !AsksPrefix(tbl, y)
  }

  /** Every token of the list keeps within these numbers of slots. */
  ghost predicate Within<I(!new)>(ty: Typing<I>, a: seq<I>, slots: int, width: int) {
    forall y :: y in a ==> ty.tall(y) <= slots && ty.wide(y) <= width
  }

  /** The parts of `WellTypedToken` that are about the lists a token brings. */
  ghost predicate Stack<I(!new)>(tbl: Table<I>, ty: Typing<I>, lists: seq<seq<I>>, slots: nat, width: nat) {
    Stackable(tbl, ty, lists) && Fits(ty, lists, slots, width)
  }

  lemma StackNone<I(!new)>(tbl: Table<I>, ty: Typing<I>, slots: nat, width: nat)
    ensures Stack(tbl, ty, [], slots, width) && Needs(ty, []) == 0
  {
  }

  lemma StackableMore<I(!new)>(tbl: Table<I>, ty: Typing<I>, lists: seq<seq<I>>, a: seq<I>)
    requires Stackable(tbl, ty, lists) && Listed(tbl, ty, a)
    requires NoPrefix(tbl, a) || (lists != [] && Replaceable(tbl, ty, lists[|lists| - 1]))
    ensures Stackable(tbl, ty, lists + [a])
  {
    var more := lists + [a];
    forall j | 0 <= j < |more|
      ensures Listed(tbl, ty, more[j]) && PrefixReady(tbl, ty, more, j)
    {
      if j < |lists| {
        assert PrefixReady(tbl, ty, lists, j);
      }
    }
  }

  lemma FitsMore<I(!new)>(ty: Typing<I>, lists: seq<seq<I>>, a: seq<I>, slots: nat, width: nat)
    requires Fits(ty, lists, slots, width) && Within(ty, a, slots - |lists|, width - Needs(ty, lists))
    ensures Fits(ty, lists + [a], slots, width)
  {
    hide Needs;
    var more := lists + [a];
    forall j, x | 0 <= j < |more| && x in more[j]
      ensures j + ty.tall(x) <= slots && Needs(ty, more[..j]) + ty.wide(x) <= width
    {
      if j < |lists| {
        assert more[..j] == lists[..j] && x in lists[j];
      } else {
        assert more[..j] == lists;
      }
    }
  }

  /** One more list on top. */
  lemma StackMore<I(!new)>(tbl: Table<I>, ty: Typing<I>, lists: seq<seq<I>>, a: seq<I>, slots: nat, width: nat)
    requires Stack(tbl, ty, lists, slots, width) && Listed(tbl, ty, a)
    requires NoPrefix(tbl, a) || (lists != [] && Replaceable(tbl, ty, lists[|lists| - 1]))
    requires Within(ty, a, slots - |lists|, width - Needs(ty, lists))
    ensures Stack(tbl, ty, lists + [a], slots, width) && Needs(ty, lists + [a]) == Needs(ty, lists) + Need(ty, a)
  {
    hide Stackable, Fits, Within, NoPrefix, Replaceable, Listed;
    StackableMore(tbl, ty, lists, a);
    FitsMore(ty, lists, a, slots, width);
    NeedsConcat(ty, lists, [a]);
    NeedsOne(ty, a);
  }

  lemma LeadsMore<I(!new)>(ty: Typing<I>, lists: seq<seq<I>>, a: seq<I>, g: Goal)
    ensures Leads(ty, lists + [a], g) == match Lead(ty, a, g) case None => None case Some(h) => Leads(ty, lists, h)
  {
    LeadsConcat(ty, lists, [a], g);
    LeadsOne(ty, a, g);
  }
}
