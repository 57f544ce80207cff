/** An excerpt of the flow command's token table (app/test-pmd/cmdline_flow.c,
    `token_list`): all commands and attributes, and items and actions that between them
    use every kind of callback.  It is well typed, so every line of it is parsed safely. */
module FlowTable {
  import opened Basics
  import opened FlowFields
  import opened FlowParser
  import FlowMasks
  import FlowArena
  import FlowTargets
  import FlowStrings

  /** The indices, grouped by what the token is for; a list's tokens are of one group. */
  datatype Index =
    | Top(command: CommandIndex)
    | Value(value: ValueIndex)
    | STRING
    | Repeated(list: RepeatIndex)
    | Attr(attr: AttrIndex)
    | Item(item: ItemIndex)
    | Field(field: FieldIndex)
    | Param(param: FlowArena.Param)
    | ACTIONS
    | Act(action: ActionIndex)
    | ActField(setting: SettingIndex)
    | RssFunc(func: RssFuncIndex)

  datatype CommandIndex =
    ZERO | END | FLOW | VALIDATE | CREATE | DESTROY | FLUSH | LIST | QUERY | ISOLATE | DESTROY_RULE | LIST_GROUP
  datatype ValueIndex =
    | INTEGER | UNSIGNED | PREFIX | BOOLEAN | MAC_ADDR | IPV4_ADDR | IPV6_ADDR
    | RULE_ID | PORT_ID | GROUP_ID | PRIORITY_LEVEL | QUERY_ACTION
  datatype RepeatIndex = ACTION_RSS_TYPE | ACTION_RSS_QUEUE
  datatype AttrIndex = GROUP | PRIORITY | INGRESS | EGRESS | TRANSFER | PATTERN
  datatype ItemIndex = ITEM_END | ITEM_VOID | ITEM_RAW | ITEM_ETH | ITEM_VLAN | ITEM_IPV4 | ITEM_IPV6
  datatype FieldIndex =
    | ITEM_NEXT
    | RAW_RELATIVE | RAW_SEARCH | RAW_OFFSET | RAW_LIMIT | RAW_PATTERN
    | ETH_DST | ETH_SRC | ETH_TYPE
    | VLAN_TCI | VLAN_PCP | VLAN_DEI | VLAN_VID | VLAN_INNER_TYPE
    | IPV4_PROTO | IPV4_SRC | IPV4_DST
    | IPV6_FLOW | IPV6_SRC | IPV6_DST
  datatype ActionIndex = ACTION_END | ACTION_DROP | ACTION_QUEUE | ACTION_COUNT | ACTION_RSS
  datatype SettingIndex =
    | ACTION_NEXT | QUEUE_INDEX | COUNT_ID | COUNT_SHARED
    | RSS_FUNC | RSS_LEVEL | RSS_TYPES | RSS_KEY | RSS_KEY_LEN | RSS_QUEUES
  datatype RssFuncIndex = FUNC_DEFAULT | FUNC_TOEPLITZ | FUNC_SIMPLE_XOR

  // -------------------------------------------------------------- token lists

  const COMMANDS: seq<Index> :=
    [Top(VALIDATE), Top(CREATE), Top(DESTROY), Top(FLUSH), Top(LIST), Top(QUERY), Top(ISOLATE)]
  const NEXT_DESTROY_ATTR: seq<Index> := [Top(DESTROY_RULE), Top(END)]
  const NEXT_LIST_ATTR: seq<Index> := [Top(LIST_GROUP), Top(END)]
  const NEXT_VC_ATTR: seq<Index> :=
    [Attr(GROUP), Attr(PRIORITY), Attr(INGRESS), Attr(EGRESS), Attr(TRANSFER), Attr(PATTERN)]
  const ITEM_PARAM: seq<Index> :=
    [Param(FlowArena.Is), Param(FlowArena.Spec), Param(FlowArena.Last), Param(FlowArena.Mask), Param(FlowArena.Prefix)]
  const STRING_PARAM: seq<Index> := [Param(FlowArena.Is), Param(FlowArena.Spec), Param(FlowArena.Mask)]
  const NEXT_ITEM: seq<Index> :=
    [Item(ITEM_END), Item(ITEM_VOID), Item(ITEM_RAW), Item(ITEM_ETH), Item(ITEM_VLAN), Item(ITEM_IPV4), Item(ITEM_IPV6)]
  const RAW_FIELDS: seq<Index> :=
    [Field(RAW_RELATIVE), Field(RAW_SEARCH), Field(RAW_OFFSET), Field(RAW_LIMIT), Field(RAW_PATTERN), Field(ITEM_NEXT)]
  const ETH_FIELDS: seq<Index> := [Field(ETH_DST), Field(ETH_SRC), Field(ETH_TYPE), Field(ITEM_NEXT)]
  const VLAN_FIELDS: seq<Index> :=
    [Field(VLAN_TCI), Field(VLAN_PCP), Field(VLAN_DEI), Field(VLAN_VID), Field(VLAN_INNER_TYPE), Field(ITEM_NEXT)]
  const IPV4_FIELDS: seq<Index> := [Field(IPV4_PROTO), Field(IPV4_SRC), Field(IPV4_DST), Field(ITEM_NEXT)]
  const IPV6_FIELDS: seq<Index> := [Field(IPV6_FLOW), Field(IPV6_SRC), Field(IPV6_DST), Field(ITEM_NEXT)]
  const NEXT_ACTION: seq<Index> :=
    [Act(ACTION_END), Act(ACTION_QUEUE), Act(ACTION_DROP), Act(ACTION_COUNT), Act(ACTION_RSS)]
  const QUEUE_FIELDS: seq<Index> := [ActField(QUEUE_INDEX), ActField(ACTION_NEXT)]
  const COUNT_FIELDS: seq<Index> := [ActField(COUNT_ID), ActField(COUNT_SHARED), ActField(ACTION_NEXT)]
  const RSS_FIELDS: seq<Index> :=
    [ActField(RSS_FUNC), ActField(RSS_LEVEL), ActField(RSS_TYPES), ActField(RSS_KEY), ActField(RSS_KEY_LEN),
     ActField(RSS_QUEUES), ActField(ACTION_NEXT)]
  const RSS_FUNCS: seq<Index> := [RssFunc(FUNC_DEFAULT), RssFunc(FUNC_TOEPLITZ), RssFunc(FUNC_SIMPLE_XOR)]

  // ---------------------------------------------------------------- arguments

  /** `ARGS_ENTRY`, `ARGS_ENTRY_HTON`, `ARGS_ENTRY_MASK_HTON`, `ARGS_ENTRY_BF`. */
  function Plain(offset: nat, size: nat): Arg {
    Arg(false, false, false, 0, 0, offset, size, None)
  }

  function Network(offset: nat, size: nat): Arg {
    Arg(true, false, false, 0, 0, offset, size, None)
  }

  function NetworkBits(offset: nat, mask: seq<byte>): Arg {
    Arg(true, false, false, 0, 0, offset, |mask|, Some(mask))
  }

  /** A bit-field in the first byte of a structure. */
  function Bits(first: byte, size: nat): Arg
    requires size > 0
  {
    Arg(false, false, false, 0, 0, 0, size, Some([first] + seq(size - 1, _ => 0)))
  }

  // ------------------------------------------------------------------- tokens

  type Entry = Token<Index>

  /** `sizeof(struct buffer)`, `sizeof(struct rte_flow_attr)`, `sizeof(struct action_rss_data)`. */
  const HEADER: nat := 56
  const ATTR: nat := 12
  const RSS_DATA: FlowArena.ObjectSize := 168

  function Plainly(name: string, next: seq<seq<Index>>, args: seq<Arg>): Entry {
    Token(name, Name, next, args, [], None, 0)
  }

  /** A keyword of another command, which makes an object of the given size current. */
  function Binding(name: string, next: seq<seq<Index>>, args: seq<Arg>, size: nat): Entry {
    Token(name, Callback.Keyword, next, args, [], Some(size), 0)
  }

  function Placing(name: string, next: seq<seq<Index>>, args: seq<Arg>, t: FlowArena.Token): Entry {
    Token(name, Callback.Keyword, next, args, [t], None, 0)
  }

  /** A field of an item: its parameter on top, then its value. */
  function ItemField(name: string, fields: seq<Index>, value: ValueIndex, arg: Arg): Entry {
    Token(name, Name, [fields, [Value(value)], ITEM_PARAM], [arg], [], None, 0)
  }

  function ActionField(name: string, fields: seq<Index>, value: ValueIndex, arg: Arg): Entry {
    Token(name, Callback.Keyword, [fields, [Value(value)]], [arg], [FlowArena.Conf], None, 0)
  }

  function ValueToken(v: ValueIndex): Entry {
    match v
    case INTEGER => Token("{int}", Int, [], [], [], None, 0)
    case UNSIGNED => Token("{unsigned}", Int, [], [], [], None, 0)
    case PREFIX => Token("{prefix}", Prefix, [], [], [], None, 0)
    case BOOLEAN => Token("{boolean}", Boolean, [], [], [], None, 0)
    case MAC_ADDR => Token("{MAC address}", Mac, [], [], [], None, 0)
    case IPV4_ADDR => Token("{IPv4 address}", Ipv4, [], [], [], None, 0)
    case IPV6_ADDR => Token("{IPv6 address}", Ipv6, [], [], [], None, 0)
    case RULE_ID => Token("{rule id}", Int, [], [], [], None, 0)
    case PORT_ID => Token("{port_id}", Port, [], [], [], None, 0)
    case GROUP_ID => Token("{group_id}", Int, [], [], [], None, 0)
    case PRIORITY_LEVEL => Token("{level}", Int, [], [], [], None, 0)
    case QUERY_ACTION => Token("{action}", ActionName, [], [], [], None, 0)
  }

  const PORT: seq<Index> := [Value(PORT_ID)]

  function CommandToken(c: CommandIndex): Entry {
    match c
    case ZERO => Plainly("ZERO", [[Top(FLOW)]], [])
    case END => Plainly("", [], [])
    case FLOW => Binding("flow", [COMMANDS], [], HEADER)
    case VALIDATE => Placing("validate", [NEXT_VC_ATTR, PORT], [Plain(4, 2)], FlowArena.Command)
    case CREATE => Placing("create", [NEXT_VC_ATTR, PORT], [Plain(4, 2)], FlowArena.Command)
    case DESTROY => Binding("destroy", [[Top(DESTROY_RULE)], PORT], [Plain(4, 2)], HEADER)
    case FLUSH => Binding("flush", [PORT], [Plain(4, 2)], HEADER)
    case QUERY =>
      var args := [Plain(16, 4), Plain(8, 4), Plain(4, 2)];
      Binding("query", [[Value(QUERY_ACTION)], [Value(RULE_ID)], PORT], args, HEADER)
    case LIST => Binding("list", [NEXT_LIST_ATTR, PORT], [Plain(4, 2)], HEADER)
    case ISOLATE => Binding("isolate", [[Value(BOOLEAN)], PORT], [Plain(8, 4), Plain(4, 2)], HEADER)
    case DESTROY_RULE => Binding("rule", [NEXT_DESTROY_ATTR, [Value(RULE_ID)]], [Plain(0, 4)], 4)
    case LIST_GROUP => Binding("group", [NEXT_LIST_ATTR, [Value(GROUP_ID)]], [Plain(0, 4)], 4)
  }

  function AttrToken(a: AttrIndex): Entry {
    match a
    case GROUP => Placing("group", [NEXT_VC_ATTR, [Value(GROUP_ID)]], [Plain(0, 4)], FlowArena.Attribute)
    case PRIORITY => Placing("priority", [NEXT_VC_ATTR, [Value(PRIORITY_LEVEL)]], [Plain(4, 4)], FlowArena.Attribute)
    case INGRESS => Placing("ingress", [NEXT_VC_ATTR], [], FlowArena.Attribute)
    case EGRESS => Placing("egress", [NEXT_VC_ATTR], [], FlowArena.Attribute)
    case TRANSFER => Placing("transfer", [NEXT_VC_ATTR], [], FlowArena.Attribute)
    case PATTERN => Placing("pattern", [NEXT_ITEM], [], FlowArena.Pattern)
  }

  /** Items, with the type code and the object size of their private data. */
  function ItemToken(i: ItemIndex): Entry {
    match i
    case ITEM_END => Placing("end", [[ACTIONS]], [], FlowArena.Record(0, 0))
    case ITEM_VOID => Placing("void", [[Field(ITEM_NEXT)]], [], FlowArena.Record(1, 0))
    case ITEM_RAW => Placing("raw", [RAW_FIELDS], [], FlowArena.Record(8, 64))
    case ITEM_ETH => Placing("eth", [ETH_FIELDS], [], FlowArena.Record(9, 14))
    case ITEM_VLAN => Placing("vlan", [VLAN_FIELDS], [], FlowArena.Record(10, 4))
    case ITEM_IPV4 => Placing("ipv4", [IPV4_FIELDS], [], FlowArena.Record(11, 20))
    case ITEM_IPV6 => Placing("ipv6", [IPV6_FIELDS], [], FlowArena.Record(12, 40))
  }

  function ParamToken(p: FlowArena.Param): Entry {
    match p
    case Is => Placing("is", [], [], FlowArena.Parameter(p))
    case Spec => Placing("spec", [], [], FlowArena.Parameter(p))
    case Last => Placing("last", [], [], FlowArena.Parameter(p))
    case Mask => Placing("mask", [], [], FlowArena.Parameter(p))
    case Prefix => Token("prefix", PrefixParameter, [], [], [FlowArena.Parameter(p)], None, 0)
  }

  function FieldToken(f: FieldIndex): Entry {
    match f
    case ITEM_NEXT => Plainly("/", [NEXT_ITEM], [])
    case RAW_RELATIVE => ItemField("relative", RAW_FIELDS, BOOLEAN, Bits(1, 24))
    case RAW_SEARCH => ItemField("search", RAW_FIELDS, BOOLEAN, Bits(2, 24))
    case RAW_OFFSET => ItemField("offset", RAW_FIELDS, INTEGER, Plain(4, 4))
    case RAW_LIMIT => ItemField("limit", RAW_FIELDS, UNSIGNED, Plain(8, 2))
    case RAW_PATTERN =>
      Plainly("pattern", [RAW_FIELDS, [STRING], STRING_PARAM], [Plain(16, 8), Plain(10, 2), Plain(24, 40)])
    case ETH_DST => ItemField("dst", ETH_FIELDS, MAC_ADDR, Network(0, 6))
    case ETH_SRC => ItemField("src", ETH_FIELDS, MAC_ADDR, Network(6, 6))
    case ETH_TYPE => ItemField("type", ETH_FIELDS, UNSIGNED, Network(12, 2))
    case VLAN_TCI => ItemField("tci", VLAN_FIELDS, UNSIGNED, Network(0, 2))
    case VLAN_PCP => ItemField("pcp", VLAN_FIELDS, UNSIGNED, NetworkBits(0, [0xE0, 0x00]))
    case VLAN_DEI => ItemField("dei", VLAN_FIELDS, UNSIGNED, NetworkBits(0, [0x10, 0x00]))
    case VLAN_VID => ItemField("vid", VLAN_FIELDS, UNSIGNED, NetworkBits(0, [0x0F, 0xFF]))
    case VLAN_INNER_TYPE => ItemField("inner_type", VLAN_FIELDS, UNSIGNED, Network(2, 2))
    case IPV4_PROTO => ItemField("proto", IPV4_FIELDS, UNSIGNED, Network(9, 1))
    case IPV4_SRC => ItemField("src", IPV4_FIELDS, IPV4_ADDR, Network(12, 4))
    case IPV4_DST => ItemField("dst", IPV4_FIELDS, IPV4_ADDR, Network(16, 4))
    case IPV6_FLOW => ItemField("flow", IPV6_FIELDS, UNSIGNED, NetworkBits(0, [0x00, 0x0F, 0xFF, 0xFF]))
    case IPV6_SRC => ItemField("src", IPV6_FIELDS, IPV6_ADDR, Network(8, 16))
    case IPV6_DST => ItemField("dst", IPV6_FIELDS, IPV6_ADDR, Network(24, 16))
  }

  function ActionToken(a: ActionIndex): Entry {
    match a
    case ACTION_END => Placing("end", [], [], FlowArena.Record(0, 0))
    case ACTION_DROP => Placing("drop", [[ActField(ACTION_NEXT)]], [], FlowArena.Record(7, 0))
    case ACTION_QUEUE => Placing("queue", [QUEUE_FIELDS], [], FlowArena.Record(6, 2))
    case ACTION_COUNT => Placing("count", [COUNT_FIELDS], [], FlowArena.Record(8, 8))
    case ACTION_RSS =>
      Token("rss", Callback.Keyword, [RSS_FIELDS], [], [FlowArena.Record(9, RSS_DATA), FlowArena.Conf], None, 0)
  }

  function SettingToken(f: SettingIndex): Entry {
    match f
    case ACTION_NEXT => Plainly("/", [NEXT_ACTION], [])
    case QUEUE_INDEX => ActionField("index", QUEUE_FIELDS, UNSIGNED, Plain(0, 2))
    case COUNT_ID => ActionField("identifier", COUNT_FIELDS, UNSIGNED, Plain(4, 4))
    case COUNT_SHARED => ActionField("shared", COUNT_FIELDS, BOOLEAN, Bits(1, 8))
    case RSS_FUNC => Plainly("func", [RSS_FIELDS, RSS_FUNCS], [])
    case RSS_LEVEL => Plainly("level", [RSS_FIELDS, [Value(UNSIGNED)]], [Plain(4, 4)])
    case RSS_TYPES => Plainly("types", [RSS_FIELDS, [Repeated(ACTION_RSS_TYPE)]], [])
    case RSS_KEY => Plainly("key", [RSS_FIELDS, [STRING]], [Plain(0, 0), Plain(16, 4), Plain(40, 64)])
    case RSS_KEY_LEN =>
      Plainly("key_len", [RSS_FIELDS, [Value(UNSIGNED)]], [Arg(false, false, true, 0, 64, 16, 4, None)])
    case RSS_QUEUES => Placing("queues", [RSS_FIELDS, [Repeated(ACTION_RSS_QUEUE)]], [], FlowArena.Conf)
  }

  function TokenOf(x: Index): Entry {
    match x
    case Top(c) => CommandToken(c)
    case Value(v) => ValueToken(v)
    case STRING => Token("{string}", String, [], [], [], None, 0)
    case Repeated(r) =>
      if r == ACTION_RSS_TYPE then Token("{type}", RssType, [], [], [], None, 16)
      else Token("{queue}", RssQueue, [], [], [], None, RSS_DATA)
    case Attr(a) => AttrToken(a)
    case Item(i) => ItemToken(i)
    case Field(f) => FieldToken(f)
    case Param(p) => ParamToken(p)
    case ACTIONS => Placing("actions", [NEXT_ACTION], [], FlowArena.Actions)
    case Act(a) => ActionToken(a)
    case ActField(f) => SettingToken(f)
    case RssFunc(f) =>
      match f
      case FUNC_DEFAULT => Token("default", Callback.Keyword, [], [], [], None, 4)
      case FUNC_TOEPLITZ => Token("toeplitz", Callback.Keyword, [], [], [], None, 4)
      case FUNC_SIMPLE_XOR => Token("simple_xor", Callback.Keyword, [], [], [], None, 4)
  }

  // ------------------------------------------------------------------- typing

  function Demand(x: Index): nat {
    if x.STRING? then 3 else if x.Value? then 1 else 0
  }

  /** Slots a token may use on the two stacks: its own if it brings nothing, and a bound
      common to all tokens that bring lists. */
  function Tall(x: Index): nat {
    match x
    case Value(_) => 1
    case STRING => 1
    case RssFunc(_) => 1
    case Param(_) => 1
    case Repeated(_) => 2
    case _ => 8
  }

  function Wide(x: Index): nat {
    if x.STRING? then 3 else Tall(x)
  }

  /** The object size of the item a field belongs to, and of the action a setting belongs to. */
  function Owner(f: FieldIndex): nat {
    match f
    case ITEM_NEXT => 0
    case RAW_RELATIVE => 64
    case RAW_SEARCH => 64
    case RAW_OFFSET => 64
    case RAW_LIMIT => 64
    case RAW_PATTERN => 64
    case ETH_DST => 14
    case ETH_SRC => 14
    case ETH_TYPE => 14
    case VLAN_TCI => 4
    case VLAN_PCP => 4
    case VLAN_DEI => 4
    case VLAN_VID => 4
    case VLAN_INNER_TYPE => 4
    case IPV4_PROTO => 20
    case IPV4_SRC => 20
    case IPV4_DST => 20
    case IPV6_FLOW => 40
    case IPV6_SRC => 40
    case IPV6_DST => 40
  }

  function Block(f: SettingIndex): nat {
    match f
    case ACTION_NEXT => 0
    case QUEUE_INDEX => 2
    case COUNT_ID => 8
    case COUNT_SHARED => 8
    case _ => RSS_DATA
  }

  /** Where a token leads.  A field leads on only in an item of its own kind, and an RSS
      setting only where the whole block is the current object. */
  function LeadsTo(x: Index, m: Mode): Option<Goal> {
    match x
    case Top(_) => if m.phase == FlowArena.Idle then Some(Over) else None
    case Attr(_) => if m.phase == FlowArena.Attributes then Some(Over) else None
    case Item(_) => if m.phase == FlowArena.FirstItem || m.phase == FlowArena.InItem then Some(Over) else None
    case Field(f) =>
      if m.phase == FlowArena.InItem && (f.ITEM_NEXT? || m.size == Owner(f)) then Some(Over) else None
    case Param(_) => if m.phase == FlowArena.InItem then Some(In(m.(room := m.size))) else None
    case ACTIONS => if m.phase == FlowArena.InItem then Some(Over) else None
    case Act(_) => if m.phase == FlowArena.InActions then Some(Over) else None
    case ActField(f) => if m.phase == FlowArena.InActions && InBlock(f, m) then Some(Over) else None
    case Repeated(_) => if m.room >= RSS_DATA then Some(In(m)) else None
    case RssFunc(_) => if m.room >= RSS_DATA then Some(In(m)) else None
    case _ => Some(In(m))
  }

  predicate InBlock(f: SettingIndex, m: Mode) {
    f.ACTION_NEXT? || (m.size == Block(f) && (m.size == RSS_DATA ==> m.room == RSS_DATA))
  }

  const TABLE: Table<Index> := Table(TokenOf, Top(ZERO), Top(END), Value(PREFIX), HEADER, ATTR)
  const TYPING: Typing<Index> := Typing(Demand, Tall, Wide, LeadsTo, true)

  // ------------------------------------------------------------------- groups

  /** Tokens of the same group, for the same object: `x` leads wherever `y` does. */
  predicate Alike(x: Index, y: Index) {
    match x
    case Top(_) => y.Top?
    case Value(_) => y.Value?
    case STRING => y.STRING?
    case Repeated(_) => y.Repeated?
    case Attr(_) => y.Attr?
    case Item(_) => y.Item?
    case Field(f) => y.Field? && (f.ITEM_NEXT? || Owner(f) == Owner(y.field))
    case Param(_) => y.Param?
    case ACTIONS => y.ACTIONS?
    case Act(_) => y.Act?
    case ActField(f) => y.ActField? && (f.ACTION_NEXT? || Block(f) == Block(y.setting))
    case RssFunc(_) => y.RssFunc?
  }

  lemma AlikeLeads(x: Index, y: Index, m: Mode)
    requires Alike(x, y) && LeadsTo(y, m).Some?
    ensures LeadsTo(x, m) == LeadsTo(y, m)
  {
  }

  ghost predicate Group(a: seq<Index>, y: Index) {
    a != [] && (forall x :: x in a ==> Alike(x, y) && x != Top(ZERO)) && WellNamed(TABLE, a)
  }

  lemma GroupListed(a: seq<Index>, y: Index)
    requires Group(a, y)
    ensures Listed(TABLE, TYPING, a)
    ensures Within(TYPING, a, Tall(y), Wide(y)) && Need(TYPING, a) == Demand(y)
    ensures !y.Param? ==> NoPrefix(TABLE, a)
  {
    assert a[0] in a;
    hide TokenOf, WellNamed;
    forall x | x in a
      ensures Demand(x) == Demand(a[0]) == Demand(y) && Tall(x) == Tall(y) && Wide(x) == Wide(y)
      ensures !y.Param? ==> !AsksPrefix(TABLE, x)
    {
      if !y.Param? {
        OnlyParamsAsk(x);
      }
    }
  }

  lemma OnlyParamsAsk(x: Index)
    requires !x.Param?
    ensures TokenOf(x).call != PrefixParameter
  {
  }

  /** A list leads wherever the token that stands for its group does. */
  lemma GroupLead(a: seq<Index>, y: Index, m: Mode)
    requires Group(a, y) && LeadsTo(y, m).Some?
    ensures Lead(TYPING, a, In(m)) == LeadsTo(y, m)
  {
    assert a[0] in a;
    hide LeadsTo, Alike, WellNamed;
    forall x | x in a ensures LeadsTo(x, m) == LeadsTo(y, m) { AlikeLeads(x, y, m); }
  }

  /** Values, whatever their group: they bring nothing and leave the mode alone. */
  predicate Leaf(x: Index) {
    x.Value? || x.STRING? || x.Repeated? || x.RssFunc?
  }

  /** Tokens that bring lists. */
  predicate Branch(x: Index) {
    x.Top? || x.Attr? || x.Item? || x.Field? || x.ACTIONS? || x.Act? || x.ActField?
  }

  // ------------------------------------------------------- tokens without lists

  lemma LeafFacts(x: Index)
    requires Leaf(x) || x.Param?
    ensures var t := TokenOf(x);
            && t.next == [] && t.args == [] && Pops(t.call) == Demand(x) && (Repeats(t.call) ==> x.Repeated?)
            && t.places == (if x.Param? then [FlowArena.Parameter(x.param)] else []) && t.binds == None
            && t.writes <= RSS_DATA && (t.writes > 0 ==> x.Repeated? || x.RssFunc?)
  {
  }

  /** The mode after a token, for tokens that place at most two things. */
  function Moved(t: Entry, m: Mode): Option<Mode> {
    if t.places == [] then
      match t.binds
      case None => Some(m)
      case Some(k) => if m.phase == FlowArena.Idle then Some(m.(room := k)) else None
    else
      match Track(TABLE, m, t.places[0])
      case None => None
      case Some(n) => if |t.places| == 1 then Some(n) else Track(TABLE, n, t.places[1])
  }

  lemma AfterMoved(x: Index, m: Mode)
    requires |TokenOf(x).places| <= 2 && (TokenOf(x).places != [] ==> TokenOf(x).binds == None)
    ensures After(TABLE, x, m) == Moved(TokenOf(x), m)
  {
    var ts := TokenOf(x).places;
    hide TokenOf, Track;
    if ts != [] && Track(TABLE, m, ts[0]).Some? {
      var n := Track(TABLE, m, ts[0]).value;
      assert |ts| == 2 ==> ts[1..][1..] == [] && ts[1..][0] == ts[1];
      assert TrackAll(TABLE, m, ts) == TrackAll(TABLE, n, ts[1..]);
      if |ts| == 2 && Track(TABLE, n, ts[1]).Some? {
        assert TrackAll(TABLE, n, ts[1..]) == TrackAll(TABLE, Track(TABLE, n, ts[1]).value, ts[1..][1..]);
      }
    }
  }

  lemma LeafTyped(x: Index)
    requires Leaf(x) || x.Param?
    ensures WellTypedToken(TABLE, TYPING, x)
  {
    LeafFacts(x);
    StackNone(TABLE, TYPING, Tall(x), Wide(x));
    hide TokenOf, Stackable, Fits;
    forall p: Mode | LeadsTo(x, p).Some?
      ensures After(TABLE, x, p).Some? && LeadsTo(x, p) == Some(In(After(TABLE, x, p).value))
    {
      AfterMoved(x, p);
    }
  }

  /** A token that only ends a command. */
  lemma LastTyped(x: Index)
    requires x == Top(END) || x == Act(ACTION_END)
    ensures WellTypedToken(TABLE, TYPING, x)
  {
    StackNone(TABLE, TYPING, Tall(x), Wide(x));
    forall p: Mode | LeadsTo(x, p).Some? ensures After(TABLE, x, p).Some? { AfterMoved(x, p); }
  }

  // ------------------------------------------------------- tokens with lists

  lemma OneList(a: seq<Index>, y: Index)
    requires Group(a, y) && !y.Param?
    ensures Stack(TABLE, TYPING, [a], 8, 8) && Needs(TYPING, [a]) == Demand(y)
  {
    hide Stack, Group;
    GroupListed(a, y);
    StackNone(TABLE, TYPING, 8, 8);
    hide Listed, NoPrefix;
    StackMore(TABLE, TYPING, [], a, 8, 8);
    assert [] + [a] == [a];
  }

  /** A value on top of what the token comes back to. */
  lemma TwoLists(a: seq<Index>, y: Index, b: seq<Index>, z: Index)
    requires Group(a, y) && !y.Param? && Group(b, z) && Leaf(z)
    ensures Stack(TABLE, TYPING, [a, b], 8, 8) && Needs(TYPING, [a, b]) == Demand(y) + Demand(z)
  {
    hide Stack, Group;
    OneList(a, y);
    GroupListed(b, z);
    hide Listed, NoPrefix;
    StackMore(TABLE, TYPING, [a], b, 8, 8);
    assert [a] + [b] == [a, b];
  }

  lemma ThreeLists(a: seq<Index>, y: Index, b: seq<Index>, z: Index, c: seq<Index>, top: Index)
    requires Group(a, y) && !y.Param? && Group(b, z) && Leaf(z) && Group(c, top) && (top.Value? || top.Param?)
    requires top.Param? ==> Replaceable(TABLE, TYPING, b) || NoPrefix(TABLE, c)
    ensures Stack(TABLE, TYPING, [a, b, c], 8, 8)
    ensures Needs(TYPING, [a, b, c]) == Demand(y) + Demand(z) + Demand(top)
  {
    hide Stack, Group;
    TwoLists(a, y, b, z);
    GroupListed(c, top);
    hide NoPrefix, Listed, Replaceable;
    StackMore(TABLE, TYPING, [a, b], c, 8, 8);
    assert [a, b] + [c] == [a, b, c];
  }

  /** A prefix can replace any other value. */
  lemma ValueReplaceable(v: ValueIndex)
    ensures Replaceable(TABLE, TYPING, [Value(v)])
  {
  }

  /** Lists and arguments that can be worked off from a mode, each argument inside the
      object that is current then. */
  ghost predicate Works(lists: seq<seq<Index>>, args: seq<Arg>, m: Mode) {
    && Leads(TYPING, lists, In(m)).Some?
    && |args| == Needs(TYPING, lists) && Aimed(TYPING, lists, args, In(m))
  }

  lemma WorksOne(a: seq<Index>, y: Index, args: seq<Arg>, m: Mode)
    requires Group(a, y) && LeadsTo(y, m).Some? && |args| == Demand(y) && ArgsIn(args, m.room)
    ensures Works([a], args, m)
  {
    GroupLead(a, y, m);
    GroupListed(a, y);
    hide Group, Lead;
    assert [a] == [] + [a] && args[0..] == args;
    NeedsOne(TYPING, a);
    LeadsOne(TYPING, a, In(m));
    AimedOn(TYPING, [], a, args, In(m));
  }

  /** One list on top of others; `k` arguments are for the lists below. */
  lemma WorksMore(lists: seq<seq<Index>>, top: seq<Index>, z: Index, args: seq<Arg>, k: nat, m: Mode, n: Mode)
    requires Group(top, z) && LeadsTo(z, m) == Some(In(n))
    requires k <= |args| && |args| - k == Demand(z) && ArgsIn(args[k..], m.room)
    requires Works(lists, args[..k], n)
    ensures Works(lists + [top], args, m)
  {
    GroupLead(top, z, m);
    GroupListed(top, z);
    hide Group, Lead, Needs, Leads, Aimed, ArgsIn, Listed, Within;
    NeedsConcat(TYPING, lists, [top]);
    NeedsOne(TYPING, top);
    LeadsMore(TYPING, lists, top, In(m));
    AimedOn(TYPING, lists, top, args, In(m));
  }

  lemma WorksTwo(a: seq<Index>, y: Index, b: seq<Index>, z: Index, args: seq<Arg>, m: Mode)
    requires Group(a, y) && LeadsTo(y, m).Some? && Group(b, z) && LeadsTo(z, m) == Some(In(m))
    requires |args| == Demand(y) + Demand(z) && ArgsIn(args, m.room)
    ensures Works([a, b], args, m)
  {
    hide Group, Works, LeadsTo;
    var k := Demand(y);
    WorksOne(a, y, args[..k], m);
    WorksMore([a], b, z, args, k, m, m);
    assert [a] + [b] == [a, b];
  }

  lemma WorksThree(a: seq<Index>, y: Index, b: seq<Index>, z: Index, c: seq<Index>, top: Index,
                   args: seq<Arg>, m: Mode, n: Mode)
    requires Group(a, y) && LeadsTo(y, n).Some? && Group(b, z) && LeadsTo(z, n) == Some(In(n))
    requires Group(c, top) && LeadsTo(top, m) == Some(In(n)) && (Demand(top) > 0 ==> n == m)
    requires |args| == Demand(y) + Demand(z) + Demand(top) && ArgsIn(args, n.room)
    ensures Works([a, b, c], args, m)
  {
    hide Group, Works, LeadsTo;
    var k := Demand(y) + Demand(z);
    WorksTwo(a, y, b, z, args[..k], n);
    WorksMore([a, b], c, top, args, k, m, n);
    assert [a, b] + [c] == [a, b, c];
  }

  /** From every mode that a token is for, what it does leads to a mode that `y` is for, where
      its arguments lie inside the current object. */
  ghost predicate Passes(x: Index, y: Index) {
    forall p: Mode :: LeadsTo(x, p).Some? ==>
      var q := Moved(TokenOf(x), p);
      q.Some? && LeadsTo(y, q.value).Some? && ArgsIn(TokenOf(x).args, q.value.room)
  }

  /** A token that brings lists and arguments and takes none. */
  ghost predicate Makes(x: Index, next: seq<seq<Index>>, args: nat) {
    var t := TokenOf(x);
    && Branch(x) && t.call in {Name, Callback.Keyword} && t.writes == 0 && t.next == next && |t.args| == args
    && |t.places| <= 2 && (t.places != [] ==> t.binds == None)
  }

  /** It is well typed if what it brings can be worked off from the modes it leads to. */
  lemma BranchTyped(x: Index, next: seq<seq<Index>>, args: nat)
    requires Makes(x, next, args) && |next| <= 8 && Stack(TABLE, TYPING, next, 8, 8)
    requires args == Needs(TYPING, next) <= 8
    requires forall p: Mode :: LeadsTo(x, p).Some? ==>
               var q := Moved(TokenOf(x), p); q.Some? && Works(next, TokenOf(x).args, q.value)
    ensures WellTypedToken(TABLE, TYPING, x)
  {
    hide Leads, Needs, After, Moved, Stackable, Fits, TokenOf, Aimed, LeadsTo;
    forall p: Mode | LeadsTo(x, p).Some?
      ensures LeadsTo(x, p) == Some(Over) && After(TABLE, x, p) == Moved(TokenOf(x), p)
    {
      BranchEnds(x, p);
      AfterMoved(x, p);
    }
  }

  lemma BranchEnds(x: Index, p: Mode)
    requires Branch(x) && LeadsTo(x, p).Some?
    ensures LeadsTo(x, p) == Some(Over)
  {
  }

  lemma OneTyped(x: Index, a: seq<Index>, y: Index)
    requires Makes(x, [a], Demand(y)) && Group(a, y) && !y.Param? && Passes(x, y)
    ensures WellTypedToken(TABLE, TYPING, x)
  {
    OneList(a, y);
    hide Group, Stack, Needs, WellTypedToken, TokenOf, LeadsTo, Moved, Works, ArgsIn;
    forall p: Mode | LeadsTo(x, p).Some? ensures Works([a], TokenOf(x).args, Moved(TokenOf(x), p).value) {
      WorksOne(a, y, TokenOf(x).args, Moved(TokenOf(x), p).value);
    }
    BranchTyped(x, [a], Demand(y));
  }

  lemma TwoTyped(x: Index, a: seq<Index>, y: Index, b: seq<Index>, z: Index)
    requires Makes(x, [a, b], Demand(y) + Demand(z)) && Group(a, y) && !y.Param? && Group(b, z) && Leaf(z)
    requires Passes(x, y) && Passes(x, z)
    ensures WellTypedToken(TABLE, TYPING, x)
  {
    TwoLists(a, y, b, z);
    forall m: Mode | LeadsTo(z, m).Some? ensures LeadsTo(z, m) == Some(In(m)) { }
    hide Group, Stack, Needs, WellTypedToken, TokenOf, LeadsTo, Moved, Works, ArgsIn;
    forall p: Mode | LeadsTo(x, p).Some? ensures Works([a, b], TokenOf(x).args, Moved(TokenOf(x), p).value) {
      WorksTwo(a, y, b, z, TokenOf(x).args, Moved(TokenOf(x), p).value);
    }
    BranchTyped(x, [a, b], Demand(y) + Demand(z));
  }

  /** A field of an item: its parameter makes the item's object current before the value is
      read, and the field lies inside it. */
  lemma FieldWithValue(f: FieldIndex, a: seq<Index>, b: seq<Index>, z: Index, c: seq<Index>)
    requires Makes(Field(f), [a, b, c], Demand(z)) && Group(a, Field(f)) && Group(b, z) && (z.Value? || z.STRING?)
    requires Group(c, Param(FlowArena.Is)) && (Replaceable(TABLE, TYPING, b) || NoPrefix(TABLE, c))
    requires TokenOf(Field(f)).places == [] && TokenOf(Field(f)).binds == None
    requires !f.ITEM_NEXT? && ArgsIn(TokenOf(Field(f)).args, Owner(f))
    ensures WellTypedToken(TABLE, TYPING, Field(f))
  {
    var x, top := Field(f), Param(FlowArena.Is);
    hide Group, Stack, Needs, WellTypedToken, Works, ArgsIn, NoPrefix, Replaceable, TokenOf;
    ThreeLists(a, x, b, z, c, top);
    forall p: Mode | LeadsTo(x, p).Some? ensures Works([a, b, c], TokenOf(x).args, p) {
      WorksThree(a, x, b, z, c, top, TokenOf(x).args, p, p.(room := p.size));
    }
    BranchTyped(x, [a, b, c], Demand(z));
  }

  // ------------------------------------------------------------------- names

  /** No name occurs again, checked name by name. */
  predicate AllNew(names: seq<string>) {
    names == [] || (names[0] !in names[1..] && AllNew(names[1..]))
  }

  lemma {:induction false} AllNewDistinct(names: seq<string>)
    requires AllNew(names)
    ensures Distinct(names)
  {
    if names != [] {
      AllNewDistinct(names[1..]);
      forall i, j | 0 <= i < j < |names| ensures names[i] != names[j] {
        assert names[j] == names[1..][j - 1];
        assert i > 0 ==> names[i] == names[1..][i - 1];
      }
    }
  }

  predicate Named(x: Index, name: string) {
    ByName(TokenOf(x).call) && TokenOf(x).name == name
  }

  lemma NamedApart(a: seq<Index>, names: seq<string>)
    requires |a| == |names| && (forall i :: 0 <= i < |a| ==> Named(a[i], names[i])) && AllNew(names)
    ensures WellNamed(TABLE, a)
  {
    hide TokenOf;
    AllNewDistinct(names);
  }

  lemma CommandDistinct()
    ensures AllNew(["validate", "create", "destroy", "flush", "list", "query", "isolate"])
  {
  }

  lemma CommandNames()
    ensures WellNamed(TABLE, COMMANDS)
  {
    CommandDistinct();
    hide AllNew;
    NamedApart(COMMANDS, ["validate", "create", "destroy", "flush", "list", "query", "isolate"]);
  }

  lemma DestroyNames()
    ensures WellNamed(TABLE, NEXT_DESTROY_ATTR)
  {
    NamedApart(NEXT_DESTROY_ATTR, ["rule", ""]);
  }

  lemma ListNames()
    ensures WellNamed(TABLE, NEXT_LIST_ATTR)
  {
    NamedApart(NEXT_LIST_ATTR, ["group", ""]);
  }

  lemma AttrDistinct()
    ensures AllNew(["group", "priority", "ingress", "egress", "transfer", "pattern"])
  {
  }

  lemma AttrNames()
    ensures WellNamed(TABLE, NEXT_VC_ATTR)
  {
    AttrDistinct();
    hide AllNew;
    NamedApart(NEXT_VC_ATTR, ["group", "priority", "ingress", "egress", "transfer", "pattern"]);
  }

  lemma ParamDistinct()
    ensures AllNew(["is", "spec", "last", "mask", "prefix"])
  {
  }

  lemma ParamNames()
    ensures WellNamed(TABLE, ITEM_PARAM)
  {
    ParamDistinct();
    hide AllNew;
    NamedApart(ITEM_PARAM, ["is", "spec", "last", "mask", "prefix"]);
  }

  lemma StringParamNames()
    ensures WellNamed(TABLE, STRING_PARAM)
  {
    NamedApart(STRING_PARAM, ["is", "spec", "mask"]);
  }

  lemma ItemDistinct()
    ensures AllNew(["end", "void", "raw", "eth", "vlan", "ipv4", "ipv6"])
  {
  }

  lemma ItemNames()
    ensures WellNamed(TABLE, NEXT_ITEM)
  {
    ItemDistinct();
    hide AllNew;
    NamedApart(NEXT_ITEM, ["end", "void", "raw", "eth", "vlan", "ipv4", "ipv6"]);
  }

  lemma RawDistinct()
    ensures AllNew(["relative", "search", "offset", "limit", "pattern", "/"])
  {
  }

  lemma RawNames()
    ensures WellNamed(TABLE, RAW_FIELDS)
  {
    RawDistinct();
    hide AllNew;
    NamedApart(RAW_FIELDS, ["relative", "search", "offset", "limit", "pattern", "/"]);
  }

  lemma EthNames()
    ensures WellNamed(TABLE, ETH_FIELDS)
  {
    NamedApart(ETH_FIELDS, ["dst", "src", "type", "/"]);
  }

  lemma VlanDistinct()
    ensures AllNew(["tci", "pcp", "dei", "vid", "inner_type", "/"])
  {
  }

  lemma VlanNames()
    ensures WellNamed(TABLE, VLAN_FIELDS)
  {
    VlanDistinct();
    hide AllNew;
    NamedApart(VLAN_FIELDS, ["tci", "pcp", "dei", "vid", "inner_type", "/"]);
  }

  lemma Ipv4Names()
    ensures WellNamed(TABLE, IPV4_FIELDS)
  {
    NamedApart(IPV4_FIELDS, ["proto", "src", "dst", "/"]);
  }

  lemma Ipv6Names()
    ensures WellNamed(TABLE, IPV6_FIELDS)
  {
    NamedApart(IPV6_FIELDS, ["flow", "src", "dst", "/"]);
  }

  lemma ActionDistinct()
    ensures AllNew(["end", "queue", "drop", "count", "rss"])
  {
  }

  lemma ActionNames()
    ensures WellNamed(TABLE, NEXT_ACTION)
  {
    ActionDistinct();
    hide AllNew;
    NamedApart(NEXT_ACTION, ["end", "queue", "drop", "count", "rss"]);
  }

  lemma QueueNames()
    ensures WellNamed(TABLE, QUEUE_FIELDS)
  {
    NamedApart(QUEUE_FIELDS, ["index", "/"]);
  }

  lemma CountNames()
    ensures WellNamed(TABLE, COUNT_FIELDS)
  {
    NamedApart(COUNT_FIELDS, ["identifier", "shared", "/"]);
  }

  lemma RssDistinct()
    ensures AllNew(["func", "level", "types", "key", "key_len", "queues", "/"])
  {
  }

  lemma RssNames()
    ensures WellNamed(TABLE, RSS_FIELDS)
  {
    RssDistinct();
    hide AllNew;
    NamedApart(RSS_FIELDS, ["func", "level", "types", "key", "key_len", "queues", "/"]);
  }

  lemma RssFuncNames()
    ensures WellNamed(TABLE, RSS_FUNCS)
  {
    NamedApart(RSS_FUNCS, ["default", "toeplitz", "simple_xor"]);
  }

  // ------------------------------------------------------------ the token lists

  lemma CommandLists()
    ensures Group(COMMANDS, Top(FLOW))
    ensures Group(NEXT_DESTROY_ATTR, Top(FLOW)) && Group(NEXT_LIST_ATTR, Top(FLOW))
  {
    CommandNames();
    DestroyNames();
    ListNames();
    hide TokenOf, WellNamed;
  }

  lemma SectionLists()
    ensures Group(NEXT_VC_ATTR, Attr(PATTERN)) && Group(NEXT_ITEM, Item(ITEM_END))
  {
    AttrNames();
    ItemNames();
    hide TokenOf, WellNamed;
  }

  /** A list of one token. */
  lemma Single(x: Index)
    requires x != Top(ZERO)
    ensures Group([x], x)
  {
    hide TokenOf;
  }

  lemma RawList()
    ensures Group(RAW_FIELDS, Field(RAW_OFFSET))
  {
    RawNames();
    hide TokenOf, WellNamed;
  }

  lemma EthList()
    ensures Group(ETH_FIELDS, Field(ETH_TYPE))
  {
    EthNames();
    hide TokenOf, WellNamed;
  }

  lemma VlanList()
    ensures Group(VLAN_FIELDS, Field(VLAN_TCI))
  {
    VlanNames();
    hide TokenOf, WellNamed;
  }

  lemma Ipv4List()
    ensures Group(IPV4_FIELDS, Field(IPV4_SRC))
  {
    Ipv4Names();
    hide TokenOf, WellNamed;
  }

  lemma Ipv6List()
    ensures Group(IPV6_FIELDS, Field(IPV6_SRC))
  {
    Ipv6Names();
    hide TokenOf, WellNamed;
  }

  lemma ParamLists()
    ensures Group(ITEM_PARAM, Param(FlowArena.Is)) && Group(STRING_PARAM, Param(FlowArena.Is))
    ensures NoPrefix(TABLE, STRING_PARAM)
  {
    ParamNames();
    StringParamNames();
  }

  lemma ActionLists()
    ensures Group(NEXT_ACTION, Act(ACTION_END))
    ensures Group(QUEUE_FIELDS, ActField(QUEUE_INDEX)) && Group(COUNT_FIELDS, ActField(COUNT_ID))
  {
    ActionNames();
    QueueNames();
    CountNames();
    hide TokenOf, WellNamed;
  }

  lemma RssLists()
    ensures Group(RSS_FIELDS, ActField(RSS_LEVEL)) && Group(RSS_FUNCS, RssFunc(FUNC_DEFAULT))
  {
    RssNames();
    RssFuncNames();
    hide TokenOf, WellNamed;
  }

  // ------------------------------------------------------------------ the tokens

  lemma CreateTyped(c: CommandIndex)
    requires c.VALIDATE? || c.CREATE?
    ensures WellTypedToken(TABLE, TYPING, Top(c))
  {
    SectionLists();
    Single(Value(PORT_ID));
    hide Group, WellTypedToken;
    TwoTyped(Top(c), NEXT_VC_ATTR, Attr(PATTERN), PORT, Value(PORT_ID));
  }

  lemma ShortTyped(c: CommandIndex)
    requires c.ZERO? || c.FLOW? || c.FLUSH? || c.ISOLATE?
    ensures WellTypedToken(TABLE, TYPING, Top(c))
  {
    CommandLists();
    Single(Top(FLOW));
    Single(Value(PORT_ID));
    Single(Value(BOOLEAN));
    hide Group, WellTypedToken;
    var x, port := Top(c), Value(PORT_ID);
    match c
    case ZERO => OneTyped(x, [Top(FLOW)], Top(FLOW));
    case FLOW => OneTyped(x, COMMANDS, Top(FLOW));
    case FLUSH => OneTyped(x, PORT, port);
    case ISOLATE => TwoTyped(x, [Value(BOOLEAN)], Value(BOOLEAN), PORT, port);
  }

  /** Commands that take any number of rules or groups, and how one is named. */
  lemma ListingTyped(c: CommandIndex)
    requires c.DESTROY? || c.LIST?
    ensures WellTypedToken(TABLE, TYPING, Top(c))
  {
    CommandLists();
    Single(Top(DESTROY_RULE));
    Single(Value(PORT_ID));
    hide Group, WellTypedToken;
    if c.DESTROY? {
      TwoTyped(Top(c), [Top(DESTROY_RULE)], Top(DESTROY_RULE), PORT, Value(PORT_ID));
    } else {
      TwoTyped(Top(c), NEXT_LIST_ATTR, Top(FLOW), PORT, Value(PORT_ID));
    }
  }

  lemma ListedTyped(c: CommandIndex)
    requires c.DESTROY_RULE? || c.LIST_GROUP?
    ensures WellTypedToken(TABLE, TYPING, Top(c))
  {
    CommandLists();
    Single(Value(RULE_ID));
    Single(Value(GROUP_ID));
    hide Group, WellTypedToken;
    if c.DESTROY_RULE? {
      TwoTyped(Top(c), NEXT_DESTROY_ATTR, Top(FLOW), [Value(RULE_ID)], Value(RULE_ID));
    } else {
      TwoTyped(Top(c), NEXT_LIST_ATTR, Top(FLOW), [Value(GROUP_ID)], Value(GROUP_ID));
    }
  }

  /** Three values in a row. */
  lemma QueryTyped()
    ensures WellTypedToken(TABLE, TYPING, Top(QUERY))
  {
    var x, y, z, port := Top(QUERY), Value(QUERY_ACTION), Value(RULE_ID), Value(PORT_ID);
    Single(y);
    Single(z);
    Single(port);
    hide Group, Stack, Works, WellTypedToken, Needs;
    ThreeLists([y], y, [z], z, PORT, port);
    forall p: Mode | LeadsTo(x, p).Some?
      ensures Works([[y], [z], PORT], TokenOf(x).args, Moved(TokenOf(x), p).value)
    {
      var q := Moved(TokenOf(x), p).value;
      WorksThree([y], y, [z], z, PORT, port, TokenOf(x).args, q, q);
    }
    BranchTyped(x, [[y], [z], PORT], 3);
  }

  lemma AttrTyped(a: AttrIndex)
    ensures WellTypedToken(TABLE, TYPING, Attr(a))
  {
    SectionLists();
    Single(Value(GROUP_ID));
    Single(Value(PRIORITY_LEVEL));
    hide Group, WellTypedToken;
    var x, y := Attr(a), Attr(PATTERN);
    match a
    case GROUP => TwoTyped(x, NEXT_VC_ATTR, y, [Value(GROUP_ID)], Value(GROUP_ID));
    case PRIORITY => TwoTyped(x, NEXT_VC_ATTR, y, [Value(PRIORITY_LEVEL)], Value(PRIORITY_LEVEL));
    case INGRESS => OneTyped(x, NEXT_VC_ATTR, y);
    case EGRESS => OneTyped(x, NEXT_VC_ATTR, y);
    case TRANSFER => OneTyped(x, NEXT_VC_ATTR, y);
    case PATTERN => OneTyped(x, NEXT_ITEM, Item(ITEM_END));
  }

  /** An item whose object is the one its fields are for. */
  lemma ItemWithFields(i: ItemIndex, kind: nat, size: FlowArena.ObjectSize, fields: seq<Index>, f: FieldIndex)
    requires Group(fields, Field(f)) && (f.ITEM_NEXT? || Owner(f) == size)
    requires Makes(Item(i), [fields], 0) && TokenOf(Item(i)).places == [FlowArena.Record(kind, size)]
    ensures WellTypedToken(TABLE, TYPING, Item(i))
  {
    hide Group, WellTypedToken, TokenOf;
    assert TokenOf(Item(i)).args == [];
    hide Makes;
    assert Passes(Item(i), Field(f));
    hide LeadsTo, Passes;
    OneTyped(Item(i), fields, Field(f));
  }

  lemma ItemTyped(i: ItemIndex)
    requires i.ITEM_END? || i.ITEM_VOID? || i.ITEM_RAW? || i.ITEM_ETH?
    ensures WellTypedToken(TABLE, TYPING, Item(i))
  {
    RawList();
    EthList();
    Single(ACTIONS);
    Single(Field(ITEM_NEXT));
    hide Group, WellTypedToken;
    match i
    case ITEM_END => OneTyped(Item(i), [ACTIONS], ACTIONS);
    case ITEM_VOID => ItemWithFields(i, 1, 0, [Field(ITEM_NEXT)], ITEM_NEXT);
    case ITEM_RAW => ItemWithFields(i, 8, 64, RAW_FIELDS, RAW_OFFSET);
    case ITEM_ETH => ItemWithFields(i, 9, 14, ETH_FIELDS, ETH_TYPE);
  }

  lemma InetItemTyped(i: ItemIndex)
    requires i.ITEM_VLAN? || i.ITEM_IPV4? || i.ITEM_IPV6?
    ensures WellTypedToken(TABLE, TYPING, Item(i))
  {
    VlanList();
    Ipv4List();
    Ipv6List();
    hide Group, WellTypedToken;
    match i
    case ITEM_VLAN => ItemWithFields(i, 10, 4, VLAN_FIELDS, VLAN_TCI);
    case ITEM_IPV4 => ItemWithFields(i, 11, 20, IPV4_FIELDS, IPV4_SRC);
    case ITEM_IPV6 => ItemWithFields(i, 12, 40, IPV6_FIELDS, IPV6_SRC);
  }

  /** The fields of one item stand for each other. */
  lemma SameItem(a: seq<Index>, f: FieldIndex, g: FieldIndex)
    requires Group(a, Field(g)) && !f.ITEM_NEXT? && Owner(f) == Owner(g)
    ensures Group(a, Field(f))
  {
    hide WellNamed;
  }

  /** The shape of every item field with one argument. */
  lemma ItemFieldTyped(f: FieldIndex, fields: seq<Index>, g: FieldIndex, v: ValueIndex)
    requires Group(fields, Field(g)) && !f.ITEM_NEXT? && Owner(f) == Owner(g)
    requires Makes(Field(f), [fields, [Value(v)], ITEM_PARAM], 1) && FieldToken(f).places == []
    requires FieldToken(f).binds == None && ArgsIn(FieldToken(f).args, Owner(f))
    ensures WellTypedToken(TABLE, TYPING, Field(f))
  {
    SameItem(fields, f, g);
    Single(Value(v));
    ValueReplaceable(v);
    ParamLists();
    hide Group, Stack, WellTypedToken, Replaceable, FieldToken, ArgsIn;
    FieldWithValue(f, fields, [Value(v)], Value(v), ITEM_PARAM);
  }

  lemma RawPatternTyped()
    ensures WellTypedToken(TABLE, TYPING, Field(RAW_PATTERN))
  {
    RawList();
    SameItem(RAW_FIELDS, RAW_PATTERN, RAW_OFFSET);
    Single(STRING);
    ParamLists();
    hide Group, WellTypedToken;
    FieldWithValue(RAW_PATTERN, RAW_FIELDS, [STRING], STRING, STRING_PARAM);
  }

  lemma FieldTyped(f: FieldIndex)
    requires f.ITEM_NEXT? || f.RAW_RELATIVE? || f.RAW_SEARCH? || f.RAW_OFFSET? || f.RAW_LIMIT? || f.RAW_PATTERN? ||
             f.ETH_DST? || f.ETH_SRC? || f.ETH_TYPE?
    ensures WellTypedToken(TABLE, TYPING, Field(f))
  {
    SectionLists();
    RawList();
    EthList();
    hide Group, WellTypedToken;
    match f
    case ITEM_NEXT => OneTyped(Field(f), NEXT_ITEM, Item(ITEM_END));
    case RAW_RELATIVE => ItemFieldTyped(f, RAW_FIELDS, RAW_OFFSET, BOOLEAN);
    case RAW_SEARCH => ItemFieldTyped(f, RAW_FIELDS, RAW_OFFSET, BOOLEAN);
    case RAW_OFFSET => ItemFieldTyped(f, RAW_FIELDS, RAW_OFFSET, INTEGER);
    case RAW_LIMIT => ItemFieldTyped(f, RAW_FIELDS, RAW_OFFSET, UNSIGNED);
    case RAW_PATTERN => RawPatternTyped();
    case ETH_DST => ItemFieldTyped(f, ETH_FIELDS, ETH_TYPE, MAC_ADDR);
    case ETH_SRC => ItemFieldTyped(f, ETH_FIELDS, ETH_TYPE, MAC_ADDR);
    case ETH_TYPE => ItemFieldTyped(f, ETH_FIELDS, ETH_TYPE, UNSIGNED);
  }

  lemma VlanFieldTyped(f: FieldIndex)
    requires Field(f) in VLAN_FIELDS && !f.ITEM_NEXT?
    ensures WellTypedToken(TABLE, TYPING, Field(f))
  {
    VlanList();
    hide Group, WellTypedToken;
    ItemFieldTyped(f, VLAN_FIELDS, VLAN_TCI, UNSIGNED);
  }

  lemma InetFieldTyped(f: FieldIndex)
    requires f.IPV4_PROTO? || f.IPV4_SRC? || f.IPV4_DST? || f.IPV6_FLOW? || f.IPV6_SRC? || f.IPV6_DST?
    ensures WellTypedToken(TABLE, TYPING, Field(f))
  {
    Ipv4List();
    Ipv6List();
    hide Group, WellTypedToken;
    match f
    case IPV4_PROTO => ItemFieldTyped(f, IPV4_FIELDS, IPV4_SRC, UNSIGNED);
    case IPV4_SRC => ItemFieldTyped(f, IPV4_FIELDS, IPV4_SRC, IPV4_ADDR);
    case IPV4_DST => ItemFieldTyped(f, IPV4_FIELDS, IPV4_SRC, IPV4_ADDR);
    case IPV6_FLOW => ItemFieldTyped(f, IPV6_FIELDS, IPV6_SRC, UNSIGNED);
    case IPV6_SRC => ItemFieldTyped(f, IPV6_FIELDS, IPV6_SRC, IPV6_ADDR);
    case IPV6_DST => ItemFieldTyped(f, IPV6_FIELDS, IPV6_SRC, IPV6_ADDR);
  }

  lemma ActionTyped(a: ActionIndex)
    requires !a.ACTION_RSS?
    ensures WellTypedToken(TABLE, TYPING, Act(a))
  {
    ActionLists();
    Single(ActField(ACTION_NEXT));
    hide Group, WellTypedToken;
    var x := Act(a);
    match a
    case ACTION_END => LastTyped(x);
    case ACTION_DROP => OneTyped(x, [ActField(ACTION_NEXT)], ActField(ACTION_NEXT));
    case ACTION_QUEUE => OneTyped(x, QUEUE_FIELDS, ActField(QUEUE_INDEX));
    case ACTION_COUNT => OneTyped(x, COUNT_FIELDS, ActField(COUNT_ID));
  }

  lemma RssTyped()
    ensures WellTypedToken(TABLE, TYPING, Act(ACTION_RSS))
  {
    RssLists();
    hide Group, WellTypedToken;
    OneTyped(Act(ACTION_RSS), RSS_FIELDS, ActField(RSS_LEVEL));
  }

  lemma ActionsTyped()
    ensures WellTypedToken(TABLE, TYPING, ACTIONS)
  {
    ActionLists();
    hide Group, WellTypedToken;
    OneTyped(ACTIONS, NEXT_ACTION, Act(ACTION_END));
  }

  /** A setting whose value is read with the action's block as the current object. */
  lemma SettingWithValue(f: SettingIndex, fields: seq<Index>, g: SettingIndex, b: seq<Index>, z: Index)
    requires Group(fields, ActField(g)) && !f.ACTION_NEXT? && !g.ACTION_NEXT? && Block(f) == Block(g)
    requires Group(b, z) && Leaf(z) && (z.Value? || z.STRING? || Block(f) == RSS_DATA)
    requires Makes(ActField(f), [fields, b], Demand(z)) && ConfCurrent(f)
    ensures WellTypedToken(TABLE, TYPING, ActField(f))
  {
    hide Group, WellTypedToken, TokenOf, Makes, Block;
    assert forall y :: y == ActField(g) || y == z ==> Passes(ActField(f), y) by {
      SettingPasses(f, ActField(g));
      SettingPasses(f, z);
    }
    hide Passes, LeadsTo;
    TwoTyped(ActField(f), fields, ActField(g), b, z);
  }

  /** The action's block becomes the current object, or is already. */
  ghost predicate ConfCurrent(f: SettingIndex) {
    var t := TokenOf(ActField(f));
    && t.binds == None && ArgsIn(t.args, Block(f))
    && (t.places == [FlowArena.Conf] || (t.places == [] && Block(f) == RSS_DATA))
  }

  lemma SettingPasses(f: SettingIndex, y: Index)
    requires ConfCurrent(f) && !f.ACTION_NEXT?
    requires (y.ActField? && !y.setting.ACTION_NEXT? && Block(f) == Block(y.setting)) || y.Value? || y.STRING? ||
             ((y.Repeated? || y.RssFunc?) && Block(f) == RSS_DATA)
    ensures Passes(ActField(f), y)
  {
    hide TokenOf, Block, ArgsIn;
  }

  lemma SettingTyped(f: SettingIndex)
    requires f.ACTION_NEXT? || f.QUEUE_INDEX? || f.COUNT_ID? || f.COUNT_SHARED?
    ensures WellTypedToken(TABLE, TYPING, ActField(f))
  {
    var number, boolean := Value(UNSIGNED), Value(BOOLEAN);
    ActionLists();
    Single(number);
    Single(boolean);
    hide Group, WellTypedToken;
    match f
    case ACTION_NEXT => OneTyped(ActField(f), NEXT_ACTION, Act(ACTION_END));
    case QUEUE_INDEX => SettingWithValue(f, QUEUE_FIELDS, QUEUE_INDEX, [number], number);
    case COUNT_ID => SettingWithValue(f, COUNT_FIELDS, COUNT_ID, [number], number);
    case COUNT_SHARED => SettingWithValue(f, COUNT_FIELDS, COUNT_ID, [boolean], boolean);
  }

  lemma RssNumberTyped(f: SettingIndex)
    requires f.RSS_LEVEL? || f.RSS_KEY? || f.RSS_KEY_LEN?
    ensures WellTypedToken(TABLE, TYPING, ActField(f))
  {
    var number := Value(UNSIGNED);
    RssLists();
    Single(STRING);
    Single(number);
    hide Group, WellTypedToken;
    match f
    case RSS_LEVEL => SettingWithValue(f, RSS_FIELDS, RSS_LEVEL, [number], number);
    case RSS_KEY => SettingWithValue(f, RSS_FIELDS, RSS_LEVEL, [STRING], STRING);
    case RSS_KEY_LEN => SettingWithValue(f, RSS_FIELDS, RSS_LEVEL, [number], number);
  }

  lemma RssChoiceTyped(f: SettingIndex)
    requires f.RSS_FUNC? || f.RSS_TYPES? || f.RSS_QUEUES?
    ensures WellTypedToken(TABLE, TYPING, ActField(f))
  {
    var types, queue := Repeated(ACTION_RSS_TYPE), Repeated(ACTION_RSS_QUEUE);
    RssLists();
    Single(types);
    Single(queue);
    hide Group, WellTypedToken;
    match f
    case RSS_FUNC => SettingWithValue(f, RSS_FIELDS, RSS_LEVEL, RSS_FUNCS, RssFunc(FUNC_DEFAULT));
    case RSS_TYPES => SettingWithValue(f, RSS_FIELDS, RSS_LEVEL, [types], types);
    case RSS_QUEUES => SettingWithValue(f, RSS_FIELDS, RSS_LEVEL, [queue], queue);
  }

  lemma TokenTyped(x: Index)
    ensures WellTypedToken(TABLE, TYPING, x)
  {
    hide WellTypedToken, TokenOf;
    match x
    case Top(c) =>
      match c {
        case END => LastTyped(x);
        case QUERY => QueryTyped();
        case VALIDATE => CreateTyped(c);
        case CREATE => CreateTyped(c);
        case ZERO => ShortTyped(c);
        case FLOW => ShortTyped(c);
        case FLUSH => ShortTyped(c);
        case ISOLATE => ShortTyped(c);
        case DESTROY => ListingTyped(c);
        case LIST => ListingTyped(c);
        case DESTROY_RULE => ListedTyped(c);
        case LIST_GROUP => ListedTyped(c);
      }
    case Attr(a) => AttrTyped(a);
    case Item(i) =>
      if i.ITEM_VLAN? || i.ITEM_IPV4? || i.ITEM_IPV6? {
        InetItemTyped(i);
      } else {
        ItemTyped(i);
      }
    case Field(f) =>
      if f.ITEM_NEXT? || f.RAW_RELATIVE? || f.RAW_SEARCH? || f.RAW_OFFSET? || f.RAW_LIMIT? || f.RAW_PATTERN? ||
         f.ETH_DST? || f.ETH_SRC? || f.ETH_TYPE? {
        FieldTyped(f);
      } else if f.VLAN_TCI? || f.VLAN_PCP? || f.VLAN_DEI? || f.VLAN_VID? || f.VLAN_INNER_TYPE? {
        VlanFieldTyped(f);
      } else {
        InetFieldTyped(f);
      }
    case ACTIONS => ActionsTyped();
    case Act(a) =>
      if a.ACTION_RSS? {
        RssTyped();
      } else {
        ActionTyped(a);
      }
    case ActField(f) =>
      if f.ACTION_NEXT? || f.QUEUE_INDEX? || f.COUNT_ID? || f.COUNT_SHARED? {
        SettingTyped(f);
      } else if f.RSS_LEVEL? || f.RSS_KEY? || f.RSS_KEY_LEN? {
        RssNumberTyped(f);
      } else {
        RssChoiceTyped(f);
      }
    case Value(_) => LeafTyped(x);
    case STRING => LeafTyped(x);
    case Repeated(_) => LeafTyped(x);
    case Param(_) => LeafTyped(x);
    case RssFunc(_) => LeafTyped(x);
  }

  /** The table is well typed. */
  lemma TableWellTyped()
    ensures WellTyped(TABLE, TYPING)
  {
    forall x: Index ensures WellTypedToken(TABLE, TYPING, x) { TokenTyped(x); }
    hide WellTypedToken, Start;
    StartList();
  }

  lemma StartList()
    ensures Start(TABLE, TYPING, [Top(FLOW)])
  {
    Single(Top(FLOW));
    GroupListed([Top(FLOW)], Top(FLOW));
    GroupLead([Top(FLOW)], Top(FLOW), START);
    hide Group;
    StackNone(TABLE, TYPING, CTX_STACK_SIZE, CTX_STACK_SIZE);
    StackMore(TABLE, TYPING, [], [Top(FLOW)], CTX_STACK_SIZE, CTX_STACK_SIZE);
    assert [] + [[Top(FLOW)]] == [[Top(FLOW)]];
  }

  /** So every line over these tokens keeps both stacks balanced and bounded, leaves no
      argument behind at the end of a command, and keeps the buffer safe. */
  lemma FlowLinesAreSafe(lib: Library, words: seq<Input<Index>>, l: FlowArena.Layout)
    requires forall i :: 0 <= i < |words| ==> Sensible(words[i])
    ensures var c := FeedAll(TABLE, lib, Initial(TABLE), words);
            c.status != Overflowed && |c.state.args| == Needs(TYPING, c.state.next) &&
            (c.state.next == [] ==> c.state.args == []) &&
            FlowArena.Safe(l, FlowArena.Run(l, FlowArena.FRESH, Placings(TABLE, c.taken)).arena)
  {
    TableWellTyped();
    hide WellTyped;
    StacksStayTyped(TABLE, lib, TYPING, words);
    LinesKeepBufferSafe(TABLE, lib, TYPING, words, l);
  }

  /** And every value a create command accepts is stored inside the header, the attributes, the
      action block or the item object that is current when it is accepted, in an item the one
      that the last parameter names; so is every RSS queue, whose argument is made up. */
  lemma FlowValuesLand(lib: Library, words: seq<Input<Index>>, w: Input<Index>, l: FlowArena.Layout)
    requires forall i :: 0 <= i < |words| ==> Sensible(words[i])
    requires Sensible(w) && HEADER <= l.header && l.attr + ATTR <= l.header
    ensures var c := FeedAll(TABLE, lib, Initial(TABLE), words);
            var d := Feed(TABLE, lib, c, w);
            var ts := Placings(TABLE, c.taken);
            var r := FlowArena.Run(l, FlowArena.FRESH, ts);
            ModeAfter(TABLE, c.taken).Some? &&
            var m := ModeAfter(TABLE, c.taken).value;
            && (|d.taken| > |c.taken| && r.ok && m.phase != FlowArena.Idle ==>
                  FlowTargets.LandInside(TABLE, l, r.arena, m, c.state.args, d.taken[|c.taken|]))
            && (r.ok && m.phase == FlowArena.InItem && m.room > 0 ==>
                  ts != [] && ts[|ts| - 1].Parameter? &&
                  FlowTargets.AimedBy(r.arena, m.room, ts[|ts| - 1].param))
            && (|d.taken| > |c.taken| && m.phase == FlowArena.Idle ==>
                  StoresInside(TABLE, c.state.args, d.taken[|c.taken|], m))
            && (|d.taken| > |c.taken| ==> QueueLands(lib, c.state.count, d.taken[|c.taken|], w, m))
  {
    TableWellTyped();
    hide WellTyped, FlowTargets.LandInside, FlowTargets.AimedBy, StoresInside, QueueLands, Feed, FlowArena.Run;
    FlowTargets.ValuesLandInObjects(TABLE, lib, TYPING, words, w, l);
    ArgumentsStayInside(TABLE, lib, TYPING, words, w);
    QueueCounted(TABLE, lib, TYPING, words, w);
    var c := FeedAll(TABLE, lib, Initial(TABLE), words);
    var d := Feed(TABLE, lib, c, w);
    if |d.taken| > |c.taken| {
      QueueInside(lib, c.state, d.taken[|c.taken|], w, ModeAfter(TABLE, c.taken).value);
    }
  }

  /** Where a line may end although something could follow: after any number of groups or, once
      one is named, of rules; never where a command, a rule, an item or an action is due. */
  lemma OpenEnds(c: Context<Index>)
    requires c.state.next != []
    ensures var top := c.state.next[|c.state.next| - 1];
            && (top == NEXT_LIST_ATTR || top == NEXT_DESTROY_ATTR ==> (Finished(TABLE, c) <==> c.last))
            && (top in [COMMANDS, [Top(DESTROY_RULE)], NEXT_VC_ATTR, NEXT_ITEM, NEXT_ACTION, PORT] ==>
                  !Finished(TABLE, c))
  {
    hide TokenOf;
    assert Top(END) in NEXT_LIST_ATTR && Top(END) in NEXT_DESTROY_ATTR;
  }

  /** What is written for a field of an item: a parameter, and then, after `prefix`, a prefix
      length, and after any other parameter a value of the field's own kind. */
  lemma FieldsAreSpelled(
      lib: Library, words: seq<Input<Index>>, w: Input<Index>, w': Input<Index>, w'': Input<Index>, f: FieldIndex)
    requires forall i :: 0 <= i < |words| ==> Sensible(words[i])
    requires Sensible(w) && Sensible(w') && Sensible(w'') && !f.ITEM_NEXT?
    ensures var c := FeedAll(TABLE, lib, Initial(TABLE), words);
            var d := Feed(TABLE, lib, c, w);
            var e := Feed(TABLE, lib, d, w');
            var g := Feed(TABLE, lib, e, w'');
            |d.taken| > |c.taken| && |e.taken| > |d.taken| && |g.taken| > |e.taken| ==>
              var x, y, z := d.taken[|c.taken|], e.taken[|d.taken|], g.taken[|e.taken|];
              x == Field(f) ==> y.Param? && z == if y.param == FlowArena.Prefix then Value(PREFIX) else ValueOf(f)
  {
    TableWellTyped();
    hide WellTyped, Feed;
    FieldSpelled(TABLE, lib, TYPING, words, w, w', w'');
    FieldLists(f);
    var d := Feed(TABLE, lib, FeedAll(TABLE, lib, Initial(TABLE), words), w);
    var e := Feed(TABLE, lib, d, w');
    hide FieldToken;
    if |e.taken| > |d.taken| && e.taken[|d.taken|].Param? {
      ParamFacts(e.taken[|d.taken|].param);
    }
  }

  lemma ParamFacts(p: FlowArena.Param)
    ensures var t := ParamToken(p);
            t.next == [] && !Repeats(t.call) && (t.call == PrefixParameter <==> p == FlowArena.Prefix)
  {
  }

  /** The kind of value a field takes. */
  function ValueOf(f: FieldIndex): Index {
    match f
    case ITEM_NEXT => Top(END)
    case RAW_RELATIVE => Value(BOOLEAN)
    case RAW_SEARCH => Value(BOOLEAN)
    case RAW_OFFSET => Value(INTEGER)
    case RAW_PATTERN => STRING
    case ETH_DST => Value(MAC_ADDR)
    case ETH_SRC => Value(MAC_ADDR)
    case IPV4_SRC => Value(IPV4_ADDR)
    case IPV4_DST => Value(IPV4_ADDR)
    case IPV6_SRC => Value(IPV6_ADDR)
    case IPV6_DST => Value(IPV6_ADDR)
    case _ => Value(UNSIGNED)
  }

  lemma FieldLists(f: FieldIndex)
    requires !f.ITEM_NEXT?
    ensures var t := FieldToken(f);
            |t.next| == 3 && t.next[1] == [ValueOf(f)] && t.call == Name && forall y :: y in t.next[2] ==> y.Param?
  {
  }

  /** The argument made up for a queue lies inside the current object. */
  predicate QueueLands(lib: Library, count: nat, x: Index, w: Input<Index>, m: Mode)
    requires Sensible(w)
  {
    x == Repeated(ACTION_RSS_QUEUE) && w.src[..w.len] != "end" && lib.queueOffset == RSS_QUEUE_OFFSET ==>
      QueueArg(lib, count).offset + QueueArg(lib, count).size <= m.room
  }

  lemma QueueInside(lib: Library, s: State<Index>, x: Index, w: Input<Index>, m: Mode)
    requires Sensible(w) && StoresInside(TABLE, s.args, x, m)
    requires TokenOf(x).call == RssQueue && w.src[..w.len] != "end" ==> s.count < ACTION_RSS_QUEUE_NUM
    ensures QueueLands(lib, s.count, x, w, m)
  {
    if lib.queueOffset == RSS_QUEUE_OFFSET {
      QueuesInsideBlock(lib, s.count, s.count);
    }
  }

  // ------------------------------------------------- fields and their objects

  /** The object size of the record that a token places first. */
  function RecordSize(ts: seq<FlowArena.Token>): nat {
    if ts != [] && ts[0].Record? then ts[0].size else 0
  }

  /** The object size of an item's private data. */
  function ObjectSize(i: ItemIndex): nat {
    RecordSize(ItemToken(i).places)
  }

  /** Which item a field belongs to: the one whose list it is in. */
  predicate Belongs(f: FieldIndex, i: ItemIndex) {
    ItemToken(i).next != [] && Field(f) in ItemToken(i).next[0]
  }

  lemma FieldFitsOwner(f: FieldIndex, k: nat)
    requires k < |FieldToken(f).args|
    ensures var arg := FieldToken(f).args[k]; arg.offset + arg.size <= Owner(f) && FlowMasks.WellFormed(arg)
  {
  }

  lemma OwnerIsItem(f: FieldIndex, i: ItemIndex)
    requires Belongs(f, i) && !f.ITEM_NEXT?
    ensures Owner(f) == ObjectSize(i)
  {
  }

  lemma NextHasNoArgs(f: FieldIndex)
    requires FieldToken(f).args != []
    ensures !f.ITEM_NEXT?
  {
  }

  /** Every argument of every field lies inside the third of the block that its item's
      object gets, and a bit-mask is as long as the field: storing through it touches
      nothing else. */
  lemma FieldsInsideObjects(f: FieldIndex, i: ItemIndex, k: nat)
    requires Belongs(f, i) && k < |FieldToken(f).args|
    ensures var arg := FieldToken(f).args[k];
            arg.offset + arg.size <= ObjectSize(i) && FlowMasks.WellFormed(arg)
  {
    NextHasNoArgs(f);
    hide FieldToken, Belongs, Owner, ObjectSize;
    FieldFitsOwner(f, k);
    OwnerIsItem(f, i);
  }

  /** The size of an action's configuration block, and the settings that belong to it. */
  function BlockSize(a: ActionIndex): nat {
    RecordSize(ActionToken(a).places)
  }

  predicate Sets(f: SettingIndex, a: ActionIndex) {
    ActionToken(a).next != [] && ActField(f) in ActionToken(a).next[0]
  }

  /** The same for actions: every argument of every setting lies inside its action's block. */
  lemma SettingsInsideBlocks(f: SettingIndex, a: ActionIndex, k: nat)
    requires Sets(f, a) && k < |SettingToken(f).args|
    ensures var arg := SettingToken(f).args[k]; arg.offset + arg.size <= BlockSize(a) && FlowMasks.WellFormed(arg)
  {
  }

  /** `offsetof(struct action_rss_data, queue)`. */
  const RSS_QUEUE_OFFSET: nat := 104

  /** The argument made up for the i-th queue lies inside the RSS block for every index the
      callback lets through, behind the configuration and the key, and no two overlap. */
  lemma QueuesInsideBlock(lib: Library, i: nat, j: nat)
    requires lib.queueOffset == RSS_QUEUE_OFFSET
    ensures var arg := QueueArg(lib, i);
            && (i < ACTION_RSS_QUEUE_NUM <==> arg.offset + arg.size <= BlockSize(ACTION_RSS))
            && (forall k :: 0 <= k < |SettingToken(RSS_KEY).args| ==>
                  SettingToken(RSS_KEY).args[k].offset + SettingToken(RSS_KEY).args[k].size <= arg.offset)
            && (i < j ==> arg.offset + arg.size <= QueueArg(lib, j).offset)
  {
  }

  // -------------------------------------------------- arguments and callbacks

  /** Arguments that the callback for a value can store through: an integer field of a size the
      parser knows, a network-order address field of the right size, a string with a length. */
  predicate Suits(v: Index, args: seq<Arg>) {
    match v
    case Value(INTEGER) => |args| == 1 && FlowMasks.IntStorable(args[0])
    case Value(UNSIGNED) => |args| == 1 && FlowMasks.IntStorable(args[0])
    case Value(BOOLEAN) => |args| == 1 && FlowMasks.IntStorable(args[0])
    case Value(MAC_ADDR) => |args| == 1 && AddressField(args[0], 6)
    case Value(IPV4_ADDR) => |args| == 1 && AddressField(args[0], 4)
    case Value(IPV6_ADDR) => |args| == 1 && AddressField(args[0], 16)
    case STRING => |args| == 3 && args[2].mask.None? && args[2].size > 0 && FlowMasks.IntStorable(args[1])
    case _ => false
  }

  lemma MaskBits()
    ensures PopCount([0xE0, 0x00]) > 0 && PopCount([0x10, 0x00]) > 0 && PopCount([0x0F, 0xFF]) > 0
    ensures PopCount([0x00, 0x0F, 0xFF, 0xFF]) > 0
  {
    OnesPositive(0xE0);
    OnesPositive(0x10);
    OnesPositive(0x0F);
    PopCountHas([0xE0, 0x00], 0);
    PopCountHas([0x10, 0x00], 0);
    PopCountHas([0x0F, 0xFF], 0);
    PopCountHas([0x00, 0x0F, 0xFF, 0xFF], 1);
  }

  lemma {:induction false} OnesPositive(b: nat)
    requires b > 0
    ensures Ones(b) > 0
  {
    if b > 1 {
      OnesPositive(b / 2);
    }
  }

  lemma {:induction false} PopCountHas(mask: seq<byte>, i: nat)
    requires i < |mask| && Ones(mask[i]) > 0
    ensures PopCount(mask) > 0
  {
    if i > 0 {
      PopCountHas(mask[1..], i - 1);
    }
  }

  lemma BitsStorable(first: byte, size: nat)
    requires first > 0 && size > 0
    ensures FlowMasks.IntStorable(Bits(first, size))
  {
    OnesPositive(first);
    PopCountHas(Bits(first, size).mask.value, 0);
  }

  /** Every field of every item has arguments its value can be stored through, so none of them
      refuses all words. */
  lemma FieldsSuit(f: FieldIndex)
    requires !f.ITEM_NEXT?
    ensures Suits(ValueOf(f), FieldToken(f).args)
  {
    hide FieldToken, Suits;
    if Owner(f) == 64 {
      RawFieldsSuit(f);
    } else if Owner(f) == 4 {
      VlanFieldsSuit(f);
    } else {
      OtherFieldsSuit(f);
    }
  }

  lemma RawFieldsSuit(f: FieldIndex)
    requires Owner(f) == 64
    ensures Suits(ValueOf(f), FieldToken(f).args)
  {
    BitsStorable(1, 24);
    BitsStorable(2, 24);
    hide PopCount, Bits;
  }

  lemma VlanFieldsSuit(f: FieldIndex)
    requires Owner(f) == 4
    ensures Suits(ValueOf(f), FieldToken(f).args)
  {
    MaskBits();
    hide PopCount;
  }

  lemma OtherFieldsSuit(f: FieldIndex)
    requires Owner(f) == 14 || Owner(f) == 20 || Owner(f) == 40
    ensures Suits(ValueOf(f), FieldToken(f).args)
  {
    MaskBits();
    hide PopCount;
  }

  lemma SettingsSuit(f: SettingIndex)
    requires f.QUEUE_INDEX? || f.COUNT_ID? || f.COUNT_SHARED? || f.RSS_LEVEL? || f.RSS_KEY? || f.RSS_KEY_LEN?
    ensures Suits(if f.COUNT_SHARED? then Value(BOOLEAN) else if f.RSS_KEY? then STRING else Value(UNSIGNED),
                  SettingToken(f).args)
  {
    BitsStorable(1, 8);
    hide PopCount, Bits;
  }

  // ------------------------------------------------------- matching a pattern

  /** The fields that the value of `raw`'s `pattern` is stored in, as they are popped. */
  const RAW_PATTERN_ARGS: FlowStrings.StringArgs :=
    var args := FieldToken(RAW_PATTERN).args; FlowStrings.StringArgs(args[2], args[1], args[0])

  lemma RawPatternFields(n: nat)
    ensures FlowStrings.Inside(RAW_PATTERN_ARGS, 64) && FlowStrings.Disjoint(RAW_PATTERN_ARGS)
    ensures FlowStrings.StringStorable(RAW_PATTERN_ARGS, n) <==> n <= 40
    ensures FlowMasks.Width(RAW_PATTERN_ARGS.length) == 16 && RAW_PATTERN_ARGS.data.size == 40
  {
  }

  /** `pattern is s` is never the same match as `pattern spec s` with `pattern mask t`, whatever
      the mask: `is` asks for all bits of the length, which no mask of at most 40 bytes sets. */
  lemma RawPatternSpellings(d: FlowMasks.ItemData, at: nat, s: seq<byte>, t: seq<byte>)
    requires |d.spec| == |d.mask| == 64 && |s| <= 40 && |t| <= 40
    ensures var a := RAW_PATTERN_ARGS;
            FlowStrings.ApplyMask(FlowStrings.ApplySpec(d, at, s, a), at, t, a) != FlowStrings.ApplyIs(d, at, s, a)
  {
    RawPatternFields(|s|);
    RawPatternFields(|t|);
    FlowFields.Pow2Add(8, 8);
    FlowMasks.ConvMeaning(0);
    FlowStrings.NeverEquivalent(d, at, s, t, RAW_PATTERN_ARGS);
  }
}
