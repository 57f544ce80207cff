/** The output buffer of the flow parser (app/test-pmd/cmdline_flow.c: `parse_vc`,
    `parse_vc_spec`, `parse_vc_conf`): a two-ended arena.  Item and action records grow up
    from behind the header, their spec/last/mask and configuration blocks grow down from
    the end of the buffer. */
module FlowArena {
  import opened Basics
  import opened Arith

  /** `RTE_ALIGN_CEIL` and `RTE_ALIGN_FLOOR` to `sizeof(double)`. */
  function Ceil(a: int): int {
    (a + 7) / 8 * 8
  }

  function Floor(a: int): int {
    a / 8 * 8
  }

  /** Where the caller's buffer is, the sizes of the three structures put in it, and where in
      the header the rule's attributes are. */
  datatype Layout = Layout(base: nat, size: nat, header: Size, attr: nat, item: Size, action: Size)
  type Size = n: nat | 0 < n witness 1

  /** The object size in a token's private data, tripled without wrap-around in 32 bits. */
  type ObjectSize = n: nat | 3 * n < 0x1_0000_0000

  datatype Param = Is | Spec | Last | Mask | Prefix

  /** A token whose name has matched, as its callback sees it.  `Record` is a token with
      private data, an item before `ACTIONS` and an action after it. */
  datatype Token =
    | Command
    | Attribute
    | Pattern
    | Actions
    | Record(kind: nat, size: ObjectSize)
    | Parameter(param: Param)
    | Conf

  /** Records hold addresses; 0 is NULL. */
  datatype Item = Item(kind: nat, spec: int, last: int, mask: int)
  datatype Action = Action(kind: nat, conf: int)
  datatype Region = Region(at: int, len: nat)

  /** The buffer and the parsing context.  `blocks` is history: the data block of every
      record, items first, in the order they were made. */
  datatype Arena = Arena(
    command: bool,
    pattern: int,
    items: seq<Item>,
    actions: int,
    acts: seq<Action>,
    data: int,
    target: int,
    targetMask: int,
    objdata: nat,
    blocks: seq<Region>)

  // -------------------------------------------------------------- specification

  datatype Outcome = Outcome(arena: Arena, ok: bool)

  function ItemAt(l: Layout, a: Arena, i: nat): int {
    a.pattern + i * l.item
  }

  function ActionAt(l: Layout, a: Arena, j: nat): int {
    a.actions + j * l.action
  }

  /** The context at the start of a `parse_vc` call on a known command: it aims at the rule's
      attributes. */
  function Reset(l: Layout, a: Arena): Arena {
    a.(objdata := 0, target := l.base + l.attr, targetMask := 0)
  }

  /** One callback. */
  function Step(l: Layout, a: Arena, t: Token): Outcome {
    match t
    case Parameter(param) => if a.items == [] then Outcome(a, false) else Outcome(Select(a, param), true)
    case Conf => Outcome(a.(target := a.data, targetMask := 0), true)
    case Command => Begin(l, a)
    case Attribute => Outcome(if a.command then Reset(l, a) else a, a.command)
    case Pattern => if a.command then SetPattern(l, Reset(l, a)) else Outcome(a, false)
    case Actions => if a.command then SetActions(l, Reset(l, a)) else Outcome(a, false)
    case Record(kind, size) =>
      if !a.command then Outcome(a, false)
      else if a.actions == 0 then AddItem(l, Reset(l, a), kind, size)
      else AddAction(l, Reset(l, a), kind, size)
  }

  /** `validate` and `create` start a command and are refused inside one. */
  function Begin(l: Layout, a: Arena): Outcome {
    if a.command then Outcome(Reset(l, a), false)
    else if l.header > l.size then Outcome(a, false)
    else Outcome(Reset(l, a).(command := true, target := l.base, data := l.base + l.size), true)
  }

  function SetPattern(l: Layout, b: Arena): Outcome {
    var p := Ceil(l.base + l.header);
    Outcome(b.(pattern := p, target := p), true)
  }

  function SetActions(l: Layout, b: Arena): Outcome {
    var p := Ceil(ItemAt(l, b, |b.items|));
    Outcome(b.(actions := p, target := p), true)
  }

  function Third(a: Arena): nat {
    a.objdata / 3
  }

  /** Aim the context and the last item's pointer at one third of its block. */
  function Select(a: Arena, param: Param): Arena
    requires a.items != []
  {
    var n := |a.items| - 1;
    var spec, last, mask := a.data, a.data + Third(a), a.data + 2 * Third(a);
    match param
    case Is => a.(target := spec, targetMask := mask, items := a.items[n := a.items[n].(spec := spec, mask := mask)])
    case Spec => a.(target := spec, targetMask := 0, items := a.items[n := a.items[n].(spec := spec)])
    case Last => a.(target := last, targetMask := 0, items := a.items[n := a.items[n].(last := last)])
    case Mask => a.(target := mask, targetMask := 0, items := a.items[n := a.items[n].(mask := mask)])
    case Prefix => a.(target := mask, targetMask := 0, items := a.items[n := a.items[n].(mask := mask)])
  }

  function AddItem(l: Layout, b: Arena, kind: nat, size: ObjectSize): Outcome {
    var record := ItemAt(l, b, |b.items|);
    var data := Floor(b.data - 3 * size);
    if record + l.item > data then Outcome(b, false)
    else
      Outcome(b.(items := b.items + [Item(kind, 0, 0, 0)], target := record, data := data, objdata := 3 * size,
                 blocks := b.blocks + [Region(data, 3 * size)]), true)
  }

  function AddAction(l: Layout, b: Arena, kind: nat, size: ObjectSize): Outcome {
    var record := ActionAt(l, b, |b.acts|);
    var data := Floor(b.data - size);
    if record + l.action > data then Outcome(b, false)
    else
      Outcome(b.(acts := b.acts + [Action(kind, if size == 0 then 0 else data)],
                 target := record, data := data, objdata := size,
                 blocks := b.blocks + [Region(data, size)]), true)
  }

  const FRESH: Arena := Arena(false, 0, [], 0, [], 0, 0, 0, 0, [])

  /** A whole command; the first refused token ends it. */
  function Run(l: Layout, a: Arena, tokens: seq<Token>): Outcome
    decreases |tokens|
  {
    if tokens == [] then Outcome(a, true)
    else
      var r := Step(l, a, tokens[0]);
      if r.ok then Run(l, r.arena, tokens[1..]) else r
  }

  // ------------------------------------------------------------ token order

  /** Where in a create or validate command the parser is. */
  datatype Phase = Idle | Attributes | FirstItem | InItem | InActions

  function Follow(p: Phase, t: Token): Option<Phase> {
    match t
    case Command => if p == Idle then Some(Attributes) else None
    case Attribute => if p == Attributes then Some(Attributes) else None
    case Pattern => if p == Attributes then Some(FirstItem) else None
    case Record(_, _) =>
      if p == FirstItem || p == InItem then Some(InItem) else if p == InActions then Some(InActions) else None
    case Parameter(_) => if p == InItem then Some(InItem) else None
    case Actions => if p == InItem then Some(InActions) else None
    case Conf => if p == InActions then Some(InActions) else None
  }

  predicate Ordered(p: Phase, tokens: seq<Token>)
    decreases |tokens|
  {
    tokens == [] || (Follow(p, tokens[0]).Some? && Ordered(Follow(p, tokens[0]).value, tokens[1..]))
  }

  /** The phase a sequence of tokens ends in, if they come in order. */
  function PhaseAfter(p: Phase, tokens: seq<Token>): Option<Phase>
    decreases |tokens|
  {
    if tokens == [] then Some(p)
    else
      match Follow(p, tokens[0])
      case None => None
      case Some(q) => PhaseAfter(q, tokens[1..])
  }

  lemma {:induction false} PhaseAfterOrdered(p: Phase, tokens: seq<Token>)
    ensures PhaseAfter(p, tokens).Some? <==> Ordered(p, tokens)
    decreases |tokens|
  {
    if tokens != [] && Follow(p, tokens[0]).Some? {
      PhaseAfterOrdered(Follow(p, tokens[0]).value, tokens[1..]);
    }
  }

  lemma {:induction false} PhaseAfterConcat(p: Phase, a: seq<Token>, b: seq<Token>)
    ensures PhaseAfter(p, a + b) == match PhaseAfter(p, a) case None => None case Some(q) => PhaseAfter(q, b)
    decreases |a|
  {
    if a == [] {
      assert a + b == b;
    } else {
      assert (a + b)[1..] == a[1..] + b;
      match Follow(p, a[0])
      case None =>
      case Some(q) => PhaseAfterConcat(q, a[1..], b);
    }
  }

  // --------------------------------------------------------------- safety

  predicate Disjoint(r: Region, s: Region) {
    r.at + r.len <= s.at || s.at + s.len <= r.at
  }

  predicate Inside(r: Region, l: Layout) {
    l.base + l.header <= r.at && r.at + r.len <= l.base + l.size
  }

  /** Everything the command placed in the buffer: item records, action records, blocks. */
  function Placed(l: Layout, a: Arena): seq<Region> {
    seq(|a.items|, i requires 0 <= i < |a.items| => Region(ItemAt(l, a, i), l.item)) +
    seq(|a.acts|, j requires 0 <= j < |a.acts| => Region(ActionAt(l, a, j), l.action)) +
    a.blocks
  }

  ghost predicate Separate(regions: seq<Region>) {
    forall i, j :: 0 <= i < j < |regions| ==> Disjoint(regions[i], regions[j])
  }

  ghost predicate AllInside(regions: seq<Region>, l: Layout) {
    forall i :: 0 <= i < |regions| ==> Inside(regions[i], l)
  }

  /** An item's pointers are NULL or the thirds of its own block. */
  predicate OwnThirds(item: Item, block: Region) {
    block.len % 3 == 0 &&
    item.spec in {0, block.at} &&
    item.last in {0, block.at + block.len / 3} &&
    item.mask in {0, block.at + 2 * (block.len / 3)}
  }

  /** An action's configuration is NULL or its own block. */
  predicate OwnBlock(action: Action, block: Region) {
    action.conf == if block.len == 0 then 0 else block.at
  }

  ghost predicate OwnPointers(a: Arena) {
    |a.blocks| == |a.items| + |a.acts| &&
    (forall i :: 0 <= i < |a.items| ==> OwnThirds(a.items[i], a.blocks[i])) &&
    forall j :: 0 <= j < |a.acts| ==> OwnBlock(a.acts[j], a.blocks[|a.items| + j])
  }

  ghost predicate Safe(l: Layout, a: Arena) {
    Separate(Placed(l, a)) && AllInside(Placed(l, a), l) && OwnPointers(a)
  }

  /** Blocks lie one below the other, from the end of the buffer down to `data`. */
  ghost predicate Descending(l: Layout, blocks: seq<Region>, data: int) {
    (forall k :: 0 <= k < |blocks| ==> data <= blocks[k].at && blocks[k].at + blocks[k].len <= l.base + l.size) &&
    forall k, m :: 0 <= k < m < |blocks| ==> blocks[m].at + blocks[m].len <= blocks[k].at
  }

  /** What every callback keeps. */
  ghost predicate Shape(l: Layout, a: Arena) {
    && OwnPointers(a)
    && (a.command ==> Descending(l, a.blocks, a.data) && a.data <= l.base + l.size)
    && (a.blocks != [] ==> a.command && a.data == a.blocks[|a.blocks| - 1].at)
    && (a.items != [] ==> a.pattern == Ceil(l.base + l.header) && ItemAt(l, a, |a.items|) <= a.data)
    && (a.acts != [] ==>
          a.items != [] && a.actions == Ceil(ItemAt(l, a, |a.items|)) && ActionAt(l, a, |a.acts|) <= a.data)
  }

  /** What a phase adds. */
  ghost predicate At(l: Layout, a: Arena, p: Phase) {
    match p
    case Idle => a == FRESH
    case Attributes => a.command && a.pattern == 0 && a.actions == 0 && a.blocks == []
    case FirstItem => a.command && a.pattern == Ceil(l.base + l.header) && a.actions == 0 && a.blocks == []
    case InItem =>
      a.command && a.items != [] && a.actions == 0 && a.acts == [] &&
      a.blocks != [] && a.objdata == a.blocks[|a.blocks| - 1].len
    case InActions => a.command && a.items != [] && a.actions == Ceil(ItemAt(l, a, |a.items|)) && a.actions > 0
  }

  ghost predicate Good(l: Layout, a: Arena, p: Phase) {
    Shape(l, a) && At(l, a, p)
  }

  // ---------------------------------------------------------------- proofs

  lemma Rounding(a: int)
    ensures a <= Ceil(a) < a + 8 && Ceil(a) % 8 == 0
    ensures a - 8 < Floor(a) <= a && Floor(a) % 8 == 0
  {
  }

  lemma RecordsInOrder(l: Layout, a: Arena, i: nat, j: nat)
    requires i < j
    ensures ItemAt(l, a, i) + l.item <= ItemAt(l, a, j)
    ensures ActionAt(l, a, i) + l.action <= ActionAt(l, a, j)
  {
    MulMonotone(i + 1, j, l.item);
    MulMonotone(i + 1, j, l.action);
  }

  /** The invariant gives safety. */
  lemma ShapeIsSafe(l: Layout, a: Arena)
    requires Shape(l, a)
    ensures Safe(l, a)
  {
    hide Ceil, ItemAt, ActionAt, Floor, OwnPointers;
    var placed := Placed(l, a);
    forall i | 0 <= i < |placed|
      ensures Inside(placed[i], l)
    {
      PlacedInside(l, a, i);
    }
    forall i, j | 0 <= i < j < |placed|
      ensures Disjoint(placed[i], placed[j])
    {
      PlacedApart(l, a, i, j);
    }
  }

  /** Bounds of the item and action records. */
  lemma ItemBounds(l: Layout, a: Arena, i: nat)
    requires Shape(l, a) && i < |a.items|
    ensures l.base + l.header <= ItemAt(l, a, i)
    ensures ItemAt(l, a, i) + l.item <= ItemAt(l, a, |a.items|) <= a.data <= l.base + l.size
  {
    RecordsInOrder(l, a, i, |a.items|);
    Rounding(l.base + l.header);
    MulMonotone(0, i, l.item);
    assert a.blocks != [];
  }

  lemma ActionBounds(l: Layout, a: Arena, j: nat)
    requires Shape(l, a) && j < |a.acts|
    ensures l.base + l.header <= ItemAt(l, a, |a.items|) <= ActionAt(l, a, j)
    ensures ActionAt(l, a, j) + l.action <= ActionAt(l, a, |a.acts|) <= a.data <= l.base + l.size
  {
    RecordsInOrder(l, a, j, |a.acts|);
    Rounding(ItemAt(l, a, |a.items|));
    MulMonotone(0, j, l.action);
    ItemBounds(l, a, 0);
  }

  lemma PlacedInside(l: Layout, a: Arena, i: nat)
    requires Shape(l, a) && i < |Placed(l, a)|
    ensures Inside(Placed(l, a)[i], l)
  {
    hide Ceil, ItemAt, ActionAt;
    var n, m := |a.items|, |a.acts|;
    if i < n {
      ItemBounds(l, a, i);
    } else if i < n + m {
      ActionBounds(l, a, i - n);
    } else {
      ItemBounds(l, a, 0);
      assert Placed(l, a)[i] == a.blocks[i - n - m];
    }
  }

  lemma PlacedApart(l: Layout, a: Arena, i: nat, j: nat)
    requires Shape(l, a) && i < j < |Placed(l, a)|
    ensures Disjoint(Placed(l, a)[i], Placed(l, a)[j])
  {
    hide Ceil, ItemAt, ActionAt;
    var n, m := |a.items|, |a.acts|;
    if i < n {
      ItemBounds(l, a, i);
      if j < n {
        RecordsInOrder(l, a, i, j);
      } else if j < n + m {
        ActionBounds(l, a, j - n);
      } else {
        assert Placed(l, a)[j] == a.blocks[j - n - m];
      }
    } else if i < n + m {
      ActionBounds(l, a, i - n);
      if j < n + m {
        RecordsInOrder(l, a, i - n, j - n);
      } else {
        assert Placed(l, a)[j] == a.blocks[j - n - m];
      }
    } else {
      assert Placed(l, a)[i] == a.blocks[i - n - m] && Placed(l, a)[j] == a.blocks[j - n - m];
    }
  }

  /** Adding a block below the others. */
  lemma DescendingStep(l: Layout, blocks: seq<Region>, data: int, lower: int, len: nat)
    requires Descending(l, blocks, data) && data <= l.base + l.size && lower + len <= data
    ensures Descending(l, blocks + [Region(lower, len)], lower)
  {
  }

  /** A new item keeps every pointer's target. */
  lemma NewItemOwnsBlock(a: Arena, kind: nat, data: int, size: nat)
    requires OwnPointers(a) && a.acts == []
    ensures OwnPointers(a.(items := a.items + [Item(kind, 0, 0, 0)], blocks := a.blocks + [Region(data, 3 * size)]))
  {
  }

  lemma NewActionOwnsBlock(a: Arena, kind: nat, data: int, size: nat)
    requires OwnPointers(a)
    ensures OwnPointers(a.(acts := a.acts + [Action(kind, if size == 0 then 0 else data)],
                           blocks := a.blocks + [Region(data, size)]))
  {
  }

  lemma SamePointers(a: Arena, b: Arena)
    requires a.items == b.items && a.acts == b.acts && a.blocks == b.blocks
    ensures OwnPointers(a) == OwnPointers(b)
  {
  }

  /** The state an accepted item leaves. */
  lemma ItemPlaced(l: Layout, a: Arena, b: Arena, kind: nat, size: ObjectSize, data: int)
    requires Shape(l, a) && a.command && a.actions == 0 && a.acts == [] && a.pattern == Ceil(l.base + l.header)
    requires ItemAt(l, a, |a.items| + 1) <= data && data + 3 * size <= a.data
    requires b == a.(items := a.items + [Item(kind, 0, 0, 0)], blocks := a.blocks + [Region(data, 3 * size)],
                     data := data, objdata := 3 * size, target := b.target, targetMask := b.targetMask)
    ensures Good(l, b, InItem)
  {
    hide Ceil, Descending, OwnPointers, ItemAt, ActionAt;
    DescendingStep(l, a.blocks, a.data, data, 3 * size);
    SamePlaces(l, a, b, |b.items|);
    NewItemOwnsBlock(a, kind, data, size);
    SamePointers(b, a.(items := b.items, blocks := b.blocks));
  }

  /** A refused record changes only the context. */
  lemma RefusedKeepsShape(l: Layout, a: Arena, b: Arena)
    requires Shape(l, a)
    requires b == a.(objdata := b.objdata, target := b.target, targetMask := b.targetMask)
    ensures Shape(l, b)
  {
    hide Ceil, Descending, OwnPointers, ItemAt, ActionAt;
    SamePlaces(l, a, b, |a.items|);
    SamePlaces(l, a, b, |a.acts|);
    SamePointers(a, b);
  }

  lemma AddItemGood(l: Layout, a: Arena, kind: nat, size: ObjectSize)
    requires Shape(l, a) && a.command && a.actions == 0 && a.acts == [] && a.pattern == Ceil(l.base + l.header)
    ensures var r := Step(l, a, Record(kind, size)); if r.ok then Good(l, r.arena, InItem) else Shape(l, r.arena)
  {
    hide Ceil, Floor, Shape, At, Good, ItemAt;
    var r := Step(l, a, Record(kind, size));
    if r.ok {
      Rounding(a.data - 3 * size);
      RecordEnd(l, a, |a.items|);
      SamePlaces(l, Reset(l, a), a, |a.items|);
      ItemPlaced(l, a, r.arena, kind, size, r.arena.data);
    } else {
      RefusedKeepsShape(l, a, r.arena);
    }
  }

  lemma SamePlaces(l: Layout, a: Arena, b: Arena, n: nat)
    requires a.pattern == b.pattern && a.actions == b.actions
    ensures ItemAt(l, a, n) == ItemAt(l, b, n) && ActionAt(l, a, n) == ActionAt(l, b, n)
  {
  }

  lemma RecordEnd(l: Layout, a: Arena, n: nat)
    ensures ItemAt(l, a, n + 1) == ItemAt(l, a, n) + l.item
    ensures ActionAt(l, a, n + 1) == ActionAt(l, a, n) + l.action
  {
  }

  lemma AddActionGood(l: Layout, a: Arena, kind: nat, size: ObjectSize)
    requires Good(l, a, InActions)
    ensures var r := Step(l, a, Record(kind, size)); if r.ok then Good(l, r.arena, InActions) else Shape(l, r.arena)
  {
    hide Ceil, Floor, Descending, OwnPointers;
    var data := Floor(a.data - size);
    Rounding(a.data - size);
    var r := Step(l, a, Record(kind, size));
    if r.ok {
      DescendingStep(l, a.blocks, a.data, data, size);
      RecordEnd(l, a, |a.acts|);
      Rounding(ItemAt(l, a, |a.items|));
      MulMonotone(0, |a.acts|, l.action);
      NewActionOwnsBlock(a, kind, data, size);
      SamePointers(r.arena, a.(acts := r.arena.acts, blocks := r.arena.blocks));
    } else {
      SamePointers(r.arena, a);
    }
  }

  lemma SelectGood(l: Layout, a: Arena, param: Param)
    requires Good(l, a, InItem)
    ensures Good(l, Select(a, param), InItem)
  {
    hide Ceil, Descending;
    var b := Select(a, param);
    assert |b.items| == |a.items| && b.blocks == a.blocks && b.acts == a.acts;
    assert ItemAt(l, b, |b.items|) == ItemAt(l, a, |a.items|);
  }

  /** The tokens that place nothing. */
  lemma QuietStepGood(l: Layout, a: Arena, p: Phase, t: Token)
    requires Good(l, a, p) && Follow(p, t).Some? && (t.Command? || t.Attribute? || t.Pattern? || t.Conf?)
    ensures var r := Step(l, a, t); if r.ok then Good(l, r.arena, Follow(p, t).value) else Shape(l, r.arena)
  {
    hide Ceil, Descending, Select;
    assert t.Command? ==> a.blocks == [] && Descending(l, [], l.base + l.size) by { NothingPlaced(l); }
  }

  lemma NothingPlaced(l: Layout)
    ensures Descending(l, [], l.base + l.size)
  {
  }

  lemma SetActionsGood(l: Layout, a: Arena)
    requires Good(l, a, InItem)
    ensures Step(l, a, Actions).ok && Good(l, Step(l, a, Actions).arena, InActions)
  {
    hide Ceil, Descending;
    ItemBounds(l, a, 0);
    Rounding(ItemAt(l, a, |a.items|));
  }

  lemma StepGood(l: Layout, a: Arena, p: Phase, t: Token)
    requires Good(l, a, p) && Follow(p, t).Some?
    ensures var r := Step(l, a, t); if r.ok then Good(l, r.arena, Follow(p, t).value) else Shape(l, r.arena)
  {
    hide Shape, At, Select, Begin, SetPattern, SetActions, AddItem, AddAction;
    match t
    case Record(kind, size) =>
      if p == InActions {
        AddActionGood(l, a, kind, size);
      } else {
        ItemsExpected(l, a, p);
        AddItemGood(l, a, kind, size);
      }
    case Parameter(param) =>
      ItemsExpected(l, a, p);
      SelectGood(l, a, param);
    case Actions =>
      SetActionsGood(l, a);
    case Pattern =>
      QuietStepGood(l, a, p, t);
    case Command =>
      QuietStepGood(l, a, p, t);
    case Attribute =>
      QuietStepGood(l, a, p, t);
    case Conf =>
      QuietStepGood(l, a, p, t);
  }

  lemma ItemsExpected(l: Layout, a: Arena, p: Phase)
    requires Good(l, a, p) && (p == FirstItem || p == InItem)
    ensures a.command && a.actions == 0 && a.acts == [] && a.pattern == Ceil(l.base + l.header)
    ensures p == InItem ==> a.items != []
  {
  }

  lemma {:induction false} RunGood(l: Layout, a: Arena, p: Phase, tokens: seq<Token>)
    requires Good(l, a, p) && Ordered(p, tokens)
    ensures Shape(l, Run(l, a, tokens).arena)
    decreases |tokens|
  {
    if tokens != [] {
      hide Good, Shape, Step;
      StepGood(l, a, p, tokens[0]);
      var r := Step(l, a, tokens[0]);
      if r.ok {
        RunGood(l, r.arena, Follow(p, tokens[0]).value, tokens[1..]);
      }
    }
  }

  /** Arena safety: after any command, accepted or refused, in a buffer of any size,
      every item record, action record and data block lies inside the buffer behind its
      header, no two overlap, and every pointer aims at its own record's block. */
  lemma CommandIsSafe(l: Layout, tokens: seq<Token>)
    requires Ordered(Idle, tokens)
    ensures Safe(l, Run(l, FRESH, tokens).arena)
  {
    RunGood(l, FRESH, Idle, tokens);
    ShapeIsSafe(l, Run(l, FRESH, tokens).arena);
  }

  // ------------------------------------------------------------ no space wasted

  /** Blocks lie as high as their alignment allows, each below the one before. */
  ghost predicate Tight(l: Layout, a: Arena) {
    && (a.command && a.blocks == [] ==> a.data == l.base + l.size)
    && (a.blocks != [] ==> a.data == a.blocks[|a.blocks| - 1].at)
    && (forall k :: 0 <= k < |a.blocks| ==> Snug(a.blocks[k], Above(l, a.blocks, k)))
  }

  /** What lies above a block: the one before it, or the end of the buffer. */
  function Above(l: Layout, blocks: seq<Region>, k: nat): int
    requires k < |blocks|
  {
    if k == 0 then l.base + l.size else blocks[k - 1].at
  }

  predicate Snug(r: Region, top: int) {
    r.at % 8 == 0 && r.at + r.len <= top < r.at + r.len + 8
  }

  lemma RecordTight(l: Layout, a: Arena, kind: nat, size: ObjectSize)
    requires Tight(l, a) && (a.blocks != [] ==> a.command)
    ensures var b := Step(l, a, Record(kind, size)).arena; Tight(l, b) && (b.blocks != [] ==> b.command)
  {
    hide Tight, Ceil, ItemAt, ActionAt;
    var b := Step(l, a, Record(kind, size)).arena;
    if a.command && b.blocks != a.blocks {
      var len := if a.actions == 0 then 3 * size else size;
      BlockSnug(a.data, len);
      hide Floor, Snug;
      assert b.blocks == a.blocks + [Region(Floor(a.data - len), len)];
      TightMore(l, a, b);
    } else {
      KeepsData(l, a, b);
      TightSame(l, a, b);
    }
  }

  lemma BlockSnug(data: int, len: nat)
    ensures Snug(Region(Floor(data - len), len), data)
  {
    Rounding(data - len);
    hide Floor;
  }

  lemma KeepsData(l: Layout, a: Arena, b: Arena)
    requires Tight(l, a) && b.blocks == a.blocks && (a.command ==> b.command && b.data == a.data)
    requires b.command ==> a.command
    requires a.blocks != [] ==> a.command
    ensures b.blocks != [] ==> b.data == a.data
    ensures b.command && b.blocks == [] ==> b.data == l.base + l.size
  {
  }

  lemma StepTight(l: Layout, a: Arena, t: Token)
    requires Tight(l, a) && (a.blocks != [] ==> a.command)
    ensures var b := Step(l, a, t).arena; Tight(l, b) && (b.blocks != [] ==> b.command)
  {
    match t
    case Record(kind, size) => RecordTight(l, a, kind, size);
    case _ =>
      hide Floor, Ceil;
      var b := Step(l, a, t).arena;
      assert b.blocks == a.blocks && (a.command ==> b.command && b.data == a.data);
      assert !a.command && b.command ==> b.data == l.base + l.size;
      TightSame(l, a, b);
  }

  lemma TightMore(l: Layout, a: Arena, b: Arena)
    requires Tight(l, a) && a.command && |b.blocks| == |a.blocks| + 1 && b.blocks[..|a.blocks|] == a.blocks
    requires b.data == b.blocks[|a.blocks|].at && Snug(b.blocks[|a.blocks|], a.data)
    ensures Tight(l, b)
  {
    hide Snug;
    forall k | 0 <= k < |b.blocks|
      ensures Snug(b.blocks[k], Above(l, b.blocks, k))
    {
      if k < |a.blocks| {
        assert b.blocks[k] == a.blocks[k] && Above(l, b.blocks, k) == Above(l, a.blocks, k);
      }
    }
  }

  lemma TightSame(l: Layout, a: Arena, b: Arena)
    requires Tight(l, a) && b.blocks == a.blocks && (b.blocks != [] ==> b.data == a.data)
    requires b.command && b.blocks == [] ==> b.data == l.base + l.size
    ensures Tight(l, b)
  {
  }

  lemma {:induction false} RunTight(l: Layout, a: Arena, tokens: seq<Token>)
    requires Tight(l, a) && (a.blocks != [] ==> a.command)
    ensures Tight(l, Run(l, a, tokens).arena)
    decreases |tokens|
  {
    if tokens != [] {
      hide Tight, Step;
      StepTight(l, a, tokens[0]);
      RunTight(l, Step(l, a, tokens[0]).arena, tokens[1..]);
    }
  }

  /** No space is wasted: items start at the first aligned address behind the header, actions at
      the first one behind the items, and every block ends less than 8 bytes below the one
      before it, the first one below the end of the buffer. */
  lemma RecordsPacked(l: Layout, tokens: seq<Token>)
    requires Ordered(Idle, tokens)
    ensures var a := Run(l, FRESH, tokens).arena;
            && Tight(l, a)
            && (a.items != [] ==> a.pattern % 8 == 0 && l.base + l.header <= a.pattern < l.base + l.header + 8)
            && (a.acts != [] ==>
                  a.actions % 8 == 0 && ItemAt(l, a, |a.items|) <= a.actions < ItemAt(l, a, |a.items|) + 8)
  {
    FreshGood(l);
    hide Run, Shape, Tight, ItemAt;
    RunGood(l, FRESH, Idle, tokens);
    RunTight(l, FRESH, tokens);
    ShapePacked(l, Run(l, FRESH, tokens).arena);
  }

  lemma FreshGood(l: Layout)
    ensures Good(l, FRESH, Idle) && Tight(l, FRESH)
  {
  }

  lemma ShapePacked(l: Layout, a: Arena)
    requires Shape(l, a)
    ensures a.items != [] ==> a.pattern % 8 == 0 && l.base + l.header <= a.pattern < l.base + l.header + 8
    ensures a.acts != [] ==>
              a.actions % 8 == 0 && ItemAt(l, a, |a.items|) <= a.actions < ItemAt(l, a, |a.items|) + 8
  {
    Rounding(l.base + l.header);
    Rounding(ItemAt(l, a, |a.items|));
    hide Ceil, ItemAt, ActionAt, Descending, OwnPointers;
  }

  // ------------------------------------------------------- what was asked for

  /** An item as written: its kind, its object size, and which objects it was given. */
  datatype WantedItem = WantedItem(kind: nat, size: nat, spec: bool, last: bool, mask: bool)
  datatype WantedAction = WantedAction(kind: nat, size: nat)
  datatype Wanted = Wanted(items: seq<WantedItem>, acts: seq<WantedAction>)

  function Give(w: WantedItem, param: Param): WantedItem {
    match param
    case Is => w.(spec := true, mask := true)
    case Spec => w.(spec := true)
    case Last => w.(last := true)
    case Mask => w.(mask := true)
    case Prefix => w.(mask := true)
  }

  /** Reading a command without any buffer. */
  function Read(w: Wanted, p: Phase, t: Token): Wanted {
    match t
    case Record(kind, size) =>
      if p == InActions then w.(acts := w.acts + [WantedAction(kind, size)])
      else w.(items := w.items + [WantedItem(kind, size, false, false, false)])
    case Parameter(param) =>
      if w.items == [] then w
      else w.(items := w.items[|w.items| - 1 := Give(w.items[|w.items| - 1], param)])
    case _ => w
  }

  function ReadAll(w: Wanted, p: Phase, tokens: seq<Token>): Wanted
    requires Ordered(p, tokens)
    decreases |tokens|
  {
    if tokens == [] then w else ReadAll(Read(w, p, tokens[0]), Follow(p, tokens[0]).value, tokens[1..])
  }

  predicate ItemMatches(w: WantedItem, item: Item, block: Region) {
    item.kind == w.kind && block.len == 3 * w.size &&
    item.spec == (if w.spec then block.at else 0) &&
    item.last == (if w.last then block.at + w.size else 0) &&
    item.mask == if w.mask then block.at + 2 * w.size else 0
  }

  predicate ActionMatches(w: WantedAction, action: Action, block: Region) {
    action.kind == w.kind && block.len == w.size && action.conf == if w.size == 0 then 0 else block.at
  }

  ghost predicate Matches(w: Wanted, a: Arena) {
    |w.items| == |a.items| && |w.acts| == |a.acts| && |a.blocks| == |a.items| + |a.acts| &&
    (forall i :: 0 <= i < |a.items| ==> ItemMatches(w.items[i], a.items[i], a.blocks[i])) &&
    forall j :: 0 <= j < |a.acts| ==> ActionMatches(w.acts[j], a.acts[j], a.blocks[|a.items| + j])
  }

  lemma SelectMatches(l: Layout, a: Arena, w: Wanted, param: Param)
    requires Good(l, a, InItem) && Matches(w, a)
    ensures Matches(Read(w, InItem, Parameter(param)), Select(a, param))
  {
    hide Ceil, Descending, OwnPointers;
  }

  lemma StepMatches(l: Layout, a: Arena, p: Phase, w: Wanted, t: Token)
    requires Good(l, a, p) && Follow(p, t).Some? && Matches(w, a) && Step(l, a, t).ok
    ensures Matches(Read(w, p, t), Step(l, a, t).arena)
  {
    hide Ceil, Floor, Shape;
    match t
    case Parameter(param) =>
      hide Matches, Select;
      SelectMatches(l, a, w, param);
    case Record(_, _) =>
    case _ =>
  }

  lemma {:induction false} RunMatches(l: Layout, a: Arena, p: Phase, w: Wanted, tokens: seq<Token>)
    requires Good(l, a, p) && Ordered(p, tokens) && Matches(w, a) && Run(l, a, tokens).ok
    ensures Matches(ReadAll(w, p, tokens), Run(l, a, tokens).arena)
    decreases |tokens|
  {
    if tokens != [] {
      hide Good, Matches, Step, Read;
      StepGood(l, a, p, tokens[0]);
      StepMatches(l, a, p, w, tokens[0]);
      RunMatches(l, Step(l, a, tokens[0]).arena, Follow(p, tokens[0]).value, Read(w, p, tokens[0]), tokens[1..]);
    }
  }

  /** An accepted command leaves exactly the items and actions it names, in order, each
      with a block of the size its kind asks for and pointers to exactly the objects it
      was given. */
  lemma CommandIsExact(l: Layout, tokens: seq<Token>)
    requires Ordered(Idle, tokens) && Run(l, FRESH, tokens).ok
    ensures Matches(ReadAll(Wanted([], []), Idle, tokens), Run(l, FRESH, tokens).arena)
  {
    RunMatches(l, FRESH, Idle, Wanted([], []), tokens);
  }

  /** A record is refused exactly when no aligned place is left for its block. */
  lemma RefusedOnlyWhenFull(l: Layout, a: Arena, kind: nat, size: ObjectSize)
    requires a.command
    ensures var (end, len) :=
              if a.actions == 0 then (ItemAt(l, a, |a.items| + 1), 3 * size) else (ActionAt(l, a, |a.acts| + 1), size);
            Step(l, a, Record(kind, size)).ok <==> exists d :: d % 8 == 0 && end <= d && d + len <= a.data
  {
    RecordEnd(l, a, |a.items|);
    RecordEnd(l, a, |a.acts|);
    var len := if a.actions == 0 then 3 * size else size;
    Rounding(a.data - len);
    forall d | d % 8 == 0 && d + len <= a.data
      ensures d <= Floor(a.data - len)
    {
    }
  }

  /** The three spellings of a full match leave the same item: `is` aims both pointers at
      once, at the objects that `spec` and then `mask` or `prefix` aim at one by one. */
  lemma SpellingsShareObjects(l: Layout, a: Arena, tail: Param)
    requires a.items != [] && tail in {Mask, Prefix}
    ensures var once := Step(l, a, Parameter(Is)).arena;
            var first := Step(l, a, Parameter(Spec)).arena;
            var second := Step(l, first, Parameter(tail)).arena;
            second.items == once.items && second.blocks == once.blocks && second.data == once.data &&
            first.target == once.target && second.target == once.targetMask
  {
    var n := |a.items| - 1;
    var first := Step(l, a, Parameter(Spec)).arena;
    assert first.items[n] == a.items[n].(spec := a.data);
  }

  /** Saying `pattern` or `actions` again moves nothing. */
  lemma RepeatedSectionsMoveNothing(l: Layout, a: Arena, t: Token)
    requires (Good(l, a, FirstItem) && t == Pattern) || (Good(l, a, InItem) && t == Pattern) ||
             (Good(l, a, InActions) && t in {Pattern, Actions})
    ensures var r := Step(l, a, t);
            r.ok && Placed(l, r.arena) == Placed(l, a) && r.arena.items == a.items && r.arena.acts == a.acts &&
            r.arena.pattern == a.pattern && r.arena.actions == a.actions && r.arena.data == a.data
  {
    hide Ceil, Descending, OwnPointers;
    var b := Step(l, a, t).arena;
    assert b.items == a.items && b.acts == a.acts && b.blocks == a.blocks;
    assert b.pattern == a.pattern && b.actions == a.actions;
    assert Placed(l, b) == Placed(l, a) by { hide Shape, At, Step; }
  }

  /** The order matters: an item accepted before `pattern` is written at address 0. */
  lemma ItemBeforePattern(l: Layout, a: Arena, kind: nat, size: ObjectSize)
    requires Good(l, a, Attributes) && Step(l, a, Record(kind, size)).ok
    ensures var b := Step(l, a, Record(kind, size)).arena; Placed(l, b)[0].at == 0 && !Safe(l, b)
  {
    assert a.items == [];
    hide Floor, Shape;
    var b := Step(l, a, Record(kind, size)).arena;
    assert Placed(l, b)[0].at == 0;
    assert !Inside(Placed(l, b)[0], l);
  }

  // ------------------------------------------------------------- the callbacks

  /** The buffer and context as the callbacks update them. */
  class FlowBuffer {
    const layout: Layout
    var command: bool
    var pattern: int
    var items: seq<Item>
    var actions: int
    var acts: seq<Action>
    var data: int
    var target: int
    var targetMask: int
    var objdata: nat
    ghost var blocks: seq<Region>

    constructor (l: Layout)
      ensures layout == l && View() == FRESH
    {
      layout := l;
      command := false;
      pattern, items, actions, acts := 0, [], 0, [];
      data, target, targetMask, objdata := 0, 0, 0, 0;
      blocks := [];
    }

    ghost function View(): Arena
      reads this
    {
      Arena(command, pattern, items, actions, acts, data, target, targetMask, objdata, blocks)
    }

    /** `parse_vc` on a token without private data. */
    method Section(t: Token) returns (ok: bool)
      requires t.Command? || t.Attribute? || t.Pattern? || t.Actions?
      modifies this
      ensures Outcome(View(), ok) == Step(layout, old(View()), t)
    {
      if !command {
        if !t.Command? || layout.header > layout.size {
          return false;
        }
        command := true;
        objdata, target, targetMask := 0, layout.base, 0;
        data := layout.base + layout.size;
        return true;
      }
      objdata, target, targetMask := 0, layout.base + layout.attr, 0;
      match t
      case Attribute =>
        return true;
      case Pattern =>
        pattern := Ceil(layout.base + layout.header);
        target := pattern;
        return true;
      case Actions =>
        actions := Ceil(pattern + |items| * layout.item);
        target := actions;
        return true;
      case Command =>
        return false;
    }

    /** `parse_vc` on a token with private data. */
    method AddRecord(kind: nat, size: ObjectSize) returns (ok: bool)
      modifies this
      ensures Outcome(View(), ok) == Step(layout, old(View()), Record(kind, size))
    {
      hide Floor;
      if !command {
        return false;
      }
      objdata, target, targetMask := 0, layout.base + layout.attr, 0;
      var dataSize, place;
      if actions == 0 {
        var item := pattern + |items| * layout.item;
        dataSize := size * 3;
        place := Floor(data - dataSize);
        if item + layout.item > place {
          return false;
        }
        items := items + [Item(kind, 0, 0, 0)];
        target := item;
      } else {
        var action := actions + |acts| * layout.action;
        dataSize := size;
        place := Floor(data - dataSize);
        if action + layout.action > place {
          return false;
        }
        acts := acts + [Action(kind, if dataSize != 0 then place else 0)];
        target := action;
      }
      blocks := blocks + [Region(place, dataSize)];
      data := place;
      objdata := dataSize;
      return true;
    }

    /** `parse_vc_spec`. */
    method Aim(param: Param) returns (ok: bool)
      modifies this
      ensures Outcome(View(), ok) == Step(layout, old(View()), Parameter(param))
    {
      if |items| == 0 {
        return false;
      }
      var index := match param case Is => 0 case Spec => 0 case Last => 1 case Mask => 2 case Prefix => 2;
      var n := |items| - 1;
      var dataSize := objdata / 3;
      target := data + dataSize * index;
      if param == Is {
        targetMask := data + dataSize * 2;
        items := items[n := items[n].(mask := targetMask)];
      } else {
        targetMask := 0;
      }
      match index {
        case 0 => items := items[n := items[n].(spec := target)];
        case 1 => items := items[n := items[n].(last := target)];
        case _ => items := items[n := items[n].(mask := target)];
      }
      return true;
    }

    method Dispatch(t: Token) returns (ok: bool)
      modifies this
      ensures Outcome(View(), ok) == Step(layout, old(View()), t)
    {
      match t
      case Record(kind, size) =>
        ok := AddRecord(kind, size);
      case Parameter(param) =>
        ok := Aim(param);
      case Conf =>
        target, targetMask := data, 0;
        ok := true;
      case _ =>
        ok := Section(t);
    }

    /** A whole command. */
    method Parse(tokens: seq<Token>) returns (ok: bool)
      requires View() == FRESH && Ordered(Idle, tokens)
      modifies this
      ensures Outcome(View(), ok) == Run(layout, FRESH, tokens)
      ensures Safe(layout, View())
      ensures ok ==> Matches(ReadAll(Wanted([], []), Idle, tokens), View())
    {
      hide Step, Safe, Matches, ReadAll, Ordered;
      var i := 0;
      ok := true;
      while ok && i < |tokens|
        invariant 0 <= i <= |tokens|
        invariant ok ==> Run(layout, View(), tokens[i..]) == Run(layout, FRESH, tokens)
        invariant !ok ==> Outcome(View(), false) == Run(layout, FRESH, tokens)
        decreases |tokens| - i, ok
      {
        assert tokens[i..][0] == tokens[i] && tokens[i..][1..] == tokens[i + 1..];
        ok := Dispatch(tokens[i]);
        i := i + 1;
      }
      CommandIsSafe(layout, tokens);
      if ok {
        CommandIsExact(layout, tokens);
      }
    }
  }
}
