/** Where the parser's values end up (app/test-pmd/cmdline_flow.c): the object that is
    current in a create command, followed from token to token beside the output buffer. */
module FlowTargets {
  import opened Basics
  import opened FlowFields
  import opened FlowParser
  import opened FlowArena

  /** The data block of the current record. */
  function Current(a: Arena): Region
    requires a.blocks != []
  {
    a.blocks[|a.blocks| - 1]
  }

  /** One of the three objects of the current item; a full mask goes to the third. */
  predicate AtThird(a: Arena, size: nat) {
    && a.blocks != [] && Current(a).len == 3 * size
    && a.target in {Current(a).at, Current(a).at + size, Current(a).at + 2 * size}
    && a.targetMask in {0, Current(a).at + 2 * size}
  }

  /** The buffer agrees with the mode: it has the current record's object size, and there is
      as much room at the current object as the mode says. */
  ghost predicate Focused<I(!new)>(tbl: Table<I>, l: Layout, a: Arena, m: Mode) {
    (m.phase != Idle ==> l.header <= l.size) &&
    match m.phase
    case Idle => a == FRESH
    case Attributes =>
      (m.room == tbl.header && a.target == l.base) || (m.room == tbl.attr && a.target == l.base + l.attr)
    case FirstItem => m.room == 0
    case InItem =>
      a.blocks != [] && Current(a).len == 3 * m.size && (m.room == 0 || (m.room == m.size && AtThird(a, m.size)))
    case InActions =>
      && (a.acts == [] ==> m.size == 0) && (a.acts != [] ==> a.blocks != [] && Current(a).len == m.size)
      && (m.room == 0 || (a.acts != [] && m.room == m.size && a.target == Current(a).at))
  }

  ghost predicate Followed<I(!new)>(tbl: Table<I>, l: Layout, a: Arena, m: Mode) {
    Good(l, a, m.phase) && Focused(tbl, l, a, m)
  }

  lemma SelectFocused<I(!new)>(tbl: Table<I>, l: Layout, a: Arena, m: Mode, param: Param)
    requires Followed(tbl, l, a, m) && m.phase == InItem
    ensures a.items != [] && Focused(tbl, l, Select(a, param), Mode(InItem, m.size, m.size))
  {
    hide Descending, OwnPointers, Ceil;
    assert a.data == Current(a).at && Third(a) == m.size;
  }

  lemma StepFocused<I(!new)>(tbl: Table<I>, l: Layout, a: Arena, m: Mode, t: FlowArena.Token)
    requires Followed(tbl, l, a, m) && Track(tbl, m, t).Some? && Step(l, a, t).ok
    ensures Followed(tbl, l, Step(l, a, t).arena, Track(tbl, m, t).value)
  {
    StepGood(l, a, m.phase, t);
    hide Good, Ceil, Floor;
    match t
    case Parameter(param) =>
      hide Focused, Select;
      SelectFocused(tbl, l, a, m, param);
    case Conf =>
      DataIsCurrent(l, a, m);
    case Record(_, _) =>
      RecordsKnown(l, a, m);
    case Actions =>
      RecordsKnown(l, a, m);
    case _ =>
  }

  lemma DataIsCurrent(l: Layout, a: Arena, m: Mode)
    requires Good(l, a, m.phase)
    ensures a.blocks != [] ==> a.data == Current(a).at
  {
  }

  /** Items are expected as long as there is no action section. */
  lemma RecordsKnown(l: Layout, a: Arena, m: Mode)
    requires Good(l, a, m.phase)
    ensures m.phase == FirstItem || m.phase == InItem ==> a.actions == 0 && a.acts == []
    ensures m.phase == InActions ==> a.actions != 0
  {
  }

  lemma {:induction false} RunFocused<I(!new)>(tbl: Table<I>, l: Layout, a: Arena, m: Mode, ts: seq<FlowArena.Token>)
    requires Followed(tbl, l, a, m) && TrackAll(tbl, m, ts).Some? && Run(l, a, ts).ok
    ensures Followed(tbl, l, Run(l, a, ts).arena, TrackAll(tbl, m, ts).value)
    decreases |ts|
  {
    if ts != [] {
      hide Followed, Step, Track;
      StepFocused(tbl, l, a, m, ts[0]);
      RunFocused(tbl, l, Step(l, a, ts[0]).arena, Track(tbl, m, ts[0]).value, ts[1..]);
    }
  }

  lemma {:induction false} RunConcat(l: Layout, a: Arena, x: seq<FlowArena.Token>, y: seq<FlowArena.Token>)
    ensures Run(l, a, x + y) == if Run(l, a, x).ok then Run(l, Run(l, a, x).arena, y) else Run(l, a, x)
    decreases |x|
  {
    hide Step;
    if x == [] {
      assert x + y == y;
    } else {
      assert (x + y)[1..] == x[1..] + y;
      RunConcat(l, Step(l, a, x[0]).arena, x[1..], y);
    }
  }

  /** The buffer after the accepted tokens agrees with the mode they have led to. */
  lemma {:induction false} TakenFollowed<I(!new)>(tbl: Table<I>, l: Layout, taken: seq<I>)
    requires ModeAfter(tbl, taken).Some? && Run(l, FRESH, Placings(tbl, taken)).ok
    ensures Followed(tbl, l, Run(l, FRESH, Placings(tbl, taken)).arena, ModeAfter(tbl, taken).value)
  {
    if taken != [] {
      var n := |taken| - 1;
      var before, token := taken[..n], tbl.token(taken[n]);
      var m := ModeAfter(tbl, before).value;
      RunConcat(l, FRESH, Placings(tbl, before), token.places);
      TakenFollowed(tbl, l, before);
      var a := Run(l, FRESH, Placings(tbl, before)).arena;
      hide Run, Followed;
      RunFocused(tbl, l, a, m, token.places);
      if token.binds.Some? {
        BindsOutside(tbl, l, Run(l, a, token.places).arena, TrackAll(tbl, m, token.places).value, token.binds.value);
      }
    }
  }

  /** Outside a create command the buffer is untouched, whatever object is current. */
  lemma BindsOutside<I(!new)>(tbl: Table<I>, l: Layout, a: Arena, m: Mode, k: nat)
    requires Followed(tbl, l, a, m) && m.phase == Idle
    ensures Followed(tbl, l, a, m.(room := k))
  {
  }

  /** An object that values can be stored in: the buffer's header or the attributes in it, one
      of the three objects of the current item, or the whole block of the current action. */
  ghost predicate IsObject<I(!new)>(tbl: Table<I>, l: Layout, a: Arena, m: Mode, at: int, size: nat) {
    && l.base <= at && at + size <= l.base + l.size
    && match m.phase
       case Idle => false
       case Attributes => (at == l.base && size == tbl.header) || (at == l.base + l.attr && size == tbl.attr)
       case FirstItem => false
       case InItem =>
         && a.blocks != [] && Current(a).len == 3 * size
         && at in {Current(a).at, Current(a).at + size, Current(a).at + 2 * size}
       case InActions => a.blocks != [] && Region(at, size) == Current(a)
  }

  /** How the sizes the table assumes relate to the buffer's layout. */
  predicate Agrees<I>(tbl: Table<I>, l: Layout) {
    tbl.header <= l.header && l.attr + tbl.attr <= l.header
  }

  /** Wherever the mode says there is room, the current object is an object of exactly that
      size; a full mask goes to the mask object of the same item. */
  lemma RoomIsObject<I(!new)>(tbl: Table<I>, l: Layout, a: Arena, m: Mode)
    requires Followed(tbl, l, a, m) && Agrees(tbl, l) && m.phase != Idle && m.room > 0
    ensures IsObject(tbl, l, a, m, a.target, m.room)
    ensures m.phase == InItem && a.targetMask != 0 ==>
              a.targetMask == Current(a).at + 2 * m.room && IsObject(tbl, l, a, m, a.targetMask, m.room)
  {
    hide Ceil, OwnPointers, ItemAt, ActionAt;
    if m.phase == InItem || m.phase == InActions {
      BlockInside(l, a);
    }
  }

  lemma BlockInside(l: Layout, a: Arena)
    requires Shape(l, a) && a.blocks != []
    ensures l.base <= Current(a).at && Current(a).at + Current(a).len <= l.base + l.size
  {
    hide Ceil;
    ItemBounds(l, a, 0);
  }

  // ------------------------------------------------------ which of the three

  /** Which object of an item a parameter is about. */
  function Place(param: Param): nat {
    match param
    case Is => 0
    case Spec => 0
    case Last => 1
    case Mask => 2
    case Prefix => 2
  }

  /** The object aimed at is the one the parameter names, a full mask is written for `is`
      alone, and the item's own pointers are those addresses. */
  ghost predicate AimedBy(a: Arena, size: nat, param: Param) {
    && a.blocks != [] && a.items != []
    && a.target == Current(a).at + Place(param) * size
    && a.targetMask == (if param == Is then Current(a).at + 2 * size else 0)
    && var item := a.items[|a.items| - 1];
       && [item.spec, item.last, item.mask][Place(param)] == a.target
       && (param == Is ==> item.mask == a.targetMask)
  }

  lemma SelectAims<I(!new)>(tbl: Table<I>, l: Layout, a: Arena, m: Mode, param: Param)
    requires Followed(tbl, l, a, m) && m.phase == InItem
    ensures a.items != [] && AimedBy(Select(a, param), m.size, param)
  {
    hide Descending, OwnPointers, Ceil;
    assert a.data == Current(a).at && Third(a) == m.size;
  }

  /** In an item there is a current object only right after a parameter. */
  lemma {:induction false} TrackAllLast<I(!new)>(tbl: Table<I>, m: Mode, ts: seq<FlowArena.Token>)
    requires ts != [] && TrackAll(tbl, m, ts).Some?
    requires TrackAll(tbl, m, ts).value.phase == InItem && TrackAll(tbl, m, ts).value.room > 0
    ensures ts[|ts| - 1].Parameter?
    decreases |ts|
  {
    var n := Track(tbl, m, ts[0]).value;
    if |ts| > 1 {
      TrackAllLast(tbl, n, ts[1..]);
    } else {
      assert TrackAll(tbl, n, ts[1..]) == Some(n);
    }
  }

  lemma {:induction false} LastIsParameter<I(!new)>(tbl: Table<I>, taken: seq<I>)
    requires ModeAfter(tbl, taken).Some?
    requires ModeAfter(tbl, taken).value.phase == InItem && ModeAfter(tbl, taken).value.room > 0
    ensures var ts := Placings(tbl, taken); ts != [] && ts[|ts| - 1].Parameter?
  {
    var n := |taken| - 1;
    var before, token := taken[..n], tbl.token(taken[n]);
    if token.places == [] {
      LastIsParameter(tbl, before);
    } else {
      TrackAllLast(tbl, ModeAfter(tbl, before).value, token.places);
    }
  }

  lemma {:induction false} TrackConcat<I(!new)>(
      tbl: Table<I>, m: Mode, x: seq<FlowArena.Token>, y: seq<FlowArena.Token>)
    ensures TrackAll(tbl, m, x + y) ==
              match TrackAll(tbl, m, x) case None => None case Some(n) => TrackAll(tbl, n, y)
    decreases |x|
  {
    if x == [] {
      assert x + y == y;
    } else {
      assert (x + y)[1..] == x[1..] + y;
      match Track(tbl, m, x[0])
      case None =>
      case Some(n) => TrackConcat(tbl, n, x[1..], y);
    }
  }

  /** Inside a create command the mode is that of the tokens placed. */
  lemma {:induction false} ModeOfPlacings<I(!new)>(tbl: Table<I>, taken: seq<I>)
    requires ModeAfter(tbl, taken).Some?
    ensures var m, t := ModeAfter(tbl, taken).value, TrackAll(tbl, START, Placings(tbl, taken));
            t.Some? && t.value.phase == m.phase && t.value.size == m.size && (m.phase != Idle ==> t == Some(m))
  {
    if taken != [] {
      var n := |taken| - 1;
      var m, places := ModeAfter(tbl, taken[..n]).value, tbl.token(taken[n]).places;
      ModeOfPlacings(tbl, taken[..n]);
      TrackConcat(tbl, START, Placings(tbl, taken[..n]), places);
      var t := TrackAll(tbl, START, Placings(tbl, taken[..n])).value;
      RoomForgotten(tbl, m, t.room, places);
      hide TrackAll;
    }
  }

  /** What a token does to the mode does not depend on the room there was. */
  lemma RoomForgotten<I(!new)>(tbl: Table<I>, m: Mode, room: nat, ts: seq<FlowArena.Token>)
    ensures var n := m.(room := room);
            if ts == [] then TrackAll(tbl, m, ts) == Some(m) && TrackAll(tbl, n, ts) == Some(n)
            else TrackAll(tbl, n, ts) == TrackAll(tbl, m, ts)
  {
  }

  lemma FreshFollowed<I(!new)>(tbl: Table<I>, l: Layout)
    ensures Followed(tbl, l, FRESH, START)
  {
  }

  /** So in an item values go to the object that the last parameter names. */
  lemma AimedAsSaid<I(!new)>(tbl: Table<I>, l: Layout, taken: seq<I>)
    requires ModeAfter(tbl, taken).Some? && Run(l, FRESH, Placings(tbl, taken)).ok
    requires ModeAfter(tbl, taken).value.phase == InItem && ModeAfter(tbl, taken).value.room > 0
    ensures var ts, m := Placings(tbl, taken), ModeAfter(tbl, taken).value;
            ts != [] && ts[|ts| - 1].Parameter? &&
            m.room == m.size && AimedBy(Run(l, FRESH, ts).arena, m.size, ts[|ts| - 1].param)
  {
    var ts, m := Placings(tbl, taken), ModeAfter(tbl, taken).value;
    LastIsParameter(tbl, taken);
    ModeOfPlacings(tbl, taken);
    var k := |ts| - 1;
    var before, param := ts[..k], ts[k].param;
    assert ts == before + [ts[k]];
    TrackConcat(tbl, START, before, [ts[k]]);
    RunConcat(l, FRESH, before, [ts[k]]);
    FreshFollowed(tbl, l);
    hide Followed, AimedBy, Select, Placings, ModeAfter;
    RunFocused(tbl, l, FRESH, START, before);
    var a, n := Run(l, FRESH, before).arena, TrackAll(tbl, START, before).value;
    LastStep(tbl, l, a, n, ts[k]);
    SelectAims(tbl, l, a, n, param);
  }

  lemma LastStep<I(!new)>(tbl: Table<I>, l: Layout, a: Arena, m: Mode, t: FlowArena.Token)
    ensures TrackAll(tbl, m, [t]) == Track(tbl, m, t) && Run(l, a, [t]) == Step(l, a, t)
  {
    hide Track, Step;
    assert [t][1..] == [];
    assert forall n :: TrackAll(tbl, n, []) == Some(n);
  }

  // ------------------------------------------------------------- every line

  /** Where the arguments a token takes are stored, in a create command: in the current
      object, none of them reaching over its end. */
  ghost predicate LandInside<I(!new)>(tbl: Table<I>, l: Layout, a: Arena, m: Mode, args: seq<Arg>, x: I) {
    var n := Pops(tbl.token(x).call);
    && n <= |args| && (forall k :: |args| - n <= k < |args| ==> args[k].offset + args[k].size <= m.room)
    && tbl.token(x).writes <= m.room
    && (m.room > 0 ==> IsObject(tbl, l, a, m, a.target, m.room))
    && (m.room > 0 && m.phase == InItem && a.targetMask != 0 ==>
          a.targetMask == Current(a).at + 2 * m.room && IsObject(tbl, l, a, m, a.targetMask, m.room))
  }

  lemma StoredLands<I(!new)>(tbl: Table<I>, l: Layout, a: Arena, m: Mode, args: seq<Arg>, x: I)
    requires Followed(tbl, l, a, m) && Agrees(tbl, l) && m.phase != Idle && StoresInside(tbl, args, x, m)
    ensures LandInside(tbl, l, a, m, args, x)
  {
    hide Followed, IsObject, Pops;
    var n := Pops(tbl.token(x).call);
    forall k | |args| - n <= k < |args|
      ensures args[k].offset + args[k].size <= m.room
    {
      assert args[|args| - n..][k - (|args| - n)] == args[k];
    }
    if m.room > 0 {
      RoomIsObject(tbl, l, a, m);
    }
  }

  /** On every line, whenever a create command accepts a word, every field that word's
      arguments name, and every byte its callback writes by itself, lies inside the object
      that is current at that moment: the header or the attributes for their own fields, the
      block of the current action, or that one of the current item's three objects which the
      last parameter names; a full mask goes to the same bytes of the item's mask object. */
  lemma ValuesLandInObjects<I(!new)>(
      tbl: Table<I>, lib: Library, ty: Typing<I>, words: seq<Input<I>>, w: Input<I>, l: Layout)
    requires forall i :: 0 <= i < |words| ==> Sensible(words[i])
    requires Sensible(w) && WellTyped(tbl, ty) && ty.aimed && Agrees(tbl, l)
    ensures var c := FeedAll(tbl, lib, Initial(tbl), words);
            var d := Feed(tbl, lib, c, w);
            var ts := Placings(tbl, c.taken);
            var r := Run(l, FRESH, ts);
            ModeAfter(tbl, c.taken).Some? &&
            var m := ModeAfter(tbl, c.taken).value;
            && Safe(l, r.arena)
            && (|d.taken| > |c.taken| && r.ok && m.phase != Idle ==>
                  LandInside(tbl, l, r.arena, m, c.state.args, d.taken[|c.taken|]))
            && (r.ok && m.phase == InItem && m.room > 0 ==>
                  ts != [] && ts[|ts| - 1].Parameter? && AimedBy(r.arena, m.room, ts[|ts| - 1].param))
  {
    hide WellTyped, Run, Followed, LandInside, StoresInside, Safe, Feed, AimedBy;
    ArgumentsStayInside(tbl, lib, ty, words, w);
    LinesKeepBufferSafe(tbl, lib, ty, words, l);
    var c := FeedAll(tbl, lib, Initial(tbl), words);
    var d := Feed(tbl, lib, c, w);
    var r := Run(l, FRESH, Placings(tbl, c.taken));
    var m := ModeAfter(tbl, c.taken).value;
    if |d.taken| > |c.taken| && r.ok && m.phase != Idle {
      TakenFollowed(tbl, l, c.taken);
      StoredLands(tbl, l, r.arena, m, c.state.args, d.taken[|c.taken|]);
    }
    if r.ok && m.phase == InItem && m.room > 0 {
      AimedAsSaid(tbl, l, c.taken);
    }
  }
}
