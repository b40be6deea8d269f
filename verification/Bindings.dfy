/** The pool of chord bindings, and its form as JSON (src/ptychite/config.c). */
module Bindings {
  import opened Lists
  import Actions
  import Chord
  import Json

  /** A slot of the pool. What an inactive slot holds is never read. */
  datatype Slot = Slot(chord: seq<Chord.Key>, action: Actions.Action, active: bool)

  datatype Bound = Bound(chord: seq<Chord.Key>, action: Actions.Action)

  datatype Error =
    | ChordsNotArray | BindingNotObject | NotTwoMembers | NoPattern | NoAction | NoArguments | ArgumentNotString
    | BadChord(chord: Chord.Error) | BadAction(action: Actions.Error)

  datatype Outcome = Outcome(slots: seq<Slot>, error: Option<Error>)

  // ---- The pool -----------------------------------------------------------------------------------------

  /** The active bindings in pool order, which is the order in which the matcher tries them. */
  function Active(slots: seq<Slot>): seq<Bound> {
    if slots == [] then []
    else (if slots[0].active then [Bound(slots[0].chord, slots[0].action)] else []) + Active(slots[1..])
  }

  /** The first inactive slot, or the end of the pool. */
  function FirstInactive(slots: seq<Slot>): (i: nat)
    ensures i <= |slots| && (i < |slots| ==> !slots[i].active) && forall j | 0 <= j < i :: slots[j].active
  {
    if slots == [] || !slots[0].active then 0 else FirstInactive(slots[1..]) + 1
  }

  function Wiped(slots: seq<Slot>): (r: seq<Slot>)
    ensures |r| == |slots| && forall i | 0 <= i < |slots| :: r[i] == slots[i].(active := false)
  {
    if slots == [] then [] else [slots[0].(active := false)] + Wiped(slots[1..])
  }

  function Put(slots: seq<Slot>, i: nat, slot: Slot): seq<Slot>
    requires i <= |slots|
  {
    if i < |slots| then slots[i := slot] else slots + [slot]
  }

  /** Stands for the contents of a slot that was never filled. */
  const BLANK := Slot([], Actions.Action(Actions.Close, Actions.Nothing), false)

  /** A failed scan leaves the slot it asked for inactive. */
  function Given(slots: seq<Slot>): seq<Slot> {
    if FirstInactive(slots) < |slots| then slots else slots + [BLANK]
  }

  /** A C string ends at its first NUL. */
  function CString(s: string): (r: string)
    ensures '\0' !in r && ('\0' !in s ==> r == s)
    ensures r <= s && (|r| < |s| ==> s[|r|] == '\0')
  {
    s[..Find(s, '\0')]
  }

  function Scan(slots: seq<Slot>, pattern: string, args: seq<string>, naming: Chord.Naming): Outcome {
    var chord := Chord.Parse(pattern, naming);
    if chord.Err? then Outcome(Given(slots), Some(BadChord(chord.error)))
    else
      var action := Actions.Create(args);
      if action.Err? then Outcome(Given(slots), Some(BadAction(action.error)))
      else Outcome(Put(slots, FirstInactive(slots), Slot(chord.value, action.action, true)), None)
  }

  // ---- Setting from JSON --------------------------------------------------------------------------------

  function ActionArgs(items: seq<Json.Value>): Option<seq<string>> {
    if items == [] then Some([])
    else if !items[0].String? then None
    else
      var rest := ActionArgs(items[1..]);
      if rest.None? then None else Some([CString(items[0].text)] + rest.value)
  }

  function SetOne(slots: seq<Slot>, binding: Json.Value, naming: Chord.Naming): Outcome {
    if !binding.Object? then Outcome(slots, Some(BindingNotObject))
    else if |binding.members| != 2 then Outcome(slots, Some(NotTwoMembers))
    else
      var pattern, action := Json.Get(binding.members, "pattern"), Json.Get(binding.members, "action");
      if pattern.None? || !pattern.value.String? then Outcome(slots, Some(NoPattern))
      else if action.None? || !action.value.Array? then Outcome(slots, Some(NoAction))
      else if action.value.items == [] then Outcome(slots, Some(NoArguments))
      else
        var args := ActionArgs(action.value.items);
        if args.None? then Outcome(slots, Some(ArgumentNotString))
        else Scan(slots, CString(pattern.value.text), args.value, naming)
  }

  function SetEach(slots: seq<Slot>, items: seq<Json.Value>, naming: Chord.Naming): Outcome
    decreases |items|
  {
    if items == [] then Outcome(slots, None)
    else
      var first := SetOne(slots, items[0], naming);
      if first.error.Some? then first else SetEach(first.slots, items[1..], naming)
  }

  function SetChords(slots: seq<Slot>, value: Json.Value, overwrite: bool, naming: Chord.Naming): Outcome {
    var start := if overwrite then Wiped(slots) else slots;
    if !value.Array? then Outcome(start, Some(ChordsNotArray)) else SetEach(start, value.items, naming)
  }

  // ---- Reading as JSON ----------------------------------------------------------------------------------

  function Strings(args: seq<string>): (r: seq<Json.Value>)
    ensures |r| == |args| && forall i | 0 <= i < |args| :: r[i] == Json.String(args[i])
  {
    seq(|args|, i requires 0 <= i < |args| => Json.String(args[i]))
  }

  function BindingJson(bound: Bound, naming: Chord.Naming): Option<Json.Value> {
    var pattern := Chord.Print(bound.chord, naming);
    if pattern.None? || !Actions.Fits(bound.action) then None
    else Some(Json.Object([Json.Member("pattern", Json.String(pattern.value)),
                           Json.Member("action", Json.Array(Strings(Actions.GetArgs(bound.action))))]))
  }

  function EachJson(bounds: seq<Bound>, naming: Chord.Naming): Option<seq<Json.Value>> {
    if bounds == [] then Some([])
    else
      var first, rest := BindingJson(bounds[0], naming), EachJson(bounds[1..], naming);
      if first.None? || rest.None? then None else Some([first.value] + rest.value)
  }

  function GetChords(slots: seq<Slot>, naming: Chord.Naming): Option<Json.Value> {
    var items := EachJson(Active(slots), naming);
    if items.None? then None else Some(Json.Array(items.value))
  }

  // ---- What every pool keeps ----------------------------------------------------------------------------

  /** No active slot after an inactive one, so a scan adds at the end of the active bindings. */
  ghost predicate Packed(slots: seq<Slot>) {
    forall i, j | 0 <= i < j < |slots| && slots[j].active :: slots[i].active
  }

  /** A binding that a scan could have made. */
  ghost predicate Sound(bound: Bound) {
    && bound.chord != []
    && (forall k <- bound.chord :: Chord.Small(k.modifiers) && k.sym != 0)
    && Actions.Fits(bound.action)
    && (forall arg <- Actions.GetArgs(bound.action) :: '\0' !in arg)
  }

  ghost predicate Inv(slots: seq<Slot>) {
    Packed(slots) && forall bound <- Active(slots) :: Sound(bound)
  }

  lemma {:induction false} NoneActive(slots: seq<Slot>)
    requires forall i | 0 <= i < |slots| :: !slots[i].active
    ensures Active(slots) == []
  {
    if slots != [] {
      NoneActive(slots[1..]);
    }
  }

  /** A scan's binding comes right after the bindings before the slot it takes. */
  lemma {:induction false} PutActive(slots: seq<Slot>, slot: Slot)
    requires slot.active
    ensures var i := FirstInactive(slots);
            && i <= |Active(slots)|
            && Active(Put(slots, i, slot)) == Active(slots)[..i] + [Bound(slot.chord, slot.action)] + Active(slots)[i..]
  {
    var i := FirstInactive(slots);
    var put := Put(slots, i, slot);
    if i == 0 {
      if slots != [] {
        assert put[1..] == slots[1..];
      } else {
        assert put[1..] == [];
      }
    } else {
      PutActive(slots[1..], slot);
      PutLater(slots, i, slot);
      Splice([Bound(slots[0].chord, slots[0].action)], Active(slots[1..]), [Bound(slot.chord, slot.action)], i - 1);
    }
  }

  lemma PutLater(slots: seq<Slot>, i: nat, slot: Slot)
    requires 0 < i <= |slots| && slots[0].active
    ensures Active(slots) == [Bound(slots[0].chord, slots[0].action)] + Active(slots[1..])
    ensures Active(Put(slots, i, slot)) ==
            [Bound(slots[0].chord, slots[0].action)] + Active(Put(slots[1..], i - 1, slot))
  {
    var put := Put(slots, i, slot);
    assert put[1..] == Put(slots[1..], i - 1, slot) && put[0] == slots[0];
  }

  lemma Splice<T>(first: seq<T>, rest: seq<T>, middle: seq<T>, i: nat)
    requires |first| == 1 && i <= |rest|
    ensures first + (rest[..i] + middle + rest[i..]) == (first + rest)[..i + 1] + middle + (first + rest)[i + 1..]
  {
    assert (first + rest)[..i + 1] == first + rest[..i];
  }

  lemma {:induction false} PackedActive(slots: seq<Slot>)
    requires Packed(slots)
    ensures |Active(slots)| == FirstInactive(slots)
    ensures forall j | FirstInactive(slots) <= j < |slots| :: !slots[j].active
  {
    if slots != [] {
      if slots[0].active {
        assert Packed(slots[1..]) by {
          forall i, j | 0 <= i < j < |slots[1..]| && slots[1..][j].active ensures slots[1..][i].active {
            assert slots[j + 1].active && slots[i + 1].active;
          }
        }
        PackedActive(slots[1..]);
      } else {
        NoneActive(slots);
      }
    }
  }

  lemma {:induction false} BlankActive(slots: seq<Slot>)
    ensures Active(slots + [BLANK]) == Active(slots)
  {
    if slots != [] {
      assert (slots + [BLANK])[1..] == slots[1..] + [BLANK];
      BlankActive(slots[1..]);
    } else {
      assert (slots + [BLANK])[1..] == [];
    }
  }

  lemma GivenActive(slots: seq<Slot>)
    requires Packed(slots)
    ensures Packed(Given(slots)) && Active(Given(slots)) == Active(slots)
  {
    PackedActive(slots);
    BlankActive(slots);
  }

  lemma PutPacked(slots: seq<Slot>, slot: Slot)
    requires Packed(slots) && slot.active
    ensures Packed(Put(slots, FirstInactive(slots), slot)) && |Active(slots)| == FirstInactive(slots)
  {
    PackedActive(slots);
  }

  /** A successful scan of a packed pool appends to the active bindings; a failed one leaves them alone. */
  lemma ScanAppends(slots: seq<Slot>, pattern: string, args: seq<string>, naming: Chord.Naming)
    requires Packed(slots)
    ensures var r := Scan(slots, pattern, args, naming);
            && Packed(r.slots)
            && Active(r.slots) ==
               if r.error.Some? then Active(slots)
               else Active(slots) + [Bound(Chord.Parse(pattern, naming).value, Actions.Create(args).action)]
  {
    hide Chord.Parse, Actions.Create, Packed, Active, Put, Given;
    GivenActive(slots);
    var r := Scan(slots, pattern, args, naming);
    if r.error.None? {
      var slot := Slot(Chord.Parse(pattern, naming).value, Actions.Create(args).action, true);
      PutActive(slots, slot);
      PutPacked(slots, slot);
      var active, bound := Active(slots), Bound(slot.chord, slot.action);
      assert active[..|active|] + [bound] + active[|active|..] == active + [bound];
    }
  }

  lemma ScanKeeps(slots: seq<Slot>, pattern: string, args: seq<string>, naming: Chord.Naming)
    requires Inv(slots) && forall arg <- args :: '\0' !in arg
    ensures Inv(Scan(slots, pattern, args, naming).slots)
  {
    hide Scan;
    ScanAppends(slots, pattern, args, naming);
    var r := Scan(slots, pattern, args, naming);
    if r.error.None? {
      ScanIsSound(slots, pattern, args, naming);
    }
  }

  lemma ScanIsSound(slots: seq<Slot>, pattern: string, args: seq<string>, naming: Chord.Naming)
    requires Scan(slots, pattern, args, naming).error.None? && forall arg <- args :: '\0' !in arg
    ensures Sound(Bound(Chord.Parse(pattern, naming).value, Actions.Create(args).action))
  {
    hide Actions.Create;
    Chord.ParsedIsSmall(pattern, naming);
    Chord.ParseFillsCount(pattern, naming);
    Actions.ArgsOfCreated(args);
  }

  lemma {:induction false} ArgsAreCStrings(items: seq<Json.Value>)
    ensures var args := ActionArgs(items); args.Some? ==> forall arg <- args.value :: '\0' !in arg
  {
    if items != [] {
      ArgsAreCStrings(items[1..]);
    }
  }

  lemma SetOneKeeps(slots: seq<Slot>, binding: Json.Value, naming: Chord.Naming)
    requires Inv(slots)
    ensures Inv(SetOne(slots, binding, naming).slots)
  {
    hide Inv, Scan;
    if binding.Object? {
      var pattern, action := Json.Get(binding.members, "pattern"), Json.Get(binding.members, "action");
      if pattern.Some? && pattern.value.String? && action.Some? && action.value.Array? {
        var args := ActionArgs(action.value.items);
        ArgsAreCStrings(action.value.items);
        if args.Some? {
          ScanKeeps(slots, CString(pattern.value.text), args.value, naming);
        }
      }
    }
  }

  lemma {:induction false} SetEachKeeps(slots: seq<Slot>, items: seq<Json.Value>, naming: Chord.Naming)
    requires Inv(slots)
    ensures Inv(SetEach(slots, items, naming).slots)
    decreases |items|
  {
    hide Inv, SetOne;
    if items != [] {
      SetOneKeeps(slots, items[0], naming);
      SetEachKeeps(SetOne(slots, items[0], naming).slots, items[1..], naming);
    }
  }

  /** Every pool that the configuration can reach is packed and holds only bindings that a scan could make. */
  lemma SetChordsKeeps(slots: seq<Slot>, value: Json.Value, overwrite: bool, naming: Chord.Naming)
    requires Inv(slots)
    ensures Inv(SetChords(slots, value, overwrite, naming).slots)
    ensures Inv([])
  {
    NoneActive(Wiped(slots));
    hide SetEach;
    var start := if overwrite then Wiped(slots) else slots;
    assert Inv(start);
    if value.Array? {
      SetEachKeeps(start, value.items, naming);
    }
  }

  // ---- What a JSON value sets -----------------------------------------------------------------------------

  /** The binding that an item of the list stands for: two members, a pattern and an action with its arguments. */
  function BoundOf(item: Json.Value, naming: Chord.Naming): Option<Bound> {
    if !(item.Object? && |item.members| == 2) then None
    else
      match (Json.Get(item.members, "pattern"), Json.Get(item.members, "action"))
      case (Some(String(pattern)), Some(Array(items))) =>
        var args := ActionArgs(items);
        if args.None? then None
        else
          var chord, action := Chord.Parse(CString(pattern), naming), Actions.Create(args.value);
          if chord.Ok? && action.Ok? then Some(Bound(chord.value, action.action)) else None
      case _ => None
  }

  /** The bindings up to the first item that stands for none. */
  function BoundsOf(items: seq<Json.Value>, naming: Chord.Naming): (r: seq<Bound>)
    ensures |r| <= |items|
  {
    if items == [] || BoundOf(items[0], naming).None? then []
    else [BoundOf(items[0], naming).value] + BoundsOf(items[1..], naming)
  }

  lemma SetOneMeans(slots: seq<Slot>, item: Json.Value, naming: Chord.Naming)
    requires Packed(slots)
    ensures var r, bound := SetOne(slots, item, naming), BoundOf(item, naming);
            && Packed(r.slots) && (r.error.None? <==> bound.Some?)
            && Active(r.slots) == Active(slots) + if bound.Some? then [bound.value] else []
  {
    hide Chord.Parse, Actions.Create, Packed, Active, Scan;
    if item.Object? {
      var pattern, action := Json.Get(item.members, "pattern"), Json.Get(item.members, "action");
      if pattern.Some? && pattern.value.String? && action.Some? && action.value.Array? {
        var args := ActionArgs(action.value.items);
        if args.Some? {
          ScanAppends(slots, CString(pattern.value.text), args.value, naming);
          ScanSucceeds(slots, CString(pattern.value.text), args.value, naming);
        }
      }
    }
    NoActionWithoutName();
    assert Active(slots) + [] == Active(slots);
  }

  lemma NoActionWithoutName()
    ensures ActionArgs([]) == Some([]) && Actions.Create([]).Err?
  {
  }

  lemma ScanSucceeds(slots: seq<Slot>, pattern: string, args: seq<string>, naming: Chord.Naming)
    ensures Scan(slots, pattern, args, naming).error.None? <==>
            Chord.Parse(pattern, naming).Ok? && Actions.Create(args).Ok?
  {
    hide Chord.Parse, Actions.Create;
  }

  lemma {:induction false} SetEachMeans(slots: seq<Slot>, items: seq<Json.Value>, naming: Chord.Naming)
    requires Packed(slots)
    ensures var r, bounds := SetEach(slots, items, naming), BoundsOf(items, naming);
            && (r.error.None? <==> |bounds| == |items|)
            && Packed(r.slots) && Active(r.slots) == Active(slots) + bounds
    decreases |items|
  {
    hide SetOne, BoundOf, Packed, Active;
    if items == [] {
      assert Active(slots) + [] == Active(slots);
    } else {
      SetOneMeans(slots, items[0], naming);
      var first, bound := SetOne(slots, items[0], naming), BoundOf(items[0], naming);
      if bound.Some? {
        SetEachMeans(first.slots, items[1..], naming);
        assert Active(slots) + [bound.value] + BoundsOf(items[1..], naming) ==
               Active(slots) + ([bound.value] + BoundsOf(items[1..], naming));
      }
    }
  }

  /**
   * Setting the chords adds the bindings of the list, in its order, up to the first item that stands for none, and
   * succeeds exactly if there is no such item; overwriting drops those that were there before, even if it fails.
   */
  lemma SetChordsMeans(slots: seq<Slot>, value: Json.Value, overwrite: bool, naming: Chord.Naming)
    requires Packed(slots)
    ensures var r := SetChords(slots, value, overwrite, naming);
            var bounds := if value.Array? then BoundsOf(value.items, naming) else [];
            && (r.error.None? <==> value.Array? && |bounds| == |value.items|)
            && Active(r.slots) == (if overwrite then [] else Active(slots)) + bounds
  {
    hide SetEach, BoundsOf;
    NoneActive(Wiped(slots));
    var start := if overwrite then Wiped(slots) else slots;
    assert Packed(start) && Active(start) == if overwrite then [] else Active(slots);
    if value.Array? {
      SetEachMeans(start, value.items, naming);
    }
  }

  // ---- Dump and restore ---------------------------------------------------------------------------------

  lemma {:induction false} StringsReadBack(args: seq<string>)
    requires forall arg <- args :: '\0' !in arg
    ensures ActionArgs(Strings(args)) == Some(args)
  {
    if args != [] {
      assert Strings(args)[1..] == Strings(args[1..]);
      StringsReadBack(args[1..]);
      assert args == [args[0]] + args[1..];
    } else {
      assert Strings(args) == [];
    }
  }

  ghost predicate Readable(bound: Bound, naming: Chord.Naming) {
    forall k <- bound.chord :: Chord.Readable(k.sym, naming)
  }

  /** A binding's JSON form is scanned back as the same binding. */
  lemma BindingReadsBack(bound: Bound, slots: seq<Slot>, naming: Chord.Naming)
    requires Sound(bound) && Readable(bound, naming)
    ensures BindingJson(bound, naming).Some?
    ensures SetOne(slots, BindingJson(bound, naming).value, naming) ==
            Outcome(Put(slots, FirstInactive(slots), Slot(bound.chord, bound.action, true)), None)
  {
    hide Actions.Create, Actions.Fits, Actions.GetArgs, Chord.Readable, Chord.Print, Chord.Parse;
    Chord.ParseUndoesPrint(bound.chord, naming);
    Chord.PrintedIsCString(bound.chord, naming);
    var args := Actions.GetArgs(bound.action);
    Actions.CreatedFromArgs(bound.action);
    StringsReadBack(args);
    var pattern := Chord.Print(bound.chord, naming).value;
    MembersFound(Json.String(pattern), Json.Array(Strings(args)));
  }

  lemma MembersFound(pattern: Json.Value, action: Json.Value)
    ensures var members := [Json.Member("pattern", pattern), Json.Member("action", action)];
            Json.Get(members, "pattern") == Some(pattern) && Json.Get(members, "action") == Some(action)
  {
  }

  lemma {:induction false} EachReadsBack(bounds: seq<Bound>, slots: seq<Slot>, naming: Chord.Naming)
    requires Packed(slots) && forall bound <- bounds :: Sound(bound) && Readable(bound, naming)
    ensures EachJson(bounds, naming).Some?
    ensures var r := SetEach(slots, EachJson(bounds, naming).value, naming);
            r.error.None? && Packed(r.slots) && Active(r.slots) == Active(slots) + bounds
  {
    hide BindingJson, SetOne, Sound, Readable, Packed;
    if bounds == [] {
      assert Active(slots) + bounds == Active(slots);
    } else {
      BindingReadsBack(bounds[0], slots, naming);
      var next := SetOne(slots, BindingJson(bounds[0], naming).value, naming).slots;
      PutAppends(slots, bounds[0]);
      EachReadsBack(bounds[1..], next, naming);
      assert Active(slots) + bounds == Active(slots) + [bounds[0]] + bounds[1..];
    }
  }

  lemma PutAppends(slots: seq<Slot>, bound: Bound)
    requires Packed(slots)
    ensures var put := Put(slots, FirstInactive(slots), Slot(bound.chord, bound.action, true));
            Packed(put) && Active(put) == Active(slots) + [bound]
  {
    PackedActive(slots);
    PutActive(slots, Slot(bound.chord, bound.action, true));
  }

  /**
   * Reading the chords and setting the result gives back the active bindings, with their keys and actions, in their
   * order: on top of those of a packed pool when appending, and in their place, whatever the pool held, when
   * overwriting.
   */
  lemma DumpThenRestore(slots: seq<Slot>, pool: seq<Slot>, overwrite: bool, naming: Chord.Naming)
    requires forall bound <- Active(slots) :: Sound(bound) && Readable(bound, naming)
    requires overwrite || Packed(pool)
    ensures GetChords(slots, naming).Some?
    ensures var r := SetChords(pool, GetChords(slots, naming).value, overwrite, naming);
            && r.error.None?
            && Active(r.slots) == (if overwrite then [] else Active(pool)) + Active(slots)
  {
    hide SetEach, EachJson, Sound, Readable;
    NoneActive(Wiped(pool));
    var start := if overwrite then Wiped(pool) else pool;
    assert Packed(start) && Active(start) == if overwrite then [] else Active(pool);
    EachReadsBack(Active(slots), start, naming);
  }

  // ---- The configuration's methods ----------------------------------------------------------------------

  class Config {
    var slots: seq<Slot>

    constructor ()
      ensures slots == [] && Inv(slots)
    {
      slots := [];
    }

    method Wipe()
      modifies this
      ensures slots == Wiped(old(slots))
    {
      var i := 0;
      while i < |slots|
        invariant i <= |slots| == |old(slots)|
        invariant forall j | 0 <= j < i :: slots[j] == old(slots)[j].(active := false)
        invariant forall j | i <= j < |slots| :: slots[j] == old(slots)[j]
      {
        if slots[i].active {
          slots := slots[i := slots[i].(active := false)];
        }
        i := i + 1;
      }
    }

    /** The first inactive slot, else a new one at the end. */
    method AddBinding() returns (i: nat)
      modifies this
      ensures i == FirstInactive(old(slots)) && slots == Given(old(slots)) && i < |slots|
    {
      i := 0;
      while i < |slots|
        invariant i <= |slots|
        invariant forall j | 0 <= j < i :: slots[j].active
      {
        if !slots[i].active {
          return;
        }
        i := i + 1;
      }
      slots := slots + [BLANK];
    }

    method ScanInto(pattern: string, args: seq<string>, naming: Chord.Naming) returns (error: Option<Error>)
      requires '\0' !in pattern
      modifies this
      ensures Outcome(slots, error) == Scan(old(slots), pattern, args, naming)
    {
      hide Chord.Parse, Actions.Create;
      var i := AddBinding();
      var chord := Chord.ParsePattern(pattern, naming);
      if chord.Err? {
        slots := slots[i := slots[i].(active := false)];
        return Some(BadChord(chord.error));
      }
      var action := Actions.CreateAction(args);
      if action.Err? {
        slots := slots[i := slots[i].(active := false)];
        return Some(BadAction(action.error));
      }
      slots := slots[i := Slot(chord.value, action.action, true)];
      error := None;
    }

    method GetActionArgs(items: seq<Json.Value>) returns (args: Option<seq<string>>)
      ensures args == ActionArgs(items)
    {
      hide ActionArgs, Front, CString;
      var found := new string[|items|](_ => "");
      var j := 0;
      FrontNothing(found[..0], ActionArgs(items));
      assert items[0..] == items;
      while j < |items|
        invariant j <= |items|
        invariant ActionArgs(items) == Front(found[..j], ActionArgs(items[j..]))
      {
        ArgStep(found[..j], items, j);
        if !items[j].String? {
          return None;
        }
        ghost var front := found[..j];
        found[j] := CString(items[j].text);
        assert found[..j + 1] == front + [found[j]];
        j := j + 1;
      }
      ArgsEnd(found[..j], items);
      assert found[..j] == found[..];
      args := Some(found[..]);
    }

    method SetBinding(binding: Json.Value, naming: Chord.Naming) returns (error: Option<Error>)
      modifies this
      ensures Outcome(slots, error) == SetOne(old(slots), binding, naming)
    {
      hide Scan;
      if !binding.Object? {
        return Some(BindingNotObject);
      }
      if |binding.members| != 2 {
        return Some(NotTwoMembers);
      }
      var pattern := Json.Get(binding.members, "pattern");
      if pattern.None? || !pattern.value.String? {
        return Some(NoPattern);
      }
      var action := Json.Get(binding.members, "action");
      if action.None? || !action.value.Array? {
        return Some(NoAction);
      }
      if |action.value.items| == 0 {
        return Some(NoArguments);
      }
      var args := GetActionArgs(action.value.items);
      if args.None? {
        return Some(ArgumentNotString);
      }
      error := ScanInto(CString(pattern.value.text), args.value, naming);
    }

    method SetKeyboardChords(value: Json.Value, overwrite: bool, naming: Chord.Naming) returns (error: Option<Error>)
      modifies this
      ensures Outcome(slots, error) == SetChords(old(slots), value, overwrite, naming)
    {
      hide SetOne;
      if overwrite {
        Wipe();
      }
      ghost var start := slots;
      assert start == if overwrite then Wiped(old(slots)) else old(slots);
      if !value.Array? {
        return Some(ChordsNotArray);
      }
      var i := 0;
      assert value.items[0..] == value.items;
      while i < |value.items|
        invariant i <= |value.items|
        invariant SetEach(start, value.items, naming) == SetEach(slots, value.items[i..], naming)
      {
        assert value.items[i..][1..] == value.items[i + 1..];
        error := SetBinding(value.items[i], naming);
        if error.Some? {
          return;
        }
        i := i + 1;
      }
      error := None;
    }

    method CountActive() returns (len: nat)
      ensures len == |Active(slots)|
    {
      var i := 0;
      len := 0;
      assert slots[0..] == slots;
      while i < |slots|
        invariant i <= |slots| && len + |Active(slots[i..])| == |Active(slots)|
      {
        assert slots[i..][1..] == slots[i + 1..];
        if slots[i].active {
          len := len + 1;
        }
        i := i + 1;
      }
    }

    /** The two loops over the pool: the first sizes the array, the second fills it. */
    method GetKeyboardChords(naming: Chord.Naming) returns (value: Option<Json.Value>)
      ensures value == GetChords(slots, naming)
    {
      hide BindingJson, Active, EachJson, Front;
      var len := CountActive();
      var items := new Json.Value[len](_ => Json.Other(0));
      var idx, i := 0, 0;
      FrontNothing(items[..0], EachJson(Active(slots), naming));
      assert slots[0..] == slots;
      while i < |slots|
        invariant i <= |slots| && idx + |Active(slots[i..])| == len
        invariant EachJson(Active(slots), naming) == Front(items[..idx], EachJson(Active(slots[i..]), naming))
      {
        ActiveStep(slots, i);
        if slots[i].active {
          var bound := Bound(slots[i].chord, slots[i].action);
          var binding := GetBinding(bound, naming);
          FrontStep(items[..idx], bound, Active(slots[i + 1..]), naming);
          if binding.None? {
            return None;
          }
          ghost var front := items[..idx];
          items[idx] := binding.value;
          assert items[..idx + 1] == front + [binding.value];
          idx := idx + 1;
        }
        i := i + 1;
      }
      FrontEnd(items[..idx], slots, naming);
      assert items[..idx] == items[..];
      value := Some(Json.Array(items[..]));
    }

    /** An array of JSON strings. */
    method GetStrings(args: seq<string>) returns (items: seq<Json.Value>)
      ensures items == Strings(args)
    {
      var strings := new Json.Value[|args|](_ => Json.Other(0));
      var i := 0;
      while i < |args|
        invariant i <= |args| && forall j | 0 <= j < i :: strings[j] == Json.String(args[j])
      {
        strings[i] := Json.String(args[i]);
        i := i + 1;
      }
      items := strings[..];
    }

    method GetBinding(bound: Bound, naming: Chord.Naming) returns (value: Option<Json.Value>)
      ensures value == BindingJson(bound, naming)
    {
      hide Chord.Print, Actions.GetArgs, Actions.Fits;
      var pattern := Chord.GetPattern(bound.chord, naming);
      if pattern.None? || !Actions.Fits(bound.action) {
        return None;
      }
      var args := Actions.ActionArgs(bound.action);
      var strings := GetStrings(args);
      value := Some(Json.Object([Json.Member("pattern", Json.String(pattern.value)),
                                 Json.Member("action", Json.Array(strings))]));
    }
  }

  lemma ArgStep(front: seq<string>, items: seq<Json.Value>, j: nat)
    requires j < |items|
    ensures Front(front, ActionArgs(items[j..])) ==
            if items[j].String? then Front(front + [CString(items[j].text)], ActionArgs(items[j + 1..])) else None
  {
    hide CString;
    var rest := ActionArgs(items[j + 1..]);
    assert items[j..][1..] == items[j + 1..];
    if items[j].String? && rest.Some? {
      var arg := CString(items[j].text);
      assert front + ([arg] + rest.value) == front + [arg] + rest.value;
    }
  }

  lemma ArgsEnd(front: seq<string>, items: seq<Json.Value>)
    ensures Front(front, ActionArgs(items[|items|..])) == Some(front)
  {
    assert items[|items|..] == [] && front + [] == front;
  }

  lemma ActiveStep(slots: seq<Slot>, i: nat)
    requires i < |slots|
    ensures Active(slots[i..]) ==
            (if slots[i].active then [Bound(slots[i].chord, slots[i].action)] else []) + Active(slots[i + 1..])
    ensures !slots[i].active ==> Active(slots[i..]) == Active(slots[i + 1..])
  {
    assert slots[i..][1..] == slots[i + 1..];
  }

  lemma FrontStep(front: seq<Json.Value>, bound: Bound, rest: seq<Bound>, naming: Chord.Naming)
    ensures Front(front, EachJson([bound] + rest, naming)) ==
            (var first := BindingJson(bound, naming);
             if first.None? then None else Front(front + [first.value], EachJson(rest, naming)))
  {
    hide BindingJson;
    var first, more := BindingJson(bound, naming), EachJson(rest, naming);
    assert ([bound] + rest)[1..] == rest;
    if first.Some? && more.Some? {
      assert front + ([first.value] + more.value) == front + [first.value] + more.value;
    }
  }

  lemma FrontEnd(front: seq<Json.Value>, slots: seq<Slot>, naming: Chord.Naming)
    ensures |slots[|slots|..]| == 0 && Active(slots[|slots|..]) == []
    ensures Front(front, EachJson([], naming)) == Some(front)
  {
    assert front + [] == front;
  }

  function Front<T>(front: seq<T>, rest: Option<seq<T>>): Option<seq<T>> {
    if rest.None? then None else Some(front + rest.value)
  }

  lemma FrontNothing<T>(front: seq<T>, rest: Option<seq<T>>)
    requires front == []
    ensures Front(front, rest) == rest
  {
    if rest.Some? {
      assert front + rest.value == rest.value;
    }
  }
}
