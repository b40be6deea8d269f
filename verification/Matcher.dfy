/** The chord matcher: what a key press does to server->keys (src/ptychite/keyboard.c). */
module Matcher {
  import opened Lists
  import opened Bindings
  import Chord

  // Keysyms, as in xkbcommon-keysyms.h.
  const SHIFT_L := 0xffe1
  const SHIFT_R := 0xffe2
  const CONTROL_L := 0xffe3
  const CONTROL_R := 0xffe4
  const CAPS_LOCK := 0xffe5
  const ALT_L := 0xffe9
  const ALT_R := 0xffea
  const SUPER_L := 0xffeb
  const SUPER_R := 0xffec
  const SWITCH_VT_1 := 0x1008FE01
  const SWITCH_VT_12 := 0x1008FE0C

  /** Control and Alt. */
  const VT_MODIFIERS := Chord.Mask(12)

  predicate IsModifier(sym: nat) {
    || sym == SUPER_L || sym == SUPER_R || sym == ALT_L || sym == ALT_R || sym == SHIFT_L || sym == SHIFT_R
    || sym == CONTROL_L || sym == CONTROL_R || sym == CAPS_LOCK
  }

  /** The virtual terminal that a keysym asks for, or 0. */
  function VtOf(sym: nat): nat {
    if SWITCH_VT_1 <= sym <= SWITCH_VT_12 then sym - SWITCH_VT_1 + 1 else 0
  }

  /** The twelve keysyms of terminals, in order, and the nine of modifiers. */
  lemma KeysymsMean(sym: nat)
    ensures VtOf(sym) == if 0x1008fe00 < sym <= 0x1008fe0c then sym - 0x1008fe00 else 0
    ensures IsModifier(sym) <==> 0xffe1 <= sym <= 0xffe5 || 0xffe9 <= sym <= 0xffec
  {
  }

  /** Execute(i) runs the action of the binding in slot i. */
  datatype Effect = Execute(slot: nat) | ChangeVt(vt: nat)

  datatype State = State(keys: seq<Chord.Key>, effects: seq<Effect>, handled: bool)

  /** The first slot from i on with an active chord that starts with keys, or the end of the pool. */
  function First(slots: seq<Slot>, keys: seq<Chord.Key>, i: nat): (r: nat)
    requires i <= |slots|
    ensures i <= r <= |slots|
    ensures r < |slots| ==> slots[r].active && keys <= slots[r].chord
    ensures forall j | i <= j < r :: !(slots[j].active && keys <= slots[j].chord)
    decreases |slots| - i
  {
    if i == |slots| || (slots[i].active && keys <= slots[i].chord) then i else First(slots, keys, i + 1)
  }

  function SwitchVt(session: bool, s: State, key: Chord.Key): State {
    if !s.handled && session && key.modifiers == VT_MODIFIERS && VtOf(key.sym) != 0
    then s.(effects := s.effects + [ChangeVt(VtOf(key.sym))], handled := true)
    else s
  }

  /** What one keysym of a key press does. */
  function Press(slots: seq<Slot>, session: bool, s: State, key: Chord.Key): State {
    if s.keys != [] && IsModifier(key.sym) then s.(handled := true)
    else
      var progress := s.keys + [key];
      var i := First(slots, progress, 0);
      if i == |slots| then SwitchVt(session, State([], s.effects, s.keys != []), key)
      else if |slots[i].chord| == |progress| then State([], s.effects + [Execute(i)], true)
      else State(progress, s.effects, true)
  }

  function Feed(slots: seq<Slot>, session: bool, s: State, presses: seq<Chord.Key>): State
    decreases |presses|
  {
    if presses == [] then s else Feed(slots, session, Press(slots, session, s, presses[0]), presses[1..])
  }

  lemma {:induction false} FeedSplit(slots: seq<Slot>, session: bool, s: State, a: seq<Chord.Key>, b: seq<Chord.Key>)
    ensures Feed(slots, session, s, a + b) == Feed(slots, session, Feed(slots, session, s, a), b)
    decreases |a|
  {
    hide Press;
    if a == [] {
      assert a + b == b;
    } else {
      assert (a + b)[1..] == a[1..] + b;
      FeedSplit(slots, session, Press(slots, session, s, a[0]), a[1..], b);
    }
  }

  /** What was handled before leaves no trace after a press. */
  lemma FeedForgets(slots: seq<Slot>, session: bool, s: State, handled: bool, presses: seq<Chord.Key>)
    requires presses != []
    ensures Feed(slots, session, s.(handled := handled), presses) == Feed(slots, session, s, presses)
  {
    hide First, IsModifier;
  }

  // ---- What the keys pressed so far always are ----------------------------------------------------------

  /** The first active chord that starts with these keys goes on after them. */
  ghost predicate Goes(slots: seq<Slot>, keys: seq<Chord.Key>) {
    var i := First(slots, keys, 0);
    i < |slots| && |keys| < |slots[i].chord|
  }

  /** Each key led on to the next, and none after the first is a modifier. */
  ghost predicate Reached(slots: seq<Slot>, keys: seq<Chord.Key>) {
    && (forall n | 0 < n <= |keys| :: Goes(slots, keys[..n]))
    && (forall n | 0 < n < |keys| :: !IsModifier(keys[n].sym))
  }

  lemma PressKeepsReached(slots: seq<Slot>, session: bool, s: State, key: Chord.Key)
    requires Reached(slots, s.keys)
    ensures Reached(slots, Press(slots, session, s, key).keys)
  {
    hide First, IsModifier, SwitchVt;
    SwitchVtKeepsKeys(session, State([], s.effects, s.keys != []), key);
    var progress := s.keys + [key];
    if Press(slots, session, s, key).keys == progress {
      forall n | 0 < n <= |progress| ensures Goes(slots, progress[..n]) {
        assert progress[..n] == if n <= |s.keys| then s.keys[..n] else progress;
      }
    }
  }

  lemma SwitchVtKeepsKeys(session: bool, s: State, key: Chord.Key)
    ensures SwitchVt(session, s, key).keys == s.keys
  {
  }

  /** After any run, the keys held are none, or a proper prefix of an active chord. */
  lemma {:induction false} KeysArePrefix(slots: seq<Slot>, session: bool, s: State, presses: seq<Chord.Key>)
    requires Reached(slots, s.keys)
    ensures var keys := Feed(slots, session, s, presses).keys;
            && Reached(slots, keys)
            && (keys != [] ==> exists i | 0 <= i < |slots| :: slots[i].active && keys < slots[i].chord)
    decreases |presses|
  {
    hide Press, First;
    if presses == [] {
      if s.keys != [] {
        assert s.keys[..|s.keys|] == s.keys && Goes(slots, s.keys[..|s.keys|]);
        assert s.keys < slots[First(slots, s.keys, 0)].chord;
      }
    } else {
      PressKeepsReached(slots, session, s, presses[0]);
      KeysArePrefix(slots, session, Press(slots, session, s, presses[0]), presses[1..]);
    }
  }

  // ---- Which bindings can run, and when -----------------------------------------------------------------

  /**
   * Typing the chord of slot i runs it: no key after the first is a modifier, at every key before the last the first
   * matching chord is a longer one, and at the last key slot i is the first match.
   */
  ghost predicate Executable(slots: seq<Slot>, i: nat) {
    && i < |slots|
    && slots[i].chord != []
    && var chord := slots[i].chord;
    && Reached(slots, chord[..|chord| - 1])
    && (|chord| > 1 ==> !IsModifier(chord[|chord| - 1].sym))
    && First(slots, chord, 0) == i
  }

  lemma ReachedFront(slots: seq<Slot>, keys: seq<Chord.Key>)
    requires Reached(slots, keys) && keys != []
    ensures Reached(slots, keys[..|keys| - 1]) && Goes(slots, keys)
  {
    hide Goes;
    var front := keys[..|keys| - 1];
    forall m | 0 < m <= |front| ensures Goes(slots, front[..m]) {
      assert front[..m] == keys[..m];
    }
    assert keys[..|keys|] == keys;
  }

  lemma {:induction false} TypingCollects(slots: seq<Slot>, session: bool, s: State, keys: seq<Chord.Key>)
    requires s.keys == [] && Reached(slots, keys)
    ensures Feed(slots, session, s, keys) == State(keys, s.effects, if keys == [] then s.handled else true)
    decreases |keys|
  {
    hide First, IsModifier, SwitchVt;
    if keys != [] {
      var n := |keys| - 1;
      var front := keys[..n];
      ReachedFront(slots, keys);
      TypingCollects(slots, session, s, front);
      assert keys == front + [keys[n]];
      FeedSplit(slots, session, s, front, [keys[n]]);
      FeedOne(slots, session, Feed(slots, session, s, front), keys[n]);
    }
  }

  lemma FeedOne(slots: seq<Slot>, session: bool, s: State, key: Chord.Key)
    ensures Feed(slots, session, s, [key]) == Press(slots, session, s, key)
  {
    hide Press;
    assert [key][1..] == [];
    assert Feed(slots, session, Press(slots, session, s, key), []) == Press(slots, session, s, key);
  }

  /** Typing an executable chord runs its binding once, at the last key, and leaves no keys. */
  lemma TypingRuns(slots: seq<Slot>, session: bool, s: State, i: nat)
    requires s.keys == [] && Executable(slots, i)
    ensures var chord := slots[i].chord;
            && Feed(slots, session, s, chord[..|chord| - 1]).effects == s.effects
            && Feed(slots, session, s, chord) == State([], s.effects + [Execute(i)], true)
  {
    hide First, IsModifier, SwitchVt;
    var chord := slots[i].chord;
    var front, last := chord[..|chord| - 1], chord[|chord| - 1];
    TypingCollects(slots, session, s, front);
    assert chord == front + [last];
    FeedSplit(slots, session, s, front, [last]);
    FeedOne(slots, session, Feed(slots, session, s, front), last);
  }

  /** A press that runs a binding ends that binding's chord, which is executable. */
  lemma PressRunsExecutable(slots: seq<Slot>, session: bool, s: State, key: Chord.Key, i: nat)
    requires Reached(slots, s.keys)
    requires Press(slots, session, s, key).effects == s.effects + [Execute(i)]
    ensures Executable(slots, i) && slots[i].chord == s.keys + [key]
  {
    hide First, IsModifier;
    var progress := s.keys + [key];
    var k := First(slots, progress, 0);
    var after := Press(slots, session, s, key);
    assert after.effects[|s.effects|] == Execute(i);
    assert k == i;
    assert slots[i].chord == progress;
    assert progress[..|progress| - 1] == s.keys;
  }

  lemma PressEffects(slots: seq<Slot>, session: bool, s: State, key: Chord.Key, i: nat)
    requires Execute(i) in Press(slots, session, s, key).effects
    ensures Execute(i) in s.effects || Press(slots, session, s, key).effects == s.effects + [Execute(i)]
  {
    hide First, IsModifier;
  }

  lemma {:induction false} RunsOnlyExecutable(slots: seq<Slot>, session: bool, s: State, presses: seq<Chord.Key>, i: nat)
    requires Reached(slots, s.keys) && Execute(i) !in s.effects
    requires Execute(i) in Feed(slots, session, s, presses).effects
    ensures Executable(slots, i)
    decreases |presses|
  {
    hide Press, Executable, Reached;
    if presses != [] {
      var next := Press(slots, session, s, presses[0]);
      if Execute(i) in next.effects {
        PressEffects(slots, session, s, presses[0], i);
        PressRunsExecutable(slots, session, s, presses[0], i);
      } else {
        PressKeepsReached(slots, session, s, presses[0]);
        RunsOnlyExecutable(slots, session, next, presses[1..], i);
      }
    }
  }

  const START := State([], [], false)

  /** Some run from the start executes a binding exactly when the binding is executable. */
  lemma SomeRunExecutes(slots: seq<Slot>, session: bool, i: nat)
    ensures Executable(slots, i) <==>
            exists presses :: Execute(i) in Feed(slots, session, START, presses).effects
  {
    hide Press, Feed;
    if Executable(slots, i) {
      TypingRuns(slots, session, START, i);
      assert Execute(i) in Feed(slots, session, START, slots[i].chord).effects;
    }
    hide Executable;
    if presses :| Execute(i) in Feed(slots, session, START, presses).effects {
      RunsOnlyExecutable(slots, session, START, presses, i);
    }
  }

  // ---- Prefix-free chords -------------------------------------------------------------------------------

  ghost predicate PrefixFree(slots: seq<Slot>) {
    forall i, j | 0 <= i < |slots| && 0 <= j < |slots| && i != j && slots[i].active && slots[j].active ::
      !(slots[i].chord <= slots[j].chord)
  }

  ghost predicate Typable(chord: seq<Chord.Key>) {
    chord != [] && forall n | 0 < n < |chord| :: !IsModifier(chord[n].sym)
  }

  lemma PrefixGoes(slots: seq<Slot>, i: nat, n: nat)
    requires PrefixFree(slots) && i < |slots| && slots[i].active && 0 < n <= |slots[i].chord|
    ensures First(slots, slots[i].chord[..n], 0) == i || (n < |slots[i].chord| && Goes(slots, slots[i].chord[..n]))
  {
    hide First;
    var part := slots[i].chord[..n];
    var k := First(slots, part, 0);
    assert part <= slots[i].chord;
    assert k == i || (!(slots[k].chord <= slots[i].chord) && !(slots[i].chord <= slots[k].chord));
    assert |slots[k].chord| == n ==> slots[k].chord == part;
    assert n == |slots[i].chord| ==> part == slots[i].chord;
  }

  /** Among prefix-free chords, those without a modifier after the first key are the ones that can run. */
  lemma PrefixFreeExecutable(slots: seq<Slot>, i: nat)
    requires PrefixFree(slots) && i < |slots| && slots[i].active
    ensures Executable(slots, i) <==> Typable(slots[i].chord)
  {
    hide IsModifier, First, PrefixFree;
    var chord := slots[i].chord;
    if chord != [] {
      var front := chord[..|chord| - 1];
      assert forall n | 0 <= n < |front| :: front[n] == chord[n];
      forall n | 0 < n <= |front| ensures Goes(slots, front[..n]) {
        PrefixGoes(slots, i, n);
        assert front[..n] == chord[..n];
      }
      PrefixGoes(slots, i, |chord|);
      assert chord[..|chord|] == chord;
      if Executable(slots, i) {
        forall n | 0 < n < |chord| ensures !IsModifier(chord[n].sym) {
          assert n < |front| ==> !IsModifier(front[n].sym);
        }
      }
    }
  }

  // ---- Modifiers pressed on the way ---------------------------------------------------------------------

  /** The presses that are not of a modifier. */
  function Plain(presses: seq<Chord.Key>): seq<Chord.Key> {
    if presses == [] then []
    else (if IsModifier(presses[0].sym) then [] else [presses[0]]) + Plain(presses[1..])
  }

  lemma {:induction false} ModifiersIgnored(slots: seq<Slot>, session: bool, s: State, presses: seq<Chord.Key>)
    requires s.keys != [] && s.handled
    requires Reached(slots, s.keys + Plain(presses))
    ensures Feed(slots, session, s, presses) == State(s.keys + Plain(presses), s.effects, true)
    decreases |presses|
  {
    hide First, IsModifier, SwitchVt;
    if presses == [] {
      assert s.keys + Plain(presses) == s.keys;
    } else if IsModifier(presses[0].sym) {
      assert Plain(presses) == Plain(presses[1..]);
      ModifiersIgnored(slots, session, s, presses[1..]);
    } else {
      var progress := s.keys + [presses[0]];
      assert s.keys + Plain(presses) == progress + Plain(presses[1..]);
      assert (s.keys + Plain(presses))[..|progress|] == progress;
      assert Goes(slots, progress);
      assert Press(slots, session, s, presses[0]) == State(progress, s.effects, true);
      ModifiersIgnored(slots, session, State(progress, s.effects, true), presses[1..]);
    }
  }

  /** Modifiers pressed between the first and the last key of an executable chord change nothing. */
  lemma TypingRunsDespiteModifiers(slots: seq<Slot>, session: bool, s: State, i: nat, between: seq<Chord.Key>)
    requires s.keys == [] && Executable(slots, i) && |slots[i].chord| > 1
    requires var chord := slots[i].chord; Plain(between) == chord[1..|chord| - 1]
    ensures var chord := slots[i].chord;
            Feed(slots, session, s, [chord[0]] + between + [chord[|chord| - 1]]) ==
            State([], s.effects + [Execute(i)], true)
  {
    hide First, IsModifier, SwitchVt, Feed, Plain;
    var chord := slots[i].chord;
    var first, last, front := chord[0], chord[|chord| - 1], chord[..|chord| - 1];
    assert front[..1] == [first] && front == [first] + Plain(between) && chord == front + [last];
    assert Goes(slots, front[..1]);
    TypingCollects(slots, session, s, [first]);
    FeedSplit(slots, session, s, [first], between);
    ModifiersIgnored(slots, session, State([first], s.effects, true), between);
    FeedSplit(slots, session, s, [first] + between, [last]);
    FeedOne(slots, session, State(front, s.effects, true), last);
  }

  // ---- What each press does, from the presses before it -------------------------------------------------

  /** The keys that these presses, with none held before, would make up: modifiers count only as the first. */
  function Strokes(presses: seq<Chord.Key>): seq<Chord.Key> {
    if presses == [] then [] else [presses[0]] + Plain(presses[1..])
  }

  lemma {:induction false} PlainConcat(a: seq<Chord.Key>, b: seq<Chord.Key>)
    ensures Plain(a + b) == Plain(a) + Plain(b)
  {
    hide IsModifier;
    if a == [] {
      assert a + b == b;
    } else {
      assert (a + b)[1..] == a[1..] + b;
      PlainConcat(a[1..], b);
    }
  }

  lemma StrokesSnoc(presses: seq<Chord.Key>, key: Chord.Key)
    ensures Strokes(presses + [key]) ==
            if presses == [] then [key] else Strokes(presses) + if IsModifier(key.sym) then [] else [key]
    ensures Strokes(presses) == [] <==> presses == []
  {
    hide IsModifier;
    var all := presses + [key];
    if presses == [] {
      assert all[1..] == [];
    } else {
      assert all[1..] == presses[1..] + [key];
      PlainConcat(presses[1..], [key]);
      assert [key][1..] == [];
    }
  }

  /** The number of presses after which no keys were held for the last time. */
  ghost function LastEmpty(slots: seq<Slot>, session: bool, s: State, presses: seq<Chord.Key>): (n: nat)
    requires s.keys == []
    ensures n <= |presses| && Feed(slots, session, s, presses[..n]).keys == []
    ensures forall m | n < m <= |presses| :: Feed(slots, session, s, presses[..m]).keys != []
  {
    assert presses[..|presses|] == presses;
    if Feed(slots, session, s, presses).keys == [] then |presses|
    else
      var front := presses[..|presses| - 1];
      assert forall m | 0 <= m <= |front| :: front[..m] == presses[..m];
      LastEmpty(slots, session, s, front)
  }

  /** The presses since no keys were held. */
  ghost function Pending(slots: seq<Slot>, session: bool, s: State, presses: seq<Chord.Key>): seq<Chord.Key>
    requires s.keys == []
  {
    presses[LastEmpty(slots, session, s, presses)..]
  }

  lemma PendingStep(slots: seq<Slot>, session: bool, s: State, presses: seq<Chord.Key>, key: Chord.Key)
    requires s.keys == []
    ensures var all := presses + [key];
            Pending(slots, session, s, all) ==
            if Feed(slots, session, s, all).keys == [] then [] else Pending(slots, session, s, presses) + [key]
  {
    hide Feed;
    var all := presses + [key];
    assert all[..|all| - 1] == presses;
  }

  lemma FeedNext(slots: seq<Slot>, session: bool, s: State, presses: seq<Chord.Key>, key: Chord.Key)
    ensures Feed(slots, session, s, presses + [key]) == Press(slots, session, Feed(slots, session, s, presses), key)
  {
    hide Feed;
    FeedSplit(slots, session, s, presses, [key]);
    FeedOne(slots, session, Feed(slots, session, s, presses), key);
  }

  /** The keys held are the strokes of an unbroken end of the presses, the one since none were held. */
  lemma {:induction false} HeldKeys(slots: seq<Slot>, session: bool, s: State, presses: seq<Chord.Key>)
    requires s.keys == []
    ensures Feed(slots, session, s, presses).keys == Strokes(Pending(slots, session, s, presses))
    decreases |presses|
  {
    hide Feed, IsModifier, First, SwitchVt, Strokes, Pending;
    if presses == [] {
      NothingPending(slots, session, s);
    } else {
      var front, key := presses[..|presses| - 1], presses[|presses| - 1];
      assert presses == front + [key];
      HeldKeys(slots, session, s, front);
      FeedNext(slots, session, s, front, key);
      PendingStep(slots, session, s, front, key);
      StrokesSnoc(Pending(slots, session, s, front), key);
      StrokesNone();
      SwitchVtKeepsKeys(session, State([], Feed(slots, session, s, front).effects,
                                       Feed(slots, session, s, front).keys != []), key);
    }
  }

  lemma StrokesNone()
    ensures Strokes([]) == []
  {
  }

  lemma NothingPending(slots: seq<Slot>, session: bool, s: State)
    requires s.keys == []
    ensures Feed(slots, session, s, []) == s && Pending(slots, session, s, []) == [] && Strokes([]) == []
  {
  }

  /** Slot i holds the first active chord that begins with these keys. */
  ghost predicate Leads(slots: seq<Slot>, keys: seq<Chord.Key>, i: nat) {
    && i < |slots| && slots[i].active && keys <= slots[i].chord
    && forall j | 0 <= j < i :: !(slots[j].active && keys <= slots[j].chord)
  }

  lemma FirstLeads(slots: seq<Slot>, keys: seq<Chord.Key>)
    ensures var i := First(slots, keys, 0);
            if i < |slots| then Leads(slots, keys, i) else forall j | 0 <= j < |slots| :: !(slots[j].active && keys <= slots[j].chord)
    ensures forall i: nat | Leads(slots, keys, i) :: i < |slots| && i == First(slots, keys, 0)
  {
    hide First;
    var k := First(slots, keys, 0);
    forall i: nat | Leads(slots, keys, i) ensures i == k {
      assert k < |slots| ==> slots[k].active && keys <= slots[k].chord;
    }
  }

  /**
   * A press after any others: a modifier while keys are held changes nothing; the end of the first chord that the
   * strokes begin runs its binding and drops the keys; a stroke inside it is held; and any other drops the keys, and
   * may switch the terminal if there were none.
   */
  lemma NextPress(slots: seq<Slot>, session: bool, s: State, presses: seq<Chord.Key>, key: Chord.Key)
    requires s.keys == []
    ensures var before, after := Feed(slots, session, s, presses), Feed(slots, session, s, presses + [key]);
            var pending := Pending(slots, session, s, presses);
            var strokes := Strokes(pending + [key]);
            if pending != [] && IsModifier(key.sym) then after == State(before.keys, before.effects, true)
            else
              && (forall i: nat | Leads(slots, strokes, i) ::
                    after == if slots[i].chord == strokes then State([], before.effects + [Execute(i)], true)
                             else State(strokes, before.effects, true))
              && ((forall i | 0 <= i < |slots| :: !(slots[i].active && strokes <= slots[i].chord)) ==>
                    var vt := if pending == [] && session && key.modifiers == VT_MODIFIERS then VtOf(key.sym) else 0;
                    after == State([], before.effects + (if vt == 0 then [] else [ChangeVt(vt)]), pending != [] || vt != 0))
  {
    hide Feed, IsModifier, First, Strokes, Pending, Leads;
    var pending := Pending(slots, session, s, presses);
    HeldKeys(slots, session, s, presses);
    FeedNext(slots, session, s, presses, key);
    StrokesSnoc(pending, key);
    StrokesNone();
    var strokes := Strokes(pending + [key]);
    FirstLeads(slots, strokes);
    assert pending == [] || !IsModifier(key.sym) ==> Feed(slots, session, s, presses).keys + [key] == strokes;
    var k := First(slots, strokes, 0);
    assert k < |slots| ==> (|slots[k].chord| == |strokes| <==> slots[k].chord == strokes);
  }

  /** A press runs binding i exactly if the strokes since no keys were held are its chord and no earlier one begins so. */
  lemma PressRuns(slots: seq<Slot>, session: bool, s: State, presses: seq<Chord.Key>, key: Chord.Key, i: nat)
    requires s.keys == []
    ensures var before, after := Feed(slots, session, s, presses), Feed(slots, session, s, presses + [key]);
            var pending := Pending(slots, session, s, presses);
            after.effects == before.effects + [Execute(i)] <==>
              && (pending == [] || !IsModifier(key.sym))
              && Leads(slots, Strokes(pending + [key]), i)
              && slots[i].chord == Strokes(pending + [key])
  {
    hide Feed, IsModifier, First, Strokes, Pending, Leads;
    var before, after := Feed(slots, session, s, presses), Feed(slots, session, s, presses + [key]);
    var strokes := Strokes(Pending(slots, session, s, presses) + [key]);
    NextPress(slots, session, s, presses, key);
    FirstLeads(slots, strokes);
    if after.effects == before.effects + [Execute(i)] {
      assert after.effects[|before.effects|] == Execute(i);
    }
  }

  // ---- The handler --------------------------------------------------------------------------------------

  /** The keysyms of one key event, with the modifiers held during it. */
  function Presses(syms: seq<nat>, modifiers: Chord.Mask): (r: seq<Chord.Key>)
    ensures |r| == |syms| && forall i | 0 <= i < |syms| :: r[i] == Chord.Key(modifiers, syms[i])
  {
    seq(|syms|, i requires 0 <= i < |syms| => Chord.Key(modifiers, syms[i]))
  }

  /** A key that goes down: the keysyms it stands for, and the modifiers held. */
  datatype KeyEvent = KeyEvent(syms: seq<nat>, modifiers: Chord.Mask)

  /** The presses of some key events, one after another. */
  function AllPresses(events: seq<KeyEvent>): seq<Chord.Key> {
    if events == [] then []
    else
      var last := events[|events| - 1];
      AllPresses(events[..|events| - 1]) + Presses(last.syms, last.modifiers)
  }

  lemma AllPressesSnoc(events: seq<KeyEvent>, e: KeyEvent)
    ensures AllPresses(events + [e]) == AllPresses(events) + Presses(e.syms, e.modifiers)
  {
    assert (events + [e])[..|events|] == events;
  }

  /** After some key events, another one goes on from the keys held and the effects so far. */
  lemma EventGoesOn(slots: seq<Slot>, session: bool, s: State, events: seq<KeyEvent>, e: KeyEvent)
    ensures var before := Feed(slots, session, s, AllPresses(events));
            var one := Feed(slots, session, before.(handled := false), Presses(e.syms, e.modifiers));
            var all := Feed(slots, session, s, AllPresses(events + [e]));
            all.keys == one.keys && all.effects == one.effects && (e.syms != [] ==> all == one)
  {
    hide Press;
    var before, presses := Feed(slots, session, s, AllPresses(events)), Presses(e.syms, e.modifiers);
    AllPressesSnoc(events, e);
    FeedSplit(slots, session, s, AllPresses(events), presses);
    if presses != [] {
      FeedForgets(slots, session, before, false, presses);
    }
  }

  /** Keys, effects and answers are those of the run of all presses; an event without keysyms is not handled. */
  ghost predicate Follows(slots: seq<Slot>, session: bool, s: State, events: seq<KeyEvent>, keys: seq<Chord.Key>,
                          effects: seq<Effect>, handled: seq<bool>)
  {
    var all := Feed(slots, session, s, AllPresses(events));
    && keys == all.keys && effects == all.effects
    && |handled| == |events|
    && forall i | 0 <= i < |events| ::
         handled[i] == (events[i].syms != [] && Feed(slots, session, s, AllPresses(events[..i + 1])).handled)
  }

  lemma FollowsStart(slots: seq<Slot>, session: bool, s: State)
    ensures Follows(slots, session, s, [], s.keys, s.effects, [])
  {
  }

  lemma FollowsNext(slots: seq<Slot>, session: bool, s: State, events: seq<KeyEvent>, keys: seq<Chord.Key>,
                    effects: seq<Effect>, handled: seq<bool>, e: KeyEvent, after: State)
    requires Follows(slots, session, s, events, keys, effects, handled)
    requires after == Feed(slots, session, State(keys, effects, false), Presses(e.syms, e.modifiers))
    ensures Follows(slots, session, s, events + [e], after.keys, after.effects, handled + [after.handled])
  {
    hide Feed, AllPresses;
    EventGoesOn(slots, session, s, events, e);
    var before := Feed(slots, session, s, AllPresses(events));
    assert before.(handled := false) == State(keys, effects, false);
    if e.syms == [] { NoSymsNotHandled(slots, session, State(keys, effects, false), e); }
    var longer := events + [e];
    assert longer[..|events| + 1] == longer;
    forall i | 0 <= i < |longer|
      ensures (handled + [after.handled])[i] ==
              (longer[i].syms != [] && Feed(slots, session, s, AllPresses(longer[..i + 1])).handled)
    {
      if i < |events| {
        assert longer[..i + 1] == events[..i + 1];
      }
    }
  }

  lemma NoSymsNotHandled(slots: seq<Slot>, session: bool, s: State, e: KeyEvent)
    requires e.syms == []
    ensures Feed(slots, session, s, Presses(e.syms, e.modifiers)) == s
  {
  }

  class Server {
    var keys: seq<Chord.Key>
    var effects: seq<Effect>

    constructor ()
      ensures keys == [] && effects == []
    {
      keys, effects := [], [];
    }

    /** The key by key comparison of the keys so far with a chord. */
    method Continues(chord: seq<Chord.Key>) returns (same: bool)
      requires |keys| < |chord|
      ensures same <==> keys <= chord
    {
      var j := 0;
      while j < |keys|
        invariant j <= |keys| && keys[..j] == chord[..j]
      {
        if chord[j].sym != keys[j].sym || chord[j].modifiers != keys[j].modifiers {
          return false;
        }
        j := j + 1;
      }
      same := true;
    }

    /** The search of the pool for the first active chord that the key continues. */
    method FindBinding(slots: seq<Slot>, key: Chord.Key) returns (i: nat)
      ensures i == First(slots, keys + [key], 0)
    {
      i := 0;
      var progress := |keys|;
      while i < |slots|
        invariant i <= |slots| && First(slots, keys + [key], 0) == First(slots, keys + [key], i)
      {
        ghost var wanted := keys + [key];
        var chord := slots[i].chord;
        if slots[i].active && progress < |chord| {
          var same := Continues(chord);
          if same && key.sym == chord[progress].sym && key.modifiers == chord[progress].modifiers {
            assert wanted <= chord;
            return;
          }
          assert wanted <= chord ==> keys <= chord && chord[progress] == wanted[progress];
        }
        i := i + 1;
      }
    }

    method HandleSym(slots: seq<Slot>, session: bool, key: Chord.Key, before: bool) returns (handled: bool)
      modifies this
      ensures State(keys, effects, handled) == Press(slots, session, State(old(keys), old(effects), before), key)
    {
      hide First, IsModifier;
      if keys != [] && IsModifier(key.sym) {
        return true;
      }
      var i := FindBinding(slots, key);
      if i < |slots| {
        if |slots[i].chord| == |keys| + 1 {
          effects := effects + [Execute(i)];
          keys := [];
        } else {
          keys := keys + [key];
        }
        return true;
      }
      if keys != [] {
        keys := [];
        handled := true;
      } else {
        handled := false;
      }
      if !handled && session && key.modifiers == VT_MODIFIERS {
        var vt := VtOf(key.sym);
        if vt != 0 {
          handled := true;
          effects := effects + [ChangeVt(vt)];
        }
      }
    }

    /** The pressed branch of the key handler. */
    method HandleKey(config: Config, session: bool, syms: seq<nat>, modifiers: Chord.Mask) returns (handled: bool)
      modifies this
      ensures State(keys, effects, handled) ==
              Feed(config.slots, session, State(old(keys), old(effects), false), Presses(syms, modifiers))
    {
      hide Press;
      handled := false;
      ghost var presses := Presses(syms, modifiers);
      assert presses[0..] == presses;
      var i := 0;
      while i < |syms|
        invariant i <= |syms|
        invariant Feed(config.slots, session, State(old(keys), old(effects), false), presses) ==
                  Feed(config.slots, session, State(keys, effects, handled), presses[i..])
      {
        assert presses[i..][1..] == presses[i + 1..];
        handled := HandleSym(config.slots, session, Chord.Key(modifiers, syms[i]), handled);
        i := i + 1;
      }
    }

    /** One key event after another; for each, whether the compositor handled it. */
    method HandleKeys(config: Config, session: bool, events: seq<KeyEvent>) returns (handled: seq<bool>)
      modifies this
      ensures Follows(config.slots, session, State(old(keys), old(effects), false), events, keys, effects, handled)
    {
      hide Follows, Feed;
      ghost var s, slots := State(keys, effects, false), config.slots;
      handled := [];
      FollowsStart(slots, session, s);
      for i := 0 to |events|
        invariant config.slots == slots && Follows(slots, session, s, events[..i], keys, effects, handled)
      {
        ghost var keysBefore, effectsBefore := keys, effects;
        var one := HandleKey(config, session, events[i].syms, events[i].modifiers);
        FollowsNext(slots, session, s, events[..i], keysBefore, effectsBefore, handled, events[i],
                    State(keys, effects, one));
        assert events[..i + 1] == events[..i] + [events[i]];
        handled := handled + [one];
      }
      assert events[..|events|] == events;
    }
  }

  /**
   * Any key events on a new server: the keys held begin an active chord, only executable bindings have run, and if
   * the events type the chord of such a binding it has run, once and alone.
   */
  method Run(config: Config, session: bool, events: seq<KeyEvent>) returns (server: Server, handled: seq<bool>)
    ensures server.keys != [] ==>
              exists i | 0 <= i < |config.slots| :: config.slots[i].active && server.keys < config.slots[i].chord
    ensures forall i: nat :: Execute(i) in server.effects ==> Executable(config.slots, i)
    ensures forall i: nat :: Executable(config.slots, i) && AllPresses(events) == config.slots[i].chord ==>
              server.keys == [] && server.effects == [Execute(i)]
  {
    hide Feed, First;
    ghost var slots := config.slots;
    server := new Server();
    handled := server.HandleKeys(config, session, events);
    KeysArePrefix(slots, session, START, AllPresses(events));
    forall i: nat | Execute(i) in server.effects ensures Executable(slots, i) {
      RunsOnlyExecutable(slots, session, START, AllPresses(events), i);
    }
    forall i: nat | i < |slots| && Executable(slots, i) && AllPresses(events) == slots[i].chord
      ensures server.keys == [] && server.effects == [Execute(i)]
    {
      TypingRuns(slots, session, START, i);
    }
  }
}
