/** The chord language: key patterns such as "S-x C-Sh-f" (src/ptychite/chord.c). */
module Chord {
  import opened Lists

  /** A set of modifiers: a 32-bit mask. */
  datatype Mask = Mask(bits: bv32)

  const NONE_HELD := Mask(0)

  datatype Key = Key(modifiers: Mask, sym: nat)

  /** xkb's naming of keysyms: fromName answers 0 (XKB_KEY_NoSymbol) for an unknown name. */
  datatype Naming = Naming(fromName: string -> nat, nameOf: nat -> Option<string>)

  datatype Error = Empty | UnexpectedCharacter | UnknownModifier | UnknownSymName

  datatype Result<+T> = Ok(value: T) | Err(error: Error)

  datatype ModifierName = ModifierName(name: string, value: Mask)

  const MODIFIER_NAME_TABLE: seq<ModifierName> := [
    ModifierName("Sh", Mask(1)),
    ModifierName("Cp", Mask(2)),
    ModifierName("C", Mask(4)),
    ModifierName("M", Mask(8)),
    ModifierName("M1", Mask(8)),
    ModifierName("A", Mask(8)),
    ModifierName("M2", Mask(16)),
    ModifierName("M3", Mask(32)),
    ModifierName("S", Mask(64)),
    ModifierName("M4", Mask(64)),
    ModifierName("M5", Mask(128))
  ]

  // ---- What a pattern means -----------------------------------------------------------------------------

  function ModifierFrom(name: string, k: nat): Option<Mask>
    requires k <= |MODIFIER_NAME_TABLE|
    decreases |MODIFIER_NAME_TABLE| - k
  {
    if k == |MODIFIER_NAME_TABLE| then None
    else if MODIFIER_NAME_TABLE[k].name == name then Some(MODIFIER_NAME_TABLE[k].value)
    else ModifierFrom(name, k + 1)
  }

  function Join(a: Mask, b: Mask): Mask {
    Mask(a.bits | b.bits)
  }

  /** The modifier that a token names before its dash; a key must follow the dash. */
  function ModifierBefore(token: string, dash: nat): Result<Mask>
    requires dash < |token|
  {
    if dash + 1 == |token| || token[dash + 1] == '-' then Err(UnexpectedCharacter)
    else
      var value := ModifierFrom(token[..dash], 0);
      if value.None? then Err(UnknownModifier) else Ok(value.value)
  }

  /** A token: modifier names, each followed by a dash, then the name of a keysym. */
  function ParseToken(token: string, modifiers: Mask, naming: Naming): Result<Key> {
    var dash := Find(token, '-');
    if dash < |token| then
      var value := ModifierBefore(token, dash);
      if value.Err? then Err(value.error) else ParseToken(token[dash + 1..], Join(modifiers, value.value), naming)
    else
      var sym := naming.fromName(token);
      if sym == 0 then Err(UnknownSymName) else Ok(Key(modifiers, sym))
  }

  /** The keys of a pattern's tokens, which spaces separate. */
  function ParseRest(s: string, naming: Naming): Result<seq<Key>>
    decreases |s|
  {
    if s == "" then Ok([])
    else if s[0] == ' ' then ParseRest(s[1..], naming)
    else if s[0] == '-' then Err(UnexpectedCharacter)
    else
      var end := Find(s, ' ');
      var key := ParseToken(s[..end], NONE_HELD, naming);
      if key.Err? then Err(key.error)
      else if end == |s| then Ok([key.value])
      else
        var rest := ParseRest(s[end + 1..], naming);
        if rest.Err? then rest else Ok([key.value] + rest.value)
  }

  /** The number of tokens, as the counting pass finds it. */
  function CountTokens(s: string, onSpace: bool): nat {
    if s == "" then 0
    else (if onSpace && s[0] != ' ' then 1 else 0) + CountTokens(s[1..], s[0] == ' ')
  }

  function Parse(pattern: string, naming: Naming): Result<seq<Key>> {
    if CountTokens(pattern, true) == 0 then Err(Empty) else ParseRest(pattern, naming)
  }

  lemma {:induction false} CountSkips(s: string, onSpace: bool)
    ensures CountTokens(s, onSpace) ==
            (if onSpace && s != "" && s[0] != ' ' then 1 else 0) + CountTokens(s[Find(s, ' ')..], false)
  {
    if s != "" && s[0] != ' ' {
      CountSkips(s[1..], false);
      assert s[1..][Find(s[1..], ' ')..] == s[Find(s, ' ')..];
    } else if s != "" {
      assert s[0..] == s;
    }
  }

  /** The two passes agree: parsing yields exactly the counted number of keys. */
  lemma {:induction false} ParseFillsCount(s: string, naming: Naming)
    requires ParseRest(s, naming).Ok?
    ensures |ParseRest(s, naming).value| == CountTokens(s, true)
    decreases |s|
  {
    if s != "" {
      if s[0] == ' ' {
        ParseFillsCount(s[1..], naming);
      } else {
        var end := Find(s, ' ');
        CountSkips(s, true);
        if end < |s| {
          ParseFillsCount(s[end + 1..], naming);
          assert s[end..][1..] == s[end + 1..];
        }
      }
    }
  }

  // ---- Printing -----------------------------------------------------------------------------------------

  /** 1 << j, for the eight modifiers the printer looks at. */
  function OneBit(j: nat): bv32
    requires j < 8
  {
    match j
    case 0 => 1 case 1 => 2 case 2 => 4 case 3 => 8 case 4 => 16 case 5 => 32 case 6 => 64 case _ => 128
  }

  function Bit(j: nat): Mask
    requires j < 8
  {
    Mask(OneBit(j))
  }

  predicate Has(m: Mask, j: nat)
    requires j < 8
  {
    m.bits & OneBit(j) != 0
  }

  function NameOfBit(j: nat): string
    requires j < 8
  {
    match j
    case 0 => "Sh" case 1 => "Cp" case 2 => "C" case 3 => "M" case 4 => "M2" case 5 => "M3" case 6 => "S" case _ => "M5"
  }

  /** The first name that the table has for a value, from entry k on. */
  function NameFrom(value: Mask, k: nat): Option<string>
    requires k <= |MODIFIER_NAME_TABLE|
    decreases |MODIFIER_NAME_TABLE| - k
  {
    if k == |MODIFIER_NAME_TABLE| then None
    else if MODIFIER_NAME_TABLE[k].value == value then Some(MODIFIER_NAME_TABLE[k].name)
    else NameFrom(value, k + 1)
  }

  /** The modifiers of a printed key, from bit j on. */
  function PrintModifiers(m: Mask, j: nat): string
    requires j <= 8
    decreases 8 - j
  {
    if j == 8 then ""
    else (if Has(m, j) then NameOfBit(j) + "-" else "") + PrintModifiers(m, j + 1)
  }

  function PrintKey(key: Key, naming: Naming): Option<string> {
    var name := naming.nameOf(key.sym);
    if name.None? then None else Some(PrintModifiers(key.modifiers, 0) + name.value)
  }

  /** Every key followed by a space; nothing if a keysym has no name. */
  function PrintSpaced(keys: seq<Key>, naming: Naming): (r: Option<string>)
    ensures keys != [] && r.Some? ==> r.value != ""
  {
    if keys == [] then Some("")
    else
      var first, rest := PrintKey(keys[0], naming), PrintSpaced(keys[1..], naming);
      if first.None? || rest.None? then None else Some(first.value + " " + rest.value)
  }

  function Print(keys: seq<Key>, naming: Naming): Option<string> {
    if keys == [] then None
    else
      var spaced := PrintSpaced(keys, naming);
      if spaced.None? then None else Some(spaced.value[..|spaced.value| - 1])
  }

  // ---- Parsing undoes printing --------------------------------------------------------------------------

  /** Every modifier in the mask has a name. */
  predicate Small(m: Mask) {
    m.bits < 256
  }

  /** The bits of m below j. */
  function Low(m: Mask, j: nat): Mask
    requires j <= 8
  {
    Mask(LowBits(m.bits, j))
  }

  function LowBits(b: bv32, j: nat): bv32
    requires j <= 8
  {
    match j
    case 0 => 0 case 1 => b & 1 case 2 => b & 3 case 3 => b & 7 case 4 => b & 15 case 5 => b & 31 case 6 => b & 63
    case 7 => b & 127 case _ => b & 255
  }

  ghost predicate Grows(m: Mask, j: nat)
    requires j < 8
  {
    Low(m, j + 1) == if Has(m, j) then Join(Low(m, j), Bit(j)) else Low(m, j)
  }

  lemma GrowsUpTo2(m: Mask)
    ensures Grows(m, 0) && Grows(m, 1)
  {
  }

  lemma GrowsUpTo4(m: Mask)
    ensures Grows(m, 2) && Grows(m, 3)
  {
  }

  lemma GrowsUpTo6(m: Mask)
    ensures Grows(m, 4) && Grows(m, 5)
  {
  }

  lemma GrowsUpTo8(m: Mask)
    ensures Grows(m, 6) && Grows(m, 7)
  {
  }

  lemma LowStep(m: Mask, j: nat)
    requires j < 8
    ensures Low(m, j + 1) == if Has(m, j) then Join(Low(m, j), Bit(j)) else Low(m, j)
  {
    hide Low, Has, Join, Bit;
    assert Grows(m, j) by {
      hide Grows;
      GrowsUpTo2(m);
      GrowsUpTo4(m);
      GrowsUpTo6(m);
      GrowsUpTo8(m);
    }
  }

  lemma BitNameIsPlain(j: nat)
    requires j < 8
    ensures var name := NameOfBit(j); name != "" && '-' !in name && ' ' !in name && '\0' !in name
  {
  }

  lemma TableHas()
    ensures |MODIFIER_NAME_TABLE| == 11
    ensures MODIFIER_NAME_TABLE[0] == ModifierName("Sh", Mask(1)) && MODIFIER_NAME_TABLE[1] == ModifierName("Cp", Mask(2))
    ensures MODIFIER_NAME_TABLE[2] == ModifierName("C", Mask(4)) && MODIFIER_NAME_TABLE[3] == ModifierName("M", Mask(8))
    ensures MODIFIER_NAME_TABLE[6] == ModifierName("M2", Mask(16)) && MODIFIER_NAME_TABLE[7] == ModifierName("M3", Mask(32))
    ensures MODIFIER_NAME_TABLE[8] == ModifierName("S", Mask(64)) && MODIFIER_NAME_TABLE[10] == ModifierName("M5", Mask(128))
  {
  }

  lemma BitRead(j: nat)
    requires j < 8
    ensures ModifierFrom(NameOfBit(j), 0) == Some(Bit(j))
  {
    TableHas();
  }

  lemma BitPrinted(j: nat)
    requires j < 8
    ensures NameFrom(Bit(j), 0) == Some(NameOfBit(j))
  {
    TableHas();
  }

  /** The table reads back the name it prints for each bit. */
  lemma BitNamed(j: nat)
    requires j < 8
    ensures ModifierFrom(NameOfBit(j), 0) == Some(Bit(j))
    ensures NameFrom(Bit(j), 0) == Some(NameOfBit(j))
    ensures NameOfBit(j) != "" && '-' !in NameOfBit(j) && ' ' !in NameOfBit(j) && '\0' !in NameOfBit(j)
  {
    hide ModifierFrom, NameFrom, Bit;
    BitNameIsPlain(j);
    BitRead(j);
    BitPrinted(j);
  }

  /** What the names of modifiers mean, several for Alt and for the logo key; no other name means anything. */
  lemma ModifierNamesMean(name: string)
    ensures ModifierFrom(name, 0) ==
            if name == "Sh" then Some(Mask(1))
            else if name == "Cp" then Some(Mask(2))
            else if name == "C" then Some(Mask(4))
            else if name in ["M", "M1", "A"] then Some(Mask(8))
            else if name == "M2" then Some(Mask(16))
            else if name == "M3" then Some(Mask(32))
            else if name in ["S", "M4"] then Some(Mask(64))
            else if name == "M5" then Some(Mask(128))
            else None
  {
  }

  /** A keysym whose name reads back as itself and can stand in a pattern. */
  ghost predicate Readable(sym: nat, naming: Naming) {
    var name := naming.nameOf(sym);
    && sym != 0
    && name.Some?
    && name.value != ""
    && '-' !in name.value && ' ' !in name.value && '\0' !in name.value
    && naming.fromName(name.value) == sym
  }

  lemma {:induction false} PrintedModifiers(m: Mask, j: nat, name: string)
    requires j <= 8 && name != "" && '-' !in name && ' ' !in name
    ensures var token := PrintModifiers(m, j) + name; token != "" && token[0] != '-' && ' ' !in token
    decreases 8 - j
  {
    hide Bit, Has, NameOfBit, ModifierFrom, NameFrom;
    if j < 8 {
      BitNamed(j);
      PrintedModifiers(m, j + 1, name);
    }
  }

  lemma TokenAtDash(token: string, modifiers: Mask, naming: Naming)
    requires Find(token, '-') < |token|
    ensures var dash := Find(token, '-');
            var value := ModifierBefore(token, dash);
            ParseToken(token, modifiers, naming) ==
              if value.Err? then Err(value.error)
              else ParseToken(token[dash + 1..], Join(modifiers, value.value), naming)
  {
    hide ModifierBefore, Join;
  }

  lemma TokenWithoutDash(token: string, modifiers: Mask, naming: Naming)
    requires Find(token, '-') == |token|
    ensures var sym := naming.fromName(token);
            ParseToken(token, modifiers, naming) == if sym == 0 then Err(UnknownSymName) else Ok(Key(modifiers, sym))
  {
  }

  lemma TakeModifier(modifier: string, rest: string, value: Mask, modifiers: Mask, naming: Naming)
    requires '-' !in modifier && ModifierFrom(modifier, 0) == Some(value)
    requires rest != "" && rest[0] != '-'
    ensures ParseToken(modifier + "-" + rest, modifiers, naming) == ParseToken(rest, Join(modifiers, value), naming)
  {
    hide ModifierFrom;
    var token := modifier + "-" + rest;
    var dash := |modifier|;
    assert token[dash] == '-' && forall i | 0 <= i < dash :: token[i] != '-';
    assert Find(token, '-') == dash;
    assert token[..dash] == modifier && token[dash + 1..] == rest;
  }

  lemma PrintedFrom(m: Mask, j: nat, name: string)
    requires j < 8
    ensures var rest := PrintModifiers(m, j + 1) + name;
            PrintModifiers(m, j) + name == if Has(m, j) then NameOfBit(j) + "-" + rest else rest
  {
    hide Has, NameOfBit;
  }

  lemma TokenStep(m: Mask, j: nat, name: string, naming: Naming)
    requires j < 8 && name != "" && '-' !in name && ' ' !in name
    ensures ParseToken(PrintModifiers(m, j) + name, Low(m, j), naming) ==
            ParseToken(PrintModifiers(m, j + 1) + name, Low(m, j + 1), naming)
  {
    hide Bit, Has, NameOfBit, ModifierFrom, NameFrom, Low, ParseToken, PrintModifiers, Join;
    LowStep(m, j);
    PrintedFrom(m, j, name);
    if Has(m, j) {
      BitNamed(j);
      PrintedModifiers(m, j + 1, name);
      TakeModifier(NameOfBit(j), PrintModifiers(m, j + 1) + name, Bit(j), Low(m, j), naming);
    }
  }

  lemma NothingPrinted(m: Mask, name: string)
    ensures PrintModifiers(m, 8) + name == name
  {
  }

  lemma {:induction false} TokenRoundTrip(m: Mask, j: nat, sym: nat, naming: Naming)
    requires j <= 8 && Readable(sym, naming)
    ensures ParseToken(PrintModifiers(m, j) + naming.nameOf(sym).value, Low(m, j), naming) == Ok(Key(Low(m, 8), sym))
    decreases 8 - j
  {
    hide Low, ParseToken, PrintModifiers;
    var name := naming.nameOf(sym).value;
    if j == 8 {
      NothingPrinted(m, name);
      TokenWithoutDash(name, Low(m, j), naming);
    } else {
      TokenStep(m, j, name, naming);
      TokenRoundTrip(m, j + 1, sym, naming);
    }
  }

  /** The key with the modifiers that have a name. */
  function Nameable(keys: seq<Key>): (r: seq<Key>)
    ensures |r| == |keys|
    ensures forall i | 0 <= i < |keys| :: r[i] == Key(Low(keys[i].modifiers, 8), keys[i].sym)
  {
    if keys == [] then [] else [Key(Low(keys[0].modifiers, 8), keys[0].sym)] + Nameable(keys[1..])
  }

  lemma TakeToken(token: string, rest: string, naming: Naming)
    requires token != "" && token[0] != '-' && ' ' !in token
    ensures ParseRest(token + " " + rest, naming) ==
            (var key, more := ParseToken(token, NONE_HELD, naming), ParseRest(rest, naming);
             if key.Err? then Err(key.error) else if more.Err? then more else Ok([key.value] + more.value))
    ensures ParseRest(token, naming) ==
            (var key := ParseToken(token, NONE_HELD, naming); if key.Err? then Err(key.error) else Ok([key.value]))
  {
    hide ParseToken;
    var s, end := token + " " + rest, |token|;
    assert s[end] == ' ' && forall i | 0 <= i < end :: s[i] != ' ';
    assert Find(s, ' ') == end && Find(token, ' ') == end;
    assert s[..end] == token && s[end + 1..] == rest && token[..end] == token;
  }

  lemma {:induction false} KeyRoundTrip(key: Key, naming: Naming)
    requires Readable(key.sym, naming)
    ensures PrintKey(key, naming).Some?
    ensures var token := PrintKey(key, naming).value;
            && token != "" && token[0] != '-' && ' ' !in token
            && ParseToken(token, NONE_HELD, naming) == Ok(Key(Low(key.modifiers, 8), key.sym))
  {
    var name := naming.nameOf(key.sym).value;
    PrintedModifiers(key.modifiers, 0, name);
    TokenRoundTrip(key.modifiers, 0, key.sym, naming);
  }

  lemma {:induction false} PrintedReadsBack(keys: seq<Key>, naming: Naming)
    requires keys != [] && forall k <- keys :: Readable(k.sym, naming)
    ensures Print(keys, naming).Some?
    ensures ParseRest(Print(keys, naming).value, naming) == Ok(Nameable(keys))
  {
    hide ParseToken, PrintKey, Low, ParseRest, Readable;
    KeyRoundTrip(keys[0], naming);
    var token := PrintKey(keys[0], naming).value;
    assert Nameable(keys) == [Key(Low(keys[0].modifiers, 8), keys[0].sym)] + Nameable(keys[1..]);
    if |keys| == 1 {
      assert keys[1..] == [];
      TakeToken(token, "", naming);
      assert PrintSpaced(keys, naming) == Some(token + " " + "");
      assert (token + " " + "")[..|token|] == token;
      assert Print(keys, naming) == Some(token);
      assert Nameable(keys) == [Key(Low(keys[0].modifiers, 8), keys[0].sym)];
    } else {
      var rest := keys[1..];
      PrintedReadsBack(rest, naming);
      var spaced := PrintSpaced(rest, naming).value;
      TakeToken(token, spaced[..|spaced| - 1], naming);
      assert PrintSpaced(keys, naming) == Some(token + " " + spaced);
      assert (token + " " + spaced)[..|token| + |spaced|] == token + " " + spaced[..|spaced| - 1];
    }
  }

  /**
   * Parsing a printed chord gives its keys back, except that a modifier above bit 7 is not printed; so it gives back
   * exactly the chord when every key's modifiers are below 256.
   */
  lemma ParseUndoesPrint(keys: seq<Key>, naming: Naming)
    requires keys != [] && forall k <- keys :: Readable(k.sym, naming)
    ensures Print(keys, naming).Some?
    ensures Parse(Print(keys, naming).value, naming) == Ok(Nameable(keys))
    ensures Parse(Print(keys, naming).value, naming) == Ok(keys) <==> forall k <- keys :: Small(k.modifiers)
  {
    hide ParseToken, PrintKey, ParseRest, Readable, Print, Low, Small;
    PrintedReadsBack(keys, naming);
    ParseFillsCount(Print(keys, naming).value, naming);
    forall i | 0 <= i < |keys| ensures Low(keys[i].modifiers, 8) == keys[i].modifiers <==> Small(keys[i].modifiers) {
      LowKeeps(keys[i].modifiers);
    }
    if Nameable(keys) == keys {
      forall i | 0 <= i < |keys| ensures Small(keys[i].modifiers) {
        assert Nameable(keys)[i] == keys[i];
      }
    }
  }

  lemma LowKeeps(m: Mask)
    ensures Low(m, 8) == m <==> Small(m)
  {
  }

  lemma {:induction false} ModifiersAreCString(m: Mask, j: nat)
    requires j <= 8
    ensures '\0' !in PrintModifiers(m, j)
    decreases 8 - j
  {
    hide Bit, Has, NameOfBit, ModifierFrom, NameFrom;
    if j < 8 {
      BitNamed(j);
      ModifiersAreCString(m, j + 1);
    }
  }

  lemma {:induction false} SpacedIsCString(keys: seq<Key>, naming: Naming)
    requires forall k <- keys :: Readable(k.sym, naming)
    ensures PrintSpaced(keys, naming).Some? && '\0' !in PrintSpaced(keys, naming).value
  {
    hide PrintModifiers;
    if keys != [] {
      ModifiersAreCString(keys[0].modifiers, 0);
      SpacedIsCString(keys[1..], naming);
    }
  }

  lemma PrintedIsCString(keys: seq<Key>, naming: Naming)
    requires keys != [] && forall k <- keys :: Readable(k.sym, naming)
    ensures Print(keys, naming).Some? && '\0' !in Print(keys, naming).value
  {
    hide Readable, PrintSpaced;
    SpacedIsCString(keys, naming);
  }

  // ---- What the parser yields can be printed and read again ---------------------------------------------

  ghost predicate AllSmall(keys: seq<Key>) {
    forall k <- keys :: Small(k.modifiers) && k.sym != 0
  }

  lemma SmallZero()
    ensures Small(NONE_HELD) && AllSmall([])
  {
  }

  lemma SmallOr(a: Mask, b: Mask)
    requires Small(a) && Small(b)
    ensures Small(Join(a, b))
  {
  }

  lemma TableIsSmall()
    ensures forall k | 0 <= k < |MODIFIER_NAME_TABLE| :: Small(MODIFIER_NAME_TABLE[k].value)
  {
  }

  lemma {:induction false} ModifierIsSmall(name: string, k: nat)
    requires k <= |MODIFIER_NAME_TABLE|
    ensures var value := ModifierFrom(name, k); value.Some? ==> Small(value.value)
    decreases |MODIFIER_NAME_TABLE| - k
  {
    hide Small;
    if k < |MODIFIER_NAME_TABLE| {
      TableIsSmall();
      ModifierIsSmall(name, k + 1);
    }
  }

  lemma BeforeIsSmall(token: string, dash: nat)
    requires dash < |token| && ModifierBefore(token, dash).Ok?
    ensures Small(ModifierBefore(token, dash).value)
  {
    hide ModifierFrom, Small;
    ModifierIsSmall(token[..dash], 0);
  }

  lemma {:induction false} TokenIsSmall(token: string, modifiers: Mask, naming: Naming)
    requires Small(modifiers)
    ensures var key := ParseToken(token, modifiers, naming); key.Ok? ==> Small(key.value.modifiers) && key.value.sym != 0
  {
    hide Small, Join, ParseToken, ModifierBefore;
    var dash := Find(token, '-');
    if dash < |token| {
      TokenAtDash(token, modifiers, naming);
      var value := ModifierBefore(token, dash);
      if value.Ok? {
        BeforeIsSmall(token, dash);
        SmallOr(modifiers, value.value);
        TokenIsSmall(token[dash + 1..], Join(modifiers, value.value), naming);
      }
    } else {
      TokenWithoutDash(token, modifiers, naming);
    }
  }

  lemma OneMoreSmall(key: Key, keys: seq<Key>)
    requires Small(key.modifiers) && key.sym != 0 && AllSmall(keys)
    ensures AllSmall([key]) && AllSmall([key] + keys)
  {
  }

  lemma {:induction false} ParsedIsSmall(s: string, naming: Naming)
    ensures var r := ParseRest(s, naming); r.Ok? ==> AllSmall(r.value)
    decreases |s|
  {
    hide ParseToken, Join, Small, AllSmall;
    SmallZero();
    if s != "" && s[0] == ' ' {
      ParsedIsSmall(s[1..], naming);
    } else if ParseRest(s, naming).Ok? && s != "" {
      var end := Find(s, ' ');
      var key := ParseToken(s[..end], NONE_HELD, naming).value;
      TokenIsSmall(s[..end], NONE_HELD, naming);
      if end < |s| {
        ParsedIsSmall(s[end + 1..], naming);
        OneMoreSmall(key, ParseRest(s[end + 1..], naming).value);
      } else {
        OneMoreSmall(key, []);
      }
    }
  }

  /** Whatever pattern a chord came from, its printed pattern parses to the same chord. */
  lemma PrintingIsFaithful(pattern: string, naming: Naming)
    requires Parse(pattern, naming).Ok?
    requires forall k <- Parse(pattern, naming).value :: Readable(k.sym, naming)
    ensures var keys := Parse(pattern, naming).value;
            Print(keys, naming).Some? && Parse(Print(keys, naming).value, naming) == Ok(keys)
  {
    hide ParseToken, PrintKey, Readable, Print;
    ParseFillsCount(pattern, naming);
    ParsedIsSmall(pattern, naming);
    ParseUndoesPrint(Parse(pattern, naming).value, naming);
  }

  // ---- The parser and the printer, as they run ----------------------------------------------------------

  /** A buffer that holds the string s, then a NUL, at place i. */
  ghost predicate Holds(buffer: array<char>, i: nat, s: string)
    reads buffer
  {
    i + |s| < buffer.Length && buffer[i..i + |s|] == s && buffer[i + |s|] == '\0' && '\0' !in s
  }

  function Prepend(front: seq<Key>, r: Result<seq<Key>>): Result<seq<Key>> {
    if r.Err? then r else Ok(front + r.value)
  }

  lemma TokenAt(s: string, end: nat, naming: Naming)
    requires s != "" && s[0] != ' ' && s[0] != '-' && end == Find(s, ' ')
    ensures CountTokens(s, true) == 1 + if end < |s| then CountTokens(s[end + 1..], true) else 0
    ensures ParseRest(s, naming) ==
            (var key := ParseToken(s[..end], NONE_HELD, naming);
             if key.Err? then Err(key.error)
             else Prepend([key.value], if end < |s| then ParseRest(s[end + 1..], naming) else Ok([])))
  {
    hide ParseToken;
    CountSkips(s, true);
    if end < |s| {
      assert s[end..][1..] == s[end + 1..];
    } else {
      assert forall k: Key :: [k] + [] == [k];
    }
  }

  lemma PrependTwice(front: seq<Key>, key: Key, r: Result<seq<Key>>)
    ensures Prepend(front, Prepend([key], r)) == Prepend(front + [key], r)
  {
    if r.Ok? {
      assert front + ([key] + r.value) == front + [key] + r.value;
    }
  }

  /** What follows place k of the string that a buffer holds. */
  lemma HoldsRest(buffer: array<char>, i: nat, s: string, k: nat)
    requires i + |s| < buffer.Length && k <= |s|
    requires buffer[i + k..i + |s|] == s[k..] && buffer[i + |s|] == '\0' && '\0' !in s
    ensures Holds(buffer, i + k, s[k..])
  {
    assert i + k + |s[k..]| == i + |s|;
  }

  lemma HoldsNext(buffer: array<char>, i: nat, s: string)
    requires Holds(buffer, i, s) && s != ""
    ensures Holds(buffer, i + 1, s[1..])
  {
    HoldsRest(buffer, i, s, 1);
  }

  lemma HeldAt(buffer: array<char>, i: nat, s: string)
    requires Holds(buffer, i, s)
    ensures i + |s| < buffer.Length && forall j | 0 <= j < |s| :: buffer[i + j] == s[j]
    ensures if s == "" then buffer[i] == '\0' else buffer[i] == s[0] != '\0'
  {
    assert s != "" ==> buffer[i] == buffer[i..i + |s|][0];
    forall j | 0 <= j < |s| ensures buffer[i + j] == s[j] {
      assert buffer[i..i + |s|][j] == buffer[i + j];
    }
  }

  /** The place of the first character from i on that is c, or that ends the string. */
  method Seek(buffer: array<char>, i: nat, c: char, ghost s: string) returns (end: nat)
    requires Holds(buffer, i, s)
    ensures end == i + Find(s, c)
    ensures end < buffer.Length && (buffer[end] != '\0' <==> Find(s, c) < |s|)
  {
    HeldAt(buffer, i, s);
    end := i;
    while buffer[end] != '\0' && buffer[end] != c
      invariant i <= end <= i + |s|
      invariant forall j | 0 <= j < end - i :: s[j] != c
      decreases i + |s| - end
    {
      assert s[end - i] != c;
      end := end + 1;
    }
    if end < i + |s| {
      assert s[end - i] == c;
    }
  }

  /** A dash: a NUL over it, then the modifier before it. */
  method ReadModifier(buffer: array<char>, stay: nat, seek: nat, ghost rest: string) returns (value: Result<Mask>)
    requires Holds(buffer, stay, rest) && ' ' !in rest && seek == stay + Find(rest, '-') && Find(rest, '-') < |rest|
    modifies buffer
    ensures Holds(buffer, seek + 1, rest[seek + 1 - stay..])
    ensures forall i | stay + |rest| <= i < buffer.Length :: buffer[i] == old(buffer[i])
    ensures value == ModifierBefore(rest, seek - stay)
  {
    hide ModifierFrom;
    HeldAt(buffer, stay, rest);
    buffer[seek] := '\0';
    HoldsRest(buffer, stay, rest, seek + 1 - stay);
    if buffer[seek + 1] == '\0' || buffer[seek + 1] == ' ' || buffer[seek + 1] == '-' {
      return Err(UnexpectedCharacter);
    }
    assert buffer[stay..seek] == rest[..seek - stay];
    var found := FindModifier(buffer[stay..seek]);
    value := if found.None? then Err(UnknownModifier) else Ok(found.value);
  }

  /** One token: its modifiers and its keysym go into key k. */
  method ReadKey(buffer: array<char>, pos: nat, keys: array<Key>, k: nat, naming: Naming, ghost token: string)
    returns (error: Option<Error>)
    requires Holds(buffer, pos, token) && ' ' !in token && k < keys.Length && keys[k] == Key(NONE_HELD, 0)
    modifies buffer, keys
    ensures forall i | 0 <= i < keys.Length && i != k :: keys[i] == old(keys[i])
    ensures forall i | pos + |token| <= i < buffer.Length :: buffer[i] == old(buffer[i])
    ensures ParseToken(token, NONE_HELD, naming) == if error.Some? then Err(error.value) else Ok(keys[k])
  {
    hide ModifierBefore, Holds, ParseToken, Join, Find;
    var stay := pos;
    ghost var rest := token;
    var seek := Seek(buffer, stay, '-', rest);
    while buffer[seek] != '\0'
      invariant stay + |rest| == pos + |token| && Holds(buffer, stay, rest) && ' ' !in rest
      invariant seek == stay + Find(rest, '-') && seek < buffer.Length
      invariant buffer[seek] != '\0' <==> Find(rest, '-') < |rest|
      invariant ParseToken(token, NONE_HELD, naming) == ParseToken(rest, keys[k].modifiers, naming)
      invariant forall i | 0 <= i < keys.Length && i != k :: keys[i] == old(keys[i])
      invariant forall i | pos + |token| <= i < buffer.Length :: buffer[i] == old(buffer[i])
      decreases |rest|
    {
      TokenAtDash(rest, keys[k].modifiers, naming);
      var value := ReadModifier(buffer, stay, seek, rest);
      if value.Err? {
        return Some(value.error);
      }
      keys[k] := keys[k].(modifiers := Join(keys[k].modifiers, value.value));
      rest, stay := rest[seek + 1 - stay..], seek + 1;
      seek := Seek(buffer, stay, '-', rest);
    }
    TokenWithoutDash(rest, keys[k].modifiers, naming);
    HeldAt(buffer, stay, rest);
    assert buffer[stay..seek] == rest;
    var sym := naming.fromName(buffer[stay..seek]);
    if sym == 0 {
      return Some(UnknownSymName);
    }
    keys[k] := keys[k].(sym := sym);
    error := None;
  }

  /** The linear search of the name table. */
  method FindModifier(name: string) returns (value: Option<Mask>)
    ensures value == ModifierFrom(name, 0)
  {
    var i := 0;
    while i < |MODIFIER_NAME_TABLE|
      invariant i <= |MODIFIER_NAME_TABLE|
      invariant ModifierFrom(name, 0) == ModifierFrom(name, i)
    {
      if MODIFIER_NAME_TABLE[i].name == name {
        return Some(MODIFIER_NAME_TABLE[i].value);
      }
      i := i + 1;
    }
    value := None;
  }

  lemma AfterSpace(s: string, naming: Naming)
    requires s != "" && s[0] == ' '
    ensures CountTokens(s, true) == CountTokens(s[1..], true)
    ensures ParseRest(s, naming) == ParseRest(s[1..], naming)
  {
  }

  /** The token at pos: it ends at the next space, which becomes a NUL, or with the pattern. */
  method FillKey(buffer: array<char>, pos: nat, keys: array<Key>, k: nat, naming: Naming, ghost rest: string)
    returns (error: Option<Error>, end: nat, done: bool)
    requires Holds(buffer, pos, rest) && k < keys.Length && keys[k] == Key(NONE_HELD, 0)
    modifies buffer, keys
    ensures end == pos + Find(rest, ' ') && (done <==> Find(rest, ' ') == |rest|)
    ensures !done ==> Holds(buffer, end + 1, rest[end + 1 - pos..])
    ensures forall i | 0 <= i < keys.Length && i != k :: keys[i] == old(keys[i])
    ensures ParseToken(rest[..end - pos], NONE_HELD, naming) == if error.Some? then Err(error.value) else Ok(keys[k])
  {
    hide ParseToken, Find;
    end := Seek(buffer, pos, ' ', rest);
    HeldAt(buffer, pos, rest);
    done := buffer[end] == '\0';
    if !done {
      buffer[end] := '\0';
    }
    assert buffer[pos..end] == rest[..end - pos];
    error := ReadKey(buffer, pos, keys, k, naming, rest[..end - pos]);
    if !done {
      assert buffer[end + 1..pos + |rest|] == rest[end + 1 - pos..];
      HoldsRest(buffer, pos, rest, end + 1 - pos);
    }
  }

  /** The filling pass. Every key it writes has a place, and it leaves no place unfilled. */
  method FillKeys(buffer: array<char>, keys: array<Key>, naming: Naming, ghost pattern: string)
    returns (error: Option<Error>)
    requires Holds(buffer, 0, pattern)
    requires keys.Length == CountTokens(pattern, true) && forall i | 0 <= i < keys.Length :: keys[i] == Key(NONE_HELD, 0)
    modifies buffer, keys
    ensures ParseRest(pattern, naming) == if error.Some? then Err(error.value) else Ok(keys[..])
  {
    hide ParseToken, ParseRest, CountTokens, Prepend, Find, Holds;
    var pos: nat, keysL: nat := 0, 0;
    error := None;
    ghost var rest := pattern;
    PrependNothing(keys, ParseRest(pattern, naming));
    HeldAt(buffer, pos, rest);
    while buffer[pos] != '\0'
      invariant Holds(buffer, pos, rest) && pos < buffer.Length && error.None?
      invariant keysL <= keys.Length && keysL + CountTokens(rest, true) == keys.Length
      invariant forall i | keysL <= i < keys.Length :: keys[i] == Key(NONE_HELD, 0)
      invariant ParseRest(pattern, naming) == Prepend(keys[..keysL], ParseRest(rest, naming))
      decreases |rest|
    {
      HeldAt(buffer, pos, rest);
      if buffer[pos] == ' ' {
        AfterSpace(rest, naming);
        HoldsNext(buffer, pos, rest);
        pos, rest := pos + 1, rest[1..];
        HeldAt(buffer, pos, rest);
        continue;
      }
      if buffer[pos] == '-' {
        DashFirst(keys[..keysL], rest, naming);
        return Some(UnexpectedCharacter);
      }
      ghost var front, end := keys[..keysL], Find(rest, ' ');
      TokenAt(rest, end, naming);
      var done;
      error, pos, done := FillKey(buffer, pos, keys, keysL, naming, rest);
      keysL := keysL + 1;
      if error.Some? {
        PrependError(front, error.value);
        return;
      }
      PrependTwice(front, keys[keysL - 1], if done then Ok([]) else ParseRest(rest[end + 1..], naming));
      assert keys[..keysL] == front + [keys[keysL - 1]];
      if done {
        NothingLeft(keys[..keysL], naming);
        assert keys[..keysL] == keys[..];
        return;
      }
      pos, rest := pos + 1, rest[end + 1..];
      HeldAt(buffer, pos, rest);
    }
    HeldAt(buffer, pos, rest);
    NothingLeft(keys[..keysL], naming);
    assert rest == "" && keys[..keysL] == keys[..];
  }

  lemma PrependNothing(keys: array<Key>, r: Result<seq<Key>>)
    ensures Prepend(keys[..0], r) == r
  {
    assert forall found: seq<Key> :: keys[..0] + found == found;
  }

  lemma PrependError(front: seq<Key>, error: Error)
    ensures Prepend(front, Err(error)) == Err(error)
  {
  }

  lemma NothingLeft(front: seq<Key>, naming: Naming)
    ensures CountTokens("", true) == 0 && Prepend(front, ParseRest("", naming)) == Ok(front)
    ensures Prepend(front, Ok([])) == Ok(front)
  {
    assert front + [] == front;
  }

  lemma DashFirst(front: seq<Key>, s: string, naming: Naming)
    requires s != "" && s[0] == '-'
    ensures Prepend(front, ParseRest(s, naming)) == Err(UnexpectedCharacter)
  {
  }

  /** The two passes over a pattern. */
  method ParsePattern(pattern: string, naming: Naming) returns (r: Result<seq<Key>>)
    requires '\0' !in pattern
    ensures r == Parse(pattern, naming)
  {
    hide ParseRest;
    var tokens, onSpace, i := 0, true, 0;
    while i < |pattern|
      invariant i <= |pattern|
      invariant tokens + CountTokens(pattern[i..], onSpace) == CountTokens(pattern, true)
    {
      var isSpace := pattern[i] == ' ';
      if onSpace && !isSpace {
        tokens := tokens + 1;
      }
      onSpace, i := isSpace, i + 1;
    }
    if tokens == 0 {
      return Err(Empty);
    }
    var buffer := new char[|pattern| + 1](i requires 0 <= i <= |pattern| => if i < |pattern| then pattern[i] else '\0');
    assert buffer[..|pattern|] == pattern;
    var keys := new Key[tokens](_ => Key(NONE_HELD, 0));
    var error := FillKeys(buffer, keys, naming, pattern);
    r := if error.Some? then Err(error.value) else Ok(keys[..]);
  }

  /** The first name of a modifier, by linear search. */
  method FindName(value: Mask) returns (name: Option<string>)
    ensures name == NameFrom(value, 0)
  {
    var k := 0;
    while k < |MODIFIER_NAME_TABLE|
      invariant k <= |MODIFIER_NAME_TABLE|
      invariant NameFrom(value, 0) == NameFrom(value, k)
    {
      if MODIFIER_NAME_TABLE[k].value == value {
        return Some(MODIFIER_NAME_TABLE[k].name);
      }
      k := k + 1;
    }
    name := None;
  }

  lemma PrintStep(output: string, m: Mask, j: nat)
    requires j < 8
    ensures (if Has(m, j) then output + NameOfBit(j) + "-" else output) + PrintModifiers(m, j + 1) ==
            output + PrintModifiers(m, j)
  {
    hide Bit, Has, NameOfBit;
    if Has(m, j) {
      assert output + (NameOfBit(j) + "-" + PrintModifiers(m, j + 1)) ==
             output + NameOfBit(j) + "-" + PrintModifiers(m, j + 1);
    } else {
      assert output + ("" + PrintModifiers(m, j + 1)) == output + PrintModifiers(m, j + 1);
    }
  }

  /** Every bit of a key's modifiers that has a name, appended to the output. */
  method AppendModifiers(output: string, m: Mask) returns (longer: string)
    ensures longer == output + PrintModifiers(m, 0)
  {
    hide Bit, Has, NameOfBit, NameFrom, PrintModifiers;
    longer := output;
    var j := 0;
    while j <= 7
      invariant j <= 8
      invariant longer + PrintModifiers(m, j) == output + PrintModifiers(m, 0)
    {
      PrintStep(longer, m, j);
      if Has(m, j) {
        var name := FindName(Bit(j));
        BitNamed(j);
        longer := longer + name.value + "-";
      }
      j := j + 1;
    }
    AllPrinted(m);
    assert longer + "" == longer;
  }

  lemma AllPrinted(m: Mask)
    ensures PrintModifiers(m, 8) == ""
  {
  }

  /** One key: its modifiers, its name and a space. */
  method AppendKey(output: string, key: Key, naming: Naming) returns (longer: Option<string>)
    ensures var printed := PrintKey(key, naming);
            longer == if printed.None? then None else Some(output + (printed.value + " "))
  {
    hide PrintModifiers;
    var start := AppendModifiers(output, key.modifiers);
    var name := naming.nameOf(key.sym);
    if name.None? {
      return None;
    }
    assert start + name.value + " " == output + (PrintModifiers(key.modifiers, 0) + name.value + " ");
    longer := Some(start + name.value + " ");
  }

  /** The printing loop; the last space becomes the end of the string. */
  method GetPattern(keys: seq<Key>, naming: Naming) returns (pattern: Option<string>)
    ensures pattern == Print(keys, naming)
  {
    hide PrintKey;
    if |keys| == 0 {
      return None;
    }
    var output, i := "", 0;
    assert keys[0..] == keys && forall rest: string :: "" + rest == rest;
    while i < |keys|
      invariant i <= |keys|
      invariant PrintSpaced(keys, naming) == Appended(output, PrintSpaced(keys[i..], naming))
    {
      assert keys[i..][1..] == keys[i + 1..];
      var longer := AppendKey(output, keys[i], naming);
      if longer.None? {
        return None;
      }
      AppendedTwice(output, PrintKey(keys[i], naming), PrintSpaced(keys[i + 1..], naming));
      output := longer.value;
      i := i + 1;
    }
    assert keys[i..] == [] && output + "" == output;
    pattern := Some(output[..|output| - 1]);
  }

  function Appended(output: string, rest: Option<string>): Option<string> {
    if rest.None? then None else Some(output + rest.value)
  }

  lemma AppendedTwice(output: string, first: Option<string>, rest: Option<string>)
    requires first.Some?
    ensures Appended(output, if rest.None? then None else Some(first.value + " " + rest.value)) ==
            Appended(output + (first.value + " "), rest)
  {
    if rest.Some? {
      assert output + (first.value + " " + rest.value) == output + (first.value + " ") + rest.value;
    }
  }
}
