/** What a chord pattern means, piece by piece. */
module ChordMeaning {
  import opened Lists
  import opened Chord

  /** The names, each followed by a dash. */
  function Dashed(names: seq<string>): string {
    if names == [] then "" else names[0] + "-" + Dashed(names[1..])
  }

  /** The piece that follows the dash after the i-th name. */
  function PieceAfter(names: seq<string>, sym: string, i: nat): string
    requires i < |names|
  {
    if i + 1 < |names| then names[i + 1] else sym
  }

  /** What is wrong with the i-th name, if anything: nothing follows its dash, or it is not a modifier's. */
  function Fault(names: seq<string>, sym: string, i: nat): Option<Error>
    requires i < |names|
  {
    if PieceAfter(names, sym, i) == "" then Some(UnexpectedCharacter)
    else if ModifierFrom(names[i], 0).None? then Some(UnknownModifier)
    else None
  }

  /** The modifiers are those that some name means. */
  ghost predicate MeantBy(m: Mask, before: Mask, names: seq<string>) {
    && (Small(before) ==> Small(m))
    && forall j | 0 <= j < 8 :: Has(m, j) <==> Has(before, j) || exists i :: 0 <= i < |names| && Means(names[i], j)
  }

  /** The name means the modifier of bit j. */
  predicate Means(name: string, j: nat)
    requires j < 8
  {
    ModifierFrom(name, 0) == Some(Bit(j))
  }

  lemma BitsBelowFour(i: nat, j: nat)
    requires i < 4 && j < 8
    ensures Has(Bit(i), j) <==> i == j
  {
  }

  lemma BitsFromFour(i: nat, j: nat)
    requires 4 <= i < 8 && j < 8
    ensures Has(Bit(i), j) <==> i == j
  {
  }

  lemma LeftStays(a: Mask, b: Mask, j: nat)
    requires j < 8 && Has(a, j)
    ensures Has(Join(a, b), j)
  {
  }

  lemma RightStays(a: Mask, b: Mask, j: nat)
    requires j < 8 && Has(b, j)
    ensures Has(Join(a, b), j)
  {
  }

  lemma NothingMore(a: Mask, b: Mask, j: nat)
    requires j < 8 && !Has(a, j) && !Has(b, j)
    ensures !Has(Join(a, b), j)
  {
  }

  lemma HasJoin(a: Mask, b: Mask, j: nat)
    requires j < 8
    ensures Has(Join(a, b), j) <==> Has(a, j) || Has(b, j)
  {
    hide Has, Join;
    if Has(a, j) {
      LeftStays(a, b, j);
    } else if Has(b, j) {
      RightStays(a, b, j);
    } else {
      NothingMore(a, b, j);
    }
  }

  lemma BitsApart(i: nat, j: nat)
    requires i < 8 && j < 8
    ensures Has(Bit(i), j) <==> i == j
  {
    hide Has, Bit;
    if i < 4 { BitsBelowFour(i, j); } else { BitsFromFour(i, j); }
  }

  lemma NoneHeldHas(j: nat)
    requires j < 8
    ensures !Has(NONE_HELD, j) && Small(NONE_HELD)
  {
  }

  lemma MeansOneBit(name: string) returns (i: nat)
    requires ModifierFrom(name, 0).Some?
    ensures i < 8 && ModifierFrom(name, 0) == Some(Bit(i))
  {
    ModifierNamesMean(name);
    hide ModifierFrom;
    i := if name == "Sh" then 0 else if name == "Cp" then 1 else if name == "C" then 2
         else if name in ["M", "M1", "A"] then 3 else if name == "M2" then 4 else if name == "M3" then 5
         else if name in ["S", "M4"] then 6 else 7;
  }

  lemma MeantByNone(m: Mask)
    ensures MeantBy(m, m, [])
  {
  }

  lemma MeantByMore(m: Mask, before: Mask, names: seq<string>, value: Mask)
    requires names != [] && ModifierFrom(names[0], 0) == Some(value) && MeantBy(m, Join(before, value), names[1..])
    ensures MeantBy(m, before, names)
  {
    var i := MeansOneBit(names[0]);
    hide ModifierFrom, Has, Join, Bit, Small;
    ModifierIsSmall(names[0], 0);
    if Small(before) { SmallOr(before, value); }
    forall j | 0 <= j < 8
      ensures Has(m, j) <==> Has(before, j) || exists i :: 0 <= i < |names| && Means(names[i], j)
    {
      HasJoin(before, value, j);
      BitsApart(i, j);
      if Means(names[0], j) { BitInjective(i, j); }
      assert forall k | 0 < k < |names| :: names[k] == names[1..][k - 1];
      assert forall k | 0 <= k < |names| - 1 :: names[1..][k] == names[k + 1];
    }
  }

  lemma BitInjective(i: nat, j: nat)
    requires i < 8 && j < 8 && Bit(i) == Bit(j)
    ensures i == j
  {
    hide Bit, Has;
    BitsApart(i, i);
    BitsApart(i, j);
    BitsApart(j, j);
  }

  /**
   * A token is names with their dashes, then a keysym's name. The first fault of a name is its error; without one the
   * keysym must be known, and the modifiers are those that the names mean, in any order and however often.
   */
  lemma {:induction false} TokenMeans(names: seq<string>, sym: string, before: Mask, naming: Naming)
    requires (forall name <- names :: '-' !in name) && '-' !in sym
    ensures var r := ParseToken(Dashed(names) + sym, before, naming);
            && (forall i | 0 <= i < |names| && Fault(names, sym, i).Some?
                           && forall k | 0 <= k < i :: Fault(names, sym, k).None? ::
                  r == Err(Fault(names, sym, i).value))
            && ((forall i | 0 <= i < |names| :: Fault(names, sym, i).None?) ==>
                  if naming.fromName(sym) == 0 then r == Err(UnknownSymName)
                  else r.Ok? && r.value.sym == naming.fromName(sym) && MeantBy(r.value.modifiers, before, names))
    decreases |names|
  {
    hide ModifierFrom, ParseToken, MeantBy, Join;
    if names == [] {
      assert Dashed(names) + sym == sym;
      TokenWithoutDash(sym, before, naming);
      MeantByNone(before);
    } else {
      TokenFirst(names, sym, before, naming);
      if Fault(names, sym, 0).None? {
        var value := ModifierFrom(names[0], 0).value;
        TokenMeans(names[1..], sym, Join(before, value), naming);
        FaultsLater(names, sym);
        var r := ParseToken(Dashed(names) + sym, before, naming);
        if r.Ok? && MeantBy(r.value.modifiers, Join(before, value), names[1..]) {
          MeantByMore(r.value.modifiers, before, names, value);
        }
      }
    }
  }

  /** With no modifiers held before, exactly those that the names mean, none of them above bit 7. */
  lemma TokenModifiers(names: seq<string>, sym: string, naming: Naming)
    requires (forall name <- names :: '-' !in name) && '-' !in sym && naming.fromName(sym) != 0
    requires forall i | 0 <= i < |names| :: Fault(names, sym, i).None?
    ensures var r := ParseToken(Dashed(names) + sym, NONE_HELD, naming);
            && r.Ok? && r.value.sym == naming.fromName(sym) && Small(r.value.modifiers)
            && forall j | 0 <= j < 8 ::
                 Has(r.value.modifiers, j) <==> exists i :: 0 <= i < |names| && Means(names[i], j)
  {
    hide Fault, ParseToken, Has, Means, Small;
    TokenMeans(names, sym, NONE_HELD, naming);
    forall j | 0 <= j < 8 ensures !Has(NONE_HELD, j) && Small(NONE_HELD) {
      NoneHeldHas(j);
    }
    NoneHeldHas(0);
  }

  lemma FaultsLater(names: seq<string>, sym: string)
    requires names != []
    ensures forall i | 0 < i < |names| :: Fault(names, sym, i) == Fault(names[1..], sym, i - 1)
    ensures forall i | 0 <= i < |names| - 1 :: Fault(names[1..], sym, i) == Fault(names, sym, i + 1)
  {
    hide ModifierFrom;
  }

  lemma TokenFirst(names: seq<string>, sym: string, before: Mask, naming: Naming)
    requires names != [] && (forall name <- names :: '-' !in name) && '-' !in sym
    ensures var token, fault := Dashed(names) + sym, Fault(names, sym, 0);
            ParseToken(token, before, naming) ==
            if fault.Some? then Err(fault.value)
            else ParseToken(Dashed(names[1..]) + sym, Join(before, ModifierFrom(names[0], 0).value), naming)
  {
    hide ModifierFrom, ParseToken;
    var token, rest, dash := Dashed(names) + sym, Dashed(names[1..]) + sym, |names[0]|;
    assert token == names[0] + "-" + rest;
    assert names[0] in names;
    DashAfter(names[0], rest);
    RestBegins(names, sym);
    TokenAtDash(token, before, naming);
  }

  lemma DashAfter(name: string, rest: string)
    requires '-' !in name
    ensures var token := name + "-" + rest;
            Find(token, '-') == |name| && token[..|name|] == name && token[|name| + 1..] == rest
  {
    var token := name + "-" + rest;
    assert token[|name|] == '-' && forall i | 0 <= i < |name| :: token[i] == name[i];
  }

  /** What follows the first dash is empty, or begins with a dash, exactly if the next piece is empty. */
  lemma RestBegins(names: seq<string>, sym: string)
    requires names != [] && (forall name <- names :: '-' !in name) && '-' !in sym
    ensures var rest := Dashed(names[1..]) + sym; rest == "" || rest[0] == '-' <==> PieceAfter(names, sym, 0) == ""
  {
    if |names| > 1 {
      var next, more := names[1], Dashed(names[2..]) + sym;
      assert names[1..][1..] == names[2..];
      assert Dashed(names[1..]) + sym == next + ("-" + more);
      assert next in names;
    } else {
      assert Dashed(names[1..]) + sym == sym;
    }
  }

  // ---- Patterns -------------------------------------------------------------------------------------------

  /** The pieces of a pattern between spaces. */
  function Words(s: string): seq<string> {
    if s == "" then []
    else if s[0] == ' ' then Words(s[1..])
    else
      var end := Find(s, ' ');
      [s[..end]] + if end < |s| then Words(s[end + 1..]) else []
  }

  lemma OneWord(word: string)
    requires ' ' !in word
    ensures Words(word) == if word == "" then [] else [word]
  {
    assert word[..|word|] == word;
  }

  /** Spaces separate words and mean nothing else. */
  lemma {:induction false} WordsSplit(a: string, b: string)
    ensures Words(a + " " + b) == Words(a) + Words(b)
    decreases |a|
  {
    var s, end := a + " " + b, Find(a, ' ');
    FindInFront(a, b);
    WordsFirst(s);
    WordsFirst(a);
    hide Words, Find;
    assert s[..end] == a[..end];
    if end < |a| {
      assert s[end + 1..] == a[end + 1..] + " " + b;
      WordsSplit(a[end + 1..], b);
    } else {
      assert s[end + 1..] == b;
    }
  }

  lemma WordsFirst(s: string)
    ensures var end := Find(s, ' ');
            Words(s) == (if end == 0 then [] else [s[..end]]) + if end < |s| then Words(s[end + 1..]) else []
  {
    hide Words, Find;
    if s == "" {
      OneWord(s);
    } else if s[0] == ' ' {
      SpaceFirst(s);
    } else {
      WordFirst(s);
    }
  }

  lemma SpaceFirst(s: string)
    requires s != "" && s[0] == ' '
    ensures Find(s, ' ') == 0 && Words(s) == Words(s[1..])
  {
  }

  lemma WordFirst(s: string)
    requires s != "" && s[0] != ' '
    ensures var end := Find(s, ' '); end > 0 && Words(s) == [s[..end]] + if end < |s| then Words(s[end + 1..]) else []
  {
    hide Find;
  }

  lemma FindInFront(a: string, b: string)
    ensures Find(a + " " + b, ' ') == Find(a, ' ')
  {
    var s, end := a + " " + b, Find(a, ' ');
    assert s[end] == ' ' && forall i | 0 <= i < end :: s[i] == a[i];
  }

  /** What one word comes to. */
  function WordMeans(word: string, naming: Naming): Result<Key> {
    if word != "" && word[0] == '-' then Err(UnexpectedCharacter) else ParseToken(word, NONE_HELD, naming)
  }

  /** A pattern without words is empty, and the counting pass counts words. */
  lemma {:induction false} WordsCounted(s: string)
    ensures CountTokens(s, true) == |Words(s)|
    decreases |s|
  {
    if s != "" {
      if s[0] == ' ' {
        WordsCounted(s[1..]);
      } else {
        var end := Find(s, ' ');
        CountSkips(s, true);
        if end < |s| {
          WordsCounted(s[end + 1..]);
          assert s[end..][1..] == s[end + 1..];
        }
      }
    }
  }

  /** A pattern's keys are those of its words; the first word that means no key is its error. */
  ghost predicate MeansWords(r: Result<seq<Key>>, words: seq<string>, naming: Naming) {
    && (forall i | 0 <= i < |words| && WordMeans(words[i], naming).Err?
                   && forall k | 0 <= k < i :: WordMeans(words[k], naming).Ok? ::
          r == Err(WordMeans(words[i], naming).error))
    && ((forall i | 0 <= i < |words| :: WordMeans(words[i], naming).Ok?) ==>
          && r.Ok? && |r.value| == |words|
          && forall i | 0 <= i < |words| :: r.value[i] == WordMeans(words[i], naming).value)
  }

  lemma MeansNoWords(naming: Naming)
    ensures MeansWords(Ok([]), [], naming)
  {
  }

  lemma MeansFirstFails(word: string, more: seq<string>, naming: Naming, r: Result<seq<Key>>)
    requires WordMeans(word, naming).Err?
    requires r == Err(WordMeans(word, naming).error)
    ensures MeansWords(r, [word] + more, naming)
  {
    hide WordMeans;
    var words := [word] + more;
    assert words[0] == word;
  }

  lemma MeansMore(word: string, more: seq<string>, naming: Naming, rest: Result<seq<Key>>)
    requires WordMeans(word, naming).Ok? && MeansWords(rest, more, naming)
    ensures MeansWords(Prepend([WordMeans(word, naming).value], rest), [word] + more, naming)
  {
    hide WordMeans;
    var words, r := [word] + more, Prepend([WordMeans(word, naming).value], rest);
    assert words[0] == word;
    forall i | 0 < i < |words| ensures words[i] == more[i - 1] {
    }
    forall i | 0 <= i < |words| && WordMeans(words[i], naming).Err?
               && forall k | 0 <= k < i :: WordMeans(words[k], naming).Ok?
      ensures r == Err(WordMeans(words[i], naming).error)
    {
      FirstOfMore(word, more, naming, i);
      assert rest == Err(WordMeans(more[i - 1], naming).error);
    }
    if forall i | 0 <= i < |words| :: WordMeans(words[i], naming).Ok? {
      forall k | 0 <= k < |more| ensures WordMeans(more[k], naming).Ok? {
        assert words[k + 1] == more[k];
      }
    }
  }

  lemma FirstOfMore(word: string, more: seq<string>, naming: Naming, i: nat)
    requires i < |more| + 1 && WordMeans(word, naming).Ok? && WordMeans(([word] + more)[i], naming).Err?
    requires forall k | 0 <= k < i :: WordMeans(([word] + more)[k], naming).Ok?
    ensures i > 0 && WordMeans(more[i - 1], naming).Err?
    ensures forall k | 0 <= k < i - 1 :: WordMeans(more[k], naming).Ok?
  {
    hide WordMeans;
    forall k | 0 <= k < i - 1 ensures WordMeans(more[k], naming).Ok? {
      assert ([word] + more)[k + 1] == more[k];
    }
  }

  lemma {:induction false} RestMeans(s: string, naming: Naming)
    ensures MeansWords(ParseRest(s, naming), Words(s), naming)
    decreases |s|
  {
    hide MeansWords, ParseToken, ParseRest, Prepend, CountTokens, Words, Find;
    if s == "" {
      OneWord(s);
      RestEmpty(naming);
      MeansNoWords(naming);
    } else if s[0] == ' ' {
      AfterSpace(s, naming);
      SpaceFirst(s);
      RestMeans(s[1..], naming);
    } else {
      var end := Find(s, ' ');
      WordFirst(s);
      var word, more := s[..end], if end < |s| then Words(s[end + 1..]) else [];
      if WordMeans(word, naming).Err? {
        FirstWordFails(s, naming);
        MeansFirstFails(word, more, naming, ParseRest(s, naming));
      } else {
        TokenAt(s, end, naming);
        if end < |s| {
          RestMeans(s[end + 1..], naming);
          MeansMore(word, more, naming, ParseRest(s[end + 1..], naming));
        } else {
          MeansNoWords(naming);
          MeansMore(word, more, naming, Ok([]));
        }
      }
    }
  }

  lemma RestEmpty(naming: Naming)
    ensures ParseRest("", naming) == Ok([])
  {
  }

  lemma FirstWordFails(s: string, naming: Naming)
    requires s != "" && s[0] != ' ' && WordMeans(s[..Find(s, ' ')], naming).Err?
    ensures ParseRest(s, naming) == Err(WordMeans(s[..Find(s, ' ')], naming).error)
  {
    hide ParseToken;
  }

  /** The whole pattern. */
  lemma PatternMeans(pattern: string, naming: Naming)
    ensures if Words(pattern) == [] then Parse(pattern, naming) == Err(Empty)
            else MeansWords(Parse(pattern, naming), Words(pattern), naming)
  {
    hide MeansWords, ParseRest;
    WordsCounted(pattern);
    RestMeans(pattern, naming);
  }

  // ---- Printed modifiers ----------------------------------------------------------------------------------

  function NamesOfBits(bits: seq<nat>): seq<string>
    requires forall k | 0 <= k < |bits| :: bits[k] < 8
  {
    if bits == [] then [] else [NameOfBit(bits[0])] + NamesOfBits(bits[1..])
  }

  lemma DashedMore(j: nat, more: seq<nat>)
    requires j < 8 && forall k | 0 <= k < |more| :: more[k] < 8
    ensures forall k | 0 <= k < |more| + 1 :: ([j] + more)[k] < 8
    ensures Dashed(NamesOfBits([j] + more)) == NameOfBit(j) + "-" + Dashed(NamesOfBits(more))
  {
    hide NameOfBit;
    assert ([j] + more)[1..] == more;
    assert NamesOfBits([j] + more)[1..] == NamesOfBits(more);
  }

  /** These are the bits of m from j on, the lowest first. */
  ghost predicate BitsFrom(bits: seq<nat>, m: Mask, j: nat) {
    && (forall k | 0 <= k < |bits| :: j <= bits[k] < 8)
    && (forall k, l | 0 <= k < l < |bits| :: bits[k] < bits[l])
    && (forall i | j <= i < 8 :: i in bits <==> Has(m, i))
  }

  lemma BitsMore(bits: seq<nat>, m: Mask, j: nat)
    requires j < 8 && BitsFrom(bits, m, j + 1)
    ensures BitsFrom(if Has(m, j) then [j] + bits else bits, m, j)
  {
    hide Has;
    assert j !in bits;
  }

  lemma BitsEnd(m: Mask)
    ensures BitsFrom([], m, 8) && PrintModifiers(m, 8) == Dashed(NamesOfBits([]))
  {
  }

  lemma PrintedFirst(m: Mask, j: nat)
    requires j < 8
    ensures PrintModifiers(m, j) == (if Has(m, j) then NameOfBit(j) + "-" else "") + PrintModifiers(m, j + 1)
  {
  }

  /** The modifiers of a printed key are dashed names, one for each bit from the lowest on. */
  lemma {:induction false} PrintedInOrder(m: Mask, j: nat) returns (bits: seq<nat>)
    requires j <= 8
    ensures BitsFrom(bits, m, j) && PrintModifiers(m, j) == Dashed(NamesOfBits(bits))
    decreases 8 - j
  {
    hide Has, NameOfBit, PrintModifiers, Dashed, NamesOfBits;
    if j == 8 {
      bits := [];
      BitsEnd(m);
    } else {
      bits := PrintedInOrder(m, j + 1);
      BitsMore(bits, m, j);
      DashedMore(j, bits);
      PrintedFirst(m, j);
      if Has(m, j) { bits := [j] + bits; }
    }
  }
}
