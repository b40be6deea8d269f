/** Property paths and the table of properties (src/ptychite/config.c). */
module Paths {
  import opened Lists

  type Path = seq<string>

  const CONFIG_PROPERTY_TABLE: seq<Path> := [
    ["keyboard", "repeat", "rate"],
    ["keyboard", "repeat", "delay"],
    ["keyboard", "xkb", "options"],
    ["keyboard", "chords"],
    ["panel", "enabled"],
    ["panel", "font"],
    ["panel", "modules", "left"],
    ["panel", "modules", "center"],
    ["panel", "modules", "right"],
    ["panel", "colors", "foreground"],
    ["panel", "colors", "background"],
    ["panel", "colors", "accent"],
    ["panel", "colors", "gray1"],
    ["panel", "colors", "gray2"],
    ["panel", "colors", "gray3"],
    ["panel", "colors", "border"],
    ["panel", "colors", "separator"],
    ["panel", "colors", "chord"],
    ["views", "map_to_front"],
    ["views", "title_bar", "enabled"],
    ["views", "title_bar", "colors", "close"],
    ["views", "border", "thickness"],
    ["views", "border", "colors", "active"],
    ["views", "border", "colors", "inactive"],
    ["monitors", "default_scale"],
    ["monitors", "wallpaper", "filepath"],
    ["monitors", "wallpaper", "mode"],
    ["tiling", "mode"],
    ["tiling", "gaps"]
  ]

  /** No property's path is another's, or the beginning of another's. */
  ghost predicate PrefixFree(table: seq<Path>) {
    forall i, j | 0 <= i < |table| && 0 <= j < |table| && i != j :: !(table[i] <= table[j])
  }

  ghost predicate Clean(path: Path) {
    path != [] && forall token <- path :: token != "" && ':' !in token
  }

  ghost predicate Wellformed(table: seq<Path>) {
    && PrefixFree(table)
    && forall i | 0 <= i < |table| :: Clean(table[i])
  }

  /** The place in the table that the tokens of a path lead to, as far as they have to be read. */
  function Walk(path: Path): nat {
    if |path| <= 0 then 99
    else if path[0] == "keyboard" then (
      if |path| <= 1 then 99
      else if path[1] == "repeat" then (
        if |path| <= 2 then 99
        else if path[2] == "rate" then 0
        else 1)
      else if path[1] == "xkb" then 2
      else 3)
    else if path[0] == "panel" then (
      if |path| <= 1 then 99
      else if path[1] == "enabled" then 4
      else if path[1] == "font" then 5
      else if path[1] == "modules" then (
        if |path| <= 2 then 99
        else if path[2] == "left" then 6
        else if path[2] == "center" then 7
        else 8)
      else (
        if |path| <= 2 then 99
        else if path[2] == "foreground" then 9
        else if path[2] == "background" then 10
        else if path[2] == "accent" then 11
        else if path[2] == "gray1" then 12
        else if path[2] == "gray2" then 13
        else if path[2] == "gray3" then 14
        else if path[2] == "border" then 15
        else if path[2] == "separator" then 16
        else 17))
    else if path[0] == "views" then (
      if |path| <= 1 then 99
      else if path[1] == "map_to_front" then 18
      else if path[1] == "title_bar" then (
        if |path| <= 2 then 99
        else if path[2] == "enabled" then 19
        else 20)
      else (
        if |path| <= 2 then 99
        else if path[2] == "thickness" then 21
        else (
          if |path| <= 3 then 99
          else if path[3] == "active" then 22
          else 23)))
    else if path[0] == "monitors" then (
      if |path| <= 1 then 99
      else if path[1] == "default_scale" then 24
      else (
        if |path| <= 2 then 99
        else if path[2] == "filepath" then 25
        else 26))
    else (
      if |path| <= 1 then 99
      else if path[1] == "mode" then 27
      else 28)
  }

  lemma WalkTable(i: nat)
    requires i < |CONFIG_PROPERTY_TABLE|
    ensures Walk(CONFIG_PROPERTY_TABLE[i]) == i
  {
    if i < 9 { WalkFirst(i); } else if i < 18 { WalkColors(i); } else { WalkLast(i); }
  }

  lemma WalkFirst(i: nat)
    requires i < 9 < |CONFIG_PROPERTY_TABLE|
    ensures Walk(CONFIG_PROPERTY_TABLE[i]) == i
  {
    assert CONFIG_PROPERTY_TABLE[i][0] == if i < 4 then "keyboard" else "panel";
  }

  lemma WalkColors(i: nat)
    requires 9 <= i < 18 < |CONFIG_PROPERTY_TABLE|
    ensures Walk(CONFIG_PROPERTY_TABLE[i]) == i
  {
    assert CONFIG_PROPERTY_TABLE[i][0] == "panel" && CONFIG_PROPERTY_TABLE[i][1] == "colors";
  }

  lemma WalkLast(i: nat)
    requires 18 <= i < |CONFIG_PROPERTY_TABLE|
    ensures Walk(CONFIG_PROPERTY_TABLE[i]) == i
  {
  }

  lemma TokensAreClean(i: nat)
    requires i < |CONFIG_PROPERTY_TABLE|
    ensures Clean(CONFIG_PROPERTY_TABLE[i])
  {
    if i < 10 { FirstAreClean(i); } else if i < 20 { MiddleAreClean(i); } else { LastAreClean(i); }
  }

  lemma FirstAreClean(i: nat)
    requires i < 10 < |CONFIG_PROPERTY_TABLE|
    ensures Clean(CONFIG_PROPERTY_TABLE[i])
  {
  }

  lemma MiddleAreClean(i: nat)
    requires 10 <= i < 20 < |CONFIG_PROPERTY_TABLE|
    ensures Clean(CONFIG_PROPERTY_TABLE[i])
  {
  }

  lemma LastAreClean(i: nat)
    requires 20 <= i < |CONFIG_PROPERTY_TABLE|
    ensures Clean(CONFIG_PROPERTY_TABLE[i])
  {
  }

  lemma WalkPrefix(p: Path, q: Path)
    requires p <= q && Walk(p) != 99
    ensures Walk(q) == Walk(p)
  {
  }

  lemma TableIsWellformed()
    ensures Wellformed(CONFIG_PROPERTY_TABLE)
  {
    hide Walk, Clean;
    forall i | 0 <= i < |CONFIG_PROPERTY_TABLE| ensures Clean(CONFIG_PROPERTY_TABLE[i])
    {
      TokensAreClean(i);
    }
    forall i, j | 0 <= i < |CONFIG_PROPERTY_TABLE| && 0 <= j < |CONFIG_PROPERTY_TABLE| && i != j
      ensures !(CONFIG_PROPERTY_TABLE[i] <= CONFIG_PROPERTY_TABLE[j])
    {
      WalkTable(i);
      WalkTable(j);
      if CONFIG_PROPERTY_TABLE[i] <= CONFIG_PROPERTY_TABLE[j] {
        WalkPrefix(CONFIG_PROPERTY_TABLE[i], CONFIG_PROPERTY_TABLE[j]);
      }
    }
  }

  // ---- Paths as strings ---------------------------------------------------------------------------------

  /** The pieces between colons. */
  function Split(s: string): (r: Path)
    ensures r != []
  {
    var i := Find(s, ':');
    if i == |s| then [s] else [s[..i]] + Split(s[i + 1..])
  }

  function Join(tokens: Path): string
    requires tokens != []
  {
    if |tokens| == 1 then tokens[0] else tokens[0] + ":" + Join(tokens[1..])
  }

  /** The tokens of a path; a lone colon is the root, and no token may be empty. */
  function Tokenise(path: string): Option<Path> {
    if path == ":" then Some([])
    else
      var tokens := Split(path);
      if "" in tokens then None else Some(tokens)
  }

  function PathOf(tokens: Path): string {
    if tokens == [] then ":" else Join(tokens)
  }

  ghost predicate ColonFree(tokens: Path) {
    forall token <- tokens :: ':' !in token
  }

  lemma {:induction false} SplitJoin(tokens: Path)
    requires tokens != [] && ColonFree(tokens)
    ensures Split(Join(tokens)) == tokens
  {
    assert tokens[0] in tokens;
    if |tokens| == 1 {
      assert Find(tokens[0], ':') == |tokens[0]|;
    } else {
      SplitJoin(tokens[1..]);
      FindAfter(tokens[0], Join(tokens[1..]));
      assert tokens == [tokens[0]] + tokens[1..];
    }
  }

  lemma FindAfter(token: string, rest: string)
    requires ':' !in token
    ensures var s := token + ":" + rest;
            Find(s, ':') == |token| && s[..|token|] == token && s[|token| + 1..] == rest
  {
    var s := token + ":" + rest;
    assert s[|token|] == ':' && forall j | 0 <= j < |token| :: s[j] == token[j];
  }

  lemma JoinFirst(token: string, tokens: Path)
    requires tokens != [] && ':' !in token && ColonFree(tokens)
    ensures Join([token] + tokens) == token + ":" + Join(tokens) && ColonFree([token] + tokens)
  {
    assert ([token] + tokens)[1..] == tokens;
  }

  lemma {:induction false} JoinSplit(s: string)
    ensures Join(Split(s)) == s && ColonFree(Split(s))
  {
    var i := Find(s, ':');
    if i < |s| {
      JoinSplit(s[i + 1..]);
      JoinFirst(s[..i], Split(s[i + 1..]));
      hide Join, Find, ColonFree;
      assert s == s[..i] + ":" + s[i + 1..];
    }
  }

  /** Naming tokens and reading a path undo each other. */
  lemma TokensRoundTrip(tokens: Path)
    requires ColonFree(tokens)
    ensures "" !in tokens ==> Tokenise(PathOf(tokens)) == Some(tokens)
    ensures "" in tokens ==> Tokenise(PathOf(tokens)) == if tokens == ["", ""] then Some([]) else None
  {
    if tokens != [] {
      SplitJoin(tokens);
      SplitJoin(["", ""]);
      assert Join(["", ""]) == ":" by {
        assert ["", ""][1..] == [""];
        assert Join([""]) == "";
      }
    }
  }

  lemma PathRoundTrip(path: string)
    requires Tokenise(path).Some?
    ensures PathOf(Tokenise(path).value) == path && ColonFree(Tokenise(path).value)
  {
    JoinSplit(path);
  }

  // ---- The entries below a path -------------------------------------------------------------------------

  /** The entries from i on whose paths begin with these tokens. */
  function Gather(table: seq<Path>, tokens: Path, i: nat): seq<nat>
    requires i <= |table|
    decreases |table| - i
  {
    if i == |table| then [] else (if tokens <= table[i] then [i] else []) + Gather(table, tokens, i + 1)
  }

  lemma {:induction false} GatherHas(table: seq<Path>, tokens: Path, i: nat, e: nat)
    requires i <= |table|
    ensures e in Gather(table, tokens, i) <==> i <= e < |table| && tokens <= table[e]
    decreases |table| - i
  {
    if i < |table| {
      GatherHas(table, tokens, i + 1, e);
    }
  }

  lemma OneMore(i: nat, rest: seq<nat>)
    requires i !in rest && Distinct(rest)
    ensures Distinct([i] + rest)
  {
  }

  lemma {:induction false} GatherDistinct(table: seq<Path>, tokens: Path, i: nat)
    requires i <= |table|
    ensures Distinct(Gather(table, tokens, i))
    decreases |table| - i
  {
    if i < |table| {
      GatherDistinct(table, tokens, i + 1);
      GatherHas(table, tokens, i + 1, i);
      OneMore(i, Gather(table, tokens, i + 1));
    }
  }

  lemma GatherExact(table: seq<Path>, tokens: Path, i: nat)
    requires i <= |table|
    ensures forall e: nat :: e in Gather(table, tokens, i) <==> i <= e < |table| && tokens <= table[e]
    ensures Distinct(Gather(table, tokens, i))
  {
    hide Gather, Distinct;
    GatherDistinct(table, tokens, i);
    forall e: nat ensures e in Gather(table, tokens, i) <==> i <= e < |table| && tokens <= table[e] {
      GatherHas(table, tokens, i, e);
    }
  }

  ghost predicate Ascending(refs: seq<nat>) { forall j, k | 0 <= j < k < |refs| :: refs[j] < refs[k] }

  /** The entries are gathered in the order of the table. */
  lemma {:induction false} GatherInOrder(table: seq<Path>, tokens: Path, i: nat)
    requires i <= |table|
    ensures Ascending(Gather(table, tokens, i))
    decreases |table| - i
  {
    if i < |table| {
      GatherInOrder(table, tokens, i + 1);
      GatherFrom(table, tokens, i + 1);
      FirstIsLeast(i, Gather(table, tokens, i + 1));
    }
  }

  lemma FirstIsLeast(i: nat, rest: seq<nat>)
    requires Ascending(rest) && forall e <- rest :: e > i
    ensures Ascending([i] + rest)
  {
    assert forall k | 0 <= k < |rest| :: rest[k] in rest;
  }

  lemma GatherFrom(table: seq<Path>, tokens: Path, i: nat)
    requires i <= |table|
    ensures forall e <- Gather(table, tokens, i) :: e >= i
  {
    hide Gather;
    GatherExact(table, tokens, i);
  }

  /** The counting pass: the number of tokens, unless one is empty. */
  function Count(s: string, onDelim: bool): Option<nat> {
    if s == "" then (if onDelim then None else Some(0))
    else if onDelim && s[0] == ':' then None
    else
      var rest := Count(s[1..], s[0] == ':');
      if rest.None? then None else Some(rest.value + if onDelim then 1 else 0)
  }

  lemma {:induction false} CountToColon(s: string)
    ensures var i := Find(s, ':');
            Count(s, false) == if i == |s| then Some(0) else Count(s[i + 1..], true)
  {
    if s != "" && s[0] != ':' {
      CountToColon(s[1..]);
      var i := Find(s[1..], ':');
      assert i < |s[1..]| ==> s[1..][i + 1..] == s[i + 2..];
    }
  }

  lemma {:induction false} CountTokens(s: string)
    ensures Count(s, true) == if "" in Split(s) then None else Some(|Split(s)|)
    decreases |s|
  {
    var i := Find(s, ':');
    CountFirst(s);
    SplitFirst(s);
    hide Count, Find, Split;
    if 0 < i < |s| {
      CountTokens(s[i + 1..]);
      EmptyAmong(s[..i], Split(s[i + 1..]));
    }
  }

  lemma EmptyAmong(token: string, tokens: Path)
    ensures "" in [token] + tokens <==> token == "" || "" in tokens
  {
  }

  /** The counting pass over the first token and its colon. */
  lemma CountFirst(s: string)
    ensures var i := Find(s, ':');
            Count(s, true) ==
              if i == 0 then None
              else if i == |s| then Some(1)
              else
                var rest := Count(s[i + 1..], true);
                if rest.None? then None else Some(rest.value + 1)
  {
    hide Count, Find;
    CountHead(s);
    if s != "" && s[0] != ':' {
      FindTail(s);
      CountToColon(s[1..]);
    }
  }

  lemma CountHead(s: string)
    ensures if s == "" || s[0] == ':' then Count(s, true) == None
            else var rest := Count(s[1..], false); Count(s, true) == if rest.None? then None else Some(rest.value + 1)
  {
  }

  lemma FindTail(s: string)
    requires s != "" && s[0] != ':'
    ensures Find(s, ':') == Find(s[1..], ':') + 1
    ensures var i := Find(s[1..], ':'); i < |s[1..]| ==> s[1..][i + 1..] == s[i + 2..]
  {
  }

  /** Splitting the same. */
  lemma SplitFirst(s: string)
    ensures var i := Find(s, ':');
            Split(s) == if i == |s| then [s] else [s[..i]] + Split(s[i + 1..])
    ensures Find(s, ':') == 0 ==> "" in Split(s)
  {
    hide Find;
    if Find(s, ':') == 0 {
      assert Split(s)[0] == s[..0];
    }
  }

  datatype Error = InvalidPath | UnknownPath

  datatype Gathered = Found(pathL: nat, refs: seq<nat>) | NotFound(error: Error)

  function GatherRefs(table: seq<Path>, path: string): Gathered {
    var tokens := Tokenise(path);
    if tokens.None? then NotFound(InvalidPath)
    else
      var refs := Gather(table, tokens.value, 0);
      if refs == [] then NotFound(UnknownPath) else Found(|tokens.value|, refs)
  }

  // ---- The gathering, as it runs ------------------------------------------------------------------------

  method CountPass(path: string) returns (pathL: Option<nat>)
    ensures pathL == if "" in Split(path) then None else Some(|Split(path)|)
  {
    CountTokens(path);
    var n, onDelim, i := 0, true, 0;
    assert path[0..] == path;
    while i < |path|
      invariant i <= |path|
      invariant Count(path, true) ==
                (var rest := Count(path[i..], onDelim); if rest.None? then None else Some(n + rest.value))
    {
      assert path[i..][1..] == path[i + 1..];
      var isDelim := path[i] == ':';
      if onDelim && !isDelim {
        n := n + 1;
      } else if onDelim && isDelim {
        return None;
      }
      onDelim, i := isDelim, i + 1;
    }
    pathL := if n == 0 || onDelim then None else Some(n);
  }

  /** The first colon from beg on, or the end. */
  method NextColon(path: string, beg: nat) returns (seek: nat)
    requires beg <= |path|
    ensures seek <= |path| && seek == beg + Find(path[beg..], ':')
  {
    seek := beg;
    while seek < |path| && path[seek] != ':'
      invariant beg <= seek <= |path| && forall j | 0 <= j < seek - beg :: path[beg..][j] != ':'
    {
      assert path[beg..][seek - beg] == path[seek];
      seek := seek + 1;
    }
    assert seek < |path| ==> path[beg..][seek - beg] == ':';
  }

  lemma SplitAt(path: string, beg: nat, seek: nat)
    requires beg <= |path| && seek == beg + Find(path[beg..], ':')
    ensures Split(path[beg..])[0] == path[beg..seek]
    ensures seek < |path| ==> Split(path[beg..])[1..] == Split(path[seek + 1..])
    ensures seek == |path| ==> |Split(path[beg..])| == 1
  {
    var s, i := path[beg..], seek - beg;
    assert s[..i] == path[beg..seek];
    if seek < |path| {
      assert s[i + 1..] == path[seek + 1..];
    }
  }

  /** The lengths of the tokens, found one colon after another. */
  method TokenLengths(path: string, pathL: nat) returns (lens: seq<nat>)
    requires pathL == |Split(path)|
    ensures |lens| == pathL && forall i | 0 <= i < pathL :: lens[i] == |Split(path)[i]|
  {
    hide Split, Find;
    var found := new nat[pathL](_ => 0);
    ghost var tokens := Split(path);
    var beg: nat, i: nat := 0, 0;
    assert path[0..] == path;
    while true
      invariant beg <= |path| && i < pathL
      invariant Split(path[beg..]) == tokens[i..]
      invariant forall j | 0 <= j < i :: found[j] == |tokens[j]|
      decreases pathL - i
    {
      var seek := NextColon(path, beg);
      var tokenLen := seek - beg;
      SplitAt(path, beg, seek);
      assert tokens[i] == tokens[i..][0];
      found[i] := tokenLen;
      i := i + 1;
      if i >= pathL {
        break;
      }
      assert tokens[i..] == tokens[i - 1..][1..];
      beg := beg + tokenLen + 1;
    }
    lens := found[..];
  }

  /** The comparison of the path with an entry's first tokens, piece by piece. */
  method Matches(path: string, lens: seq<nat>, entry: Path, ghost tokens: Path) returns (match_: bool)
    requires |lens| == |tokens| && forall i | 0 <= i < |lens| :: lens[i] == |tokens[i]|
    requires tokens == [] || path == Join(tokens)
    requires |entry| >= |tokens|
    ensures match_ <==> tokens <= entry
  {
    var j: nat, pos: nat := 0, 0;
    assert tokens[0..] == tokens && path[0..] == path;
    while j < |lens|
      invariant j <= |lens| && tokens[..j] == entry[..j]
      invariant j < |tokens| ==> pos <= |path| && path[pos..] == Join(tokens[j..])
    {
      assert tokens[j..][0] == tokens[j] && tokens[j..][1..] == tokens[j + 1..];
      assert path[pos..][..lens[j]] == tokens[j];
      assert path[pos..pos + lens[j]] == tokens[j];
      if |entry[j]| != lens[j] || path[pos..pos + lens[j]] != entry[j] {
        return false;
      }
      if j + 1 < |tokens| {
        assert path[pos..][lens[j] + 1..] == path[pos + lens[j] + 1..];
      }
      pos, j := pos + lens[j] + 1, j + 1;
    }
    match_ := true;
  }

  lemma GatherStep(table: seq<Path>, tokens: Path, i: nat, refs: seq<nat>)
    requires i < |table|
    ensures refs + Gather(table, tokens, i) ==
            (if tokens <= table[i] then refs + [i] else refs) + Gather(table, tokens, i + 1)
  {
    var rest := Gather(table, tokens, i + 1);
    assert Gather(table, tokens, i) == if tokens <= table[i] then [i] + rest else rest;
    hide Gather;
    assert refs + ([i] + rest) == refs + [i] + rest;
  }

  lemma GatheredAll(table: seq<Path>, tokens: Path, refs: seq<nat>)
    ensures refs + Gather(table, tokens, |table|) == refs
  {
  }

  /** The loop over the table. */
  method ComparePass(table: seq<Path>, path: string, lens: seq<nat>, ghost tokens: Path) returns (refs: seq<nat>)
    requires |lens| == |tokens| && forall i | 0 <= i < |lens| :: lens[i] == |tokens[i]|
    requires tokens == [] || path == Join(tokens)
    ensures refs == Gather(table, tokens, 0)
  {
    hide Join, Gather;
    var i := 0;
    refs := [];
    while i < |table|
      invariant i <= |table| && Gather(table, tokens, 0) == refs + Gather(table, tokens, i)
    {
      GatherStep(table, tokens, i, refs);
      if |table[i]| >= |lens| {
        var found := Matches(path, lens, table[i], tokens);
        if found {
          refs := refs + [i];
        }
      }
      i := i + 1;
    }
    GatheredAll(table, tokens, refs);
  }

  /** property_path_gather_entry_refs */
  method GatherEntryRefs(table: seq<Path>, path: string) returns (r: Gathered)
    ensures r == GatherRefs(table, path)
  {
    hide Split, Join;
    JoinSplit(path);
    var pathL, lens: seq<nat> := 0, [];
    ghost var tokens: Path := [];
    if path != ":" {
      var counted := CountPass(path);
      if counted.None? {
        return NotFound(InvalidPath);
      }
      tokens := Split(path);
      pathL := counted.value;
      lens := TokenLengths(path, pathL);
    }
    var refs := ComparePass(table, path, lens, tokens);
    r := if |refs| == 0 then NotFound(UnknownPath) else Found(pathL, refs);
  }
}
