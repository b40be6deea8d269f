/** Actions and their arguments (src/ptychite/action.c). */
module Actions {
  import opened Lists

  datatype Func =
    | Terminate | Close | ToggleControl | Spawn | Shell | IncMaster | DecMaster | IncMfact | DecMfact | ToggleRmaster
    | NextWorkspace | PrevWorkspace | NextView | PrevView | SwapFront | SwitchApp | SwitchAppInstance

  datatype Mode = NoData | StringData | ArgvData

  datatype Entry = Entry(name: string, func: Func, mode: Mode)

  const ACTION_NAME_TABLE: seq<Entry> := [
    Entry("terminate", Terminate, NoData),
    Entry("close", Close, NoData),
    Entry("control", ToggleControl, NoData),
    Entry("spawn", Spawn, ArgvData),
    Entry("shell", Shell, StringData),
    Entry("inc_master", IncMaster, NoData),
    Entry("dec_master", DecMaster, NoData),
    Entry("inc_mfact", IncMfact, NoData),
    Entry("dec_mfact", DecMfact, NoData),
    Entry("toggle_rmaster", ToggleRmaster, NoData),
    Entry("next_workspace", NextWorkspace, NoData),
    Entry("prev_workspace", PrevWorkspace, NoData),
    Entry("next_view", NextView, NoData),
    Entry("prev_view", PrevView, NoData),
    Entry("swap_front", SwapFront, NoData),
    Entry("switch_app", SwitchApp, NoData),
    Entry("switch_app_instance", SwitchAppInstance, NoData)
  ]

  /** The data that an action's function reads: nothing, a string, or a vector of strings. */
  datatype Data = Nothing | Text(text: string) | Argv(argv: seq<string>)

  datatype Action = Action(func: Func, data: Data)

  datatype Error = NoArguments | UnknownName | WrongArity

  datatype Result = Ok(action: Action) | Err(error: Error)

  function FindName(name: string, i: nat): (r: nat)
    requires i <= |ACTION_NAME_TABLE|
    ensures i <= r <= |ACTION_NAME_TABLE|
    ensures r < |ACTION_NAME_TABLE| ==> ACTION_NAME_TABLE[r].name == name
    decreases |ACTION_NAME_TABLE| - i
  {
    if i == |ACTION_NAME_TABLE| || ACTION_NAME_TABLE[i].name == name then i else FindName(name, i + 1)
  }

  function FindFunc(func: Func, i: nat): (r: nat)
    requires i <= |ACTION_NAME_TABLE|
    ensures i <= r <= |ACTION_NAME_TABLE|
    ensures r < |ACTION_NAME_TABLE| ==> ACTION_NAME_TABLE[r].func == func
    decreases |ACTION_NAME_TABLE| - i
  {
    if i == |ACTION_NAME_TABLE| || ACTION_NAME_TABLE[i].func == func then i else FindFunc(func, i + 1)
  }

  function Make(entry: Entry, args: seq<string>): Result
    requires args != []
  {
    match entry.mode
    case NoData => if |args| != 1 then Err(WrongArity) else Ok(Action(entry.func, Nothing))
    case StringData => if |args| != 2 then Err(WrongArity) else Ok(Action(entry.func, Text(args[1])))
    case ArgvData => if |args| < 2 then Err(WrongArity) else Ok(Action(entry.func, Argv(args[1..])))
  }

  function Create(args: seq<string>): Result {
    if args == [] then Err(NoArguments)
    else
      var i := FindName(args[0], 0);
      if i == |ACTION_NAME_TABLE| then Err(UnknownName) else Make(ACTION_NAME_TABLE[i], args)
  }

  /** The data is of the kind that the table gives the function. */
  predicate Fits(action: Action) {
    var i := FindFunc(action.func, 0);
    && i < |ACTION_NAME_TABLE|
    && match ACTION_NAME_TABLE[i].mode
       case NoData => action.data.Nothing?
       case StringData => action.data.Text?
       case ArgvData => action.data.Argv? && action.data.argv != []
  }

  function Rest(data: Data): seq<string> {
    match data
    case Nothing => []
    case Text(text) => [text]
    case Argv(argv) => argv
  }

  function GetArgs(action: Action): (r: seq<string>)
    requires Fits(action)
    ensures r != []
  {
    [ACTION_NAME_TABLE[FindFunc(action.func, 0)].name] + Rest(action.data)
  }

  // ---- The table is a bijection -------------------------------------------------------------------------

  function FuncPlace(func: Func): nat {
    match func
    case Terminate => 0 case Close => 1 case ToggleControl => 2 case Spawn => 3 case Shell => 4 case IncMaster => 5
    case DecMaster => 6 case IncMfact => 7 case DecMfact => 8 case ToggleRmaster => 9 case NextWorkspace => 10
    case PrevWorkspace => 11 case NextView => 12 case PrevView => 13 case SwapFront => 14 case SwitchApp => 15
    case SwitchAppInstance => 16
  }

  lemma FuncsInOrder(i: nat)
    requires i < |ACTION_NAME_TABLE|
    ensures FuncPlace(ACTION_NAME_TABLE[i].func) == i
  {
  }

  /** The place of a name of the table, by its length and two of its letters. */
  function NamePlace(name: string): nat
    requires |name| > 2
  {
    match |name|
    case 5 => if name[0] == 'c' then 1 else if name[2] == 'a' then 3 else 4
    case 7 => 2
    case 9 => (match name[0] case 't' => 0 case 'i' => 7 case 'd' => 8 case 'n' => 12 case _ => 13)
    case 10 => if name[0] == 'i' then 5 else if name[0] == 'd' then 6 else if name[2] == 'a' then 14 else 15
    case 14 => if name[0] == 't' then 9 else if name[0] == 'n' then 10 else 11
    case _ => 16
  }

  lemma NamesInOrder(i: nat)
    requires i < |ACTION_NAME_TABLE|
    ensures |ACTION_NAME_TABLE[i].name| > 2 && NamePlace(ACTION_NAME_TABLE[i].name) == i
  {
  }

  lemma {:induction false} FuncFound(i: nat, k: nat)
    requires k <= i < |ACTION_NAME_TABLE|
    ensures FindFunc(ACTION_NAME_TABLE[i].func, k) == i
    decreases i - k
  {
    FuncsInOrder(i);
    FuncsInOrder(k);
    if k < i {
      hide FuncPlace;
      FuncFound(i, k + 1);
    }
  }

  lemma {:induction false} NameFound(i: nat, k: nat)
    requires k <= i < |ACTION_NAME_TABLE|
    ensures FindName(ACTION_NAME_TABLE[i].name, k) == i
    decreases i - k
  {
    NamesInOrder(i);
    NamesInOrder(k);
    if k < i {
      hide NamePlace;
      NameFound(i, k + 1);
    }
  }

  /** The name of each function. */
  function NameOf(func: Func): string {
    match func
    case Terminate => "terminate" case Close => "close" case ToggleControl => "control" case Spawn => "spawn"
    case Shell => "shell" case IncMaster => "inc_master" case DecMaster => "dec_master" case IncMfact => "inc_mfact"
    case DecMfact => "dec_mfact" case ToggleRmaster => "toggle_rmaster" case NextWorkspace => "next_workspace"
    case PrevWorkspace => "prev_workspace" case NextView => "next_view" case PrevView => "prev_view"
    case SwapFront => "swap_front" case SwitchApp => "switch_app" case SwitchAppInstance => "switch_app_instance"
  }

  lemma NameAtPlace(func: Func)
    ensures FuncPlace(func) < |ACTION_NAME_TABLE| && ACTION_NAME_TABLE[FuncPlace(func)].name == NameOf(func)
  {
  }

  lemma FuncAtPlace(func: Func)
    ensures FuncPlace(func) < |ACTION_NAME_TABLE| && ACTION_NAME_TABLE[FuncPlace(func)].func == func
  {
  }

  lemma ModeAt(i: nat)
    requires i < |ACTION_NAME_TABLE|
    ensures ACTION_NAME_TABLE[i].mode == if i == 3 then ArgvData else if i == 4 then StringData else NoData
  {
  }

  lemma ModeAtPlace(func: Func)
    ensures var i := FuncPlace(func);
      && i < |ACTION_NAME_TABLE| && ACTION_NAME_TABLE[i].func == func
      && ACTION_NAME_TABLE[i].mode == match func case Spawn => ArgvData case Shell => StringData case _ => NoData
  {
    FuncAtPlace(func);
    ModeAt(FuncPlace(func));
  }

  /** Under its name each function is found; spawn takes a command line, shell one string, and the others nothing. */
  lemma ArgumentsTaken(func: Func, rest: seq<string>)
    ensures Create([NameOf(func)] + rest) ==
            match func
            case Spawn => if rest == [] then Err(WrongArity) else Ok(Action(func, Argv(rest)))
            case Shell => if |rest| != 1 then Err(WrongArity) else Ok(Action(func, Text(rest[0])))
            case _ => if rest != [] then Err(WrongArity) else Ok(Action(func, Nothing))
  {
    hide FindName, NameOf, FuncPlace;
    NameAtPlace(func);
    ModeAtPlace(func);
    NameFound(FuncPlace(func), 0);
    assert ([NameOf(func)] + rest)[1..] == rest;
  }

  /** No other name is known. */
  lemma OtherNames(args: seq<string>)
    requires args != []
    ensures Create(args) == Err(UnknownName) <==> forall func :: args[0] != NameOf(func)
  {
    hide FindName, NameOf, FuncPlace;
    var i := FindName(args[0], 0);
    if i < |ACTION_NAME_TABLE| {
      FuncAt(i);
      assert args[0] == NameOf(ACTION_NAME_TABLE[i].func);
    } else {
      forall func ensures args[0] != NameOf(func) {
        NameKnown(func);
      }
    }
  }

  lemma NameKnown(func: Func)
    ensures FindName(NameOf(func), 0) < |ACTION_NAME_TABLE|
  {
    hide FindName, NameOf, FuncPlace;
    NameAtPlace(func);
    NameFound(FuncPlace(func), 0);
  }

  lemma FuncAt(i: nat)
    requires i < |ACTION_NAME_TABLE|
    ensures ACTION_NAME_TABLE[i].name == NameOf(ACTION_NAME_TABLE[i].func)
  {
    FuncsInOrder(i);
    hide NameOf, FuncPlace;
    NameAtPlace(ACTION_NAME_TABLE[i].func);
  }

  // ---- Creating an action and reading its arguments undo each other ---------------------------------------

  lemma ArgsOfCreated(args: seq<string>)
    requires Create(args).Ok?
    ensures Fits(Create(args).action) && GetArgs(Create(args).action) == args
  {
    var i := FindName(args[0], 0);
    var entry := ACTION_NAME_TABLE[i];
    FuncFound(i, 0);
    hide FindName, FindFunc;
    match entry.mode
    case NoData => assert args == [args[0]];
    case StringData => assert args == [args[0], args[1]];
    case ArgvData =>
  }

  lemma CreatedFromArgs(action: Action)
    requires Fits(action)
    ensures Create(GetArgs(action)) == Ok(action)
  {
    var i := FindFunc(action.func, 0);
    NameFound(i, 0);
    hide FindName, FindFunc;
    assert GetArgs(action)[1..] == Rest(action.data);
  }

  // ---- The functions, as they run -------------------------------------------------------------------------

  /** The strings after the first, copied one by one. */
  method CopyArgs(args: seq<string>) returns (argv: array<string>)
    requires args != []
    ensures fresh(argv) && argv[..] == args[1..]
  {
    argv := new string[|args| - 1](_ => "");
    var j := 0;
    while j < |args| - 1
      invariant j <= |args| - 1
      invariant argv[..j] == args[1..j + 1]
    {
      argv[j] := args[j + 1];
      j := j + 1;
    }
    assert argv[..j] == argv[..];
  }

  method MakeAction(entry: Entry, args: seq<string>) returns (r: Result)
    requires args != []
    ensures r == Make(entry, args)
  {
    match entry.mode {
      case NoData => r := if |args| != 1 then Err(WrongArity) else Ok(Action(entry.func, Nothing));
      case StringData => r := if |args| != 2 then Err(WrongArity) else Ok(Action(entry.func, Text(args[1])));
      case ArgvData =>
        if |args| < 2 {
          return Err(WrongArity);
        }
        var argv := CopyArgs(args);
        r := Ok(Action(entry.func, Argv(argv[..])));
    }
  }

  lemma FindNameStep(name: string, i: nat)
    requires i < |ACTION_NAME_TABLE|
    ensures FindName(name, i) == if ACTION_NAME_TABLE[i].name == name then i else FindName(name, i + 1)
  {
  }

  method CreateAction(args: seq<string>) returns (r: Result)
    ensures r == Create(args)
  {
    if |args| < 1 {
      return Err(NoArguments);
    }
    hide FindName, Make;
    var i := 0;
    while i < |ACTION_NAME_TABLE|
      invariant i <= |ACTION_NAME_TABLE|
      invariant FindName(args[0], 0) == FindName(args[0], i)
    {
      FindNameStep(args[0], i);
      if args[0] == ACTION_NAME_TABLE[i].name {
        r := MakeAction(ACTION_NAME_TABLE[i], args);
        return;
      }
      i := i + 1;
    }
    r := Err(UnknownName);
  }

  /** A name and the strings after it, copied into a new array. */
  method JoinArgs(name: string, rest: seq<string>) returns (args: seq<string>)
    ensures args == [name] + rest
  {
    var argsL := |rest| + 1;
    var copied := new string[argsL](_ => "");
    copied[0] := name;
    var j := 1;
    while j < argsL
      invariant 1 <= j <= argsL
      invariant copied[..j] == [name] + rest[..j - 1]
    {
      copied[j] := rest[j - 1];
      j := j + 1;
    }
    assert rest[..j - 1] == rest && copied[..j] == copied[..];
    args := copied[..];
  }

  /** The name that the table gives the function, then the data. */
  method ActionArgs(action: Action) returns (args: seq<string>)
    requires Fits(action)
    ensures args == GetArgs(action)
  {
    var i := 0;
    while ACTION_NAME_TABLE[i].func != action.func
      invariant i < |ACTION_NAME_TABLE| && FindFunc(action.func, 0) == FindFunc(action.func, i)
      decreases |ACTION_NAME_TABLE| - i
    {
      i := i + 1;
    }
    var rest := match ACTION_NAME_TABLE[i].mode
      case NoData => []
      case StringData => [action.data.text]
      case ArgvData => action.data.argv;
    args := JoinArgs(ACTION_NAME_TABLE[i].name, rest);
  }
}
