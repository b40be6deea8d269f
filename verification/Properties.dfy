/** Setting and reading nested properties (src/ptychite/config.c). */
module Properties {
  import opened Lists
  import opened Paths
  import opened Json

  /** A setter's call: the table entry and the value it is given. */
  datatype Call = Call(entry: nat, value: Value)

  /** Whether a setter succeeds, which may depend on the calls made before it. */
  type Accepts = (seq<Call>, Call) -> bool

  datatype SetError = BadPath(error: Paths.Error) | NotAnObject | UnknownMember | Rejected

  datatype Outcome = Outcome(calls: seq<Call>, error: Option<SetError>)

  /** A value that is not an object, at its path inside one. */
  datatype Leaf = Leaf(path: Path, value: Value)

  /** An object still to visit, at its path. */
  datatype Node = Node(path: Path, members: seq<Member>)

  /** What an entry's getter gives, or nothing if it fails. */
  type Getters = nat -> Option<Value>

  datatype Reading = Read(value: Value) | NoSuchPath(error: Paths.Error) | GetterFailed

  // ---- The leaves of an object, level by level ------------------------------------------------------------

  function LeavesOf(path: Path, members: seq<Member>): seq<Leaf> {
    if members == [] then []
    else (if members[0].value.Object? then [] else [Leaf(path + [members[0].key], members[0].value)])
         + LeavesOf(path, members[1..])
  }

  function NodesOf(path: Path, members: seq<Member>): seq<Node> {
    if members == [] then []
    else (if members[0].value.Object? then [Node(path + [members[0].key], members[0].value.members)] else [])
         + NodesOf(path, members[1..])
  }

  /** The number of objects among the members, at any depth. */
  function Objects(members: seq<Member>): nat {
    if members == [] then 0
    else (if members[0].value.Object? then 1 + Objects(members[0].value.members) else 0) + Objects(members[1..])
  }

  function QueueSize(queue: seq<Node>): nat {
    if queue == [] then 0 else 1 + Objects(queue[0].members) + QueueSize(queue[1..])
  }

  lemma {:induction false} QueueSizeConcat(a: seq<Node>, b: seq<Node>)
    ensures QueueSize(a + b) == QueueSize(a) + QueueSize(b)
  {
    if a == [] {
      assert a + b == b;
    } else {
      assert (a + b)[1..] == a[1..] + b;
      QueueSizeConcat(a[1..], b);
    }
  }

  lemma {:induction false} NodesSize(path: Path, members: seq<Member>)
    ensures QueueSize(NodesOf(path, members)) == Objects(members)
  {
    if members != [] {
      NodesSize(path, members[1..]);
      if members[0].value.Object? {
        assert NodesOf(path, members)[1..] == NodesOf(path, members[1..]);
      } else {
        assert NodesOf(path, members) == NodesOf(path, members[1..]);
      }
    }
  }

  function Successors(queue: seq<Node>): (r: seq<Node>)
    requires queue != []
    ensures QueueSize(r) < QueueSize(queue)
  {
    QueueSizeConcat(queue[1..], NodesOf(queue[0].path, queue[0].members));
    NodesSize(queue[0].path, queue[0].members);
    queue[1..] + NodesOf(queue[0].path, queue[0].members)
  }

  /** The leaves that a worklist yields. */
  function Bfs(queue: seq<Node>): seq<Leaf>
    decreases QueueSize(queue)
  {
    if queue == [] then [] else LeavesOf(queue[0].path, queue[0].members) + Bfs(Successors(queue))
  }

  function Leaves(members: seq<Member>): seq<Leaf> {
    Bfs([Node([], members)])
  }

  // ---- Setting --------------------------------------------------------------------------------------------

  /** The entry with exactly this path, or the end of the table. */
  function FindEntry(table: seq<Path>, path: Path, i: nat): (r: nat)
    requires i <= |table|
    ensures i <= r <= |table| && (r < |table| ==> table[r] == path) && forall j | i <= j < r :: table[j] != path
    decreases |table| - i
  {
    if i == |table| || table[i] == path then i else FindEntry(table, path, i + 1)
  }

  function CallSetter(calls: seq<Call>, call: Call, accepts: Accepts): Outcome {
    Outcome(calls + [call], if accepts(calls, call) then None else Some(Rejected))
  }

  function SetLeaf(table: seq<Path>, tokens: Path, leaf: Leaf, calls: seq<Call>, accepts: Accepts): Outcome {
    var e := FindEntry(table, tokens + leaf.path, 0);
    if e == |table| then Outcome(calls, Some(UnknownMember)) else CallSetter(calls, Call(e, leaf.value), accepts)
  }

  function SetLeaves(table: seq<Path>, tokens: Path, leaves: seq<Leaf>, calls: seq<Call>, accepts: Accepts): Outcome
    decreases |leaves|
  {
    if leaves == [] then Outcome(calls, None)
    else
      var first := SetLeaf(table, tokens, leaves[0], calls, accepts);
      if first.error.Some? then first else SetLeaves(table, tokens, leaves[1..], first.calls, accepts)
  }

  /** One entry, and it is the path itself. */
  predicate Direct(table: seq<Path>, tokens: Path) {
    var refs := Gather(table, tokens, 0);
    GatherExact(table, tokens, 0);
    assert refs != [] ==> refs[0] in refs;
    |refs| == 1 && |table[refs[0]]| == |tokens|
  }

  function SetProperty(table: seq<Path>, path: string, value: Value, calls: seq<Call>, accepts: Accepts): Outcome {
    var r := GatherRefs(table, path);
    if r.NotFound? then Outcome(calls, Some(BadPath(r.error)))
    else
      var tokens := Tokenise(path).value;
      if Direct(table, tokens) then CallSetter(calls, Call(r.refs[0], value), accepts)
      else if !value.Object? then Outcome(calls, Some(NotAnObject))
      else SetLeaves(table, tokens, Leaves(value.members), calls, accepts)
  }

  // ---- Which leaves these are -----------------------------------------------------------------------------

  /** The value at a path inside an object. */
  function Lookup(members: seq<Member>, path: Path): Option<Value>
    decreases |path|
  {
    if path == [] then None
    else
      var value := Get(members, path[0]);
      if value.None? || |path| == 1 then value
      else if value.value.Object? then Lookup(value.value.members, path[1..])
      else None
  }

  ghost predicate IsLeaf(members: seq<Member>, path: Path, value: Value) {
    !value.Object? && Lookup(members, path) == Some(value)
  }

  /** Keys are unique at every level. */
  predicate UniqueKeys(members: seq<Member>) {
    if members == [] then true
    else
      && Get(members[1..], members[0].key).None?
      && (members[0].value.Object? ==> UniqueKeys(members[0].value.members))
      && UniqueKeys(members[1..])
  }

  /** The leaf lies in the node's object. */
  ghost predicate Under(node: Node, leaf: Leaf) {
    && node.path <= leaf.path
    && IsLeaf(node.members, leaf.path[|node.path|..], leaf.value)
  }

  lemma {:induction false} MembersGet(members: seq<Member>, i: nat)
    requires UniqueKeys(members) && i < |members|
    ensures Get(members, members[i].key) == Some(members[i].value)
    ensures forall j | 0 <= j < i :: members[j].key != members[i].key
    ensures members[i].value.Object? ==> UniqueKeys(members[i].value.members)
  {
    if i > 0 {
      MembersGet(members[1..], i - 1);
      assert members[1..][i - 1] == members[i];
      forall j | 0 <= j < i ensures members[j].key != members[i].key {
        assert j > 0 ==> members[1..][j - 1] == members[j];
      }
    }
  }

  lemma {:induction false} GetMember(members: seq<Member>, key: string)
    ensures var v := Get(members, key); v.Some? ==> exists i :: 0 <= i < |members| && members[i] == Member(key, v.value)
  {
    if members != [] && members[0].key != key && Get(members, key).Some? {
      GetMember(members[1..], key);
      var i :| 0 <= i < |members[1..]| && members[1..][i] == Member(key, Get(members, key).value);
      assert members[i + 1] == members[1..][i];
    } else if members != [] && members[0].key == key {
      assert members[0] == Member(key, members[0].value);
    }
  }

  lemma {:induction false} LeavesOfExact(path: Path, members: seq<Member>, leaf: Leaf)
    ensures leaf in LeavesOf(path, members) <==>
            !leaf.value.Object? && exists i :: 0 <= i < |members| && leaf == Leaf(path + [members[i].key], members[i].value)
  {
    if members != [] {
      var rest := members[1..];
      LeavesOfExact(path, rest, leaf);
      assert forall i | 0 <= i < |rest| :: rest[i] == members[i + 1];
      assert forall i | 0 < i < |members| :: members[i] == rest[i - 1];
    }
  }

  lemma {:induction false} NodesOfExact(path: Path, members: seq<Member>, node: Node)
    ensures node in NodesOf(path, members) <==>
            exists i :: 0 <= i < |members| && members[i].value.Object?
                     && node == Node(path + [members[i].key], members[i].value.members)
  {
    if members != [] {
      var rest := members[1..];
      NodesOfExact(path, rest, node);
      assert forall i | 0 <= i < |rest| :: rest[i] == members[i + 1];
      assert forall i | 0 < i < |members| :: members[i] == rest[i - 1];
    }
  }

  /** A leaf under a node is one of its members, or lies under one of its objects. */
  lemma UnderStep(node: Node, leaf: Leaf)
    requires UniqueKeys(node.members)
    ensures Under(node, leaf) <==>
            || leaf in LeavesOf(node.path, node.members)
            || exists child <- NodesOf(node.path, node.members) :: Under(child, leaf)
  {
    hide LeavesOf, NodesOf, UniqueKeys;
    LeavesOfExact(node.path, node.members, leaf);
    if Under(node, leaf) {
      UnderDown(node, leaf);
    }
    if leaf in LeavesOf(node.path, node.members) {
      var i :| 0 <= i < |node.members| && leaf == Leaf(node.path + [node.members[i].key], node.members[i].value);
      MembersGet(node.members, i);
      assert leaf.path[|node.path|..] == [node.members[i].key];
    }
    if child :| child in NodesOf(node.path, node.members) && Under(child, leaf) {
      NodesOfExact(node.path, node.members, child);
      var i :| 0 <= i < |node.members| && node.members[i].value.Object?
               && child == Node(node.path + [node.members[i].key], node.members[i].value.members);
      MembersGet(node.members, i);
      var rest := leaf.path[|node.path|..];
      assert rest[0] == child.path[|node.path|] && rest[1..] == leaf.path[|child.path|..];
      assert node.path <= child.path;
    }
  }

  lemma UnderDown(node: Node, leaf: Leaf)
    requires UniqueKeys(node.members) && Under(node, leaf)
    ensures leaf in LeavesOf(node.path, node.members) || exists child <- NodesOf(node.path, node.members) :: Under(child, leaf)
  {
    hide LeavesOf, NodesOf, UniqueKeys;
    var rest := leaf.path[|node.path|..];
    var value := Get(node.members, rest[0]).value;
    GetMember(node.members, rest[0]);
    var i :| 0 <= i < |node.members| && node.members[i] == Member(rest[0], value);
    if |rest| == 1 {
      assert leaf.path == node.path + [rest[0]];
      LeavesOfExact(node.path, node.members, leaf);
    } else {
      var child := Node(node.path + [rest[0]], value.members);
      NodesOfExact(node.path, node.members, child);
      assert leaf.path[|child.path|..] == rest[1..] && child.path <= leaf.path;
      assert Under(child, leaf);
    }
  }

  ghost predicate AllUnique(queue: seq<Node>) {
    forall node <- queue :: UniqueKeys(node.members)
  }

  lemma SuccessorsUnique(queue: seq<Node>)
    requires queue != [] && AllUnique(queue)
    ensures AllUnique(Successors(queue))
  {
    hide UniqueKeys, NodesOf;
    var node := queue[0];
    forall child <- NodesOf(node.path, node.members) ensures UniqueKeys(child.members) {
      NodesOfExact(node.path, node.members, child);
      var i :| 0 <= i < |node.members| && node.members[i].value.Object?
               && child == Node(node.path + [node.members[i].key], node.members[i].value.members);
      MembersGet(node.members, i);
    }
  }

  /** The worklist yields every leaf under its nodes, and nothing else. */
  lemma {:induction false} BfsExact(queue: seq<Node>, leaf: Leaf)
    requires AllUnique(queue)
    ensures leaf in Bfs(queue) <==> exists node <- queue :: Under(node, leaf)
    decreases QueueSize(queue)
  {
    hide UniqueKeys, Under, LeavesOf, NodesOf, QueueSize;
    if queue != [] {
      var node := queue[0];
      UnderStep(node, leaf);
      SuccessorsUnique(queue);
      BfsExact(Successors(queue), leaf);
      var more := NodesOf(node.path, node.members);
      assert Successors(queue) == queue[1..] + more;
      assert forall n: Node :: n in queue[1..] + more <==> n in queue[1..] || n in more;
      assert forall n: Node :: n in queue <==> n == node || n in queue[1..];
    }
  }

  // ---- No leaf twice --------------------------------------------------------------------------------------

  ghost predicate DistinctPaths(leaves: seq<Leaf>) {
    forall i, j | 0 <= i < j < |leaves| :: leaves[i].path != leaves[j].path
  }

  /** No node lies inside another. */
  ghost predicate Apart(queue: seq<Node>) {
    forall i, j | 0 <= i < |queue| && 0 <= j < |queue| && i != j :: !(queue[i].path <= queue[j].path)
  }

  lemma {:induction false} AbsentKey(members: seq<Member>, key: string)
    requires Get(members, key).None?
    ensures forall i | 0 <= i < |members| :: members[i].key != key
  {
    if members != [] {
      AbsentKey(members[1..], key);
      forall i | 0 <= i < |members| ensures members[i].key != key {
        assert i > 0 ==> members[i] == members[1..][i - 1];
      }
    }
  }

  lemma {:induction false} LeavesOfDistinct(path: Path, members: seq<Member>)
    requires UniqueKeys(members)
    ensures DistinctPaths(LeavesOf(path, members))
  {
    if members != [] {
      var rest := LeavesOf(path, members[1..]);
      LeavesOfDistinct(path, members[1..]);
      AbsentKey(members[1..], members[0].key);
      forall leaf <- rest ensures leaf.path != path + [members[0].key] {
        LeavesOfExact(path, members[1..], leaf);
        assert leaf.path[|path|] != members[0].key;
      }
    }
  }

  lemma {:induction false} NodesOfApart(path: Path, members: seq<Member>)
    requires UniqueKeys(members)
    ensures Apart(NodesOf(path, members))
    ensures forall node <- NodesOf(path, members) :: path <= node.path && |node.path| == |path| + 1
  {
    if members != [] {
      var rest := NodesOf(path, members[1..]);
      NodesOfApart(path, members[1..]);
      AbsentKey(members[1..], members[0].key);
      forall node <- rest ensures node.path[|path|] != members[0].key {
        NodesOfExact(path, members[1..], node);
      }
      assert (path + [members[0].key])[|path|] == members[0].key;
    }
  }

  lemma ApartConcat(a: seq<Node>, b: seq<Node>)
    requires Apart(a) && Apart(b)
    requires forall x <- a, y <- b :: !(x.path <= y.path) && !(y.path <= x.path)
    ensures Apart(a + b)
  {
  }

  lemma SuccessorsApart(queue: seq<Node>)
    requires queue != [] && AllUnique(queue) && Apart(queue)
    ensures Apart(Successors(queue))
  {
    hide UniqueKeys, NodesOf;
    var node, rest := queue[0], queue[1..];
    var more := NodesOf(node.path, node.members);
    NodesOfApart(node.path, node.members);
    forall i, j | 0 <= i < |rest| && 0 <= j < |rest| && i != j ensures !(rest[i].path <= rest[j].path) {
      assert rest[i] == queue[i + 1] && rest[j] == queue[j + 1];
    }
    forall x <- rest, y <- more ensures !(x.path <= y.path) && !(y.path <= x.path) {
      var i :| 0 <= i < |rest| && rest[i] == x;
      assert queue[i + 1] == x;
      PrefixOfChild(node.path, x.path, y.path);
    }
    ApartConcat(rest, more);
  }

  lemma PrefixOfChild(parent: Path, other: Path, child: Path)
    requires parent <= child && |child| == |parent| + 1
    requires !(parent <= other) && !(other <= parent)
    ensures !(other <= child) && !(child <= other)
  {
    assert other <= child && |other| <= |parent| ==> other <= parent;
    assert other <= child && |other| > |parent| ==> other == child;
    assert child <= other ==> parent <= other;
  }

  lemma {:induction false} BfsDistinct(queue: seq<Node>)
    requires AllUnique(queue) && Apart(queue)
    ensures DistinctPaths(Bfs(queue))
    decreases QueueSize(queue)
  {
    hide UniqueKeys, LeavesOf, NodesOf, QueueSize, Under;
    if queue != [] {
      var node := queue[0];
      var here, later := LeavesOf(node.path, node.members), Bfs(Successors(queue));
      assert node in queue;
      LeavesOfDistinct(node.path, node.members);
      SuccessorsUnique(queue);
      SuccessorsApart(queue);
      BfsDistinct(Successors(queue));
      forall x <- here, y <- later ensures x.path != y.path {
        LeavesOfExact(node.path, node.members, x);
        BfsExact(Successors(queue), y);
        var other :| other in Successors(queue) && Under(other, y);
        LaterElsewhere(queue, x, other, y);
      }
    }
  }

  lemma LaterElsewhere(queue: seq<Node>, x: Leaf, other: Node, y: Leaf)
    requires queue != [] && AllUnique(queue) && Apart(queue)
    requires queue[0].path <= x.path && |x.path| == |queue[0].path| + 1
    requires other in Successors(queue) && Under(other, y)
    ensures x.path != y.path
  {
    hide UniqueKeys, NodesOf, QueueSize;
    var node := queue[0];
    NodesOfApart(node.path, node.members);
    if other in queue[1..] {
      var i :| 0 <= i < |queue[1..]| && queue[1..][i] == other;
      assert queue[i + 1] == other;
      PrefixOfChild(node.path, other.path, x.path);
    } else {
      assert |other.path| == |node.path| + 1 && |y.path| > |other.path|;
    }
  }

  /** Leaves lists every leaf of the object, each once. */
  lemma LeavesExact(members: seq<Member>)
    requires UniqueKeys(members)
    ensures forall leaf: Leaf :: leaf in Leaves(members) <==> IsLeaf(members, leaf.path, leaf.value)
    ensures DistinctPaths(Leaves(members))
  {
    hide UniqueKeys, IsLeaf, Bfs;
    var root := Node([], members);
    BfsDistinct([root]);
    forall leaf: Leaf ensures leaf in Leaves(members) <==> IsLeaf(members, leaf.path, leaf.value) {
      BfsExact([root], leaf);
      assert root in [root] && leaf.path[|root.path|..] == leaf.path;
      assert Under(root, leaf) <==> IsLeaf(members, leaf.path, leaf.value);
    }
  }

  // ---- What setting an object calls -----------------------------------------------------------------------

  /** The call is of the entry at the leaf's full path, with the leaf's value. */
  ghost predicate CallFor(table: seq<Path>, tokens: Path, leaf: Leaf, call: Call) {
    call.entry < |table| && table[call.entry] == tokens + leaf.path && call.value == leaf.value
  }

  ghost predicate ForSomeLeaf(table: seq<Path>, tokens: Path, members: seq<Member>, call: Call) {
    exists leaf: Leaf :: IsLeaf(members, leaf.path, leaf.value) && CallFor(table, tokens, leaf, call)
  }

  /**
   * The calls made are for the leaves in turn, and each leaf until a failure gets one. A leaf without an entry stops
   * the walk before a call; a setter that fails stops it after its call.
   */
  ghost predicate InTurn(table: seq<Path>, tokens: Path, leaves: seq<Leaf>, calls: seq<Call>, accepts: Accepts,
                         made: seq<Call>, r: Outcome)
  {
    && r.calls == calls + made
    && |made| <= |leaves|
    && (forall i | 0 <= i < |made| :: CallFor(table, tokens, leaves[i], made[i]))
    && (forall i | 0 <= i < |made| ::
          (accepts(calls + made[..i], made[i]) <==> !(r.error == Some(Rejected) && i == |made| - 1)))
    && (r.error == None ==> |made| == |leaves|)
    && (r.error == Some(Rejected) ==> made != [])
    && (r.error == Some(UnknownMember) ==> |made| < |leaves| && tokens + leaves[|made|].path !in table)
    && (r.error == None || r.error == Some(Rejected) || r.error == Some(UnknownMember))
  }

  lemma {:induction false} SetLeavesCalls(table: seq<Path>, tokens: Path, leaves: seq<Leaf>, calls: seq<Call>,
                                          accepts: Accepts)
    returns (made: seq<Call>)
    ensures InTurn(table, tokens, leaves, calls, accepts, made, SetLeaves(table, tokens, leaves, calls, accepts))
    decreases |leaves|
  {
    hide FindEntry, CallFor, InTurn;
    if leaves == [] {
      made := [];
      NoCall(table, tokens, leaves, calls, accepts);
    } else {
      var first := SetLeaf(table, tokens, leaves[0], calls, accepts);
      made := FirstCall(table, tokens, leaves, calls, accepts);
      if first.error.None? {
        assert made == [made[0]];
        var more := SetLeavesCalls(table, tokens, leaves[1..], first.calls, accepts);
        var r := SetLeaves(table, tokens, leaves[1..], first.calls, accepts);
        OneMoreCall(table, tokens, leaves, calls, accepts, made[0], more, r);
        made := made + more;
      }
    }
  }

  lemma NoCall(table: seq<Path>, tokens: Path, leaves: seq<Leaf>, calls: seq<Call>, accepts: Accepts)
    requires leaves == []
    ensures InTurn(table, tokens, leaves, calls, accepts, [], Outcome(calls, None))
  {
  }

  lemma FirstCall(table: seq<Path>, tokens: Path, leaves: seq<Leaf>, calls: seq<Call>, accepts: Accepts)
    returns (made: seq<Call>)
    requires leaves != []
    ensures var first := SetLeaf(table, tokens, leaves[0], calls, accepts);
            && (first.error.Some? ==> InTurn(table, tokens, leaves, calls, accepts, made, first))
            && (first.error.None? ==> first.calls == calls + made && |made| == 1 && accepts(calls, made[0])
                                      && CallFor(table, tokens, leaves[0], made[0]))
  {
    var e := FindEntry(table, tokens + leaves[0].path, 0);
    made := if e < |table| then [Call(e, leaves[0].value)] else [];
    if e < |table| {
      assert calls + made[..0] == calls;
    }
  }

  lemma OneMoreCall(table: seq<Path>, tokens: Path, leaves: seq<Leaf>, calls: seq<Call>, accepts: Accepts, call: Call,
                    more: seq<Call>, r: Outcome)
    requires leaves != [] && CallFor(table, tokens, leaves[0], call) && accepts(calls, call)
    requires InTurn(table, tokens, leaves[1..], calls + [call], accepts, more, r)
    ensures InTurn(table, tokens, leaves, calls, accepts, [call] + more, r)
  {
    hide CallFor;
    var made := [call] + more;
    assert calls + made == (calls + [call]) + more;
    forall i | 0 <= i < |made|
      ensures CallFor(table, tokens, leaves[i], made[i])
      ensures accepts(calls + made[..i], made[i]) <==> !(r.error == Some(Rejected) && i == |made| - 1)
    {
      if i == 0 {
        assert calls + made[..0] == calls;
      } else {
        assert calls + made[..i] == (calls + [call]) + more[..i - 1];
        assert made[i] == more[i - 1] && leaves[i] == leaves[1..][i - 1];
      }
    }
  }

  /**
   * Setting an object calls, for a leaf, the setter of the one entry at the requested path followed by the leaf's,
   * and no setter twice. When it succeeds every leaf got its call, and every call was for a leaf.
   */
  lemma SetObject(table: seq<Path>, path: string, members: seq<Member>, calls: seq<Call>, accepts: Accepts)
    returns (made: seq<Call>)
    requires UniqueKeys(members) && GatherRefs(table, path).Found? && !Direct(table, Tokenise(path).value)
    ensures var r := SetProperty(table, path, Object(members), calls, accepts);
            && r.calls == calls + made
            && (forall i, j | 0 <= i < j < |made| :: made[i].entry != made[j].entry)
            && (forall call <- made :: ForSomeLeaf(table, Tokenise(path).value, members, call))
            && (r.error == None ==> forall leaf: Leaf | IsLeaf(members, leaf.path, leaf.value) ::
                                      exists call <- made :: CallFor(table, Tokenise(path).value, leaf, call))
            && (r.error == Some(UnknownMember) ==> exists leaf: Leaf :: IsLeaf(members, leaf.path, leaf.value)
                                                               && Tokenise(path).value + leaf.path !in table)
            && (r.error == None || r.error == Some(Rejected) || r.error == Some(UnknownMember))
  {
    hide IsLeaf, Leaves, SetLeaves, UniqueKeys, Direct, Gather, Tokenise, CallFor, DistinctPaths;
    var tokens := Tokenise(path).value;
    var leaves := Leaves(members);
    LeavesExact(members);
    made := SetLeavesCalls(table, tokens, leaves, calls, accepts);
    CallsDistinct(table, tokens, leaves, made);
    forall call <- made ensures ForSomeLeaf(table, tokens, members, call) {
      var i :| 0 <= i < |made| && made[i] == call;
      assert leaves[i] in leaves && CallFor(table, tokens, leaves[i], call);
      assert IsLeaf(members, leaves[i].path, leaves[i].value);
    }
    var r := SetProperty(table, path, Object(members), calls, accepts);
    if r.error == None {
      forall leaf: Leaf | IsLeaf(members, leaf.path, leaf.value)
        ensures exists call <- made :: CallFor(table, tokens, leaf, call)
      {
        var i :| 0 <= i < |leaves| && leaves[i] == leaf;
        assert made[i] in made;
      }
    }
    if r.error == Some(UnknownMember) {
      var leaf := leaves[|made|];
      assert leaf in leaves && IsLeaf(members, leaf.path, leaf.value);
    }
  }

  lemma CallsDistinct(table: seq<Path>, tokens: Path, leaves: seq<Leaf>, made: seq<Call>)
    requires DistinctPaths(leaves) && |made| <= |leaves|
    requires forall i | 0 <= i < |made| :: CallFor(table, tokens, leaves[i], made[i])
    ensures forall i, j | 0 <= i < j < |made| :: made[i].entry != made[j].entry
  {
    forall i, j | 0 <= i < j < |made| ensures made[i].entry != made[j].entry {
      assert CallFor(table, tokens, leaves[i], made[i]) && CallFor(table, tokens, leaves[j], made[j]);
      assert (tokens + leaves[i].path)[|tokens|..] == leaves[i].path;
      assert (tokens + leaves[j].path)[|tokens|..] == leaves[j].path;
    }
  }

  // ---- Setting the leaves one by one ----------------------------------------------------------------------

  /** Setting each leaf by its own full path. */
  function SetSeparately(table: seq<Path>, tokens: Path, leaves: seq<Leaf>, calls: seq<Call>, accepts: Accepts)
    : Outcome
    decreases |leaves|
  {
    if leaves == [] then Outcome(calls, None)
    else
      var first := SetProperty(table, PathOf(tokens + leaves[0].path), leaves[0].value, calls, accepts);
      if first.error.Some? then first else SetSeparately(table, tokens, leaves[1..], first.calls, accepts)
  }

  lemma GatherOne(table: seq<Path>, e: nat)
    requires PrefixFree(table) && e < |table|
    ensures Gather(table, table[e], 0) == [e]
  {
    hide Gather;
    var refs := Gather(table, table[e], 0);
    GatherExact(table, table[e], 0);
    assert e in refs;
    assert |refs| > 1 ==> refs[0] != refs[1];
    forall k | 0 <= k < |refs| ensures refs[k] == e {
      assert refs[k] in refs;
    }
  }

  /** Setting by an entry's full path calls its setter. */
  lemma SetByFullPath(table: seq<Path>, e: nat, value: Value, calls: seq<Call>, accepts: Accepts)
    requires Wellformed(table) && e < |table|
    ensures SetProperty(table, PathOf(table[e]), value, calls, accepts) == CallSetter(calls, Call(e, value), accepts)
  {
    hide Gather, Tokenise, PathOf;
    assert ColonFree(table[e]) && "" !in table[e];
    TokensRoundTrip(table[e]);
    GatherOne(table, e);
  }

  /** What is refused before any setter is called. */
  lemma SetRefused(table: seq<Path>, path: string, value: Value, calls: seq<Call>, accepts: Accepts)
    ensures var r, tokens := SetProperty(table, path, value, calls, accepts), Tokenise(path);
            && (tokens.None? ==> r == Outcome(calls, Some(BadPath(InvalidPath))))
            && (tokens.Some? && (forall entry <- table :: !(tokens.value <= entry)) ==>
                  r == Outcome(calls, Some(BadPath(UnknownPath))))
            && (tokens.Some? && tokens.value !in table && !value.Object? ==>
                  (exists entry <- table :: tokens.value <= entry) ==> r == Outcome(calls, Some(NotAnObject)))
  {
    hide Gather, Tokenise, SetLeaves;
    if Tokenise(path).Some? {
      var tokens := Tokenise(path).value;
      GatherExact(table, tokens, 0);
      var refs := Gather(table, tokens, 0);
      if refs != [] {
        assert refs[0] in refs && table[refs[0]] in table && tokens <= table[refs[0]];
        assert |table[refs[0]]| == |tokens| ==> table[refs[0]] == tokens;
      }
      if exists entry <- table :: tokens <= entry {
        var entry :| entry in table && tokens <= entry;
        var e :| 0 <= e < |table| && table[e] == entry;
        assert e in refs;
      }
    }
  }

  /** Setting a non-object by a path that is no entry's calls nothing. */
  lemma SetElsewhere(table: seq<Path>, path: string, value: Value, calls: seq<Call>, accepts: Accepts)
    requires Wellformed(table) && !value.Object?
    requires Tokenise(path).Some? ==> Tokenise(path).value !in table
    ensures var r := SetProperty(table, path, value, calls, accepts); r.calls == calls && r.error.Some?
  {
    hide Gather, Tokenise, PathOf;
    if Tokenise(path).Some? {
      var tokens := Tokenise(path).value;
      GatherExact(table, tokens, 0);
      var refs := Gather(table, tokens, 0);
      if refs != [] {
        assert refs[0] in refs;
        assert tokens <= table[refs[0]] && table[refs[0]] != tokens;
      }
    }
  }

  /** No entry has this path, but its tokens read another way, at colons inside them, name one. */
  ghost predicate Misread(table: seq<Path>, full: Path) {
    full !in table && var tokens := Tokenise(PathOf(full)); tokens.Some? && tokens.value in table
  }

  lemma ColonFreeNotMisread(table: seq<Path>, full: Path)
    requires Wellformed(table) && ColonFree(full)
    ensures !Misread(table, full)
  {
    hide Tokenise, PathOf;
    TokensRoundTrip(full);
  }

  /** Setting a leaf inside an object and by its own path come to the same exactly if its path is not misread. */
  lemma LeafAgrees(table: seq<Path>, tokens: Path, leaf: Leaf, calls: seq<Call>, accepts: Accepts)
    requires Wellformed(table) && !leaf.value.Object?
    ensures var r, s := SetProperty(table, PathOf(tokens + leaf.path), leaf.value, calls, accepts),
                        SetLeaf(table, tokens, leaf, calls, accepts);
            && (Misread(table, tokens + leaf.path) ==> calls < r.calls && s == Outcome(calls, Some(UnknownMember)))
            && (!Misread(table, tokens + leaf.path) ==> r.calls == s.calls && (r.error.None? <==> s.error.None?))
            && calls <= r.calls
  {
    hide SetProperty, Tokenise, PathOf;
    var full := tokens + leaf.path;
    var e := FindEntry(table, full, 0);
    if e < |table| {
      SetByFullPath(table, e, leaf.value, calls, accepts);
    } else if Misread(table, full) {
      var other := Tokenise(PathOf(full)).value;
      PathRoundTrip(PathOf(full));
      SetByFullPath(table, FindEntry(table, other, 0), leaf.value, calls, accepts);
    } else {
      SetElsewhere(table, PathOf(full), leaf.value, calls, accepts);
    }
  }

  /** The first leaf at whose full path there is no entry, or the end. */
  function FirstUnknown(table: seq<Path>, tokens: Path, leaves: seq<Leaf>): (i: nat)
    ensures i <= |leaves|
  {
    if leaves == [] || tokens + leaves[0].path !in table then 0 else FirstUnknown(table, tokens, leaves[1..]) + 1
  }

  /** If any leaf has no entry, the first such leaf is not misread. */
  ghost predicate ReadRight(table: seq<Path>, tokens: Path, leaves: seq<Leaf>) {
    var i := FirstUnknown(table, tokens, leaves);
    i < |leaves| ==> !Misread(table, tokens + leaves[i].path)
  }

  lemma {:induction false} SeparatelyExtends(table: seq<Path>, tokens: Path, leaves: seq<Leaf>, calls: seq<Call>,
                                             accepts: Accepts)
    requires Wellformed(table) && forall leaf <- leaves :: !leaf.value.Object?
    ensures calls <= SetSeparately(table, tokens, leaves, calls, accepts).calls
    decreases |leaves|
  {
    hide SetProperty, Wellformed, Misread;
    if leaves != [] {
      LeafAgrees(table, tokens, leaves[0], calls, accepts);
      var first := SetProperty(table, PathOf(tokens + leaves[0].path), leaves[0].value, calls, accepts);
      if first.error.None? {
        SeparatelyExtends(table, tokens, leaves[1..], first.calls, accepts);
      }
    }
  }

  /** The two ways make the same calls and fail together. */
  ghost predicate Agreeing(r: Outcome, s: Outcome) { r.calls == s.calls && (r.error.None? <==> s.error.None?) }

  /** A setter refuses the value of a leaf before the first leaf without an entry. */
  ghost predicate RefusedBefore(table: seq<Path>, tokens: Path, leaves: seq<Leaf>, calls: seq<Call>, accepts: Accepts) {
    SetLeaves(table, tokens, leaves[..FirstUnknown(table, tokens, leaves)], calls, accepts).error.Some?
  }

  lemma {:induction false} SeparatelyAgrees(table: seq<Path>, tokens: Path, leaves: seq<Leaf>, calls: seq<Call>,
                                            accepts: Accepts)
    requires Wellformed(table) && forall leaf <- leaves :: !leaf.value.Object?
    ensures Agreeing(SetSeparately(table, tokens, leaves, calls, accepts),
                     SetLeaves(table, tokens, leaves, calls, accepts)) <==>
            ReadRight(table, tokens, leaves) || RefusedBefore(table, tokens, leaves, calls, accepts)
    decreases |leaves|
  {
    hide SetProperty, Wellformed, Misread;
    if leaves != [] {
      LeafAgrees(table, tokens, leaves[0], calls, accepts);
      if tokens + leaves[0].path in table {
        KnownNotMisread(table, tokens + leaves[0].path);
        var first := SetLeaf(table, tokens, leaves[0], calls, accepts);
        RefusedFirst(table, tokens, leaves, calls, accepts);
        hide RefusedBefore, SetLeaf;
        if first.error.None? {
          SeparatelyAgrees(table, tokens, leaves[1..], first.calls, accepts);
        }
      } else if Misread(table, tokens + leaves[0].path) {
        MisreadCalls(table, tokens, leaves, calls, accepts);
      }
    }
  }

  lemma RefusedFirst(table: seq<Path>, tokens: Path, leaves: seq<Leaf>, calls: seq<Call>, accepts: Accepts)
    requires leaves != [] && tokens + leaves[0].path in table
    ensures var first := SetLeaf(table, tokens, leaves[0], calls, accepts);
            RefusedBefore(table, tokens, leaves, calls, accepts) <==>
            first.error.Some? || RefusedBefore(table, tokens, leaves[1..], first.calls, accepts)
  {
    hide SetLeaf;
    var i := FirstUnknown(table, tokens, leaves[1..]);
    var front := leaves[..i + 1];
    assert front[0] == leaves[0] && front[1..] == leaves[1..][..i];
  }

  /** Setters that refuse nothing refuse no leaf that has an entry. */
  lemma {:induction false} NoneRefused(table: seq<Path>, tokens: Path, leaves: seq<Leaf>, calls: seq<Call>,
                                       accepts: Accepts)
    requires forall made, call :: accepts(made, call)
    ensures !RefusedBefore(table, tokens, leaves, calls, accepts)
    decreases |leaves|
  {
    if leaves != [] && tokens + leaves[0].path in table {
      RefusedFirst(table, tokens, leaves, calls, accepts);
      hide RefusedBefore;
      NoneRefused(table, tokens, leaves[1..], SetLeaf(table, tokens, leaves[0], calls, accepts).calls, accepts);
    }
  }

  lemma KnownNotMisread(table: seq<Path>, full: Path)
    requires full in table
    ensures !Misread(table, full)
  {
  }

  lemma MisreadCalls(table: seq<Path>, tokens: Path, leaves: seq<Leaf>, calls: seq<Call>, accepts: Accepts)
    requires Wellformed(table) && leaves != [] && forall leaf <- leaves :: !leaf.value.Object?
    requires Misread(table, tokens + leaves[0].path)
    ensures calls != SetSeparately(table, tokens, leaves, calls, accepts).calls
    ensures SetLeaves(table, tokens, leaves, calls, accepts).calls == calls
  {
    hide SetProperty, Wellformed, Misread;
    LeafAgrees(table, tokens, leaves[0], calls, accepts);
    var first := SetProperty(table, PathOf(tokens + leaves[0].path), leaves[0].value, calls, accepts);
    if first.error.None? {
      SeparatelyExtends(table, tokens, leaves[1..], first.calls, accepts);
    }
  }

  /**
   * Setting an object makes the calls that setting each of its leaves by its own path makes, and fails when that
   * fails, exactly if the first leaf without an entry, if any, is not misread, or a setter refuses a leaf before it.
   */
  lemma ObjectIsItsLeaves(table: seq<Path>, path: string, members: seq<Member>, calls: seq<Call>, accepts: Accepts)
    requires Wellformed(table) && UniqueKeys(members)
    requires GatherRefs(table, path).Found? && !Direct(table, Tokenise(path).value)
    ensures var tokens, leaves := Tokenise(path).value, Leaves(members);
            var r, s := SetProperty(table, path, Object(members), calls, accepts),
                        SetSeparately(table, tokens, leaves, calls, accepts);
            Agreeing(s, r) <==>
            ReadRight(table, tokens, leaves) || RefusedBefore(table, tokens, leaves, calls, accepts)
  {
    hide Leaves, SetLeaves, SetSeparately, UniqueKeys, Direct, Gather, Tokenise, IsLeaf, ReadRight, Agreeing;
    hide RefusedBefore;
    LeavesExact(members);
    forall leaf <- Leaves(members) ensures !leaf.value.Object? {
      LeafValue(members, leaf);
    }
    SeparatelyAgrees(table, Tokenise(path).value, Leaves(members), calls, accepts);
  }

  /** So the two ways agree whatever the setters refuse exactly if that leaf is not misread. */
  lemma AlwaysItsLeaves(table: seq<Path>, path: string, members: seq<Member>, calls: seq<Call>)
    requires Wellformed(table) && UniqueKeys(members)
    requires GatherRefs(table, path).Found? && !Direct(table, Tokenise(path).value)
    ensures var tokens, leaves := Tokenise(path).value, Leaves(members);
            ReadRight(table, tokens, leaves) <==>
            forall accepts :: Agreeing(SetSeparately(table, tokens, leaves, calls, accepts),
                                       SetProperty(table, path, Object(members), calls, accepts))
  {
    hide Leaves, SetProperty, SetSeparately, UniqueKeys, Direct, Gather, Tokenise, ReadRight, Agreeing, RefusedBefore;
    forall accepts: Accepts
      ensures Agreeing(SetSeparately(table, Tokenise(path).value, Leaves(members), calls, accepts),
                       SetProperty(table, path, Object(members), calls, accepts)) <==>
              || ReadRight(table, Tokenise(path).value, Leaves(members))
              || RefusedBefore(table, Tokenise(path).value, Leaves(members), calls, accepts)
    {
      ObjectIsItsLeaves(table, path, members, calls, accepts);
    }
    var all: Accepts := (made, call) => true;
    NoneRefused(table, Tokenise(path).value, Leaves(members), calls, all);
    assert Agreeing(SetSeparately(table, Tokenise(path).value, Leaves(members), calls, all),
                    SetProperty(table, path, Object(members), calls, all)) <==>
           ReadRight(table, Tokenise(path).value, Leaves(members));
  }

  /** In particular if no key on the way to a leaf has a colon. */
  lemma ColonFreeKeysReadRight(table: seq<Path>, path: string, members: seq<Member>)
    requires Wellformed(table) && UniqueKeys(members) && Tokenise(path).Some?
    requires forall leaf: Leaf | IsLeaf(members, leaf.path, leaf.value) :: ColonFree(leaf.path)
    ensures ReadRight(table, Tokenise(path).value, Leaves(members))
  {
    hide Leaves, UniqueKeys, Tokenise, IsLeaf, Misread, Wellformed;
    var tokens, leaves := Tokenise(path).value, Leaves(members);
    LeavesExact(members);
    PathRoundTripTokens(path);
    var i := FirstUnknown(table, tokens, leaves);
    if i < |leaves| {
      assert leaves[i] in leaves && ColonFree(leaves[i].path);
      ColonFreeNotMisread(table, tokens + leaves[i].path);
    }
  }

  lemma LeafValue(members: seq<Member>, leaf: Leaf)
    requires IsLeaf(members, leaf.path, leaf.value)
    ensures !leaf.value.Object? && leaf.path != []
  {
  }

  lemma PathRoundTripTokens(path: string)
    requires Tokenise(path).Some?
    ensures ColonFree(Tokenise(path).value)
  {
    PathRoundTrip(path);
  }

  /** A colon in a key matters: the same value is refused inside an object that its own path would set. */
  lemma ColonKeyRefused(table: seq<Path>, e: nat, value: Value, calls: seq<Call>, accepts: Accepts)
    requires Wellformed(table) && e < |table| && |table[e]| > 1 && !value.Object?
    ensures SetProperty(table, ":", Object([Member(PathOf(table[e]), value)]), calls, accepts) ==
            Outcome(calls, Some(UnknownMember))
    ensures SetProperty(table, PathOf([] + [PathOf(table[e])]), value, calls, accepts) ==
            CallSetter(calls, Call(e, value), accepts)
  {
    var key := PathOf(table[e]);
    assert [] + [key] == [key] && PathOf([key]) == key;
    SetByFullPath(table, e, value, calls, accepts);
    ColonInJoin(table[e]);
    RootSetsLeaf(table, key, value, calls, accepts);
  }

  lemma ColonInJoin(tokens: Path)
    requires |tokens| > 1
    ensures ':' in PathOf(tokens)
  {
    var s := Join(tokens);
    assert s[|tokens[0]|] == ':';
  }

  lemma RootSetsLeaf(table: seq<Path>, key: string, value: Value, calls: seq<Call>, accepts: Accepts)
    requires Wellformed(table) && table != [] && ':' in key && !value.Object?
    ensures SetProperty(table, ":", Object([Member(key, value)]), calls, accepts) == Outcome(calls, Some(UnknownMember))
  {
    hide Gather, FindEntry;
    GatherExact(table, [], 0);
    var refs, members := Gather(table, [], 0), [Member(key, value)];
    assert 0 in refs && refs[0] in refs;
    var leaf := Leaf([] + [key], value);
    assert members[1..] == [];
    assert LeavesOf([], members) == [leaf];
    assert NodesOf([], members) == [];
    var root := Node([], members);
    assert [root][1..] == [] && Successors([root]) == [];
    assert Bfs([root]) == LeavesOf(root.path, root.members) + Bfs([]);
    assert Leaves(members) == [leaf];
    assert [leaf][1..] == [];
    var full := [] + leaf.path;
    assert full == [key] && key in full;
    forall i | 0 <= i < |table| ensures table[i] != full {
      assert key !in table[i];
    }
    assert SetLeaf(table, [], leaf, calls, accepts) == Outcome(calls, Some(UnknownMember));
  }

  // ---- Reading --------------------------------------------------------------------------------------------

  /** json_object_object_add: a key already there keeps its place. */
  function Put(members: seq<Member>, key: string, value: Value): seq<Member> {
    if members == [] then [Member(key, value)]
    else if members[0].key == key then [Member(key, value)] + members[1..]
    else [members[0]] + Put(members[1..], key, value)
  }

  function Inner(value: Option<Value>): seq<Member> {
    if value.Some? && value.value.Object? then value.value.members else []
  }

  /** Adds a value at a path, with the objects on the way to it that are not there yet. */
  function Insert(members: seq<Member>, path: Path, value: Value): seq<Member>
    decreases |path|
  {
    if path == [] then members
    else if |path| == 1 then Put(members, path[0], value)
    else Put(members, path[0], Object(Insert(Inner(Get(members, path[0])), path[1..], value)))
  }

  function Build(table: seq<Path>, pathL: nat, refs: seq<nat>, get: nat -> Value): seq<Member>
    requires forall e <- refs :: e < |table| && pathL <= |table[e]|
  {
    if refs == [] then []
    else
      var e := refs[|refs| - 1];
      assert e in refs;
      Insert(Build(table, pathL, refs[..|refs| - 1], get), table[e][pathL..], get(e))
  }

  /** What is read if every getter answers. */
  function Assemble(table: seq<Path>, path: string, get: nat -> Value): Option<Value> {
    var r := GatherRefs(table, path);
    if r.NotFound? then None
    else
      var tokens := Tokenise(path).value;
      GatherExact(table, tokens, 0);
      if Direct(table, tokens) then Some(get(r.refs[0]))
      else Some(Object(Build(table, |tokens|, r.refs, get)))
  }

  /** The values of the getters that answer. */
  function Given(get: Getters): (nat -> Value) {
    (e: nat) => if get(e).Some? then get(e).value else Other(0)
  }

  /** Reading fails as a whole if one of the getters concerned does. */
  function GetProperty(table: seq<Path>, path: string, get: Getters): Reading {
    var r := GatherRefs(table, path);
    if r.NotFound? then NoSuchPath(r.error)
    else if exists e <- r.refs :: get(e).None? then GetterFailed
    else Read(Assemble(table, path, Given(get)).value)
  }

  lemma {:induction false} GetPut(members: seq<Member>, key: string, value: Value, other: string)
    ensures Get(Put(members, key, value), other) == if other == key then Some(value) else Get(members, other)
  {
    if members != [] && members[0].key != key {
      GetPut(members[1..], key, value, other);
    }
  }

  /** The keys of an object, in order. */
  function Keys(members: seq<Member>): seq<string> {
    if members == [] then [] else [members[0].key] + Keys(members[1..])
  }

  lemma {:induction false} PutKeys(members: seq<Member>, key: string, value: Value)
    ensures Keys(Put(members, key, value)) == if key in Keys(members) then Keys(members) else Keys(members) + [key]
  {
    if members != [] && members[0].key != key {
      PutKeys(members[1..], key, value);
    }
  }

  /** A new key comes last, at every level on the way, and no key moves. */
  lemma InsertKeys(members: seq<Member>, path: Path, value: Value)
    requires path != []
    ensures var keys := Keys(members);
            Keys(Insert(members, path, value)) == if path[0] in keys then keys else keys + [path[0]]
    ensures |path| > 1 ==>
              Get(Insert(members, path, value), path[0]) ==
              Some(Object(Insert(Inner(Get(members, path[0])), path[1..], value)))
  {
    var put := if |path| == 1 then value else Object(Insert(Inner(Get(members, path[0])), path[1..], value));
    PutKeys(members, path[0], put);
    GetPut(members, path[0], put, path[0]);
  }

  lemma {:induction false} PutUnique(members: seq<Member>, key: string, value: Value)
    requires UniqueKeys(members) && (value.Object? ==> UniqueKeys(value.members))
    ensures UniqueKeys(Put(members, key, value))
  {
    if members != [] && members[0].key != key {
      PutUnique(members[1..], key, value);
      GetPut(members[1..], key, value, members[0].key);
    }
  }

  lemma {:induction false} GetUnique(members: seq<Member>, key: string)
    requires UniqueKeys(members)
    ensures UniqueKeys(Inner(Get(members, key)))
  {
    if members != [] && members[0].key != key {
      GetUnique(members[1..], key);
    }
  }

  lemma {:induction false} InsertUnique(members: seq<Member>, path: Path, value: Value)
    requires UniqueKeys(members) && !value.Object?
    ensures UniqueKeys(Insert(members, path, value))
    decreases |path|
  {
    if |path| == 1 {
      PutUnique(members, path[0], value);
    } else if path != [] {
      var inner := Inner(Get(members, path[0]));
      GetUnique(members, path[0]);
      InsertUnique(inner, path[1..], value);
      PutUnique(members, path[0], Object(Insert(inner, path[1..], value)));
    }
  }

  /** No leaf lies at the path, on the way to it, or below it. */
  ghost predicate Free(members: seq<Member>, path: Path) {
    forall leaf: Leaf | IsLeaf(members, leaf.path, leaf.value) :: !(leaf.path <= path) && !(path <= leaf.path)
  }

  lemma LookupInner(members: seq<Member>, path: Path, value: Value)
    requires |path| > 1
    ensures IsLeaf(members, path, value) <==> IsLeaf(Inner(Get(members, path[0])), path[1..], value)
  {
  }

  lemma FreeInner(members: seq<Member>, path: Path)
    requires Free(members, path) && |path| > 1
    ensures Free(Inner(Get(members, path[0])), path[1..])
  {
    var inner := Inner(Get(members, path[0]));
    forall leaf: Leaf | IsLeaf(inner, leaf.path, leaf.value) ensures !(leaf.path <= path[1..]) && !(path[1..] <= leaf.path) {
      var outer := Leaf([path[0]] + leaf.path, leaf.value);
      assert outer.path[1..] == leaf.path && |leaf.path| > 0;
      LookupInner(members, outer.path, outer.value);
      assert IsLeaf(members, outer.path, outer.value);
      assert path == [path[0]] + path[1..];
    }
  }

  /** Inserting adds one leaf and keeps the others. */
  lemma {:induction false} InsertLeaf(members: seq<Member>, path: Path, value: Value, leaf: Leaf)
    requires path != [] && !value.Object? && Free(members, path)
    ensures IsLeaf(Insert(members, path, value), leaf.path, leaf.value) <==>
            leaf == Leaf(path, value) || IsLeaf(members, leaf.path, leaf.value)
    decreases |path|
  {
    var new_ := Insert(members, path, value);
    if leaf.path != [] && leaf.path[0] == path[0] {
      InsertedAtKey(members, path, value, leaf);
    } else if leaf.path != [] {
      var put := if |path| == 1 then value else Object(Insert(Inner(Get(members, path[0])), path[1..], value));
      GetPut(members, path[0], put, leaf.path[0]);
    }
  }

  lemma InsertedAtKey(members: seq<Member>, path: Path, value: Value, leaf: Leaf)
    requires path != [] && !value.Object? && Free(members, path) && leaf.path != [] && leaf.path[0] == path[0]
    ensures IsLeaf(Insert(members, path, value), leaf.path, leaf.value) <==>
            leaf == Leaf(path, value) || IsLeaf(members, leaf.path, leaf.value)
    decreases |path|, 0
  {
    var rest := leaf.path[1..];
    var inner := Inner(Get(members, path[0]));
    var put := if |path| == 1 then value else Object(Insert(inner, path[1..], value));
    GetPut(members, path[0], put, path[0]);
    assert leaf.path == [path[0]] + rest && path == [path[0]] + path[1..];
    assert IsLeaf(members, leaf.path, leaf.value) ==> !(leaf.path <= path) && !(path <= leaf.path);
    if |path| > 1 && |leaf.path| > 1 {
      FreeInner(members, path);
      InsertLeaf(inner, path[1..], value, Leaf(rest, leaf.value));
      LookupInner(members, leaf.path, leaf.value);
      LookupInner(Insert(members, path, value), leaf.path, leaf.value);
    }
  }

  /** What the tree builder needs of the entries it is given. */
  ghost predicate Buildable(table: seq<Path>, tokens: Path, refs: seq<nat>) {
    && PrefixFree(table)
    && Distinct(refs)
    && forall e <- refs :: e < |table| && tokens < table[e]
  }

  /** The leaf is the value of one of these entries, at the entry's path below the tokens. */
  ghost predicate LeafOfRefs(table: seq<Path>, tokens: Path, refs: seq<nat>, get: nat -> Value, leaf: Leaf) {
    exists e <- refs :: e < |table| && tokens <= table[e] && leaf == Leaf(table[e][|tokens|..], get(e))
  }

  ghost predicate LeavesAre(members: seq<Member>, table: seq<Path>, tokens: Path, refs: seq<nat>, get: nat -> Value) {
    forall leaf: Leaf :: IsLeaf(members, leaf.path, leaf.value) <==> LeafOfRefs(table, tokens, refs, get, leaf)
  }

  lemma {:induction false} BuildLeaves(table: seq<Path>, tokens: Path, refs: seq<nat>, get: nat -> Value)
    requires Buildable(table, tokens, refs) && forall e <- refs :: !get(e).Object?
    ensures UniqueKeys(Build(table, |tokens|, refs, get))
    ensures LeavesAre(Build(table, |tokens|, refs, get), table, tokens, refs, get)
    decreases |refs|
  {
    hide IsLeaf, Free, UniqueKeys, Insert, LeafOfRefs;
    if refs == [] {
      NoLeaves(table, tokens, get);
    } else {
      var n := |refs| - 1;
      var front, e := refs[..n], refs[n];
      assert refs == front + [e] && e in refs;
      BuildableFront(table, tokens, front, e);
      BuildLeaves(table, tokens, front, get);
      var before, path := Build(table, |tokens|, front, get), table[e][|tokens|..];
      BuiltFree(table, tokens, front, e, get);
      InsertUnique(before, path, get(e));
      forall leaf: Leaf
        ensures IsLeaf(Insert(before, path, get(e)), leaf.path, leaf.value) <==>
                LeafOfRefs(table, tokens, refs, get, leaf)
      {
        InsertLeaf(before, path, get(e), leaf);
        OneMoreRef(table, tokens, front, e, get, leaf);
      }
    }
  }

  lemma BuildableFront(table: seq<Path>, tokens: Path, front: seq<nat>, e: nat)
    requires Buildable(table, tokens, front + [e])
    ensures e !in front && Buildable(table, tokens, front)
  {
    var refs := front + [e];
    assert refs[|front|] == e;
    assert forall i | 0 <= i < |front| :: refs[i] == front[i] != e;
    forall d <- front ensures d < |table| && tokens < table[d] {
      assert d in refs;
    }
  }

  lemma OneMoreRef(table: seq<Path>, tokens: Path, front: seq<nat>, e: nat, get: nat -> Value, leaf: Leaf)
    requires e < |table| && tokens <= table[e]
    ensures LeafOfRefs(table, tokens, front + [e], get, leaf) <==>
            leaf == Leaf(table[e][|tokens|..], get(e)) || LeafOfRefs(table, tokens, front, get, leaf)
  {
    assert e in front + [e];
    assert forall d: nat :: d in front + [e] <==> d in front || d == e;
  }

  lemma NoLeaves(table: seq<Path>, tokens: Path, get: nat -> Value)
    ensures UniqueKeys([]) && LeavesAre([], table, tokens, [], get)
  {
  }

  lemma BuiltFree(table: seq<Path>, tokens: Path, front: seq<nat>, e: nat, get: nat -> Value)
    requires Buildable(table, tokens, front) && e < |table| && tokens < table[e] && e !in front
    requires LeavesAre(Build(table, |tokens|, front, get), table, tokens, front, get)
    ensures Free(Build(table, |tokens|, front, get), table[e][|tokens|..])
  {
    hide IsLeaf, Build;
    var path := table[e][|tokens|..];
    assert table[e] == tokens + path;
    forall leaf: Leaf | IsLeaf(Build(table, |tokens|, front, get), leaf.path, leaf.value)
      ensures !(leaf.path <= path) && !(path <= leaf.path)
    {
      assert LeafOfRefs(table, tokens, front, get, leaf);
      var d :| d in front && d < |table| && tokens <= table[d] && leaf == Leaf(table[d][|tokens|..], get(d));
      assert table[d] == tokens + leaf.path && d != e;
      assert !(table[d] <= table[e]) && !(table[e] <= table[d]);
    }
  }

  // ---- Reading, then setting ------------------------------------------------------------------------------

  lemma GatheredBuildable(table: seq<Path>, tokens: Path)
    requires PrefixFree(table) && !Direct(table, tokens)
    ensures Buildable(table, tokens, Gather(table, tokens, 0))
  {
    hide Gather;
    var refs := Gather(table, tokens, 0);
    GatherExact(table, tokens, 0);
    forall e <- refs ensures tokens < table[e] {
      if |table[e]| == |tokens| {
        assert table[e] == tokens;
        GatherOne(table, e);
      }
    }
  }

  lemma MembersExact(table: seq<Path>, tokens: Path, refs: seq<nat>, members: seq<Member>, get: nat -> Value)
    requires forall e: nat :: e in refs <==> e < |table| && tokens <= table[e]
    requires LeavesAre(members, table, tokens, refs, get)
    ensures forall e: nat | e < |table| && tokens <= table[e] :: IsLeaf(members, table[e][|tokens|..], get(e))
    ensures forall leaf: Leaf | IsLeaf(members, leaf.path, leaf.value) ::
              exists e: nat :: e < |table| && table[e] == tokens + leaf.path && leaf.value == get(e)
  {
    hide IsLeaf;
    forall e: nat | e < |table| && tokens <= table[e] ensures IsLeaf(members, table[e][|tokens|..], get(e)) {
      var leaf := Leaf(table[e][|tokens|..], get(e));
      assert LeafOfRefs(table, tokens, refs, get, leaf);
    }
    forall leaf: Leaf | IsLeaf(members, leaf.path, leaf.value)
      ensures exists e: nat :: e < |table| && table[e] == tokens + leaf.path && leaf.value == get(e)
    {
      assert LeafOfRefs(table, tokens, refs, get, leaf);
      var e :| e in refs && e < |table| && tokens <= table[e] && leaf == Leaf(table[e][|tokens|..], get(e));
      assert table[e] == tokens + leaf.path;
    }
  }

  lemma BuiltExact(table: seq<Path>, path: string, get: nat -> Value)
    requires PrefixFree(table) && GatherRefs(table, path).Found? && !Direct(table, Tokenise(path).value)
    requires forall e: nat :: !get(e).Object?
    ensures var tokens, value := Tokenise(path).value, Assemble(table, path, get);
            && value.Some? && value.value.Object? && UniqueKeys(value.value.members)
            && (forall e: nat | e < |table| && tokens <= table[e] ::
                  IsLeaf(value.value.members, table[e][|tokens|..], get(e)))
            && (forall leaf: Leaf | IsLeaf(value.value.members, leaf.path, leaf.value) ::
                  exists e: nat :: e < |table| && table[e] == tokens + leaf.path && leaf.value == get(e))
  {
    hide IsLeaf, UniqueKeys, Build, Gather, Tokenise, Direct, LeavesAre, PrefixFree, Buildable;
    var tokens := Tokenise(path).value;
    var refs := Gather(table, tokens, 0);
    GatherExact(table, tokens, 0);
    GatheredBuildable(table, tokens);
    BuildLeaves(table, tokens, refs, get);
    MembersExact(table, tokens, refs, Build(table, |tokens|, refs, get), get);
  }

  /** The calls are of entries below the path, each at most once and with what its getter gave. */
  ghost predicate Returned(table: seq<Path>, tokens: Path, get: nat -> Value, made: seq<Call>) {
    && (forall call <- made :: call.entry < |table| && tokens <= table[call.entry] && call.value == get(call.entry))
    && (forall i, j | 0 <= i < j < |made| :: made[i].entry != made[j].entry)
  }

  ghost predicate AllReturned(table: seq<Path>, tokens: Path, get: nat -> Value, made: seq<Call>) {
    forall e: nat | e < |table| && tokens <= table[e] :: Call(e, get(e)) in made
  }

  lemma NestedReturned(table: seq<Path>, tokens: Path, members: seq<Member>, get: nat -> Value, made: seq<Call>)
    requires PrefixFree(table)
    requires forall i, j | 0 <= i < j < |made| :: made[i].entry != made[j].entry
    requires forall call <- made :: ForSomeLeaf(table, tokens, members, call)
    requires forall leaf: Leaf | IsLeaf(members, leaf.path, leaf.value) ::
               exists e: nat :: e < |table| && table[e] == tokens + leaf.path && leaf.value == get(e)
    ensures Returned(table, tokens, get, made)
  {
    hide ForSomeLeaf, IsLeaf, PrefixFree;
    forall call <- made
      ensures call.entry < |table| && tokens <= table[call.entry] && call.value == get(call.entry)
    {
      ReadCall(table, tokens, members, get, call);
    }
  }

  lemma NestedAllReturned(table: seq<Path>, tokens: Path, members: seq<Member>, get: nat -> Value, made: seq<Call>)
    requires PrefixFree(table)
    requires forall e: nat | e < |table| && tokens <= table[e] :: IsLeaf(members, table[e][|tokens|..], get(e))
    requires forall leaf: Leaf | IsLeaf(members, leaf.path, leaf.value) ::
               exists call <- made :: CallFor(table, tokens, leaf, call)
    ensures AllReturned(table, tokens, get, made)
  {
    hide IsLeaf, PrefixFree;
    forall e: nat | e < |table| && tokens <= table[e] ensures Call(e, get(e)) in made {
      var leaf := Leaf(table[e][|tokens|..], get(e));
      assert IsLeaf(members, leaf.path, leaf.value);
      var call :| call in made && CallFor(table, tokens, leaf, call);
      assert table[e] == tokens + leaf.path;
      SameEntry(table, call.entry, e);
    }
  }

  lemma BuiltThenSet(table: seq<Path>, path: string, get: nat -> Value, calls: seq<Call>, accepts: Accepts)
    returns (made: seq<Call>)
    requires Wellformed(table) && GatherRefs(table, path).Found? && forall e: nat :: !get(e).Object?
    ensures Assemble(table, path, get).Some?
    ensures var r := SetProperty(table, path, Assemble(table, path, get).value, calls, accepts);
            && r.calls == calls + made
            && (r.error == None || r.error == Some(Rejected))
            && Returned(table, Tokenise(path).value, get, made)
            && (r.error == None ==> AllReturned(table, Tokenise(path).value, get, made))
  {
    if Direct(table, Tokenise(path).value) {
      made := BuiltThenSetDirect(table, path, get, calls, accepts);
    } else {
      made := BuiltThenSetNested(table, path, get, calls, accepts);
    }
  }

  lemma BuiltThenSetDirect(table: seq<Path>, path: string, get: nat -> Value, calls: seq<Call>, accepts: Accepts)
    returns (made: seq<Call>)
    requires GatherRefs(table, path).Found? && Direct(table, Tokenise(path).value)
    ensures Assemble(table, path, get).Some?
    ensures var r := SetProperty(table, path, Assemble(table, path, get).value, calls, accepts);
            && r.calls == calls + made
            && (r.error == None || r.error == Some(Rejected))
            && Returned(table, Tokenise(path).value, get, made)
            && AllReturned(table, Tokenise(path).value, get, made)
  {
    hide Gather, Tokenise, Direct, Build;
    var tokens := Tokenise(path).value;
    GatherExact(table, tokens, 0);
    DirectOnly(table, tokens);
    var e := Gather(table, tokens, 0)[0];
    made := [Call(e, get(e))];
  }

  lemma BuiltThenSetNested(table: seq<Path>, path: string, get: nat -> Value, calls: seq<Call>, accepts: Accepts)
    returns (made: seq<Call>)
    requires Wellformed(table) && GatherRefs(table, path).Found? && forall e: nat :: !get(e).Object?
    requires !Direct(table, Tokenise(path).value)
    ensures Assemble(table, path, get).Some?
    ensures var r := SetProperty(table, path, Assemble(table, path, get).value, calls, accepts);
            && r.calls == calls + made
            && (r.error == None || r.error == Some(Rejected))
            && Returned(table, Tokenise(path).value, get, made)
            && (r.error == None ==> AllReturned(table, Tokenise(path).value, get, made))
  {
    hide IsLeaf, UniqueKeys, Tokenise, Gather, Direct, Assemble, SetProperty, Returned, AllReturned, ForSomeLeaf;
    hide PrefixFree;
    var tokens := Tokenise(path).value;
    BuiltExact(table, path, get);
    var value := Assemble(table, path, get).value;
    var members := value.members;
    assert value == Object(members);
    made := SetObject(table, path, members, calls, accepts);
    NestedReturned(table, tokens, members, get, made);
    forall leaf: Leaf | IsLeaf(members, leaf.path, leaf.value) ensures tokens + leaf.path in table {
      var e: nat :| e < |table| && table[e] == tokens + leaf.path;
    }
    if SetProperty(table, path, value, calls, accepts).error == None {
      NestedAllReturned(table, tokens, members, get, made);
    }
  }

  /** A read fails exactly if the path names nothing or the getter of an entry below it fails. */
  lemma ReadSucceeds(table: seq<Path>, path: string, get: Getters)
    ensures GetProperty(table, path, get).Read? <==>
            && GatherRefs(table, path).Found?
            && forall e: nat | e < |table| && Tokenise(path).value <= table[e] :: get(e).Some?
    ensures GetProperty(table, path, get).Read? ==>
              GetProperty(table, path, get).value == Assemble(table, path, Given(get)).value
  {
    hide Assemble, Gather, Tokenise;
    if GatherRefs(table, path).Found? {
      GatherExact(table, Tokenise(path).value, 0);
    }
  }

  /** What is read at a path that is not one entry's own: an object with one leaf for each entry below the path. */
  lemma ReadExact(table: seq<Path>, path: string, get: Getters)
    requires PrefixFree(table) && GatherRefs(table, path).Found? && !Direct(table, Tokenise(path).value)
    requires forall e: nat :: get(e).Some? ==> !get(e).value.Object?
    ensures var tokens, r := Tokenise(path).value, GetProperty(table, path, get);
            && (r.Read? <==> forall e: nat | e < |table| && tokens <= table[e] :: get(e).Some?)
            && (r.Read? ==>
                  && r.value.Object? && UniqueKeys(r.value.members)
                  && (forall e: nat | e < |table| && tokens <= table[e] ::
                        IsLeaf(r.value.members, table[e][|tokens|..], get(e).value))
                  && (forall leaf: Leaf | IsLeaf(r.value.members, leaf.path, leaf.value) ::
                        exists e: nat :: e < |table| && table[e] == tokens + leaf.path && Some(leaf.value) == get(e)))
  {
    hide IsLeaf, UniqueKeys, Gather, Tokenise, Direct, Assemble, GetProperty, PrefixFree;
    ReadSucceeds(table, path, get);
    BuiltExact(table, path, Given(get));
    if GetProperty(table, path, get).Read? {
      var tokens, members := Tokenise(path).value, GetProperty(table, path, get).value.members;
      forall leaf: Leaf | IsLeaf(members, leaf.path, leaf.value)
        ensures exists e: nat :: e < |table| && table[e] == tokens + leaf.path && Some(leaf.value) == get(e)
      {
        var e: nat :| e < |table| && table[e] == tokens + leaf.path && leaf.value == Given(get)(e);
        assert tokens <= table[e];
      }
    }
  }

  /**
   * Setting what was read, at the same path: every call hands an entry below the path the value its getter gave, no
   * entry is called twice, and unless a setter fails every entry below the path is called.
   */
  lemma ReadThenSet(table: seq<Path>, path: string, get: Getters, calls: seq<Call>, accepts: Accepts)
    returns (made: seq<Call>)
    requires Wellformed(table) && GetProperty(table, path, get).Read?
    requires forall e: nat :: get(e).Some? ==> !get(e).value.Object?
    ensures var tokens, value := Tokenise(path).value, GetProperty(table, path, get).value;
            var r := SetProperty(table, path, value, calls, accepts);
            && r.calls == calls + made
            && (r.error == None || r.error == Some(Rejected))
            && (forall call <- made ::
                  call.entry < |table| && tokens <= table[call.entry] && get(call.entry) == Some(call.value))
            && (forall i, j | 0 <= i < j < |made| :: made[i].entry != made[j].entry)
            && (r.error == None ==>
                  forall e: nat | e < |table| && tokens <= table[e] :: get(e).Some? && Call(e, get(e).value) in made)
  {
    hide SetProperty, GetProperty, Assemble, Tokenise, GatherRefs, Wellformed;
    ReadSucceeds(table, path, get);
    made := BuiltThenSet(table, path, Given(get), calls, accepts);
  }

  lemma SameEntry(table: seq<Path>, d: nat, e: nat)
    requires PrefixFree(table) && d < |table| && e < |table| && table[d] == table[e]
    ensures d == e
  {
    assert table[d] <= table[e];
  }

  lemma DirectOnly(table: seq<Path>, tokens: Path)
    requires Direct(table, tokens)
    ensures var e := Gather(table, tokens, 0)[0];
            e < |table| && table[e] == tokens && forall d: nat | d < |table| && tokens <= table[d] :: d == e
  {
    hide Gather;
    var refs := Gather(table, tokens, 0);
    GatherExact(table, tokens, 0);
    assert refs[0] in refs;
  }

  lemma ReadCall(table: seq<Path>, tokens: Path, members: seq<Member>, get: nat -> Value, call: Call)
    requires PrefixFree(table) && ForSomeLeaf(table, tokens, members, call)
    requires forall leaf: Leaf | IsLeaf(members, leaf.path, leaf.value) ::
               exists e: nat :: e < |table| && table[e] == tokens + leaf.path && leaf.value == get(e)
    ensures call.entry < |table| && tokens <= table[call.entry] && call.value == get(call.entry)
  {
    hide IsLeaf;
    var leaf: Leaf :| IsLeaf(members, leaf.path, leaf.value) && CallFor(table, tokens, leaf, call);
    var e: nat :| e < |table| && table[e] == tokens + leaf.path && leaf.value == get(e);
    SameEntry(table, call.entry, e);
  }

  // ---- The worklist, as it runs ---------------------------------------------------------------------------

  /** A node of the worklist array; the root has no name. */
  datatype PathNode =
    PathNode(parentId: nat, name: Option<string>, members: seq<Member>, depth: nat, visited: bool)

  /** Parents come before their children, and every node but the root has a name. */
  ghost predicate Linked(nodes: seq<PathNode>, pathL: nat) {
    && nodes != []
    && nodes[0].depth == pathL
    && (forall i | 0 <= i < |nodes| :: pathL <= nodes[i].depth)
    && forall i | 0 < i < |nodes| ::
         nodes[i].parentId < i && nodes[i].name.Some? && nodes[i].depth == nodes[nodes[i].parentId].depth + 1
  }

  /** The names from the root down to a node. */
  ghost function PathTo(nodes: seq<PathNode>, pathL: nat, id: nat): (r: Path)
    requires Linked(nodes, pathL) && id < |nodes|
    decreases id
  {
    if id == 0 then [] else PathTo(nodes, pathL, nodes[id].parentId) + [nodes[id].name.value]
  }

  lemma {:induction false} PathDepth(nodes: seq<PathNode>, pathL: nat, id: nat)
    requires Linked(nodes, pathL) && id < |nodes|
    ensures nodes[id].depth == pathL + |PathTo(nodes, pathL, id)|
    decreases id
  {
    if id > 0 {
      PathDepth(nodes, pathL, nodes[id].parentId);
    }
  }

  /** The nodes from i on, as the specification's queue. */
  ghost function Queue(nodes: seq<PathNode>, pathL: nat, i: nat): (r: seq<Node>)
    requires Linked(nodes, pathL) && i <= |nodes|
    ensures |r| == |nodes| - i
    ensures forall k | 0 <= k < |r| :: r[k] == Node(PathTo(nodes, pathL, i + k), nodes[i + k].members)
  {
    seq(|nodes| - i, k requires 0 <= k < |nodes| - i => Node(PathTo(nodes, pathL, i + k), nodes[i + k].members))
  }

  /** Marking and appending leave the paths of the nodes there before alone. */
  lemma {:induction false} PathStays(a: seq<PathNode>, b: seq<PathNode>, pathL: nat, id: nat)
    requires Linked(a, pathL) && Linked(b, pathL) && id < |a| <= |b|
    requires forall i | 0 <= i < |a| :: b[i].parentId == a[i].parentId && b[i].name == a[i].name
    ensures PathTo(b, pathL, id) == PathTo(a, pathL, id)
    decreases id
  {
    if id > 0 {
      PathStays(a, b, pathL, a[id].parentId);
    }
  }

  lemma MarkKeepsLinks(nodes: seq<PathNode>, pathL: nat, v: nat)
    requires Linked(nodes, pathL) && v < |nodes|
    ensures Linked(nodes[v := nodes[v].(visited := true)], pathL)
  {
  }

  lemma MarkKeepsQueue(nodes: seq<PathNode>, pathL: nat, v: nat, i: nat)
    requires Linked(nodes, pathL) && v < |nodes| && i <= |nodes|
    ensures var marked := nodes[v := nodes[v].(visited := true)];
            Linked(marked, pathL) && Queue(marked, pathL, i) == Queue(nodes, pathL, i)
  {
    hide PathTo, Linked, Queue;
    var marked := nodes[v := nodes[v].(visited := true)];
    MarkKeepsLinks(nodes, pathL, v);
    forall k: nat | k < |nodes| - i ensures Queue(marked, pathL, i)[k] == Queue(nodes, pathL, i)[k] {
      PathStays(nodes, marked, pathL, i + k);
    }
  }

  lemma AppendKeepsLinks(nodes: seq<PathNode>, pathL: nat, v: nat, child: PathNode)
    requires Linked(nodes, pathL) && v < |nodes|
    requires child.parentId == v && child.name.Some? && child.depth == nodes[v].depth + 1
    ensures Linked(nodes + [child], pathL)
  {
  }

  lemma LastPath(nodes: seq<PathNode>, pathL: nat, v: nat, child: PathNode)
    requires Linked(nodes, pathL) && Linked(nodes + [child], pathL) && v < |nodes|
    requires child.parentId == v && child.name.Some?
    ensures PathTo(nodes + [child], pathL, |nodes|) == PathTo(nodes, pathL, v) + [child.name.value]
  {
    hide Linked;
    PathStays(nodes, nodes + [child], pathL, v);
  }

  lemma AppendExtendsQueue(nodes: seq<PathNode>, pathL: nat, v: nat, child: PathNode, i: nat)
    requires Linked(nodes, pathL) && v < |nodes| && i <= |nodes|
    requires child.parentId == v && child.name.Some? && child.depth == nodes[v].depth + 1
    ensures var more := nodes + [child];
            && Linked(more, pathL)
            && PathTo(more, pathL, v) == PathTo(nodes, pathL, v)
            && Queue(more, pathL, i) ==
               Queue(nodes, pathL, i) + [Node(PathTo(nodes, pathL, v) + [child.name.value], child.members)]
  {
    var more := nodes + [child];
    AppendKeepsLinks(nodes, pathL, v, child);
    LastPath(nodes, pathL, v, child);
    hide PathTo, Linked, Queue;
    forall k | 0 <= k < |nodes| ensures PathTo(more, pathL, k) == PathTo(nodes, pathL, k) {
      PathStays(nodes, more, pathL, k);
    }
  }

  lemma PathStep(nodes: seq<PathNode>, pathL: nat, id: nat)
    requires Linked(nodes, pathL) && id < |nodes| && PathTo(nodes, pathL, id) != []
    ensures id > 0
    ensures var path := PathTo(nodes, pathL, id);
            && PathTo(nodes, pathL, nodes[id].parentId) == path[..|path| - 1]
            && nodes[id].name.value == path[|path| - 1]
  {
  }

  lemma SuffixStep(a: Path, b: Path, k: nat)
    requires |a| == |b| && k < |a| && a[k + 1..] == b[k + 1..] && a[k] == b[k]
    ensures a[k..] == b[k..]
  {
    assert a[k..] == [a[k]] + a[k + 1..];
    assert b[k..] == [b[k]] + b[k + 1..];
  }

  /** The walk from nodeId has come to id with this many names left, and those behind it agree with the entry's. */
  ghost predicate Agree(nodes: seq<PathNode>, pathL: nat, nodeId: nat, entry: Path, id: nat, left: nat)
    requires Linked(nodes, pathL) && nodeId < |nodes| && |entry| == nodes[nodeId].depth + 1
  {
    var full, wanted := PathTo(nodes, pathL, nodeId), entry[pathL..|entry| - 1];
    && id < |nodes|
    && left <= |full| == |wanted|
    && PathTo(nodes, pathL, id) == full[..left]
    && wanted[left..] == full[left..]
  }

  lemma AgreeStart(nodes: seq<PathNode>, pathL: nat, nodeId: nat, entry: Path)
    requires Linked(nodes, pathL) && nodeId < |nodes| && |entry| == nodes[nodeId].depth + 1
    ensures Agree(nodes, pathL, nodeId, entry, nodeId, |entry| - pathL - 1)
  {
    PathDepth(nodes, pathL, nodeId);
    hide PathTo;
    var full := PathTo(nodes, pathL, nodeId);
    assert full[..|full|] == full;
  }

  lemma AgreeEnd(nodes: seq<PathNode>, pathL: nat, nodeId: nat, entry: Path, id: nat)
    requires Linked(nodes, pathL) && nodeId < |nodes| && |entry| == nodes[nodeId].depth + 1
    requires Agree(nodes, pathL, nodeId, entry, id, 0)
    ensures entry[pathL..|entry| - 1] == PathTo(nodes, pathL, nodeId)
  {
    hide PathTo;
    var full, wanted := PathTo(nodes, pathL, nodeId), entry[pathL..|entry| - 1];
    assert wanted[0..] == wanted && full[0..] == full;
  }

  /** While names are left the node is not the root: it has a name, to compare with the entry's. */
  lemma AgreeStep(nodes: seq<PathNode>, pathL: nat, nodeId: nat, entry: Path, id: nat, left: nat)
    requires Linked(nodes, pathL) && nodeId < |nodes| && |entry| == nodes[nodeId].depth + 1
    requires Agree(nodes, pathL, nodeId, entry, id, left) && left > 0
    ensures id < |nodes| && nodes[id].name.Some? && pathL + left < |entry|
    ensures if nodes[id].name.value == entry[pathL + left - 1]
            then Agree(nodes, pathL, nodeId, entry, nodes[id].parentId, left - 1)
            else entry[pathL..|entry| - 1] != PathTo(nodes, pathL, nodeId)
  {
    hide PathTo;
    var full, wanted := PathTo(nodes, pathL, nodeId), entry[pathL..|entry| - 1];
    PathStep(nodes, pathL, id);
    assert full[..left][..left - 1] == full[..left - 1] && full[..left][left - 1] == full[left - 1];
    if wanted[left - 1] == full[left - 1] {
      SuffixStep(wanted, full, left - 1);
    }
  }

  /** The walk from a node up to the root, comparing names with an entry's path from its end. */
  method ParentsMatch(nodes: seq<PathNode>, pathL: nat, nodeId: nat, entry: Path) returns (match_: bool)
    requires Linked(nodes, pathL) && nodeId < |nodes| && |entry| == nodes[nodeId].depth + 1
    ensures match_ <==> entry[pathL..|entry| - 1] == PathTo(nodes, pathL, nodeId)
  {
    hide PathTo, Agree;
    var i: nat, id: nat := 1, nodeId;
    AgreeStart(nodes, pathL, nodeId, entry);
    while i < |entry| - pathL
      invariant i <= |entry| - pathL && Agree(nodes, pathL, nodeId, entry, id, |entry| - pathL - i)
    {
      AgreeStep(nodes, pathL, nodeId, entry, id, |entry| - pathL - i);
      if nodes[id].name.value != entry[|entry| - 1 - i] {
        return false;
      }
      id := nodes[id].parentId;
      i := i + 1;
    }
    AgreeEnd(nodes, pathL, nodeId, entry, id);
    match_ := true;
  }

  // ---- The setters' owner -----------------------------------------------------------------------------------

  /** longer holds the nodes and, after them, nodes not visited. */
  ghost predicate Grown(nodes: seq<PathNode>, longer: seq<PathNode>, pathL: nat) {
    && Linked(longer, pathL)
    && nodes <= longer
    && forall i | |nodes| <= i < |longer| :: !longer[i].visited
  }

  lemma MemberStep(table: seq<Path>, tokens: Path, at: Path, members: seq<Member>, c: nat, calls: seq<Call>,
                   accepts: Accepts)
    requires c < |members|
    ensures var child, here := members[c], SetLeaves(table, tokens, LeavesOf(at, members[c..]), calls, accepts);
            if child.value.Object? then
              && LeavesOf(at, members[c..]) == LeavesOf(at, members[c + 1..])
              && NodesOf(at, members[c..]) ==
                 [Node(at + [child.key], child.value.members)] + NodesOf(at, members[c + 1..])
            else
              && NodesOf(at, members[c..]) == NodesOf(at, members[c + 1..])
              && var e := FindEntry(table, tokens + (at + [child.key]), 0);
                 if e == |table| then here == Outcome(calls, Some(UnknownMember))
                 else
                   var first := CallSetter(calls, Call(e, child.value), accepts);
                   here == if first.error.Some? then first
                           else SetLeaves(table, tokens, LeavesOf(at, members[c + 1..]), first.calls, accepts)
  {
    hide FindEntry;
    var child := members[c];
    assert members[c..][1..] == members[c + 1..];
    if !child.value.Object? {
      var leaf := Leaf(at + [child.key], child.value);
      var leaves := LeavesOf(at, members[c..]);
      assert leaves == [leaf] + LeavesOf(at, members[c + 1..]);
      assert leaves[1..] == LeavesOf(at, members[c + 1..]);
      assert NodesOf(at, members[c..]) == NodesOf(at, members[c + 1..]);
    }
  }

  lemma QueueShift(queue: seq<Node>, node: Node, rest: seq<Node>)
    ensures queue + ([node] + rest) == (queue + [node]) + rest
  {
  }

  lemma NothingLeft(table: seq<Path>, tokens: Path, at: Path, calls: seq<Call>, accepts: Accepts)
    ensures LeavesOf(at, []) == [] && NodesOf(at, []) == []
    ensures SetLeaves(table, tokens, [], calls, accepts) == Outcome(calls, None)
  {
  }

  lemma RootQueue(nodes: seq<PathNode>, pathL: nat)
    requires |nodes| == 1 && nodes[0].depth == pathL
    ensures Queue(nodes, pathL, 0) == [Node([], nodes[0].members)]
  {
  }

  lemma {:induction false} SetLeavesConcat(table: seq<Path>, tokens: Path, a: seq<Leaf>, b: seq<Leaf>,
                                           calls: seq<Call>, accepts: Accepts)
    ensures var first := SetLeaves(table, tokens, a, calls, accepts);
            SetLeaves(table, tokens, a + b, calls, accepts) ==
            if first.error.Some? then first else SetLeaves(table, tokens, b, first.calls, accepts)
    decreases |a|
  {
    hide SetLeaf;
    if a == [] {
      assert a + b == b;
    } else {
      assert (a + b)[1..] == a[1..] + b;
      var first := SetLeaf(table, tokens, a[0], calls, accepts);
      if first.error.None? {
        SetLeavesConcat(table, tokens, a[1..], b, first.calls, accepts);
      }
    }
  }

  /** Visiting the head of the queue, then what follows it with its objects. */
  lemma QueueHead(nodes: seq<PathNode>, pathL: nat, v: nat, table: seq<Path>, tokens: Path, calls: seq<Call>,
                  accepts: Accepts)
    requires Linked(nodes, pathL) && v < |nodes|
    ensures var queue, at, members := Queue(nodes, pathL, v), PathTo(nodes, pathL, v), nodes[v].members;
            var first := SetLeaves(table, tokens, LeavesOf(at, members), calls, accepts);
            && Successors(queue) == Queue(nodes, pathL, v + 1) + NodesOf(at, members)
            && SetLeaves(table, tokens, Bfs(queue), calls, accepts) ==
               if first.error.Some? then first
               else SetLeaves(table, tokens, Bfs(Successors(queue)), first.calls, accepts)
  {
    hide SetLeaves, LeavesOf, NodesOf, QueueSize, PathTo;
    var queue := Queue(nodes, pathL, v);
    assert queue[0] == Node(PathTo(nodes, pathL, v), nodes[v].members);
    assert queue[1..] == Queue(nodes, pathL, v + 1);
    SetLeavesConcat(table, tokens, LeavesOf(queue[0].path, queue[0].members), Bfs(Successors(queue)), calls, accepts);
  }

  lemma EmptyQueue(nodes: seq<PathNode>, pathL: nat, table: seq<Path>, tokens: Path, calls: seq<Call>, accepts: Accepts)
    requires Linked(nodes, pathL)
    ensures SetLeaves(table, tokens, Bfs(Queue(nodes, pathL, |nodes|)), calls, accepts) == Outcome(calls, None)
  {
    assert Queue(nodes, pathL, |nodes|) == [];
  }

  /** Gathering keeps the table's order, so the first match gathered is the first in the table. */
  lemma {:induction false} FirstIn(table: seq<Path>, tokens: Path, full: Path, from: nat, k: nat)
    requires from <= |table| && tokens <= full
    requires var refs := Gather(table, tokens, from);
             k < |refs| && refs[k] < |table| && table[refs[k]] == full
             && forall j | 0 <= j < k :: refs[j] < |table| && table[refs[j]] != full
    ensures FindEntry(table, full, from) == Gather(table, tokens, from)[k]
    decreases |table| - from
  {
    if tokens <= table[from] {
      if k > 0 {
        var refs, later := Gather(table, tokens, from), Gather(table, tokens, from + 1);
        assert refs == [from] + later && table[refs[0]] != full;
        forall j | 0 <= j < k - 1 ensures later[j] < |table| && table[later[j]] != full {
          assert later[j] == refs[j + 1];
        }
        FirstIn(table, tokens, full, from + 1, k - 1);
      }
    } else {
      assert Gather(table, tokens, from) == Gather(table, tokens, from + 1);
      FirstIn(table, tokens, full, from + 1, k);
    }
  }

  lemma EntryIs(entry: Path, tokens: Path, at: Path, key: string)
    requires tokens <= entry
    ensures entry == tokens + (at + [key]) <==>
            && |entry| == |tokens| + |at| + 1
            && entry[|entry| - 1] == key
            && entry[|tokens|..|entry| - 1] == at
  {
    var n := |entry| - 1;
    if |entry| == |tokens| + |at| + 1 {
      assert entry == entry[..|tokens|] + (entry[|tokens|..n] + [entry[n]]);
      assert entry == tokens + (at + [key]) ==> entry[|tokens|..n] == (at + [key])[..|at|];
    }
  }

  lemma FirstGathered(table: seq<Path>, tokens: Path, full: Path, k: nat)
    requires tokens <= full
    requires var refs := Gather(table, tokens, 0);
             k < |refs| && refs[k] < |table| && table[refs[k]] == full
             && forall j | 0 <= j < k :: refs[j] < |table| && table[refs[j]] != full
    ensures FindEntry(table, full, 0) == Gather(table, tokens, 0)[k]
  {
    FirstIn(table, tokens, full, 0, k);
  }

  lemma NoneGathered(table: seq<Path>, tokens: Path, full: Path)
    requires tokens <= full
    requires forall e <- Gather(table, tokens, 0) :: e < |table| && table[e] != full
    ensures FindEntry(table, full, 0) == |table|
  {
    hide Gather, FindEntry;
    GatherExact(table, tokens, 0);
    forall i: nat | i < |table| ensures table[i] != full {
      assert i in Gather(table, tokens, 0) <==> tokens <= table[i];
    }
  }

  class Config {
    var calls: seq<Call>

    constructor ()
      ensures calls == []
    {
      calls := [];
    }

    /** A setter is called; its success is the environment's. */
    method CallEntry(e: nat, value: Value, accepts: Accepts) returns (error: Option<SetError>)
      modifies this
      ensures Outcome(calls, error) == CallSetter(old(calls), Call(e, value), accepts)
    {
      var call := Call(e, value);
      error := if accepts(calls, call) then None else Some(Rejected);
      calls := calls + [call];
    }

    /** The first gathered entry for the leaf of a node, by depth, by last name and by the names of the parents. */
    method FindRef(table: seq<Path>, refs: seq<nat>, nodes: seq<PathNode>, pathL: nat, nodeId: nat, key: string,
                   ghost tokens: Path)
      returns (e: nat)
      requires refs == Gather(table, tokens, 0) && pathL == |tokens|
      requires Linked(nodes, pathL) && nodeId < |nodes|
      ensures e == FindEntry(table, tokens + (PathTo(nodes, pathL, nodeId) + [key]), 0)
    {
      hide Gather, PathTo, FindEntry;
      GatherExact(table, tokens, 0);
      PathDepth(nodes, pathL, nodeId);
      ghost var at := PathTo(nodes, pathL, nodeId);
      ghost var full := tokens + (at + [key]);
      var childDepth := nodes[nodeId].depth + 1;
      var i := 0;
      while i < |refs|
        invariant i <= |refs| && forall j | 0 <= j < i :: refs[j] < |table| && table[refs[j]] != full
      {
        assert refs[i] in refs;
        var entry := table[refs[i]];
        EntryIs(entry, tokens, at, key);
        if |entry| == childDepth && entry[|entry| - 1] == key {
          var same := ParentsMatch(nodes, pathL, nodeId, entry);
          if same {
            FirstGathered(table, tokens, full, i);
            return refs[i];
          }
        }
        i := i + 1;
      }
      e := |table|;
      NoneGathered(table, tokens, full);
    }

    /** A new node at the end of the worklist. */
    method Enqueue(nodes: seq<PathNode>, pathL: nat, parentId: nat, key: string, members: seq<Member>, depth: nat,
                   ghost before: seq<PathNode>)
      returns (longer: seq<PathNode>)
      requires Grown(before, nodes, pathL) && parentId < |before| && depth == before[parentId].depth + 1
      ensures Grown(before, longer, pathL) && PathTo(longer, pathL, parentId) == PathTo(nodes, pathL, parentId)
      ensures Queue(longer, pathL, parentId + 1) ==
              Queue(nodes, pathL, parentId + 1) + [Node(PathTo(nodes, pathL, parentId) + [key], members)]
    {
      hide PathTo, Queue;
      var node := PathNode(parentId, Some(key), members, depth, false);
      AppendExtendsQueue(nodes, pathL, parentId, node, parentId + 1);
      longer := nodes + [node];
    }

    /** The members of a node: setters are called for the leaves, and the objects join the worklist. */
    method VisitNode(table: seq<Path>, refs: seq<nat>, pathL: nat, nodes: seq<PathNode>, nodeId: nat,
                     accepts: Accepts, ghost tokens: Path)
      returns (error: Option<SetError>, longer: seq<PathNode>)
      requires refs == Gather(table, tokens, 0) && pathL == |tokens|
      requires Linked(nodes, pathL) && nodeId < |nodes|
      modifies this
      ensures var at, members := PathTo(nodes, pathL, nodeId), nodes[nodeId].members;
              && Outcome(calls, error) == SetLeaves(table, tokens, LeavesOf(at, members), old(calls), accepts)
              && (error.None? ==>
                    && Grown(nodes, longer, pathL)
                    && Queue(longer, pathL, nodeId + 1) == Queue(nodes, pathL, nodeId + 1) + NodesOf(at, members))
    {
      hide Gather, PathTo, Queue, FindEntry, SetLeaves, LeavesOf, NodesOf, Linked;
      longer := nodes;
      var members := nodes[nodeId].members;
      ghost var at := PathTo(nodes, pathL, nodeId);
      var childDepth := nodes[nodeId].depth + 1;
      var c := 0;
      assert members[0..] == members;
      while c < |members|
        invariant c <= |members| && Grown(nodes, longer, pathL) && PathTo(longer, pathL, nodeId) == at
        invariant SetLeaves(table, tokens, LeavesOf(at, members), old(calls), accepts) ==
                  SetLeaves(table, tokens, LeavesOf(at, members[c..]), calls, accepts)
        invariant Queue(longer, pathL, nodeId + 1) + NodesOf(at, members[c..]) ==
                  Queue(nodes, pathL, nodeId + 1) + NodesOf(at, members)
      {
        var child := members[c];
        MemberStep(table, tokens, at, members, c, calls, accepts);
        if !child.value.Object? {
          var e := FindRef(table, refs, longer, pathL, nodeId, child.key, tokens);
          if e == |table| {
            error := Some(UnknownMember);
            return;
          }
          error := CallEntry(e, child.value, accepts);
          if error.Some? {
            return;
          }
        } else {
          ghost var node := Node(at + [child.key], child.value.members);
          QueueShift(Queue(longer, pathL, nodeId + 1), node, NodesOf(at, members[c + 1..]));
          longer := Enqueue(longer, pathL, nodeId, child.key, child.value.members, childDepth, nodes);
        }
        c := c + 1;
      }
      NothingLeft(table, tokens, at, calls, accepts);
      assert members[c..] == [];
      assert Queue(longer, pathL, nodeId + 1) + [] == Queue(longer, pathL, nodeId + 1);
      error := None;
    }

    /** The search for the first node not visited. */
    method FirstUnvisited(nodes: seq<PathNode>) returns (id: nat)
      ensures id <= |nodes| && (id < |nodes| ==> !nodes[id].visited) && forall i | 0 <= i < id :: nodes[i].visited
    {
      id := 0;
      while id < |nodes| && nodes[id].visited
        invariant id <= |nodes| && forall i | 0 <= i < id :: nodes[i].visited
      {
        id := id + 1;
      }
    }

    /** The worklist loop. */
    method VisitAll(table: seq<Path>, refs: seq<nat>, pathL: nat, members: seq<Member>, accepts: Accepts,
                    ghost tokens: Path)
      returns (error: Option<SetError>)
      requires refs == Gather(table, tokens, 0) && pathL == |tokens|
      modifies this
      ensures Outcome(calls, error) == SetLeaves(table, tokens, Leaves(members), old(calls), accepts)
    {
      hide Gather, Queue, SetLeaves, LeavesOf, NodesOf, QueueSize, PathTo, Bfs;
      var nodes := [PathNode(0, None, members, pathL, false)];
      ghost var v := 0;
      RootQueue(nodes, pathL);
      while true
        invariant Linked(nodes, pathL) && v <= |nodes|
        invariant forall i | 0 <= i < |nodes| :: nodes[i].visited <==> i < v
        invariant SetLeaves(table, tokens, Leaves(members), old(calls), accepts) ==
                  SetLeaves(table, tokens, Bfs(Queue(nodes, pathL, v)), calls, accepts)
        decreases QueueSize(Queue(nodes, pathL, v))
      {
        var id := FirstUnvisited(nodes);
        assert v < |nodes| ==> !nodes[v].visited;
        assert id == v;
        if id == |nodes| {
          break;
        }
        ghost var queue := Queue(nodes, pathL, v);
        var marked := nodes[id := nodes[id].(visited := true)];
        MarkKeepsQueue(nodes, pathL, id, v);
        QueueHead(marked, pathL, v, table, tokens, calls, accepts);
        error, nodes := VisitNode(table, refs, pathL, marked, id, accepts, tokens);
        if error.Some? {
          return;
        }
        v := v + 1;
        assert Queue(nodes, pathL, v) == Successors(queue);
      }
      EmptyQueue(nodes, pathL, table, tokens, calls, accepts);
      error := None;
    }

    method SetPropertyInner(table: seq<Path>, path: string, value: Value, accepts: Accepts)
      returns (error: Option<SetError>)
      modifies this
      ensures Outcome(calls, error) == SetProperty(table, path, value, old(calls), accepts)
    {
      hide Gather, Tokenise, SetLeaves, Leaves;
      var r := GatherEntryRefs(table, path);
      if r.NotFound? {
        return Some(BadPath(r.error));
      }
      ghost var tokens := Tokenise(path).value;
      GatherExact(table, tokens, 0);
      assert r.refs[0] in r.refs;
      if |r.refs| == 1 && |table[r.refs[0]]| == r.pathL {
        error := CallEntry(r.refs[0], value, accepts);
        return;
      }
      if !value.Object? {
        return Some(NotAnObject);
      }
      error := VisitAll(table, r.refs, r.pathL, value.members, accepts, tokens);
    }
  }

  lemma BuildStep(table: seq<Path>, pathL: nat, refs: seq<nat>, i: nat, get: nat -> Value)
    requires i < |refs| && forall e <- refs :: e < |table| && pathL <= |table[e]|
    ensures refs[i] in refs && forall e <- refs[..i + 1] :: e < |table| && pathL <= |table[e]|
    ensures Build(table, pathL, refs[..i + 1], get) ==
            Insert(Build(table, pathL, refs[..i], get), table[refs[i]][pathL..], get(refs[i]))
  {
    assert refs[..i + 1][..i] == refs[..i] && refs[i] in refs;
  }

  lemma NothingBuilt(table: seq<Path>, pathL: nat, get: nat -> Value)
    ensures Build(table, pathL, [], get) == []
  {
  }

  /** Reading: one entry's own value, or an object that grows by one entry at a time; a failing getter ends it. */
  method GetPropertyInner(table: seq<Path>, path: string, get: Getters) returns (reading: Reading)
    ensures reading == GetProperty(table, path, get)
  {
    hide Gather, Tokenise, Insert, Build;
    var r := GatherEntryRefs(table, path);
    if r.NotFound? {
      return NoSuchPath(r.error);
    }
    ghost var tokens := Tokenise(path).value;
    GatherExact(table, tokens, 0);
    assert r.refs[0] in r.refs;
    if |r.refs| == 1 && |table[r.refs[0]]| == r.pathL {
      var value := get(r.refs[0]);
      return if value.None? then GetterFailed else Read(value.value);
    }
    var output, i := [], 0;
    NothingBuilt(table, r.pathL, Given(get));
    while i < |r.refs|
      invariant i <= |r.refs| && output == Build(table, r.pathL, r.refs[..i], Given(get))
      invariant forall e <- r.refs[..i] :: get(e).Some?
    {
      BuildStep(table, r.pathL, r.refs, i, Given(get));
      var e := r.refs[i];
      var value := get(e);
      if value.None? {
        return GetterFailed;
      }
      assert r.refs[..i + 1] == r.refs[..i] + [e];
      output := Insert(output, table[e][r.pathL..], value.value);
      i := i + 1;
    }
    assert r.refs[..i] == r.refs;
    reading := Read(Object(output));
  }
}
