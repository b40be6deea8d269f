/** In which order the worklist of a nested object meets its values (src/ptychite/config.c). */
module PropertyOrder {
  import opened Lists
  import opened Paths
  import opened Json
  import opened Properties

  /** The leaves in the order in which the object is written. */
  function Written(path: Path, members: seq<Member>): seq<Leaf>
    decreases members
  {
    if members == [] then []
    else (if members[0].value.Object? then Written(path + [members[0].key], members[0].value.members)
          else [Leaf(path + [members[0].key], members[0].value)])
         + Written(path, members[1..])
  }

  function AllWritten(queue: seq<Node>): seq<Leaf> {
    if queue == [] then [] else Written(queue[0].path, queue[0].members) + AllWritten(queue[1..])
  }

  /** Those whose paths have d keys. */
  function OfDepth(leaves: seq<Leaf>, d: nat): seq<Leaf> {
    if leaves == [] then []
    else (if |leaves[0].path| == d then [leaves[0]] else []) + OfDepth(leaves[1..], d)
  }

  lemma {:induction false} OfDepthConcat(a: seq<Leaf>, b: seq<Leaf>, d: nat)
    ensures OfDepth(a + b, d) == OfDepth(a, d) + OfDepth(b, d)
  {
    if a == [] {
      assert a + b == b;
    } else {
      assert (a + b)[1..] == a[1..] + b;
      OfDepthConcat(a[1..], b, d);
    }
  }

  lemma {:induction false} AllWrittenConcat(a: seq<Node>, b: seq<Node>)
    ensures AllWritten(a + b) == AllWritten(a) + AllWritten(b)
  {
    if a == [] {
      assert a + b == b;
    } else {
      assert (a + b)[1..] == a[1..] + b;
      AllWrittenConcat(a[1..], b);
    }
  }

  lemma OneOfDepth(leaf: Leaf, d: nat)
    ensures OfDepth([leaf], d) == if |leaf.path| == d then [leaf] else []
  {
    assert [leaf][1..] == [];
  }

  lemma OneNode(node: Node)
    ensures AllWritten([node]) == Written(node.path, node.members)
  {
    assert [node][1..] == [];
  }

  /** No leaf lies as high as the object itself, and the direct ones lie right below it. */
  lemma {:induction false} WrittenBelow(path: Path, members: seq<Member>, d: nat)
    ensures d <= |path| ==> OfDepth(Written(path, members), d) == []
    ensures OfDepth(LeavesOf(path, members), d) == if d == |path| + 1 then LeavesOf(path, members) else []
    decreases members
  {
    if members != [] {
      var first := members[0];
      WrittenBelow(path, members[1..], d);
      var leaf := Leaf(path + [first.key], first.value);
      OneOfDepth(leaf, d);
      OfDepthConcat([leaf], LeavesOf(path, members[1..]), d);
      if first.value.Object? {
        WrittenBelow(path + [first.key], first.value.members, d);
        OfDepthConcat(Written(path + [first.key], first.value.members), Written(path, members[1..]), d);
        assert LeavesOf(path, members) == LeavesOf(path, members[1..]);
      } else {
        OfDepthConcat([leaf], Written(path, members[1..]), d);
      }
    }
  }

  /** The leaves right below the object are its own; the deeper ones are those of its objects. */
  lemma {:induction false} WrittenByLevel(path: Path, members: seq<Member>, d: nat)
    requires d > |path|
    ensures OfDepth(Written(path, members), d) ==
            if d == |path| + 1 then LeavesOf(path, members) else OfDepth(AllWritten(NodesOf(path, members)), d)
  {
    if members != [] {
      var first, rest := members[0], members[1..];
      WrittenByLevel(path, rest, d);
      if first.value.Object? {
        var node := Node(path + [first.key], first.value.members);
        OfDepthConcat(Written(node.path, node.members), Written(path, rest), d);
        WrittenBelow(node.path, node.members, d);
        OneNode(node);
        AllWrittenConcat([node], NodesOf(path, rest));
        OfDepthConcat(AllWritten([node]), AllWritten(NodesOf(path, rest)), d);
      } else {
        var leaf := Leaf(path + [first.key], first.value);
        OfDepthConcat([leaf], Written(path, rest), d);
        OneOfDepth(leaf, d);
        assert NodesOf(path, members) == NodesOf(path, rest);
      }
    }
  }

  ghost predicate AtDepth(queue: seq<Node>, k: nat) {
    forall node <- queue :: |node.path| == k
  }

  lemma {:induction false} NodesDeeper(path: Path, members: seq<Member>)
    ensures AtDepth(NodesOf(path, members), |path| + 1)
  {
    if members != [] { NodesDeeper(path, members[1..]); }
  }

  /** The leaves at depth d when the queue's first part lies at level k and the rest at the next one. */
  function AtTurn(a: seq<Node>, b: seq<Node>, k: nat, d: nat): seq<Leaf> {
    if d <= k then []
    else if d == k + 1 then OfDepth(AllWritten(a), d)
    else OfDepth(AllWritten(b), d) + OfDepth(AllWritten(a), d)
  }

  lemma TurnOfNext(b: seq<Node>, k: nat, d: nat)
    requires AtDepth(b, k + 1)
    ensures AtTurn([], b, k, d) == AtTurn(b, [], k + 1, d)
  {
    AllBelow(b, k + 1, d);
  }

  lemma TurnOfNode(node: Node, rest: seq<Node>, b: seq<Node>, k: nat, d: nat)
    requires |node.path| == k
    ensures AtTurn([node] + rest, b, k, d) ==
            OfDepth(LeavesOf(node.path, node.members), d) + AtTurn(rest, b + NodesOf(node.path, node.members), k, d)
  {
    hide OfDepth, AllWritten, LeavesOf, NodesOf, Written;
    var nodes := NodesOf(node.path, node.members);
    WrittenBelow(node.path, node.members, d);
    if d > k {
      WrittenByLevel(node.path, node.members, d);
      AllWrittenConcat([node], rest);
      OneNode(node);
      OfDepthConcat(Written(node.path, node.members), AllWritten(rest), d);
      AllWrittenConcat(b, nodes);
      OfDepthConcat(AllWritten(b), AllWritten(nodes), d);
    }
  }

  lemma {:induction false} LevelsInTurn(a: seq<Node>, b: seq<Node>, k: nat, d: nat)
    requires AtDepth(a, k) && AtDepth(b, k + 1)
    ensures OfDepth(Bfs(a + b), d) == AtTurn(a, b, k, d)
    decreases QueueSize(a + b), if a == [] then 1 else 0
  {
    hide OfDepth, AtTurn, LeavesOf, NodesOf, QueueSize;
    if a == [] {
      assert a + b == b;
      if b == [] {
        NothingMet(k, d);
      } else {
        assert b + [] == b;
        LevelsInTurn(b, [], k + 1, d);
        TurnOfNext(b, k, d);
      }
    } else {
      var node, rest, nodes := a[0], a[1..], NodesOf(a[0].path, a[0].members);
      var queue := a + b;
      assert a == [node] + rest && node in a && queue[0] == node && Successors(queue) == rest + (b + nodes);
      NodesDeeper(node.path, node.members);
      assert AtDepth(rest, k) && AtDepth(b + nodes, k + 1);
      LevelsInTurn(rest, b + nodes, k, d);
      OfDepthConcat(LeavesOf(node.path, node.members), Bfs(Successors(queue)), d);
      TurnOfNode(node, rest, b, k, d);
    }
  }

  lemma NothingMet(k: nat, d: nat)
    ensures OfDepth(Bfs([]), d) == AtTurn([], [], k, d)
  {
  }

  lemma {:induction false} AllBelow(queue: seq<Node>, k: nat, d: nat)
    requires AtDepth(queue, k)
    ensures d <= k ==> OfDepth(AllWritten(queue), d) == []
  {
    if queue != [] {
      assert queue[0] in queue;
      AllBelow(queue[1..], k, d);
      WrittenBelow(queue[0].path, queue[0].members, d);
      OfDepthConcat(Written(queue[0].path, queue[0].members), AllWritten(queue[1..]), d);
    }
  }

  /** Among values at the same depth the worklist keeps the order in which the object is written. */
  lemma LeavesKeepOrder(members: seq<Member>, d: nat)
    ensures OfDepth(Leaves(members), d) == OfDepth(Written([], members), d)
  {
    var root := Node([], members);
    assert [root] + [] == [root];
    LevelsInTurn([root], [], 0, d);
    OneNode(root);
    WrittenBelow([], members, d);
  }

  // ---- Shallow values first -------------------------------------------------------------------------------

  ghost predicate Rising(leaves: seq<Leaf>) {
    forall i, j | 0 <= i < j < |leaves| :: |leaves[i].path| <= |leaves[j].path|
  }

  ghost predicate Below(leaves: seq<Leaf>, k: nat) {
    forall leaf <- leaves :: |leaf.path| > k
  }

  lemma {:induction false} LeavesOfDepth(path: Path, members: seq<Member>)
    ensures forall leaf <- LeavesOf(path, members) :: |leaf.path| == |path| + 1
  {
    if members != [] { LeavesOfDepth(path, members[1..]); }
  }

  lemma {:induction false} WorklistRises(a: seq<Node>, b: seq<Node>, k: nat)
    requires AtDepth(a, k) && AtDepth(b, k + 1)
    ensures Rising(Bfs(a + b)) && Below(Bfs(a + b), k)
    decreases QueueSize(a + b), if a == [] then 1 else 0
  {
    if a == [] {
      assert a + b == b;
      if b != [] {
        assert b + [] == b;
        WorklistRises(b, [], k + 1);
      }
    } else {
      var node, rest, nodes := a[0], a[1..], NodesOf(a[0].path, a[0].members);
      var queue := a + b;
      assert node in a && queue[0] == node && Successors(queue) == rest + (b + nodes);
      NodesDeeper(node.path, node.members);
      assert AtDepth(rest, k) && AtDepth(b + nodes, k + 1);
      WorklistRises(rest, b + nodes, k);
      LeavesOfDepth(node.path, node.members);
      RisesOn(LeavesOf(node.path, node.members), Bfs(Successors(queue)), k);
    }
  }

  lemma RisesOn(here: seq<Leaf>, later: seq<Leaf>, k: nat)
    requires (forall leaf <- here :: |leaf.path| == k + 1) && Rising(later) && Below(later, k)
    ensures Rising(here + later) && Below(here + later, k)
  {
    var all := here + later;
    forall i, j | 0 <= i < j < |all| ensures |all[i].path| <= |all[j].path| {
      if i < |here| { assert all[i] in here; }
      if j < |here| { assert all[j] in here; } else { assert all[j] in later; }
    }
  }

  /** The worklist meets shallow values before deep ones. */
  lemma LeavesRise(members: seq<Member>)
    ensures Rising(Leaves(members))
  {
    var root := Node([], members);
    assert [root] + [] == [root];
    WorklistRises([root], [], 0);
  }
}
