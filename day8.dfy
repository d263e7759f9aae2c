/**
  Day 8 (Haunted Wasteland): a network maps each node to its left and right
  successor, and `part_one` follows an L/R instruction string, cycling
  through it, from a starting node until it stands on the target node.
 */
module Day8Wasteland {
  import opened Common

  /** `Map`: the instruction string and the network, node name to (left, right). */
  datatype Map = Map(instruction: string, network: map<string, (string, string)>)

  predicate IsTurn(c: char)
  {
    c == 'L' || c == 'R'
  }

  /** The longest prefix of `s` made of `L` and `R`. */
  function LeadingTurns(s: string): (run: string)
    ensures |run| <= |s| && run == s[..|run|]
    ensures forall i :: 0 <= i < |run| ==> IsTurn(run[i])
    ensures |run| == |s| || !IsTurn(s[|run|])
  {
    if s != [] && IsTurn(s[0]) then [s[0]] + LeadingTurns(s[1..]) else []
  }

  /** `re.search(r"[LR]+", text)[0]`: the first run of L/R characters, or `None` when there is none (indexing `None` raises). */
  function FirstTurns(text: string): Option<string>
  {
    if text == [] then None
    else if IsTurn(text[0]) then Some(LeadingTurns(text))
    else FirstTurns(text[1..])
  }

  /** The instruction is the first maximal run: non-empty, all turns, preceded by no turn and followed by none. */
  lemma {:induction false} FirstTurnsIsFirstRun(text: string)
    ensures FirstTurns(text).None? <==> forall i :: 0 <= i < |text| ==> !IsTurn(text[i])
    ensures FirstTurns(text).Some? ==> exists at: nat :: FirstRunAt(text, at, FirstTurns(text).value)
  {
    if text != [] {
      FirstTurnsIsFirstRun(text[1..]);
      if IsTurn(text[0]) {
        assert FirstRunAt(text, 0, LeadingTurns(text));
      } else {
        assert forall i :: 1 <= i < |text| ==> text[i] == text[1..][i - 1];
        if FirstTurns(text).Some? {
          var run := FirstTurns(text).value;
          var at: nat :| FirstRunAt(text[1..], at, run);
          assert text[1..][at..at + |run|] == text[at + 1..at + 1 + |run|];
          assert FirstRunAt(text, at + 1, run);
        }
      }
    }
  }

  /** `run` stands in `text` at `at`, has no turn before it, and cannot be extended. */
  predicate FirstRunAt(text: string, at: nat, run: string)
  {
    && at + |run| <= |text| && text[at..at + |run|] == run
    && |run| > 0 && (forall i :: 0 <= i < |run| ==> IsTurn(run[i]))
    && (forall i :: 0 <= i < at ==> !IsTurn(text[i]))
    && (at + |run| == |text| || !IsTurn(text[at + |run|]))
  }

  /** The network dictionary comprehension over the `(node, left, right)` matches; a repeated node keeps its last pair. */
  function Network(nodes: seq<(string, string, string)>): map<string, (string, string)>
  {
    if nodes == [] then map[]
    else
      var last := nodes[|nodes| - 1];
      Network(nodes[..|nodes| - 1])[last.0 := (last.1, last.2)]
  }

  /** The nodes named in the matches are exactly the network's keys. */
  lemma {:induction false} NetworkKeys(nodes: seq<(string, string, string)>, name: string)
    ensures name in Network(nodes) <==> exists i :: 0 <= i < |nodes| && nodes[i].0 == name
  {
    if nodes != [] {
      var front := nodes[..|nodes| - 1];
      NetworkKeys(front, name);
      assert forall i :: 0 <= i < |front| ==> front[i] == nodes[i];
      if name in Network(front) {
        var i :| 0 <= i < |front| && front[i].0 == name;
        assert nodes[i].0 == name;
      }
    }
  }

  /** A node's successors are those of its last match. */
  lemma {:induction false} NetworkLastWins(nodes: seq<(string, string, string)>, i: nat)
    requires i < |nodes| && forall j :: i < j < |nodes| ==> nodes[j].0 != nodes[i].0
    ensures nodes[i].0 in Network(nodes) && Network(nodes)[nodes[i].0] == (nodes[i].1, nodes[i].2)
  {
    if i < |nodes| - 1 {
      NetworkLastWins(nodes[..|nodes| - 1], i);
    }
  }

  /** `parse_input_graph` on the already-read text and its node matches. */
  function ParseInputGraph(text: string, nodes: seq<(string, string, string)>): Option<Map>
  {
    match FirstTurns(text)
    case None => None
    case Some(instruction) => Some(Map(instruction, Network(nodes)))
  }

  lemma ParsedInstruction(text: string, nodes: seq<(string, string, string)>)
    ensures ParseInputGraph(text, nodes).None? <==> forall i :: 0 <= i < |text| ==> !IsTurn(text[i])
    ensures ParseInputGraph(text, nodes).Some? ==>
      && ParseInputGraph(text, nodes).value.network == Network(nodes)
      && |ParseInputGraph(text, nodes).value.instruction| > 0
      && exists at: nat :: FirstRunAt(text, at, ParseInputGraph(text, nodes).value.instruction)
  {
    FirstTurnsIsFirstRun(text);
  }

  // ----- the walk -----

  /** Where the walk stands: the current node and the instruction index. */
  datatype Position = Position(node: string, index: nat)

  /** One pass of the loop body: `L` takes the node's left successor, any other turn its right one, and the index
      advances cyclically; `None` when the index is past the instruction (an empty one) or the node is not in the network. */
  function Move(m: Map, p: Position): Option<Position>
  {
    if p.index >= |m.instruction| || p.node !in m.network then None
    else
      var next := if m.instruction[p.index] == 'L' then m.network[p.node].0 else m.network[p.node].1;
      Some(Position(next, (p.index + 1) % |m.instruction|))
  }

  /** The position after `t` moves from `start` at index 0, or `None` once a move has failed. */
  function PositionAfter(m: Map, start: string, t: nat): Option<Position>
  {
    if t == 0 then Some(Position(start, 0))
    else
      match PositionAfter(m, start, t - 1)
      case None => None
      case Some(p) => Move(m, p)
  }

  /** The node after `t` moves. */
  function NodeAfter(m: Map, start: string, t: nat): Option<string>
  {
    match PositionAfter(m, start, t)
    case None => None
    case Some(p) => Some(p.node)
  }

  /** The instruction index stays within the instruction once a move has been made. */
  lemma {:induction false} IndexInRange(m: Map, start: string, t: nat)
    requires PositionAfter(m, start, t).Some?
    ensures t == 0 ==> PositionAfter(m, start, t).value.index == 0
    ensures t > 0 ==> PositionAfter(m, start, t).value.index < |m.instruction|
  {
    if t > 0 {
      IndexInRange(m, start, t - 1);
    }
  }

  /** The outcome of `part_one`: the step count, an exception, or no arrival within the fuel bound. */
  datatype Walk = Arrived(steps: nat) | Fails | OutOfFuel

  /** The walk from step `t` on: it stops at the first step on the target, raises at the first failed move, or runs out after `fuel` moves. */
  function WalkFrom(m: Map, start: string, target: string, t: nat, fuel: nat): Walk
    requires t <= fuel
    decreases fuel - t
  {
    match NodeAfter(m, start, t)
    case None => Fails
    case Some(node) =>
      if node == target then Arrived(t)
      else if t == fuel then OutOfFuel
      else WalkFrom(m, start, target, t + 1, fuel)
  }

  function WalkOf(m: Map, start: string, target: string, fuel: nat): (w: Walk)
    ensures start == target ==> w == Arrived(0)
  {
    WalkFrom(m, start, target, 0, fuel)
  }

  /** The node reached after `t` moves, which is on the walk and is not the target. */
  predicate Passed(m: Map, start: string, target: string, t: nat)
  {
    NodeAfter(m, start, t).Some? && NodeAfter(m, start, t).value != target
  }

  /** The count returned is the first number of moves that ends on the target, and within the fuel. */
  lemma {:induction false} WalkArrivesFirst(m: Map, start: string, target: string, t: nat, fuel: nat, s: nat)
    requires t <= fuel
    requires forall u :: 0 <= u < t ==> Passed(m, start, target, u)
    ensures WalkFrom(m, start, target, t, fuel) == Arrived(s) <==>
      && t <= s <= fuel && NodeAfter(m, start, s) == Some(target)
      && forall u :: 0 <= u < s ==> Passed(m, start, target, u)
    decreases fuel - t
  {
    if Passed(m, start, target, t) && t < fuel {
      WalkArrivesFirst(m, start, target, t + 1, fuel, s);
    } else if s > t && NodeAfter(m, start, s) == Some(target) && forall u :: 0 <= u < s ==> Passed(m, start, target, u) {
      assert Passed(m, start, target, t);
    }
  }

  /** `part_one` returns `s` exactly when the target is first reached after `s` moves, for any fuel of at least `s`. */
  lemma WalkArrivesIff(m: Map, start: string, target: string, fuel: nat, s: nat)
    ensures WalkOf(m, start, target, fuel) == Arrived(s) <==>
      && s <= fuel && NodeAfter(m, start, s) == Some(target)
      && forall u :: 0 <= u < s ==> Passed(m, start, target, u)
  {
    WalkArrivesFirst(m, start, target, 0, fuel, s);
  }

  /** Once a move has failed, every later position is missing too. */
  lemma {:induction false} NodeAfterStaysMissing(m: Map, start: string, t: nat, u: nat)
    requires t <= u && NodeAfter(m, start, t).None?
    ensures NodeAfter(m, start, u).None?
    decreases u - t
  {
    if t < u {
      NodeAfterStaysMissing(m, start, t + 1, u);
    }
  }

  /** The move after `u` moves cannot be made: there is no instruction, or the node is missing from the network. */
  predicate FailedMove(m: Map, start: string, u: nat)
  {
    PositionAfter(m, start, u).Some? &&
      (PositionAfter(m, start, u).value.index >= |m.instruction| || PositionAfter(m, start, u).value.node !in m.network)
  }

  /** A failed move is an empty instruction or a node missing from the network, reached before the target. */
  lemma {:induction false} MissingMeansFailedMove(m: Map, start: string, t: nat)
    requires NodeAfter(m, start, t).None?
    ensures t > 0
    ensures exists u :: 0 <= u < t && FailedMove(m, start, u)
  {
    if NodeAfter(m, start, t - 1).None? {
      MissingMeansFailedMove(m, start, t - 1);
    } else {
      assert FailedMove(m, start, t - 1);
    }
  }

  /** A walk that raises has made a failed move within the fuel. */
  lemma {:induction false} WalkFailsAt(m: Map, start: string, target: string, t: nat, fuel: nat)
    requires t <= fuel && WalkFrom(m, start, target, t, fuel) == Fails
    ensures exists u :: 0 <= u < fuel && FailedMove(m, start, u)
    decreases fuel - t
  {
    if NodeAfter(m, start, t).None? {
      MissingMeansFailedMove(m, start, t);
      var u :| 0 <= u < t && FailedMove(m, start, u);
    } else {
      WalkFailsAt(m, start, target, t + 1, fuel);
    }
  }

  /** An empty instruction raises on the first move, unless the start is the target. */
  lemma EmptyInstructionRaises(m: Map, start: string, target: string, fuel: nat)
    requires |m.instruction| == 0 && start != target
    ensures WalkOf(m, start, target, fuel) == (if fuel == 0 then OutOfFuel else Fails)
  {
    if fuel > 0 {
      assert NodeAfter(m, start, 1) == None;
      assert WalkFrom(m, start, target, 1, fuel) == Fails;
    }
  }

  /** `part_one`, given at most `fuel` moves: the loop moves left on `L`, right otherwise, counts one step per move and cycles the index. */
  method PartOne(inputMap: Map, startingNode: string, targetNode: string, fuel: nat) returns (r: Walk)
    ensures r == WalkOf(inputMap, startingNode, targetNode, fuel)
  {
    var currentNode := startingNode;
    var instructionIdx: nat := 0;
    var stepsCount := 0;
    while currentNode != targetNode
      invariant stepsCount <= fuel
      invariant PositionAfter(inputMap, startingNode, stepsCount) == Some(Position(currentNode, instructionIdx))
      invariant WalkFrom(inputMap, startingNode, targetNode, stepsCount, fuel) == WalkOf(inputMap, startingNode, targetNode, fuel)
      decreases fuel - stepsCount
    {
      if stepsCount == fuel {
        return OutOfFuel;
      }
      if instructionIdx >= |inputMap.instruction| || currentNode !in inputMap.network {
        return Fails;
      }
      currentNode := if inputMap.instruction[instructionIdx] == 'L'
        then inputMap.network[currentNode].0
        else inputMap.network[currentNode].1;
      stepsCount := stepsCount + 1;
      instructionIdx := (instructionIdx + 1) % |inputMap.instruction|;
    }
    r := Arrived(stepsCount);
  }
}
