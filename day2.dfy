/**
  Day 2 (Cube Conundrum): games of cube draws, the games possible with 12
  red, 13 green and 14 blue cubes (`part_one`) and the power of the fewest
  cubes each game needs (`part_two`).
 */
module Day2CubeConundrum {
  import opened Common

  /** One set of cubes shown from the bag. */
  datatype Cubes = Cubes(red: nat, green: nat, blue: nat)

  /** A game; `part_one` clears `isValid` in place. */
  class Game {
    const id: nat
    const cubesSets: seq<Cubes>
    var isValid: bool

    constructor (id: nat, cubesSets: seq<Cubes>)
      ensures this.id == id && this.cubesSets == cubesSets && isValid
    {
      this.id := id;
      this.cubesSets := cubesSets;
      isValid := true;
    }
  }

  const MaxCubesRed := 12
  const MaxCubesGreen := 13
  const MaxCubesBlue := 14

  // ----- parse_game -----

  /**
    `input_line[7 + len(id):]`: the line after `Game <id>: `, the regular
    expression having found the digits `idText`. Slicing past the end gives
    the empty string.
   */
  function Trimmed(line: string, idText: string): string
  {
    var prefixLen := 7 + |idText|;
    if prefixLen <= |line| then line[prefixLen..] else ""
  }

  /** On a line of the puzzle's form the slice removes exactly `Game <id>: `. */
  lemma TrimmedRemovesHeader(idText: string, rest: string)
    ensures Trimmed("Game " + idText + ": " + rest, idText) == rest
  {
    var line := "Game " + idText + ": " + rest;
    assert line[7 + |idText|..] == rest;
  }

  /** `{color: count for count, color in cubes}`: a colour named twice keeps its last count. */
  function ColourMap(pairs: seq<(nat, string)>): map<string, nat>
  {
    if pairs == [] then map[]
    else ColourMap(pairs[..|pairs| - 1])[pairs[|pairs| - 1].1 := pairs[|pairs| - 1].0]
  }

  /** A colour is in the map exactly when some pair names it. */
  lemma {:induction false} ColourMapKeys(pairs: seq<(nat, string)>, colour: string)
    ensures colour in ColourMap(pairs) <==> exists i :: 0 <= i < |pairs| && pairs[i].1 == colour
  {
    if pairs != [] {
      var front := pairs[..|pairs| - 1];
      ColourMapKeys(front, colour);
      if exists i :: 0 <= i < |pairs| && pairs[i].1 == colour {
        var i :| 0 <= i < |pairs| && pairs[i].1 == colour;
        if i < |front| {
          assert front[i] == pairs[i];
        }
      }
      if exists i :: 0 <= i < |front| && front[i].1 == colour {
        var i :| 0 <= i < |front| && front[i].1 == colour;
        assert pairs[i] == front[i];
      }
    }
  }

  /** A colour named twice keeps the count of its last pair. */
  lemma {:induction false} ColourMapValue(pairs: seq<(nat, string)>, colour: string, i: int)
    requires LastNaming(pairs, i, colour)
    ensures colour in ColourMap(pairs) && ColourMap(pairs)[colour] == pairs[i].0
  {
    var front := pairs[..|pairs| - 1];
    if i < |front| {
      assert front[i] == pairs[i];
      assert LastNaming(front, i, colour);
      ColourMapValue(front, colour, i);
    }
  }

  /** Pair `i` is the last one naming `colour`. */
  predicate LastNaming(pairs: seq<(nat, string)>, i: int, colour: string)
  {
    0 <= i < |pairs| && pairs[i].1 == colour && forall j :: i < j < |pairs| ==> pairs[j].1 != colour
  }

  /** `cubes_map.get(colour, "0")` read as a number. */
  function CountOf(m: map<string, nat>, colour: string): nat
  {
    if colour in m then m[colour] else 0
  }

  /** The `Cubes` of one set from its (count, colour) pairs; a colour not named counts 0, other colours are ignored. */
  function SetCubes(pairs: seq<(nat, string)>): Cubes
  {
    var m := ColourMap(pairs);
    Cubes(CountOf(m, "red"), CountOf(m, "green"), CountOf(m, "blue"))
  }

  /** A colour no pair names counts 0; otherwise it counts what its last pair says. */
  lemma CountOfColour(pairs: seq<(nat, string)>, colour: string)
    ensures (forall i :: 0 <= i < |pairs| ==> pairs[i].1 != colour) ==> CountOf(ColourMap(pairs), colour) == 0
    ensures forall i :: LastNaming(pairs, i, colour) ==> CountOf(ColourMap(pairs), colour) == pairs[i].0
  {
    ColourMapKeys(pairs, colour);
    forall i | LastNaming(pairs, i, colour) ensures CountOf(ColourMap(pairs), colour) == pairs[i].0 {
      ColourMapValue(pairs, colour, i);
    }
  }

  /**
    Each of red, green and blue counts what the last pair naming it says, and 0
    when no pair names it.
   */
  lemma SetCubesDefaults(pairs: seq<(nat, string)>)
    ensures (forall i :: 0 <= i < |pairs| ==> pairs[i].1 != "red") ==> SetCubes(pairs).red == 0
    ensures (forall i :: 0 <= i < |pairs| ==> pairs[i].1 != "green") ==> SetCubes(pairs).green == 0
    ensures (forall i :: 0 <= i < |pairs| ==> pairs[i].1 != "blue") ==> SetCubes(pairs).blue == 0
    ensures forall i :: LastNaming(pairs, i, "red") ==> SetCubes(pairs).red == pairs[i].0
    ensures forall i :: LastNaming(pairs, i, "green") ==> SetCubes(pairs).green == pairs[i].0
    ensures forall i :: LastNaming(pairs, i, "blue") ==> SetCubes(pairs).blue == pairs[i].0
  {
    CountOfColour(pairs, "red");
    CountOfColour(pairs, "green");
    CountOfColour(pairs, "blue");
  }

  /** A pair naming any other colour changes nothing. */
  lemma SetCubesIgnores(pairs: seq<(nat, string)>, count: nat, colour: string)
    requires colour != "red" && colour != "green" && colour != "blue"
    ensures SetCubes(pairs + [(count, colour)]) == SetCubes(pairs)
  {
    var more := pairs + [(count, colour)];
    assert more[..|more| - 1] == pairs;
  }

  /**
    `parse_game` after the regular expressions: the game id, and for each set
    the (count, colour) pairs found in it, in order.
   */
  method ParseGame(id: nat, sets: seq<seq<(nat, string)>>) returns (game: Game)
    ensures fresh(game) && game.isValid
    ensures game.id == id && |game.cubesSets| == |sets|
    ensures forall i :: 0 <= i < |sets| ==> game.cubesSets[i] == SetCubes(sets[i])
  {
    var cubesParsed: seq<Cubes> := [];
    for i := 0 to |sets|
      invariant |cubesParsed| == i
      invariant forall k :: 0 <= k < i ==> cubesParsed[k] == SetCubes(sets[k])
    {
      var m := ColourMap(sets[i]);
      cubesParsed := cubesParsed + [Cubes(CountOf(m, "red"), CountOf(m, "green"), CountOf(m, "blue"))];
    }
    game := new Game(id, cubesParsed);
  }

  // ----- part_one -----

  /** The set shows more cubes of some colour than the bag holds. */
  predicate Exceeds(c: Cubes)
  {
    c.red > MaxCubesRed || c.green > MaxCubesGreen || c.blue > MaxCubesBlue
  }

  /** `any(...)` over the sets of a game. */
  predicate AnyExceeds(sets: seq<Cubes>)
  {
    sets != [] && (Exceeds(sets[0]) || AnyExceeds(sets[1..]))
  }

  /** A game is impossible exactly when one of its sets shows too many red, green or blue cubes. */
  lemma {:induction false} AnyExceedsIff(sets: seq<Cubes>)
    ensures AnyExceeds(sets) <==>
      exists i :: 0 <= i < |sets| && (sets[i].red > 12 || sets[i].green > 13 || sets[i].blue > 14)
  {
    if sets != [] {
      AnyExceedsIff(sets[1..]);
      assert forall i :: 1 <= i < |sets| ==> sets[i] == sets[1..][i - 1];
      if AnyExceeds(sets[1..]) {
        var i :| 0 <= i < |sets| - 1 && (sets[1..][i].red > 12 || sets[1..][i].green > 13 || sets[1..][i].blue > 14);
        assert sets[i + 1] == sets[1..][i];
      }
    }
  }

  /** `[game.id for game in games if game.is_valid]`. */
  function ValidIds(games: seq<Game>): seq<int>
    reads set g | g in games
  {
    if games == [] then []
    else
      var front := ValidIds(games[..|games| - 1]);
      if games[|games| - 1].isValid then front + [games[|games| - 1].id] else front
  }

  /** The ids of the games, in order, whose sets are all possible. */
  function PossibleIds(games: seq<Game>): seq<int>
  {
    if games == [] then []
    else
      var front := PossibleIds(games[..|games| - 1]);
      if !AnyExceeds(games[|games| - 1].cubesSets) then front + [games[|games| - 1].id] else front
  }

  /**
    `part_one`: marks every game with an impossible set invalid, leaving the
    flag of every other game as it was, then sums the ids of the valid games.
   */
  method PartOne(games: seq<Game>) returns (total: int)
    modifies set g | g in games
    ensures forall g :: g in games ==> g.isValid == (old(g.isValid) && !AnyExceeds(g.cubesSets))
    ensures total == Sum(ValidIds(games))
  {
    for i := 0 to |games|
      invariant forall g :: g in games ==>
        g.isValid == (old(g.isValid) && !(g in games[..i] && AnyExceeds(g.cubesSets)))
    {
      var game := games[i];
      if AnyExceeds(game.cubesSets) {
        game.isValid := false;
      }
      assert forall g :: g in games[..i + 1] <==> g in games[..i] || g == game;
    }
    assert games[..|games|] == games;
    total := Sum(ValidIds(games));
  }

  /** When every game starts valid, as parsed games do, the valid ids afterwards are exactly the possible games' ids. */
  lemma {:induction false} ValidIdsArePossible(games: seq<Game>)
    requires forall g :: g in games ==> g.isValid == !AnyExceeds(g.cubesSets)
    ensures ValidIds(games) == PossibleIds(games)
  {
    if games != [] {
      var front := games[..|games| - 1];
      assert forall g :: g in front ==> g in games;
      ValidIdsArePossible(front);
      assert games[|games| - 1] in games;
    }
  }

  /** A game is counted by part one once per listing, exactly when none of its sets exceeds the bag. */
  lemma {:induction false} PossibleIdsAppend(games: seq<Game>, g: Game)
    ensures Sum(PossibleIds(games + [g])) == Sum(PossibleIds(games)) + if AnyExceeds(g.cubesSets) then 0 else g.id
  {
    assert (games + [g])[..|games|] == games;
    if !AnyExceeds(g.cubesSets) {
      SumSnoc(PossibleIds(games), g.id);
    }
  }

  // ----- part_two -----

  /** `max(values)`; the maximum of an empty list raises. */
  function Max(values: seq<nat>): Option<nat>
  {
    if values == [] then None
    else
      match Max(values[..|values| - 1])
      case None => Some(values[|values| - 1])
      case Some(m) => Some(if values[|values| - 1] > m then values[|values| - 1] else m)
  }

  /** The maximum is one of the values and no value exceeds it. */
  lemma {:induction false} MaxIsMax(values: seq<nat>)
    ensures Max(values).None? <==> values == []
    ensures Max(values).Some? ==>
      Max(values).value in values && forall i :: 0 <= i < |values| ==> values[i] <= Max(values).value
  {
    if values != [] {
      var front := values[..|values| - 1];
      MaxIsMax(front);
      assert forall i :: 0 <= i < |front| ==> front[i] == values[i];
      if front != [] {
        assert Max(front).value in values;
      }
    }
  }

  function Reds(sets: seq<Cubes>): (r: seq<nat>)
    ensures |r| == |sets| && forall i :: 0 <= i < |sets| ==> r[i] == sets[i].red
  {
    seq(|sets|, i requires 0 <= i < |sets| => sets[i].red)
  }

  function Greens(sets: seq<Cubes>): (r: seq<nat>)
    ensures |r| == |sets| && forall i :: 0 <= i < |sets| ==> r[i] == sets[i].green
  {
    seq(|sets|, i requires 0 <= i < |sets| => sets[i].green)
  }

  function Blues(sets: seq<Cubes>): (r: seq<nat>)
    ensures |r| == |sets| && forall i :: 0 <= i < |sets| ==> r[i] == sets[i].blue
  {
    seq(|sets|, i requires 0 <= i < |sets| => sets[i].blue)
  }

  /** The fewest cubes of each colour the game could have been played with; a game without sets raises. */
  function FewestCubes(sets: seq<Cubes>): Option<Cubes>
  {
    match (Max(Reds(sets)), Max(Greens(sets)), Max(Blues(sets)))
    case (Some(r), Some(g), Some(b)) => Some(Cubes(r, g, b))
    case _ => None
  }

  /** The least bag: every set fits in it, and no colour could have fewer cubes. */
  lemma FewestCubesFit(sets: seq<Cubes>)
    ensures FewestCubes(sets).None? <==> sets == []
    ensures FewestCubes(sets).Some? ==>
      var bag := FewestCubes(sets).value;
      (forall i :: 0 <= i < |sets| ==> sets[i].red <= bag.red && sets[i].green <= bag.green && sets[i].blue <= bag.blue) &&
      (exists i :: 0 <= i < |sets| && sets[i].red == bag.red) &&
      (exists i :: 0 <= i < |sets| && sets[i].green == bag.green) &&
      (exists i :: 0 <= i < |sets| && sets[i].blue == bag.blue)
  {
    MaxIsMax(Reds(sets));
    MaxIsMax(Greens(sets));
    MaxIsMax(Blues(sets));
    if sets != [] {
      var bag := FewestCubes(sets).value;
      var i :| 0 <= i < |sets| && Reds(sets)[i] == bag.red;
      var j :| 0 <= j < |sets| && Greens(sets)[j] == bag.green;
      var k :| 0 <= k < |sets| && Blues(sets)[k] == bag.blue;
    }
  }

  /** The power of the fewest cubes of one game. */
  function Power(sets: seq<Cubes>): Outcome
  {
    match FewestCubes(sets)
    case None => Raises
    case Some(bag) => Returns(bag.red * bag.green * bag.blue)
  }

  /** The sum of the games' powers; a game without sets raises. */
  function PowerSum(games: seq<Game>): Outcome
  {
    if games == [] then Returns(0)
    else
      match (PowerSum(games[..|games| - 1]), Power(games[|games| - 1].cubesSets))
      case (Returns(s), Returns(p)) => Returns(s + p)
      case _ => Raises
  }

  /** The sum raises exactly when some game has no sets. */
  lemma {:induction false} PowerSumRaisesIff(games: seq<Game>)
    ensures PowerSum(games).Raises? <==> exists i :: 0 <= i < |games| && games[i].cubesSets == []
  {
    if games != [] {
      var front := games[..|games| - 1];
      PowerSumRaisesIff(front);
      FewestCubesFit(games[|games| - 1].cubesSets);
      assert forall i :: 0 <= i < |front| ==> front[i] == games[i];
    }
  }

  /** `part_two`: accumulates `max_red * max_green * max_blue` game by game. */
  method PartTwo(games: seq<Game>) returns (r: Outcome)
    ensures r == PowerSum(games)
  {
    var sumOfMaxes := 0;
    for i := 0 to |games|
      invariant PowerSum(games[..i]) == Returns(sumOfMaxes)
    {
      assert games[..i + 1][..i] == games[..i];
      var sets := games[i].cubesSets;
      var maxRed := Max(Reds(sets));
      var maxGreen := Max(Greens(sets));
      var maxBlue := Max(Blues(sets));
      if maxRed.None? || maxGreen.None? || maxBlue.None? {
        PowerSumPrefixRaises(games, i + 1);
        return Raises;
      }
      sumOfMaxes := sumOfMaxes + maxRed.value * maxGreen.value * maxBlue.value;
    }
    assert games[..|games|] == games;
    r := Returns(sumOfMaxes);
  }

  /** Once a prefix raises, the whole list raises. */
  lemma {:induction false} PowerSumPrefixRaises(games: seq<Game>, k: nat)
    requires k <= |games| && PowerSum(games[..k]).Raises?
    ensures PowerSum(games).Raises?
    decreases |games| - k
  {
    if k < |games| {
      assert games[..k + 1][..k] == games[..k];
      PowerSumPrefixRaises(games, k + 1);
    } else {
      assert games[..k] == games;
    }
  }
}
