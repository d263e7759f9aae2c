/**
  Day 5 (If You Give A Seed A Fertilizer): a seed number is pushed through
  seven translation tables (seed to soil, ..., humidity to location), each a
  list of intervals whose first match shifts the value; the answer is the
  lowest location. The text of the almanac arrives already tokenised: the seed
  numbers, and per named section its lines as integer tokens.
 */
module Day5Almanac {
  import opened Common

  /** `[source, source + step)` is shifted onto `[target, target + step)`. */
  datatype Interval = Interval(source: int, target: int, step: int)

  /** A translation from one category to the next (the regex the script keeps beside it is not modelled). */
  datatype ConversionRule = ConversionRule(convertFrom: string, convertTo: string)

  datatype Conversion = Conversion(rule: ConversionRule, intervals: seq<Interval>)

  datatype Almanac = Almanac(seeds: seq<int>, conversions: seq<Conversion>)

  /** The eight categories, in the order the tables chain them. */
  const Parameters: seq<string> :=
    ["seed", "soil", "fertilizer", "water", "light", "temperature", "humidity", "location"]

  /** The number of tables in the chain. */
  const Layers: nat := 7

  /** `zip(PARAMETERS[:-1], PARAMETERS[1:])`: each category paired with its successor. */
  function Rules(): (rules: seq<ConversionRule>)
    ensures |rules| == Layers
    ensures forall p :: 0 <= p < Layers ==> rules[p] == ConversionRule(Parameters[p], Parameters[p + 1])
  {
    seq(Layers, p requires 0 <= p < Layers => ConversionRule(Parameters[p], Parameters[p + 1]))
  }

  /** The rules form one chain from `seed` to `location`: each starts where the one before ends. */
  lemma RulesChain()
    ensures Rules()[0].convertFrom == "seed"
    ensures Rules()[Layers - 1].convertTo == "location"
    ensures forall p :: 0 < p < Layers ==> Rules()[p].convertFrom == Rules()[p - 1].convertTo
    ensures forall p, q :: 0 <= p < q < Layers ==> Rules()[p].convertFrom != Rules()[q].convertFrom
  {
  }

  /** The name of the almanac section holding a rule's table (`"seed_to_soil"`). */
  function SectionName(rule: ConversionRule): string
  {
    rule.convertFrom + "_to_" + rule.convertTo
  }

  /** The key of the lookup table `part_one` builds (`"seed_soil"`). */
  function Key(rule: ConversionRule): string
  {
    rule.convertFrom + "_" + rule.convertTo
  }

  /**
    `parse_intervals` after tokenisation: each line `a b c` becomes
    `Interval(source = b, target = a, step = c)`; a line with fewer than three
    numbers makes the indexing raise.
   */
  function ParseIntervals(lines: seq<seq<int>>): (r: Option<seq<Interval>>)
    ensures r.Some? <==> forall i :: 0 <= i < |lines| ==> |lines[i]| >= 3
    ensures r.Some? ==> (|r.value| == |lines| &&
      forall i :: 0 <= i < |lines| ==> r.value[i] == Interval(lines[i][1], lines[i][0], lines[i][2]))
  {
    if lines == [] then Some([])
    else
      var line := lines[|lines| - 1];
      match ParseIntervals(lines[..|lines| - 1])
      case None => None
      case Some(front) =>
        if |line| < 3 then None else Some(front + [Interval(line[1], line[0], line[2])])
  }

  /**
    `parse_almanac` after tokenisation: one conversion per rule, in rule order,
    each from the section named after it; a missing section or a short line raises.
   */
  function ParseAlmanac(seeds: seq<int>, sections: map<string, seq<seq<int>>>): Option<Almanac>
  {
    var rules := Rules();
    if forall p :: 0 <= p < Layers ==>
         SectionName(rules[p]) in sections && ParseIntervals(sections[SectionName(rules[p])]).Some?
    then
      Some(Almanac(seeds, seq(Layers, p requires 0 <= p < Layers =>
        Conversion(rules[p], ParseIntervals(sections[SectionName(rules[p])]).value))))
    else None
  }

  /** A parsed almanac has exactly the seven conversions, in chain order, with the parsed tables. */
  lemma ParsedAlmanacShape(seeds: seq<int>, sections: map<string, seq<seq<int>>>)
    ensures ParseAlmanac(seeds, sections).Some? <==>
      forall p :: 0 <= p < Layers ==>
        SectionName(Rules()[p]) in sections && ParseIntervals(sections[SectionName(Rules()[p])]).Some?
    ensures ParseAlmanac(seeds, sections).Some? ==>
      var a := ParseAlmanac(seeds, sections).value;
      a.seeds == seeds && |a.conversions| == Layers &&
      forall p :: 0 <= p < Layers ==>
        a.conversions[p].rule == ConversionRule(Parameters[p], Parameters[p + 1]) &&
        Some(a.conversions[p].intervals) == ParseIntervals(sections[SectionName(Rules()[p])])
  {
  }

  predicate Covers(iv: Interval, v: int)
  {
    iv.source <= v < iv.source + iv.step
  }

  /** The first interval covering `v` shifts it by `target - source`; no cover leaves it unchanged. */
  function MapValue(intervals: seq<Interval>, v: int): int
  {
    if intervals == [] then v
    else if Covers(intervals[0], v) then v + intervals[0].target - intervals[0].source
    else MapValue(intervals[1..], v)
  }

  /** `j` is the first interval covering `v`. */
  predicate FirstCover(intervals: seq<Interval>, j: int, v: int)
  {
    0 <= j < |intervals| && Covers(intervals[j], v) &&
    forall i :: 0 <= i < j ==> !Covers(intervals[i], v)
  }

  /** Within a table, the first covering interval decides the value. */
  lemma {:induction false} MapValueFirstCover(intervals: seq<Interval>, j: int, v: int)
    requires FirstCover(intervals, j, v)
    ensures MapValue(intervals, v) == v + intervals[j].target - intervals[j].source
  {
    if j > 0 {
      assert !Covers(intervals[0], v);
      assert FirstCover(intervals[1..], j - 1, v) by {
        forall i | 0 <= i < j - 1 ensures !Covers(intervals[1..][i], v) {
          assert intervals[1..][i] == intervals[i + 1];
        }
      }
      MapValueFirstCover(intervals[1..], j - 1, v);
    }
  }

  /** A value no interval covers passes through the table unchanged. */
  lemma {:induction false} MapValueUncovered(intervals: seq<Interval>, v: int)
    requires forall i :: 0 <= i < |intervals| ==> !Covers(intervals[i], v)
    ensures MapValue(intervals, v) == v
  {
    if intervals != [] {
      assert !Covers(intervals[0], v);
      MapValueUncovered(intervals[1..], v);
    }
  }

  /** Every value is either covered first by some interval or by none; there is no third case. */
  lemma {:induction false} MapValueCases(intervals: seq<Interval>, v: int)
    ensures (exists j :: FirstCover(intervals, j, v)) || (forall i :: 0 <= i < |intervals| ==> !Covers(intervals[i], v))
  {
    if intervals != [] && !Covers(intervals[0], v) {
      MapValueCases(intervals[1..], v);
      if j :| FirstCover(intervals[1..], j, v) {
        assert FirstCover(intervals, j + 1, v) by {
          forall i | 0 <= i < j + 1 ensures !Covers(intervals[i], v) {
            if i > 0 {
              assert intervals[i] == intervals[1..][i - 1];
            }
          }
        }
      } else {
        forall i | 0 <= i < |intervals| ensures !Covers(intervals[i], v) {
          if i > 0 {
            assert intervals[i] == intervals[1..][i - 1];
          }
        }
      }
    } else if intervals != [] {
      assert FirstCover(intervals, 0, v);
    }
  }

  /** Intervals after the first cover are never consulted: replacing them changes nothing. */
  lemma LaterIntervalsIgnored(intervals: seq<Interval>, j: int, v: int, rest: seq<Interval>)
    requires FirstCover(intervals, j, v)
    ensures MapValue(intervals[..j + 1] + rest, v) == MapValue(intervals, v)
  {
    var changed := intervals[..j + 1] + rest;
    assert FirstCover(changed, j, v) by {
      forall i | 0 <= i <= j ensures changed[i] == intervals[i] {
      }
    }
    MapValueFirstCover(changed, j, v);
    MapValueFirstCover(intervals, j, v);
  }

  /** Values that one interval covers first keep their strict order: the shift is a translation. */
  lemma TranslationKeepsOrder(intervals: seq<Interval>, j: int, u: int, v: int)
    requires FirstCover(intervals, j, u) && FirstCover(intervals, j, v) && u < v
    ensures MapValue(intervals, u) < MapValue(intervals, v)
    ensures MapValue(intervals, v) - MapValue(intervals, u) == v - u
  {
    MapValueFirstCover(intervals, j, u);
    MapValueFirstCover(intervals, j, v);
  }

  /**
    The dictionary `part_one` builds from the conversions, keyed by
    `"<from>_<to>"`; a later conversion with the same key replaces an earlier one.
   */
  function ByKey(conversions: seq<Conversion>): (table: map<string, seq<Interval>>)
    ensures forall key :: key in table <==> exists c :: c in conversions && Key(c.rule) == key
  {
    if conversions == [] then map[]
    else
      var last := conversions[|conversions| - 1];
      var front := conversions[..|conversions| - 1];
      assert forall c :: c in conversions <==> c in front || c == last;
      ByKey(front)[Key(last.rule) := last.intervals]
  }

  /** The table found under a key is that of the last conversion carrying it. */
  lemma {:induction false} ByKeyLastWins(conversions: seq<Conversion>, j: int)
    requires 0 <= j < |conversions|
    requires forall i :: j < i < |conversions| ==> Key(conversions[i].rule) != Key(conversions[j].rule)
    ensures ByKey(conversions)[Key(conversions[j].rule)] == conversions[j].intervals
  {
    if j < |conversions| - 1 {
      var front := conversions[..|conversions| - 1];
      ByKeyLastWins(front, j);
    }
  }

  /** The lookup key of the `p`-th pair of categories. */
  function LayerKey(p: nat): string
    requires p < Layers
  {
    Parameters[p] + "_" + Parameters[p + 1]
  }

  /**
    What is left of the chain from layer `p` on: each layer looks its table up
    (a missing key raises `KeyError`) and maps the value through it.
   */
  function Pipeline(table: map<string, seq<Interval>>, v: int, p: nat): Outcome
    requires p <= Layers
    decreases Layers - p
  {
    if p == Layers then Returns(v)
    else if LayerKey(p) !in table then Raises
    else Pipeline(table, MapValue(table[LayerKey(p)], v), p + 1)
  }

  /** The chain fails exactly when a layer's key is missing, whatever the value. */
  lemma {:induction false} PipelineRaisesIff(table: map<string, seq<Interval>>, v: int, p: nat)
    requires p <= Layers
    ensures Pipeline(table, v, p).Raises? <==> exists q :: p <= q < Layers && LayerKey(q) !in table
    decreases Layers - p
  {
    if p < Layers && LayerKey(p) in table {
      PipelineRaisesIff(table, MapValue(table[LayerKey(p)], v), p + 1);
      assert forall q :: p <= q < Layers && LayerKey(q) !in table ==> p + 1 <= q;
    }
  }

  /** A value that no interval of any remaining layer covers comes out of the chain unchanged. */
  lemma {:induction false} PipelineUncovered(table: map<string, seq<Interval>>, v: int, p: nat)
    requires p <= Layers
    requires forall q :: p <= q < Layers ==> LayerKey(q) in table
    requires forall q, i :: p <= q < Layers && 0 <= i < |table[LayerKey(q)]| ==> !Covers(table[LayerKey(q)][i], v)
    ensures Pipeline(table, v, p) == Returns(v)
    decreases Layers - p
  {
    if p < Layers {
      MapValueUncovered(table[LayerKey(p)], v);
      PipelineUncovered(table, v, p + 1);
    }
  }

  /** The location of every seed, in order, or `None` once a lookup fails. */
  function Locations(table: map<string, seq<Interval>>, seeds: seq<int>): (r: Option<seq<int>>)
    ensures r.Some? ==> |r.value| == |seeds|
  {
    if seeds == [] then Some([])
    else
      match Locations(table, seeds[..|seeds| - 1])
      case None => None
      case Some(front) =>
        match Pipeline(table, seeds[|seeds| - 1], 0)
        case Raises => None
        case Returns(v) => Some(front + [v])
  }

  /** Every entry of the location list is the chain applied to the seed at the same place. */
  lemma {:induction false} LocationsAt(table: map<string, seq<Interval>>, seeds: seq<int>)
    requires Locations(table, seeds).Some?
    ensures forall i :: 0 <= i < |seeds| ==> Pipeline(table, seeds[i], 0) == Returns(Locations(table, seeds).value[i])
  {
    if seeds != [] {
      var front := seeds[..|seeds| - 1];
      LocationsAt(table, front);
      assert forall i :: 0 <= i < |front| ==> front[i] == seeds[i];
    }
  }

  /** `min(xs)` of a non-empty list. */
  function Min(xs: seq<int>): (m: int)
    requires xs != []
    ensures m in xs && forall x :: x in xs ==> m <= x
  {
    if |xs| == 1 then xs[0]
    else
      var rest := Min(xs[1..]);
      assert forall x :: x in xs ==> x == xs[0] || x in xs[1..];
      if xs[0] <= rest then xs[0] else rest
  }

  /** The answer of `part_one`: the lowest location; `min` of nothing and a missing key both raise. */
  function LowestLocation(almanac: Almanac): Outcome
  {
    if almanac.seeds == [] then Raises
    else
      match Locations(ByKey(almanac.conversions), almanac.seeds)
      case None => Raises
      case Some(ls) => Returns(Min(ls))
  }

  /** The lowest location is reached by some seed and no seed reaches a lower one. */
  lemma LowestLocationIsMinimum(almanac: Almanac, m: int)
    requires LowestLocation(almanac) == Returns(m)
    ensures exists i :: 0 <= i < |almanac.seeds| && Pipeline(ByKey(almanac.conversions), almanac.seeds[i], 0) == Returns(m)
    ensures forall i, v :: 0 <= i < |almanac.seeds| && Pipeline(ByKey(almanac.conversions), almanac.seeds[i], 0) == Returns(v) ==> m <= v
  {
    var table := ByKey(almanac.conversions);
    var ls := Locations(table, almanac.seeds).value;
    LocationsAt(table, almanac.seeds);
    var i :| 0 <= i < |ls| && ls[i] == m;
    assert Pipeline(table, almanac.seeds[i], 0) == Returns(m);
    forall i, v | 0 <= i < |almanac.seeds| && Pipeline(table, almanac.seeds[i], 0) == Returns(v) ensures m <= v {
      assert ls[i] in ls;
    }
  }

  /** On a parsed almanac every layer is present, and the chain applies the seven parsed tables in order. */
  lemma ParsedChainComplete(seeds: seq<int>, sections: map<string, seq<seq<int>>>)
    requires ParseAlmanac(seeds, sections).Some?
    ensures forall p :: 0 <= p < Layers ==> LayerKey(p) in ByKey(ParseAlmanac(seeds, sections).value.conversions)
    ensures forall p :: 0 <= p < Layers ==>
      Some(ByKey(ParseAlmanac(seeds, sections).value.conversions)[LayerKey(p)]) == ParseIntervals(sections[SectionName(Rules()[p])])
  {
    var a := ParseAlmanac(seeds, sections).value;
    ParsedAlmanacShape(seeds, sections);
    KeysDistinct();
    var cs := a.conversions;
    assert forall i :: 0 <= i < Layers ==> Key(cs[i].rule) == LayerKey(i);
    forall p | 0 <= p < Layers
      ensures LayerKey(p) in ByKey(cs)
      ensures Some(ByKey(cs)[LayerKey(p)]) == ParseIntervals(sections[SectionName(Rules()[p])])
    {
      ByKeyLastWins(cs, p);
    }
  }

  /** The seven lookup keys are pairwise different: their first two letters already differ. */
  lemma KeysDistinct()
    ensures forall p, q :: 0 <= p < q < Layers ==> LayerKey(p) != LayerKey(q)
  {
    assert LayerKey(0)[..2] == "se";
    assert LayerKey(1)[..2] == "so";
    assert LayerKey(2)[..2] == "fe";
    assert LayerKey(3)[..2] == "wa";
    assert LayerKey(4)[..2] == "li";
    assert LayerKey(5)[..2] == "te";
    assert LayerKey(6)[..2] == "hu";
    forall p, q | 0 <= p < q < Layers ensures LayerKey(p) != LayerKey(q) {
      assert p == 0 || p == 1 || p == 2 || p == 3 || p == 4 || p == 5;
      assert q == 1 || q == 2 || q == 3 || q == 4 || q == 5 || q == 6;
      assert LayerKey(p)[..2] != LayerKey(q)[..2];
    }
  }

  /** The `break`ing scan over one table: the value leaves it as `MapValue` says. */
  method ApplyConversion(intervals: seq<Interval>, v: int) returns (w: int)
    ensures w == MapValue(intervals, v)
  {
    w := v;
    for j := 0 to |intervals|
      invariant w == v && MapValue(intervals, v) == MapValue(intervals[j..], v)
    {
      assert intervals[j..][1..] == intervals[j + 1..];
      var interval := intervals[j];
      if interval.source <= w < interval.source + interval.step {
        w := w + (interval.target - interval.source);
        break;
      }
    }
  }

  /** The inner loop of `part_one` for one seed: look each layer up and map the value through it. */
  method Locate(table: map<string, seq<Interval>>, seed: int) returns (r: Outcome)
    ensures r == Pipeline(table, seed, 0)
  {
    var current := seed;
    for p := 0 to Layers
      invariant Pipeline(table, seed, 0) == Pipeline(table, current, p)
    {
      var key := Parameters[p] + "_" + Parameters[p + 1];
      if key !in table {
        return Raises;
      }
      current := ApplyConversion(table[key], current);
    }
    r := Returns(current);
  }

  /** `part_one`: every seed through the seven tables, then the lowest location. */
  method PartOne(almanac: Almanac) returns (r: Outcome)
    ensures r == LowestLocation(almanac)
  {
    var locations: seq<int> := [];
    var seeds := almanac.seeds;
    for k := 0 to |seeds|
      invariant Locations(ByKey(almanac.conversions), seeds[..k]) == Some(locations)
    {
      var table := ByKey(almanac.conversions);
      var location := Locate(table, seeds[k]);
      assert seeds[..k + 1][..k] == seeds[..k];
      if location.Raises? {
        LocationsPrefixNone(table, seeds, k + 1);
        return Raises;
      }
      locations := locations + [location.value];
    }
    assert seeds[..|seeds|] == seeds;
    if locations == [] {
      return Raises;
    }
    r := Returns(Min(locations));
  }

  /** Once the locations of a prefix of the seeds fail, those of all seeds do. */
  lemma {:induction false} LocationsPrefixNone(table: map<string, seq<Interval>>, seeds: seq<int>, k: nat)
    requires k <= |seeds| && Locations(table, seeds[..k]).None?
    ensures Locations(table, seeds).None?
    decreases |seeds| - k
  {
    if k < |seeds| {
      assert seeds[..k + 1][..k] == seeds[..k];
      LocationsPrefixNone(table, seeds, k + 1);
    } else {
      assert seeds[..k] == seeds;
    }
  }

  /**
    `seeds[0::2]` zipped with `seeds[1::2]` as half-open ranges `(start, start + length)`;
    a trailing unpaired seed is dropped.
   */
  function SeedIntervals(seeds: seq<int>): (r: seq<(int, int)>)
    ensures |r| == |seeds| / 2
    ensures forall i {:trigger r[i]} :: 0 <= i < |r| ==> r[i] == (seeds[2 * i], seeds[2 * i] + seeds[2 * i + 1])
  {
    if |seeds| < 2 then []
    else
      var rest := SeedIntervals(seeds[2..]);
      assert forall i {:trigger rest[i]} :: 0 <= i < |rest| ==> seeds[2..][2 * i] == seeds[2 * (i + 1)];
      [(seeds[0], seeds[0] + seeds[1])] + rest
  }

  /** `part_two` as written: it pairs the seeds into ranges and then answers 0. */
  function PartTwo(almanac: Almanac): (r: int)
    ensures r == 0
  {
    var seedIntervals := SeedIntervals(almanac.seeds);
    0
  }
}
