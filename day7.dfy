/**
  Day 7 (Camel Cards): hands of cards are classified by how often their cards
  repeat, ordered by type and then card by card, and paid their bid times their
  rank. In the second part jokers (`J`) stand in for the most frequent other
  card but count as the weakest card when hands of one type are compared.
 */
module Day7CamelCards {
  import opened Common

  datatype HandType = HighCard | OnePair | TwoPair | ThreeOfAKind | FullHouse | FourOfAKind | FiveOfAKind

  /** The enum value the script compares types by. */
  function Value(t: HandType): (v: nat)
    ensures v <= 6
  {
    match t
    case HighCard => 0
    case OnePair => 1
    case TwoPair => 2
    case ThreeOfAKind => 3
    case FullHouse => 4
    case FourOfAKind => 5
    case FiveOfAKind => 6
  }

  /** Different types have different values, so comparing values orders the types strictly. */
  lemma ValueInjective(s: HandType, t: HandType)
    ensures Value(s) == Value(t) <==> s == t
  {
  }

  // ----- Classification -----

  /** `cards.count(c)`. */
  function Count(cards: string, c: char): nat
  {
    if cards == [] then 0 else (if cards[0] == c then 1 else 0) + Count(cards[1..], c)
  }

  /** The count is the card's multiplicity in the hand. */
  lemma {:induction false} CountIsMultiplicity(cards: string, c: char)
    ensures Count(cards, c) == multiset(cards)[c]
  {
    if cards != [] {
      CountIsMultiplicity(cards[1..], c);
      assert cards == [cards[0]] + cards[1..];
      assert multiset(cards) == multiset([cards[0]]) + multiset(cards[1..]);
    }
  }

  /** A card occurs in the hand exactly when its count is positive. */
  lemma CountPositive(cards: string, c: char)
    ensures Count(cards, c) > 0 <==> c in cards
  {
    CountIsMultiplicity(cards, c);
    assert c in cards <==> c in multiset(cards);
  }

  /** `set(cards)`: the keys of the card occurrence map. */
  function Distinct(cards: string): set<char>
  {
    set c | c in cards
  }

  /** `cards_map.values()`, as a set. */
  function CountValues(cards: string): set<nat>
  {
    set c | c in cards :: Count(cards, c)
  }

  /** The largest count among the cards of `over`. */
  function MaxCountOver(cards: string, over: string): nat
  {
    if over == [] then 0
    else
      var rest := MaxCountOver(cards, over[1..]);
      if Count(cards, over[0]) >= rest then Count(cards, over[0]) else rest
  }

  /** The smallest count among the cards of `over`. */
  function MinCountOver(cards: string, over: string): nat
    requires over != []
  {
    if |over| == 1 then Count(cards, over[0])
    else
      var rest := MinCountOver(cards, over[1..]);
      if Count(cards, over[0]) <= rest then Count(cards, over[0]) else rest
  }

  /** `MaxCountOver` bounds every count in `over` and is one of them. */
  lemma {:induction false} MaxCountOverBounds(cards: string, over: string)
    ensures forall i :: 0 <= i < |over| ==> Count(cards, over[i]) <= MaxCountOver(cards, over)
    ensures over != [] ==> exists i :: 0 <= i < |over| && MaxCountOver(cards, over) == Count(cards, over[i])
  {
    if over != [] {
      MaxCountOverBounds(cards, over[1..]);
      assert forall i :: 1 <= i < |over| ==> over[i] == over[1..][i - 1];
      if |over| > 1 && Count(cards, over[0]) < MaxCountOver(cards, over[1..]) {
        var i :| 0 <= i < |over| - 1 && MaxCountOver(cards, over[1..]) == Count(cards, over[1..][i]);
        assert MaxCountOver(cards, over) == Count(cards, over[i + 1]);
      }
    }
  }

  /** `MinCountOver` is below every count in `over` and is one of them. */
  lemma {:induction false} MinCountOverBounds(cards: string, over: string)
    requires over != []
    ensures forall i :: 0 <= i < |over| ==> MinCountOver(cards, over) <= Count(cards, over[i])
    ensures exists i :: 0 <= i < |over| && MinCountOver(cards, over) == Count(cards, over[i])
  {
    if |over| > 1 {
      MinCountOverBounds(cards, over[1..]);
      assert forall i :: 1 <= i < |over| ==> over[i] == over[1..][i - 1];
      if Count(cards, over[0]) > MinCountOver(cards, over[1..]) {
        var i :| 0 <= i < |over| - 1 && MinCountOver(cards, over[1..]) == Count(cards, over[1..][i]);
        assert MinCountOver(cards, over) == Count(cards, over[i + 1]);
      } else {
        assert MinCountOver(cards, over) == Count(cards, over[0]);
      }
    } else {
      assert MinCountOver(cards, over) == Count(cards, over[0]);
    }
  }

  /** `max(cards_map.values())` is the largest of the count values. */
  lemma MaxCountIsMax(cards: string)
    requires cards != []
    ensures MaxCountOver(cards, cards) in CountValues(cards)
    ensures forall v :: v in CountValues(cards) ==> v <= MaxCountOver(cards, cards)
  {
    var m := MaxCountOver(cards, cards);
    MaxCountOverBounds(cards, cards);
    var i :| 0 <= i < |cards| && m == Count(cards, cards[i]);
    assert cards[i] in cards;
    forall v | v in CountValues(cards) ensures v <= m {
      var c :| c in cards && v == Count(cards, c);
      var j :| 0 <= j < |cards| && cards[j] == c;
    }
  }

  /** `min(cards_map.values())` is the smallest of the count values. */
  lemma MinCountIsMin(cards: string)
    requires cards != []
    ensures MinCountOver(cards, cards) in CountValues(cards)
    ensures forall v :: v in CountValues(cards) ==> MinCountOver(cards, cards) <= v
  {
    var m := MinCountOver(cards, cards);
    MinCountOverBounds(cards, cards);
    var i :| 0 <= i < |cards| && m == Count(cards, cards[i]);
    assert cards[i] in cards;
    forall v | v in CountValues(cards) ensures m <= v {
      var c :| c in cards && v == Count(cards, c);
      var j :| 0 <= j < |cards| && cards[j] == c;
    }
  }

  /** The branches of `classify_hand`, given the number of distinct cards and the smallest and largest count. */
  function TypeOf(distinct: nat, least: nat, most: nat): HandType
  {
    if distinct == 1 then FiveOfAKind
    else if distinct == 2 && least == 2 then FullHouse
    else if distinct == 2 then FourOfAKind
    else if distinct == 3 && most == 3 then ThreeOfAKind
    else if distinct == 3 then TwoPair
    else if distinct == 4 then OnePair
    else HighCard
  }

  /** `classify_hand`. */
  function Classify(cards: string): HandType
  {
    TypeOf(|Distinct(cards)|, if cards == [] then 0 else MinCountOver(cards, cards), MaxCountOver(cards, cards))
  }

  /** The type depends only on how many distinct cards there are and on which counts occur. */
  lemma ClassifyByProfile(a: string, b: string)
    requires a != [] && b != []
    requires |Distinct(a)| == |Distinct(b)| && CountValues(a) == CountValues(b)
    ensures Classify(a) == Classify(b)
  {
    var maxA, maxB := MaxCountOver(a, a), MaxCountOver(b, b);
    var minA, minB := MinCountOver(a, a), MinCountOver(b, b);
    MaxCountIsMax(a);
    MaxCountIsMax(b);
    assert maxA == maxB by {
      assert maxA in CountValues(b) && maxB in CountValues(a);
    }
    MinCountIsMin(a);
    MinCountIsMin(b);
    assert minA == minB by {
      assert minA in CountValues(b) && minB in CountValues(a);
    }
  }

  /** Reordering the cards of a hand does not change its type. */
  lemma ClassifyPermutation(a: string, b: string)
    requires multiset(a) == multiset(b)
    ensures Classify(a) == Classify(b)
  {
    forall c ensures (c in a <==> c in b) && Count(a, c) == Count(b, c) {
      assert c in a <==> c in multiset(a);
      assert c in b <==> c in multiset(b);
      CountIsMultiplicity(a, c);
      CountIsMultiplicity(b, c);
    }
    assert Distinct(a) == Distinct(b);
    assert CountValues(a) == CountValues(b);
    if a != [] {
      assert a[0] in b;
      ClassifyByProfile(a, b);
    } else {
      assert |b| == |multiset(b)| == 0;
    }
  }

  /** The hands of the puzzle's two simplest shapes: five equal cards, and five different ones. */
  lemma ClassifyExtremes(cards: string)
    requires |cards| == 5
    ensures (forall i :: 0 <= i < 5 ==> cards[i] == cards[0]) ==> Classify(cards) == FiveOfAKind
    ensures (forall i, j :: 0 <= i < j < 5 ==> cards[i] != cards[j]) ==> Classify(cards) == HighCard
  {
    if forall i :: 0 <= i < 5 ==> cards[i] == cards[0] {
      assert Distinct(cards) == {cards[0]};
    }
    if forall i, j :: 0 <= i < j < 5 ==> cards[i] != cards[j] {
      assert Distinct(cards) == {cards[0], cards[1], cards[2], cards[3], cards[4]};
    }
  }

  // ----- Jokers -----

  /** `cards.replace("J", c)`. */
  function ReplaceJokers(cards: string, c: char): (r: string)
    ensures |r| == |cards|
  {
    if cards == [] then []
    else [if cards[0] == 'J' then c else cards[0]] + ReplaceJokers(cards[1..], c)
  }

  /** Every joker becomes `c` and every other card stays where it was. */
  lemma {:induction false} ReplaceJokersAt(cards: string, c: char)
    ensures |ReplaceJokers(cards, c)| == |cards|
    ensures forall i {:trigger ReplaceJokers(cards, c)[i]} :: 0 <= i < |cards| ==>
      ReplaceJokers(cards, c)[i] == if cards[i] == 'J' then c else cards[i]
  {
    if cards != [] {
      ReplaceJokersAt(cards[1..], c);
      assert forall i :: 1 <= i < |cards| ==> cards[i] == cards[1..][i - 1];
    }
  }

  /** Replacing the jokers by `c` moves their count onto `c` and leaves every other count alone. */
  lemma {:induction false} ReplaceJokersCount(cards: string, c: char, d: char)
    requires c != 'J'
    ensures Count(ReplaceJokers(cards, c), d) ==
      if d == c then Count(cards, c) + Count(cards, 'J') else if d == 'J' then 0 else Count(cards, d)
  {
    if cards != [] {
      ReplaceJokersCount(cards[1..], c, d);
      var r := ReplaceJokers(cards, c);
      assert r[1..] == ReplaceJokers(cards[1..], c);
    }
  }

  /** Every card of the hand is a joker. */
  predicate AllJokers(cards: string)
  {
    cards == [] || (cards[0] == 'J' && AllJokers(cards[1..]))
  }

  lemma {:induction false} AllJokersAt(cards: string)
    ensures AllJokers(cards) <==> forall i :: 0 <= i < |cards| ==> cards[i] == 'J'
  {
    if cards != [] {
      AllJokersAt(cards[1..]);
      assert forall i :: 1 <= i < |cards| ==> cards[i] == cards[1..][i - 1];
    }
  }

  /** `c` is a non-joker card of the hand that no other non-joker card outnumbers. */
  predicate MostFrequent(cards: string, c: char)
  {
    c != 'J' && c in cards && forall d :: d in cards && d != 'J' ==> Count(cards, d) <= Count(cards, c)
  }

  /** Some non-joker card of `over`. */
  predicate HasNonJoker(over: string)
  {
    exists i :: 0 <= i < |over| && over[i] != 'J'
  }

  /** A most frequent non-joker card, the last of equally frequent ones in `over`. */
  function BestOver(cards: string, over: string): char
    requires HasNonJoker(over)
  {
    if over[0] == 'J' || HasNonJoker(over[1..]) then
      if over[0] == 'J' then
        assert HasNonJoker(over[1..]) by {
          var i :| 0 <= i < |over| && over[i] != 'J';
          assert over[1..][i - 1] == over[i];
        }
        BestOver(cards, over[1..])
      else
        var b := BestOver(cards, over[1..]);
        if Count(cards, over[0]) > Count(cards, b) then over[0] else b
    else
      over[0]
  }

  /** `BestOver` is a non-joker card of `over` that no other non-joker card of `over` outnumbers. */
  lemma {:induction false} BestOverIsBest(cards: string, over: string)
    requires HasNonJoker(over)
    ensures BestOver(cards, over) != 'J' && BestOver(cards, over) in over
    ensures forall i :: 0 <= i < |over| && over[i] != 'J' ==> Count(cards, over[i]) <= Count(cards, BestOver(cards, over))
  {
    assert forall i :: 1 <= i < |over| ==> over[i] == over[1..][i - 1];
    if over[0] == 'J' {
      assert HasNonJoker(over[1..]) by {
        var i :| 0 <= i < |over| && over[i] != 'J';
        assert over[1..][i - 1] == over[i];
      }
      BestOverIsBest(cards, over[1..]);
    } else if HasNonJoker(over[1..]) {
      BestOverIsBest(cards, over[1..]);
    }
  }

  /** A hand that is not all jokers has a most frequent non-joker card. */
  lemma MostFrequentExists(cards: string)
    requires !AllJokers(cards)
    ensures HasNonJoker(cards) && MostFrequent(cards, BestOver(cards, cards))
  {
    AllJokersAt(cards);
    BestOverIsBest(cards, cards);
    var b := BestOver(cards, cards);
    forall d | d in cards && d != 'J' ensures Count(cards, d) <= Count(cards, b) {
      var i :| 0 <= i < |cards| && cards[i] == d;
    }
  }

  /** `ALL_ACES_HAND`, five aces. */
  function AllAces(): string
  {
    seq(5, _ => 'A')
  }

  /**
    What `substitute_jokers` may return: `AllAces()` for a hand of jokers only,
    otherwise the hand with every joker replaced by one most frequent other card
    (which one of equally frequent cards depends on set iteration order).
   */
  predicate JokerSubstitute(cards: string, r: string)
  {
    if AllJokers(cards) then r == AllAces()
    else exists c :: MostFrequent(cards, c) && r == ReplaceJokers(cards, c)
  }

  /** `substitute_jokers`, with the tie between equally frequent cards left open. */
  method SubstituteJokers(cards: string) returns (r: string)
    ensures JokerSubstitute(cards, r)
    ensures AllJokers(cards) ==> r == AllAces()
    ensures !AllJokers(cards) ==> (|r| == |cards| && 'J' !in r &&
      forall i :: 0 <= i < |cards| && cards[i] != 'J' ==> r[i] == cards[i])
  {
    AllJokersAt(cards);
    var nonJokers := set c | c in cards && c != 'J';
    if nonJokers == {} {
      assert AllJokers(cards) by {
        forall i | 0 <= i < |cards| ensures cards[i] == 'J' {
          assert cards[i] !in nonJokers;
        }
      }
      return AllAces();
    }
    assert !AllJokers(cards) by {
      var c :| c in nonJokers;
    }
    MostFrequentExists(cards);
    var best :| MostFrequent(cards, best);
    assert MostFrequent(cards, best);
    assert best != 'J';
    r := ReplaceJokers(cards, best);
    ReplaceJokersAt(cards, best);
    assert 'J' !in r by {
      forall i | 0 <= i < |r| ensures r[i] != 'J' {
        assert r[i] == if cards[i] == 'J' then best else cards[i];
      }
    }
  }

  /** A hand of one card repeated is five of a kind (in particular the all-aces hand). */
  lemma ClassifyUniform(s: string, c: char)
    requires s != [] && forall i :: 0 <= i < |s| ==> s[i] == c
    ensures Classify(s) == FiveOfAKind
  {
    assert s[0] in s;
    assert forall d :: d in s ==> d == c;
    assert Distinct(s) == {c};
  }

  /** The type after substitution, computed with one fixed choice of the most frequent card. */
  function JokerType(cards: string): HandType
  {
    if AllJokers(cards) then FiveOfAKind
    else
      MostFrequentExists(cards);
      Classify(ReplaceJokers(cards, BestOver(cards, cards)))
  }

  /** `d` with `c1` and `c2` exchanged. */
  function Swap(d: char, c1: char, c2: char): char
  {
    if d == c1 then c2 else if d == c2 then c1 else d
  }

  /** Two hands whose counts agree up to exchanging two cards present in both have
      the same distinct cards and the same count values. */
  lemma SwapProfile(s1: string, s2: string, c1: char, c2: char)
    requires c1 in s1 && c2 in s1 && c1 in s2 && c2 in s2
    requires forall d :: Count(s1, d) == Count(s2, Swap(d, c1, c2))
    ensures Distinct(s1) == Distinct(s2) && CountValues(s1) == CountValues(s2)
  {
    forall d ensures d in s1 <==> Swap(d, c1, c2) in s2 {
      CountPositive(s1, d);
      CountPositive(s2, Swap(d, c1, c2));
    }
    forall d ensures d in s1 <==> d in s2 {
      assert d in s1 <==> Swap(d, c1, c2) in s2;
    }
    forall v | v in CountValues(s1) ensures v in CountValues(s2) {
      var d :| d in s1 && v == Count(s1, d);
      assert Swap(d, c1, c2) in s2;
    }
    forall v | v in CountValues(s2) ensures v in CountValues(s1) {
      var d :| d in s2 && v == Count(s2, d);
      var e := Swap(d, c1, c2);
      assert Swap(e, c1, c2) == d;
      assert e in s1 <==> d in s2;
      assert e in s1 && v == Count(s1, e);
    }
  }

  /** Whichever most frequent card replaces the jokers, the hand ends up with the same type. */
  lemma JokerChoiceIrrelevant(cards: string, c1: char, c2: char)
    requires MostFrequent(cards, c1) && MostFrequent(cards, c2)
    ensures Classify(ReplaceJokers(cards, c1)) == Classify(ReplaceJokers(cards, c2))
  {
    var s1, s2 := ReplaceJokers(cards, c1), ReplaceJokers(cards, c2);
    assert Count(cards, c1) == Count(cards, c2);
    forall d ensures Count(s1, d) == Count(s2, Swap(d, c1, c2)) {
      ReplaceJokersCount(cards, c1, d);
      ReplaceJokersCount(cards, c2, Swap(d, c1, c2));
    }
    CountPositive(cards, c1);
    CountPositive(cards, c2);
    ReplaceJokersCount(cards, c1, c1);
    ReplaceJokersCount(cards, c1, c2);
    ReplaceJokersCount(cards, c2, c1);
    ReplaceJokersCount(cards, c2, c2);
    CountPositive(s1, c1);
    CountPositive(s1, c2);
    CountPositive(s2, c1);
    CountPositive(s2, c2);
    SwapProfile(s1, s2, c1, c2);
    assert cards != [] && |s1| == |cards| && |s2| == |cards|;
    ClassifyByProfile(s1, s2);
  }

  /** Any outcome `substitute_jokers` may produce has the type `JokerType` fixes. */
  lemma JokerSubstituteType(cards: string, r: string)
    requires JokerSubstitute(cards, r)
    ensures Classify(r) == JokerType(cards)
  {
    if AllJokers(cards) {
      ClassifyUniform(r, 'A');
    } else {
      MostFrequentExists(cards);
      var c :| MostFrequent(cards, c) && r == ReplaceJokers(cards, c);
      JokerChoiceIrrelevant(cards, c, BestOver(cards, cards));
    }
  }

  // ----- Weights -----

  /** The card orders, strongest first: with the jack, and with the joker as the weakest card. */
  const OrderWithJack: string := "AKQJT98765432"
  const OrderWithJoker: string := "AKQT98765432J"
  /** The weight letters handed out in that order, `m` (strongest) down to `a`. */
  const Weights: string := "mlkjihgfedcba"

  /** `dict(zip(keys, values))`: a later pair overrides an earlier one with the same key. */
  function PairTable(keys: string, values: string): (table: map<char, char>)
    requires |keys| == |values|
    ensures forall c :: c in table <==> c in keys
  {
    if keys == [] then map[]
    else
      var n := |keys| - 1;
      assert forall c :: c in keys <==> c in keys[..n] || c == keys[n] by {
        assert keys == keys[..n] + [keys[n]];
      }
      PairTable(keys[..n], values[..n])[keys[n] := values[n]]
  }

  /** The card-to-weight map of `get_cards_weighted`; `zip` stops at the shorter list. */
  function WeightTable(order: string): map<char, char>
  {
    var n := if |order| < |Weights| then |order| else |Weights|;
    PairTable(order[..n], Weights[..n])
  }

  predicate NoDuplicates(s: string)
  {
    forall i, j :: 0 <= i < j < |s| ==> s[i] != s[j]
  }

  /** With distinct keys every key maps to the value at its own position. */
  lemma {:induction false} PairTableAt(keys: string, values: string, i: int)
    requires |keys| == |values| && NoDuplicates(keys) && 0 <= i < |keys|
    ensures PairTable(keys, values)[keys[i]] == values[i]
  {
    var n := |keys| - 1;
    if i < n {
      PairTableAt(keys[..n], values[..n], i);
    }
  }

  /** `get_cards_weighted`: each card's weight letter; a card missing from the order raises `KeyError`. */
  function Weighted(cards: string, order: string): Option<string>
  {
    if cards == [] then Some([])
    else if cards[0] !in WeightTable(order) then None
    else
      match Weighted(cards[1..], order)
      case None => None
      case Some(rest) => Some([WeightTable(order)[cards[0]]] + rest)
  }

  /** The weights exist exactly when every card is in the order, and then they are the cards' letters one by one. */
  lemma {:induction false} WeightedSpec(cards: string, order: string)
    ensures Weighted(cards, order).Some? <==> forall i :: 0 <= i < |cards| ==> cards[i] in WeightTable(order)
    ensures Weighted(cards, order).Some? ==> (|Weighted(cards, order).value| == |cards| &&
      forall i :: 0 <= i < |cards| ==> Weighted(cards, order).value[i] == WeightTable(order)[cards[i]])
  {
    if cards != [] {
      WeightedSpec(cards[1..], order);
      assert forall i :: 1 <= i < |cards| ==> cards[i] == cards[1..][i - 1];
    }
  }

  /** The two card orders used by the script list thirteen distinct cards. */
  lemma OrdersWellFormed()
    ensures |OrderWithJack| == |Weights| && NoDuplicates(OrderWithJack)
    ensures |OrderWithJoker| == |Weights| && NoDuplicates(OrderWithJoker)
  {
  }

  /** The weight letters fall strictly from `m` to `a`. */
  lemma WeightsDescending()
    ensures forall i, j :: 0 <= i < j < |Weights| ==> Weights[i] > Weights[j]
  {
    assert forall i :: 0 <= i < |Weights| ==> Weights[i] as int == 'm' as int - i;
  }

  /** A card earlier (stronger) in the order gets a larger letter, and equal letters mean equal cards. */
  lemma WeightOrder(order: string, i: int, j: int)
    requires |order| == |Weights| && NoDuplicates(order)
    requires 0 <= i < |order| && 0 <= j < |order|
    ensures WeightTable(order)[order[i]] < WeightTable(order)[order[j]] <==> j < i
    ensures WeightTable(order)[order[i]] == WeightTable(order)[order[j]] <==> i == j
  {
    assert order[..|order|] == order && Weights[..|Weights|] == Weights;
    PairTableAt(order, Weights, i);
    PairTableAt(order, Weights, j);
    WeightsDescending();
  }

  /** In the joker order the joker weighs less than every other card. */
  lemma JokerWeakest(c: char)
    requires c in OrderWithJoker && c != 'J'
    ensures WeightTable(OrderWithJoker)['J'] < WeightTable(OrderWithJoker)[c]
  {
    OrdersWellFormed();
    var i :| 0 <= i < |OrderWithJoker| && OrderWithJoker[i] == c;
    WeightOrder(OrderWithJoker, 12, i);
  }

  /** Python's `<` on strings: lexicographic, a proper prefix first. */
  predicate StrLess(a: string, b: string)
  {
    if a == [] then b != []
    else if b == [] then false
    else if a[0] != b[0] then a[0] < b[0]
    else StrLess(a[1..], b[1..])
  }

  /** The position of a card in the order: a larger position is a weaker card. */
  function Position(order: string, c: char): (p: nat)
    requires c in order
    ensures p < |order| && order[p] == c
  {
    if order[0] == c then 0 else 1 + Position(order[1..], c)
  }

  /** Hand `a` loses to hand `b` card by card: at the first difference `a` holds the weaker card. */
  predicate CardsWeaker(order: string, a: string, b: string)
    requires forall i :: 0 <= i < |a| ==> a[i] in order
    requires forall i :: 0 <= i < |b| ==> b[i] in order
  {
    if a == [] then b != []
    else if b == [] then false
    else if a[0] != b[0] then Position(order, a[0]) > Position(order, b[0])
    else CardsWeaker(order, a[1..], b[1..])
  }

  /** Comparing weighted strings is comparing the hands card by card, in both directions. */
  lemma {:induction false} WeightedComparesCards(order: string, a: string, b: string)
    requires |order| == |Weights| && NoDuplicates(order)
    requires forall i :: 0 <= i < |a| ==> a[i] in order
    requires forall i :: 0 <= i < |b| ==> b[i] in order
    ensures Weighted(a, order).Some? && Weighted(b, order).Some?
    ensures StrLess(Weighted(a, order).value, Weighted(b, order).value) <==> CardsWeaker(order, a, b)
  {
    if a != [] && b != [] {
      WeightedComparesCards(order, a[1..], b[1..]);
      WeightedHead(order, a);
      WeightedHead(order, b);
      WeightOrder(order, Position(order, a[0]), Position(order, b[0]));
    } else {
      WeightedSpec(a, order);
      WeightedSpec(b, order);
    }
  }

  /** A hand of known cards has weights: its first card's letter, then the rest's weights. */
  lemma WeightedHead(order: string, cards: string)
    requires |order| == |Weights| && NoDuplicates(order)
    requires cards != [] && Weighted(cards[1..], order).Some? && cards[0] in order
    ensures Weighted(cards, order).Some?
    ensures Weighted(cards, order).value[0] == WeightTable(order)[order[Position(order, cards[0])]]
    ensures Weighted(cards, order).value[1..] == Weighted(cards[1..], order).value
  {
    assert order[..|order|] == order && Weights[..|Weights|] == Weights;
    assert cards[0] in WeightTable(order);
  }

  // ----- Comparing hands -----

  /** What `Hand.__gt__` looks at: the type, then the weighted cards. */
  datatype Standing = Standing(handType: HandType, weighted: string)

  /** `Hand.__gt__`: a higher type wins; on equal types the larger weighted string wins. */
  predicate Outranks(a: Standing, b: Standing)
  {
    if a.handType == b.handType then StrLess(b.weighted, a.weighted) else Value(a.handType) > Value(b.handType)
  }

  lemma {:induction false} StrLessIrreflexive(a: string)
    ensures !StrLess(a, a)
  {
    if a != [] {
      StrLessIrreflexive(a[1..]);
    }
  }

  lemma {:induction false} StrLessTransitive(a: string, b: string, c: string)
    requires StrLess(a, b) && StrLess(b, c)
    ensures StrLess(a, c)
  {
    if a != [] && b != [] && c != [] && a[0] == b[0] && b[0] == c[0] {
      StrLessTransitive(a[1..], b[1..], c[1..]);
    }
  }

  lemma {:induction false} StrLessTotal(a: string, b: string)
    requires a != b
    ensures StrLess(a, b) || StrLess(b, a)
  {
    if a != [] && b != [] && a[0] == b[0] {
      assert a == [a[0]] + a[1..] && b == [b[0]] + b[1..];
      StrLessTotal(a[1..], b[1..]);
    }
  }

  /** `>` on hands is a strict total order on standings: irreflexive, transitive and total. */
  lemma OutranksStrictTotal(a: Standing, b: Standing, c: Standing)
    ensures !Outranks(a, a)
    ensures Outranks(a, b) && Outranks(b, c) ==> Outranks(a, c)
    ensures a != b ==> Outranks(a, b) || Outranks(b, a)
    ensures Outranks(a, b) ==> !Outranks(b, a)
  {
    StrLessIrreflexive(a.weighted);
    ValueInjective(a.handType, b.handType);
    ValueInjective(b.handType, c.handType);
    ValueInjective(a.handType, c.handType);
    if Outranks(a, b) && Outranks(b, c) && a.handType == b.handType && b.handType == c.handType {
      StrLessTransitive(c.weighted, b.weighted, a.weighted);
    }
    if a != b && a.handType == b.handType {
      StrLessTotal(a.weighted, b.weighted);
    }
    if Outranks(a, b) && a.handType == b.handType && StrLess(a.weighted, b.weighted) {
      StrLessTransitive(a.weighted, b.weighted, a.weighted);
      StrLessIrreflexive(a.weighted);
    }
  }

  /** A player's hand; `part_two` rewrites its type, cards and weighted cards in place. */
  class Hand {
    var handType: HandType
    var cards: string
    var cardsWeighted: string
    var bid: int

    constructor(handType: HandType, cards: string, cardsWeighted: string, bid: int)
      ensures this.handType == handType && this.cards == cards
      ensures this.cardsWeighted == cardsWeighted && this.bid == bid
    {
      this.handType := handType;
      this.cards := cards;
      this.cardsWeighted := cardsWeighted;
      this.bid := bid;
    }

    function CurrentStanding(): Standing
      reads this
    {
      Standing(handType, cardsWeighted)
    }

    /** `self > other`. */
    predicate Beats(other: Hand)
      reads this, other
    {
      Outranks(CurrentStanding(), other.CurrentStanding())
    }
  }

  /** One line of the input as `parse_input` turns it into a hand; an unknown card raises. */
  method ReadHand(cards: string, bid: int) returns (h: Option<Hand>)
    ensures h.None? <==> Weighted(cards, OrderWithJack).None?
    ensures h.Some? ==> (fresh(h.value) && h.value.cards == cards && h.value.bid == bid &&
      h.value.handType == Classify(cards) && h.value.cardsWeighted == Weighted(cards, OrderWithJack).value)
  {
    var weighted := Weighted(cards, OrderWithJack);
    if weighted.None? {
      return None;
    }
    var hand := new Hand(Classify(cards), cards, weighted.value, bid);
    return Some(hand);
  }

  // ----- Ranking and winnings -----

  /** A hand as `sorted` sees it, with its place in the input list. */
  datatype Entry = Entry(standing: Standing, bid: int, index: int)

  /**
    `x` comes before `y` in `sorted(hands)`: `x < y` holds (that is `y > x`),
    or neither beats the other and `x` came first, as the stable sort keeps it.
   */
  predicate Before(x: Entry, y: Entry)
  {
    Outranks(y.standing, x.standing) || (x.standing == y.standing && x.index < y.index)
  }

  lemma BeforeOrder(x: Entry, y: Entry, z: Entry)
    ensures !Before(x, x)
    ensures Before(x, y) && Before(y, z) ==> Before(x, z)
  {
    OutranksStrictTotal(x.standing, y.standing, z.standing);
    OutranksStrictTotal(z.standing, y.standing, x.standing);
  }

  predicate Ascending(es: seq<Entry>)
  {
    forall i, j :: 0 <= i < j < |es| ==> !Before(es[j], es[i])
  }

  function Insert(x: Entry, es: seq<Entry>): (r: seq<Entry>)
    ensures multiset(r) == multiset(es) + multiset{x}
  {
    if es == [] then [x]
    else if Before(x, es[0]) then
      assert es == [es[0]] + es[1..];
      [x] + es
    else
      assert es == [es[0]] + es[1..];
      [es[0]] + Insert(x, es[1..])
  }

  /** Inserting into an ascending list keeps it ascending. */
  lemma {:induction false} InsertAscending(x: Entry, es: seq<Entry>)
    requires Ascending(es)
    ensures Ascending(Insert(x, es))
  {
    if es != [] && Before(x, es[0]) {
      forall e | e in es ensures !Before(e, x) {
        BeforeOrder(e, x, es[0]);
        BeforeOrder(es[0], x, es[0]);
      }
      ConsAscending(x, es);
    } else if es != [] {
      var rest := Insert(x, es[1..]);
      InsertAscending(x, es[1..]);
      forall e | e in rest ensures !Before(e, es[0]) {
        assert e in multiset(rest);
        if e != x {
          var j :| 0 <= j < |es[1..]| && es[1..][j] == e;
          assert es[j + 1] == e;
        }
      }
      ConsAscending(es[0], rest);
    }
  }

  /** A list stays ascending when its new head comes after none of its elements. */
  lemma ConsAscending(h: Entry, rest: seq<Entry>)
    requires Ascending(rest)
    requires forall e :: e in rest ==> !Before(e, h)
    ensures Ascending([h] + rest)
  {
    var r := [h] + rest;
    forall i, j | 0 <= i < j < |r| ensures !Before(r[j], r[i]) {
      assert r[j] == rest[j - 1];
      if i > 0 {
        assert r[i] == rest[i - 1];
      } else {
        assert r[j] in rest;
      }
    }
  }

  /** `sorted(hands)`, each hand inserted behind every hand it does not come before. */
  function SortEntries(es: seq<Entry>): (r: seq<Entry>)
    ensures multiset(r) == multiset(es)
    ensures Ascending(r)
  {
    if es == [] then []
    else
      assert es == es[..|es| - 1] + [es[|es| - 1]];
      var front := SortEntries(es[..|es| - 1]);
      InsertAscending(es[|es| - 1], front);
      Insert(es[|es| - 1], front)
  }

  /** The sorted list runs from the weakest hand to the strongest, and equal hands keep their input order. */
  lemma SortedWeakestFirst(es: seq<Entry>, i: int, j: int)
    requires 0 <= i < j < |SortEntries(es)|
    ensures !Outranks(SortEntries(es)[i].standing, SortEntries(es)[j].standing)
    ensures SortEntries(es)[i].standing == SortEntries(es)[j].standing ==>
      SortEntries(es)[i].index <= SortEntries(es)[j].index
  {
  }

  /** `sum((rank + 1) * hand.bid for rank, hand in enumerate(ranked))`. */
  function Winnings(ranked: seq<Entry>): int
  {
    if ranked == [] then 0 else Winnings(ranked[..|ranked| - 1]) + |ranked| * ranked[|ranked| - 1].bid
  }

  /** With non-negative bids every hand is paid at least once and at most as many times as there are hands. */
  lemma {:induction false} WinningsBounds(ranked: seq<Entry>, bids: int)
    requires forall i :: 0 <= i < |ranked| ==> ranked[i].bid >= 0
    requires bids == SumBids(ranked)
    ensures bids <= Winnings(ranked) <= |ranked| * bids
  {
    if ranked != [] {
      var front := ranked[..|ranked| - 1];
      var last := ranked[|ranked| - 1].bid;
      WinningsBounds(front, SumBids(front));
      SumBidsNonNegative(front);
      ScaleBounds(|ranked|, SumBids(front), last);
    }
  }

  lemma ScaleBounds(n: int, s: int, last: int)
    requires n >= 1 && s >= 0 && last >= 0
    ensures last <= n * last
    ensures (n - 1) * s + n * last <= n * (s + last)
  {
    assert n * (s + last) == n * s + n * last;
    assert (n - 1) * s == n * s - s;
  }

  function SumBids(ranked: seq<Entry>): int
  {
    if ranked == [] then 0 else SumBids(ranked[..|ranked| - 1]) + ranked[|ranked| - 1].bid
  }

  lemma {:induction false} SumBidsNonNegative(ranked: seq<Entry>)
    requires forall i :: 0 <= i < |ranked| ==> ranked[i].bid >= 0
    ensures SumBids(ranked) >= 0
  {
    if ranked != [] {
      SumBidsNonNegative(ranked[..|ranked| - 1]);
    }
  }

  /** The hands as `sorted` sees them, numbered in input order. */
  function Entries(hands: seq<Hand>): (es: seq<Entry>)
    reads set h | h in hands
    ensures |es| == |hands|
    ensures forall i :: 0 <= i < |hands| ==> es[i] == Entry(hands[i].CurrentStanding(), hands[i].bid, i)
  {
    seq(|hands|, i requires 0 <= i < |hands| reads set h | h in hands => Entry(hands[i].CurrentStanding(), hands[i].bid, i))
  }

  /** The total of `part_one` and `part_two`: rank the hands, then pay each bid times its rank. */
  method TotalWinnings(hands: seq<Hand>) returns (total: int)
    ensures total == Winnings(SortEntries(Entries(hands)))
  {
    var ranked := SortEntries(Entries(hands));
    total := 0;
    for k := 0 to |ranked|
      invariant total == Winnings(ranked[..k])
    {
      assert ranked[..k + 1][..k] == ranked[..k];
      total := total + (k + 1) * ranked[k].bid;
    }
    assert ranked[..|ranked|] == ranked;
  }

  method PartOne(hands: seq<Hand>) returns (total: int)
    ensures total == Winnings(SortEntries(Entries(hands)))
  {
    total := TotalWinnings(hands);
  }

  /** Hand `h` after `part_two` rewrote it from its former cards. */
  predicate Rewritten(h: Hand, cards: string)
    reads h
  {
    RewriteOf(cards, h.cards, h.cardsWeighted, h.handType)
  }

  /** What `part_two` stores for a hand that held `cards`: weights of the original cards, substituted cards, their type. */
  predicate RewriteOf(cards: string, newCards: string, newWeighted: string, newType: HandType)
  {
    Weighted(cards, OrderWithJoker).Some? &&
    newWeighted == Weighted(cards, OrderWithJoker).value &&
    JokerSubstitute(cards, newCards) &&
    newType == Classify(newCards) && newType == JokerType(cards)
  }

  /** A legal substitution, stored with the weights of the original cards, is a rewrite of them. */
  lemma SubstitutionIsRewrite(cards: string, substituted: string)
    requires JokerSubstitute(cards, substituted) && Weighted(cards, OrderWithJoker).Some?
    ensures RewriteOf(cards, substituted, Weighted(cards, OrderWithJoker).value, Classify(substituted))
  {
    JokerSubstituteType(cards, substituted);
  }

  /** The body of `part_two`'s loop for one hand; `false` where the weight lookup raises. */
  method Rewrite(hand: Hand) returns (ok: bool)
    modifies hand
    ensures hand.bid == old(hand.bid)
    ensures ok <==> Weighted(old(hand.cards), OrderWithJoker).Some?
    ensures ok ==> Rewritten(hand, old(hand.cards))
    ensures !ok ==> Untouched(hand, old(hand.cards), old(hand.cardsWeighted), old(hand.handType))
  {
    var cards := hand.cards;
    var weighted := Weighted(cards, OrderWithJoker);
    if weighted.None? {
      return false;
    }
    var substituted := SubstituteJokers(cards);
    SubstitutionIsRewrite(cards, substituted);
    var handType := Classify(substituted);
    hand.cardsWeighted, hand.cards, hand.handType := weighted.value, substituted, handType;
    ok := true;
  }

  /**
    `part_two`: every hand gets weights from the joker order, computed from its
    cards before the jokers are substituted, then its substituted cards and their
    type; then the hands are ranked as in `part_one`. A card outside the order
    raises part-way, after the hands before it have been rewritten.
   */
  method PartTwo(hands: seq<Hand>) returns (r: Outcome)
    requires forall i, j :: 0 <= i < j < |hands| ==> hands[i] != hands[j]
    modifies set h | h in hands
    ensures forall k :: 0 <= k < |hands| ==> hands[k].bid == old(hands[k].bid)
    ensures r.Returns? <==> forall k :: 0 <= k < |hands| ==> Weighted(old(hands[k].cards), OrderWithJoker).Some?
    ensures r.Returns? ==>
      (forall k :: 0 <= k < |hands| ==> Rewritten(hands[k], old(hands[k].cards))) &&
      r.value == Winnings(SortEntries(Entries(hands)))
    ensures r.Raises? ==> exists k :: (0 <= k < |hands| &&
      Weighted(old(hands[k].cards), OrderWithJoker).None? &&
      (forall j :: 0 <= j < k ==> Rewritten(hands[j], old(hands[j].cards))) &&
      (forall j :: k <= j < |hands| ==> Untouched(hands[j], old(hands[j].cards), old(hands[j].cardsWeighted), old(hands[j].handType))))
  {
    var done := RewriteAll(hands);
    if done < |hands| {
      return Raises;
    }
    var total := TotalWinnings(hands);
    r := Returns(total);
  }

  /** Rewrites the hands in order and stops at the first one whose cards
      cannot be weighted; `done` is the number of hands rewritten. */
  method RewriteAll(hands: seq<Hand>) returns (done: nat)
    requires forall i, j :: 0 <= i < j < |hands| ==> hands[i] != hands[j]
    modifies set h | h in hands
    ensures done <= |hands|
    ensures done < |hands| ==> Weighted(old(hands[done].cards), OrderWithJoker).None?
    ensures forall k :: 0 <= k < |hands| ==> hands[k].bid == old(hands[k].bid)
    ensures forall j :: 0 <= j < done ==> Rewritten(hands[j], old(hands[j].cards))
    ensures forall j :: done <= j < |hands| ==>
      Untouched(hands[j], old(hands[j].cards), old(hands[j].cardsWeighted), old(hands[j].handType))
  {
    for k := 0 to |hands|
      invariant forall j :: 0 <= j < |hands| ==> hands[j].bid == old(hands[j].bid)
      invariant forall j :: 0 <= j < k ==> Rewritten(hands[j], old(hands[j].cards))
      invariant forall j :: k <= j < |hands| ==>
        Untouched(hands[j], old(hands[j].cards), old(hands[j].cardsWeighted), old(hands[j].handType))
    {
      var ok := Rewrite(hands[k]);
      if !ok {
        return k;
      }
    }
    done := |hands|;
  }

  /** The hand still holds the given cards, weighted cards and type. */
  predicate Untouched(h: Hand, cards: string, cardsWeighted: string, handType: HandType)
    reads h
  {
    h.cards == cards && h.cardsWeighted == cardsWeighted && h.handType == handType
  }
}
