/**
  Day 4 (Scratchcards): parsing cards, scoring their matches as powers of
  two (`part_one`) and propagating won copies down the list (`part_two`).
 */
module Day4Scratchcards {
  import opened Common

  /** The `Card` dataclass. */
  datatype Card = Card(id: nat, winningNumbers: seq<nat>, guessedNumbers: seq<nat>)

  // ----- Parsing -----

  /** `str.isspace` on ASCII characters: tab to carriage return, the separators 0x1C to 0x1F, and the space. */
  predicate IsSpace(c: char)
  {
    9 <= c as int <= 13 || 28 <= c as int <= 32
  }

  predicate AllSpace(s: string)
  {
    forall i :: 0 <= i < |s| ==> IsSpace(s[i])
  }

  /** `s.lstrip()`. */
  function StripStart(s: string): string
  {
    if s != [] && IsSpace(s[0]) then StripStart(s[1..]) else s
  }

  /** `s.rstrip()`. */
  function StripEnd(s: string): string
  {
    if s != [] && IsSpace(s[|s| - 1]) then StripEnd(s[..|s| - 1]) else s
  }

  /** `s.strip()`, which `int()` applies to its argument before reading it. */
  function Strip(s: string): string
  {
    StripEnd(StripStart(s))
  }

  /** `int(token)`: surrounding whitespace is ignored and what remains must be decimal digits; anything else raises. */
  function ParseInt(token: string): Option<nat>
  {
    var t := Strip(token);
    if t != [] && AllDigits(t) then Some(DecimalValue(t)) else None
  }

  lemma {:induction false} StripStartOver(w: string, x: string)
    requires AllSpace(w) && (x == [] || !IsSpace(x[0]))
    ensures StripStart(w + x) == x
  {
    if w == [] {
      assert w + x == x;
    } else {
      assert (w + x)[1..] == w[1..] + x;
      StripStartOver(w[1..], x);
    }
  }

  lemma {:induction false} StripEndOver(x: string, w: string)
    requires AllSpace(w) && (x == [] || !IsSpace(x[|x| - 1]))
    ensures StripEnd(x + w) == x
  {
    if w == [] {
      assert x + w == x;
    } else {
      var front := w[..|w| - 1];
      assert (x + w)[..|x + w| - 1] == x + front;
      StripEndOver(x, front);
    }
  }

  /** A number written in decimal reads back as itself, whatever whitespace surrounds it. */
  lemma ParseIntPadded(before: string, n: nat, after: string)
    requires AllSpace(before) && AllSpace(after)
    ensures ParseInt(before + DecimalString(n) + after) == Some(n)
  {
    var d := DecimalString(n);
    assert !IsSpace(d[0]) && !IsSpace(d[|d| - 1]);
    assert before + d + after == before + (d + after);
    StripStartOver(before, d + after);
    StripEndOver(d, after);
    DecimalRoundTrip(n);
  }

  /** A token of whitespace alone is not a number. */
  lemma ParseIntBlank(token: string)
    requires AllSpace(token)
    ensures ParseInt(token).None?
  {
    StripStartOver(token, []);
    assert token + [] == token;
  }

  /** `list(map(int, tokens))`: a number for every token, or a raise at the first token that is not one. */
  function ParseInts(tokens: seq<string>): Option<seq<nat>>
  {
    if tokens == [] then Some([])
    else
      match (ParseInt(tokens[0]), ParseInts(tokens[1..]))
      case (Some(x), Some(xs)) => Some([x] + xs)
      case _ => None
  }

  /** The list is read exactly when every token is a number, and then holds each token's number in place. */
  lemma {:induction false} ParseIntsSpec(tokens: seq<string>)
    ensures ParseInts(tokens).Some? <==> forall i :: 0 <= i < |tokens| ==> ParseInt(tokens[i]).Some?
    ensures ParseInts(tokens).Some? ==> |ParseInts(tokens).value| == |tokens|
    ensures ParseInts(tokens).Some? ==> forall i :: 0 <= i < |tokens| ==> ParseInts(tokens).value[i] == ParseInt(tokens[i]).value
  {
    if tokens != [] {
      ParseIntsSpec(tokens[1..]);
      assert forall i :: 1 <= i < |tokens| ==> tokens[1..][i - 1] == tokens[i];
    }
  }

  lemma ParseIntsOf(tokens: seq<string>, xs: seq<nat>)
    requires |tokens| == |xs| && forall i :: 0 <= i < |xs| ==> ParseInt(tokens[i]) == Some(xs[i])
    ensures ParseInts(tokens) == Some(xs)
  {
    ParseIntsSpec(tokens);
    var r := ParseInts(tokens);
    assert r.value == xs;
  }

  /** `[text for text in pieces if len(text) > 0]`: the non-empty pieces, in order. */
  function NonEmpty(pieces: seq<string>): seq<string>
  {
    if pieces == [] then []
    else if pieces[0] == "" then NonEmpty(pieces[1..])
    else [pieces[0]] + NonEmpty(pieces[1..])
  }

  /** Exactly the non-empty pieces are kept, each where it was relative to the others. */
  lemma {:induction false} NonEmptyKeeps(pieces: seq<string>)
    ensures forall p :: p in NonEmpty(pieces) <==> p in pieces && p != ""
    ensures |NonEmpty(pieces)| <= |pieces|
    ensures NonEmpty(pieces) == pieces <==> "" !in pieces
  {
    if pieces != [] {
      NonEmptyKeeps(pieces[1..]);
      assert forall p :: p in pieces <==> p == pieces[0] || p in pieces[1..];
      if "" !in pieces {
        assert pieces == [pieces[0]] + pieces[1..];
      }
    }
  }

  lemma {:induction false} NonEmptyAppend(xs: seq<string>, ys: seq<string>)
    ensures NonEmpty(xs + ys) == NonEmpty(xs) + NonEmpty(ys)
  {
    if xs == [] {
      assert xs + ys == ys;
    } else {
      NonEmptyAppend(xs[1..], ys);
      assert (xs + ys)[1..] == xs[1..] + ys;
      if xs[0] != "" {
        assert [xs[0]] + (NonEmpty(xs[1..]) + NonEmpty(ys)) == ([xs[0]] + NonEmpty(xs[1..])) + NonEmpty(ys);
      }
    }
  }

  /** `parse_number_list`: split on single spaces, drop the empty tokens, convert the rest. */
  function ParseNumberList(numbersText: string): Option<seq<nat>>
  {
    ParseInts(NonEmpty(Split(numbersText, ' ')))
  }

  /**
    `parse_card`. The regular expression that finds the id after `Card` is
    not modelled: its result is the parameter `id`. The text after the first
    `:` must split at `|` into exactly two halves, else the script raises.
   */
  function ParseCard(id: nat, line: string): Option<Card>
  {
    var pieces := Split(line, ':');
    if |pieces| < 2 then None
    else
      var halves := Split(pieces[1], '|');
      if |halves| != 2 then None
      else
        match (ParseNumberList(halves[0]), ParseNumberList(halves[1]))
        case (Some(winning), Some(guessed)) => Some(Card(id, winning, guessed))
        case _ => None
  }

  /** Each number written after one space, as in the puzzle input. */
  function NumberText(xs: seq<nat>): string
  {
    if xs == [] then "" else " " + DecimalString(xs[0]) + NumberText(xs[1..])
  }

  /** `str(n)` of each number. */
  function DecimalStrings(xs: seq<nat>): (r: seq<string>)
    ensures |r| == |xs|
  {
    if xs == [] then [] else [DecimalString(xs[0])] + DecimalStrings(xs[1..])
  }

  lemma {:induction false} DecimalStringsAt(xs: seq<nat>)
    ensures forall i :: 0 <= i < |xs| ==> DecimalStrings(xs)[i] == DecimalString(xs[i])
  {
    if xs != [] {
      DecimalStringsAt(xs[1..]);
      assert forall i :: 1 <= i < |xs| ==> xs[1..][i - 1] == xs[i];
    }
  }

  /** The card as the puzzle prints it: `Card <id>: <winning> | <guessed>`. */
  function CardLine(card: Card): string
  {
    ("Card " + DecimalString(card.id)) + [':'] + (NumberText(card.winningNumbers) + [' ', '|'] + NumberText(card.guessedNumbers))
  }

  lemma {:induction false} NumberTextPieces(xs: seq<nat>)
    ensures Split(NumberText(xs), ' ') == [""] + DecimalStrings(xs)
  {
    if xs != [] {
      var d, rest := DecimalString(xs[0]), NumberText(xs[1..]);
      NumberTextPieces(xs[1..]);
      DigitsHaveNo(d, ' ');
      SplitPiece(d, ' ', rest);
      assert NumberText(xs) == [' '] + (d + rest);
      assert d + "" == d;
    }
  }

  lemma {:induction false} NumberTextHasNo(xs: seq<nat>, c: char)
    requires !IsDigit(c) && c != ' '
    ensures c !in NumberText(xs)
  {
    if xs != [] {
      NumberTextHasNo(xs[1..], c);
      DigitsHaveNo(DecimalString(xs[0]), c);
    }
  }

  lemma DigitsHaveNo(s: string, c: char)
    requires AllDigits(s) && !IsDigit(c)
    ensures c !in s
  {
  }

  lemma {:induction false} DecimalStringsNonEmpty(xs: seq<nat>)
    ensures NonEmpty(DecimalStrings(xs)) == DecimalStrings(xs)
    ensures ParseInts(DecimalStrings(xs)) == Some(xs)
  {
    if xs != [] {
      DecimalStringsNonEmpty(xs[1..]);
      DecimalRoundTrip(xs[0]);
      var ds := DecimalStrings(xs);
      assert ds[1..] == DecimalStrings(xs[1..]);
      assert ds[0] == "" + DecimalString(xs[0]) + "";
      ParseIntPadded("", xs[0], "");
      assert xs == [xs[0]] + xs[1..];
    }
  }

  /** Numbers written with one space before each are parsed back, in order. */
  lemma ParseNumberText(xs: seq<nat>)
    ensures ParseNumberList(NumberText(xs)) == Some(xs)
  {
    NumberTextPieces(xs);
    DecimalStringsNonEmpty(xs);
    NonEmptyAppend([""], DecimalStrings(xs));
  }

  /** Runs of spaces are tolerated: an extra space at either end changes nothing. */
  lemma SpacesIgnored(numbersText: string)
    ensures ParseNumberList(" " + numbersText) == ParseNumberList(numbersText)
    ensures ParseNumberList(numbersText + " ") == ParseNumberList(numbersText)
  {
    var pieces := Split(numbersText, ' ');
    assert (" " + numbersText)[1..] == numbersText;
    NonEmptyAppend([""], pieces);
    NonEmptyOfEmpty();
    assert Split(numbersText + " ", ' ') == pieces + [""] by {
      assert numbersText + " " == numbersText + [' '];
      SplitAppendSep(numbersText, ' ');
    }
    NonEmptyAppend(pieces, [""]);
    assert NonEmpty(pieces) + [] == NonEmpty(pieces);
  }

  lemma NonEmptyOfEmpty()
    ensures NonEmpty([""]) == []
  {
    assert [""][1..] == [];
  }

  /** Text `t` without spaces after the last number is glued onto that number's token. */
  lemma {:induction false} NumberTextTailPieces(xs: seq<nat>, t: string)
    requires xs != [] && ' ' !in t
    ensures Split(NumberText(xs) + t, ' ') == [""] + GlueLast(DecimalStrings(xs), t)
  {
    var d := DecimalString(xs[0]);
    var tail := NumberText(xs[1..]) + t;
    NumberTextFront(xs, t);
    DigitsHaveNo(d, ' ');
    if xs[1..] == [] {
      assert tail == t;
      SplitNoSep(d + t, ' ');
      assert DecimalStrings(xs) == [d];
      assert GlueLast([d], t) == [d + t];
    } else {
      NumberTextTailPieces(xs[1..], t);
      TailPiecesCons(d, tail, DecimalStrings(xs[1..]), t);
      assert DecimalStrings(xs) == [d] + DecimalStrings(xs[1..]);
    }
  }

  /** The printed list with `t` after it: a space, the first number, then the rest. */
  lemma NumberTextFront(xs: seq<nat>, t: string)
    requires xs != []
    ensures Split(NumberText(xs) + t, ' ') == [""] + Split(DecimalString(xs[0]) + (NumberText(xs[1..]) + t), ' ')
  {
    var rest := DecimalString(xs[0]) + (NumberText(xs[1..]) + t);
    assert NumberText(xs) + t == [' '] + rest;
    assert ([' '] + rest)[1..] == rest;
  }

  lemma TailPiecesCons(d: string, tail: string, ds: seq<string>, t: string)
    requires ' ' !in d && ds != []
    requires Split(tail, ' ') == [""] + GlueLast(ds, t)
    ensures [""] + Split(d + tail, ' ') == [""] + GlueLast([d] + ds, t)
  {
    SplitPiece(d, ' ', tail);
    assert d + "" == d;
    GlueLastCons(d, ds, t);
  }

  /** `pieces` with `t` appended to the last one. */
  function GlueLast(pieces: seq<string>, t: string): seq<string>
    requires pieces != []
  {
    pieces[..|pieces| - 1] + [pieces[|pieces| - 1] + t]
  }

  lemma GlueLastCons(p: string, pieces: seq<string>, t: string)
    requires pieces != []
    ensures GlueLast([p] + pieces, t) == [p] + GlueLast(pieces, t)
  {
    assert ([p] + pieces)[..|pieces|] == [p] + pieces[..|pieces| - 1];
  }

  /** A number list followed by whitespace other than spaces, such as the line break `readlines()` keeps, reads the same. */
  lemma NumberTextTrailing(xs: seq<nat>, t: string)
    requires xs != [] && AllSpace(t) && ' ' !in t
    ensures ParseNumberList(NumberText(xs) + t) == Some(xs)
  {
    var tokens := GlueLast(DecimalStrings(xs), t);
    NumberTextTailPieces(xs, t);
    TrailingTokens(xs, t);
    NonEmptyAppend([""], tokens);
    NonEmptyOfEmpty();
    assert NonEmpty([""] + tokens) == tokens;
  }

  /** The tokens of a printed list with trailing whitespace are all kept, and each reads as its number. */
  lemma TrailingTokens(xs: seq<nat>, t: string)
    requires xs != [] && AllSpace(t)
    ensures NonEmpty(GlueLast(DecimalStrings(xs), t)) == GlueLast(DecimalStrings(xs), t)
    ensures ParseInts(GlueLast(DecimalStrings(xs), t)) == Some(xs)
  {
    var n := |xs|;
    var ds := DecimalStrings(xs);
    var tokens := GlueLast(ds, t);
    DecimalStringsAt(xs);
    forall i | 0 <= i < n ensures ParseInt(tokens[i]) == Some(xs[i]) && tokens[i] != "" {
      var d := DecimalString(xs[i]);
      if i < n - 1 {
        assert tokens[i] == ds[i] == "" + d + "";
        ParseIntPadded("", xs[i], "");
      } else {
        assert tokens[i] == "" + d + t;
        ParseIntPadded("", xs[i], t);
      }
    }
    ParseIntsOf(tokens, xs);
    NonEmptyKeeps(tokens);
  }

  /** Text without `:` or `|` after a printed card lands after its guessed numbers. */
  lemma CardLineWith(card: Card, t: string)
    requires ':' !in t && '|' !in t
    ensures ParseCard(card.id, CardLine(card) + t) ==
      match ParseNumberList(NumberText(card.guessedNumbers) + t)
      case Some(guessed) => Some(Card(card.id, card.winningNumbers, guessed))
      case None => None
  {
    var prefix := "Card " + DecimalString(card.id);
    var w, g := NumberText(card.winningNumbers), NumberText(card.guessedNumbers) + t;
    DigitsHaveNo(DecimalString(card.id), ':');
    assert ':' !in prefix;
    NumberTextHasNo(card.winningNumbers, ':');
    NumberTextHasNo(card.guessedNumbers, ':');
    NumberTextHasNo(card.winningNumbers, '|');
    NumberTextHasNo(card.guessedNumbers, '|');
    assert CardLine(card) + t == prefix + [':'] + (w + [' ', '|'] + g);
    ParsePrinted(card.id, prefix, w, g);
    SpacesIgnored(w);
    ParseNumberText(card.winningNumbers);
  }

  /** `parse_card` on a line `<prefix>:<w> |<g>` whose parts hold no separator. */
  lemma ParsePrinted(id: nat, prefix: string, w: string, g: string)
    requires ':' !in prefix && ':' !in w && ':' !in g && '|' !in w && '|' !in g
    ensures ParseCard(id, prefix + [':'] + (w + [' ', '|'] + g)) ==
      match (ParseNumberList(w + " "), ParseNumberList(g))
      case (Some(ws), Some(gs)) => Some(Card(id, ws, gs))
      case _ => None
  {
    var rest := w + [' ', '|'] + g;
    SplitAtOnly(prefix, ':', rest);
    assert rest == (w + " ") + ['|'] + g;
    SplitAtOnly(w + " ", '|', g);
    ParseCardOf(id, prefix + [':'] + rest, prefix, rest, w + " ", g);
  }

  /** A string with exactly one separator splits into the two sides. */
  lemma SplitAtOnly(p: string, sep: char, q: string)
    requires sep !in p && sep !in q
    ensures Split(p + [sep] + q, sep) == [p, q]
  {
    SplitAround(p, sep, q);
    SplitNoSep(q, sep);
  }

  /** `parse_card` on a line whose pieces are known. */
  lemma ParseCardOf(id: nat, line: string, before: string, after: string, winning: string, guessed: string)
    requires Split(line, ':') == [before, after] && Split(after, '|') == [winning, guessed]
    ensures ParseCard(id, line) ==
      match (ParseNumberList(winning), ParseNumberList(guessed))
      case (Some(ws), Some(gs)) => Some(Card(id, ws, gs))
      case _ => None
  {
  }

  /**
    Parsing a printed card gives the card back, also with the line break that
    `readlines()` leaves on every line but the last. A card with no guessed
    numbers then ends in a lone line break, which `int()` rejects.
   */
  lemma ParseCardLine(card: Card)
    ensures ParseCard(card.id, CardLine(card)) == Some(card)
    ensures card.guessedNumbers != [] ==> ParseCard(card.id, CardLine(card) + "\n") == Some(card)
    ensures card.guessedNumbers == [] ==> ParseCard(card.id, CardLine(card) + "\n").None?
  {
    PrintedCardParses(card);
    PrintedCardTrailing(card, "\n");
  }

  lemma PrintedCardParses(card: Card)
    ensures ParseCard(card.id, CardLine(card)) == Some(card)
  {
    var g := NumberText(card.guessedNumbers);
    CardLineWith(card, []);
    assert CardLine(card) + [] == CardLine(card);
    assert g + [] == g;
    ParseNumberText(card.guessedNumbers);
  }

  /** Whitespace other than spaces after a printed card is ignored, unless the card guessed nothing. */
  lemma PrintedCardTrailing(card: Card, t: string)
    requires t != [] && AllSpace(t) && ' ' !in t
    ensures card.guessedNumbers != [] ==> ParseCard(card.id, CardLine(card) + t) == Some(card)
    ensures card.guessedNumbers == [] ==> ParseCard(card.id, CardLine(card) + t).None?
  {
    assert ':' !in t && '|' !in t;
    CardLineWith(card, t);
    if card.guessedNumbers != [] {
      NumberTextTrailing(card.guessedNumbers, t);
    } else {
      assert NumberText(card.guessedNumbers) + t == t;
      ParseNumberListBlank(t);
    }
  }

  /** A number list of whitespace without spaces, such as a lone line break, is one token that `int()` rejects. */
  lemma ParseNumberListBlank(text: string)
    requires text != [] && AllSpace(text) && ' ' !in text
    ensures ParseNumberList(text).None?
  {
    SplitNoSep(text, ' ');
    assert NonEmpty([text]) == [text] by {
      assert [text][1..] == [];
    }
    ParseIntBlank(text);
  }

  /** A number list holds a token that `int()` rejects. */
  predicate BadNumbers(text: string)
  {
    exists p :: p in Split(text, ' ') && p != "" && ParseInt(p).None?
  }

  /** `parse_number_list` raises exactly when a non-empty token is not a number. */
  lemma ParseNumberListFails(text: string)
    ensures ParseNumberList(text).None? <==> BadNumbers(text)
  {
    var pieces := Split(text, ' ');
    var kept := NonEmpty(pieces);
    NonEmptyKeeps(pieces);
    ParseIntsSpec(kept);
    if ParseNumberList(text).None? {
      var i :| 0 <= i < |kept| && ParseInt(kept[i]).None?;
      assert kept[i] in kept;
    }
    if BadNumbers(text) {
      var p :| p in pieces && p != "" && ParseInt(p).None?;
      assert p in kept;
      var i :| 0 <= i < |kept| && kept[i] == p;
    }
  }

  /**
    The line has no `:`, or the text after the first `:` (up to any next one)
    does not hold exactly one `|`, or either half holds a token that is not a
    number.
   */
  predicate BadCardText(line: string)
  {
    ':' !in line ||
    (SplitCount(line, ':');
     var after := Split(line, ':')[1];
     multiset(after)['|'] != 1 ||
     (SplitCount(after, '|');
      BadNumbers(Split(after, '|')[0]) || BadNumbers(Split(after, '|')[1])))
  }

  /** `parse_card` raises exactly on a bad card text. */
  lemma ParseCardFails(id: nat, line: string)
    ensures ParseCard(id, line).None? <==> BadCardText(line)
  {
    SplitCount(line, ':');
    if ':' in line {
      var after := Split(line, ':')[1];
      SplitCount(after, '|');
      if multiset(after)['|'] == 1 {
        var halves := Split(after, '|');
        ParseNumberListFails(halves[0]);
        ParseNumberListFails(halves[1]);
      }
    }
  }

  // ----- Part one -----

  /** `set(card.guessed_numbers).intersection(set(card.winning_numbers))`. */
  function CommonNumbers(card: Card): set<nat>
  {
    (set x | x in card.guessedNumbers) * (set x | x in card.winningNumbers)
  }

  /** The size of that intersection. */
  function Matches(card: Card): nat
  {
    |CommonNumbers(card)|
  }

  /** A guessed number seen before adds nothing; a new winning one adds exactly one match. */
  lemma MatchesOnGuess(id: nat, winning: seq<nat>, guessed: seq<nat>, x: nat)
    ensures Matches(Card(id, winning, guessed + [x])) ==
      if x in guessed || x !in winning then Matches(Card(id, winning, guessed)) else Matches(Card(id, winning, guessed)) + 1
  {
    var before := CommonNumbers(Card(id, winning, guessed));
    var after := CommonNumbers(Card(id, winning, guessed + [x]));
    forall y ensures y in after <==> y in before || (y == x && x in winning) {
      assert y in guessed + [x] <==> y in guessed || y == x;
    }
    if x in guessed || x !in winning {
      assert after == before;
    } else {
      assert x !in before;
      assert after == before + {x};
    }
  }

  /** A card has a match exactly when it guessed one of its winning numbers. */
  lemma MatchesPositive(card: Card)
    ensures Matches(card) > 0 <==> exists x :: x in card.guessedNumbers && x in card.winningNumbers
  {
    var common := CommonNumbers(card);
    if Matches(card) > 0 {
      var x :| x in common;
    }
    if exists x :: x in card.guessedNumbers && x in card.winningNumbers {
      var x :| x in card.guessedNumbers && x in card.winningNumbers;
      assert x in common;
    }
  }

  /** `cards_winning_count`. */
  function MatchCounts(cards: seq<Card>): (counts: seq<nat>)
    ensures |counts| == |cards|
    ensures forall i :: 0 <= i < |cards| ==> counts[i] == Matches(cards[i])
  {
    if cards == [] then [] else MatchCounts(cards[..|cards| - 1]) + [Matches(cards[|cards| - 1])]
  }

  function Pow2(n: nat): (p: nat)
    ensures p >= 1
  {
    if n == 0 then 1 else 2 * Pow2(n - 1)
  }

  /** `[pow(2, k - 1) for k in counts if k > 0]`. */
  function Scores(counts: seq<nat>): seq<int>
  {
    if counts == [] then []
    else
      var front := Scores(counts[..|counts| - 1]);
      var k := counts[|counts| - 1];
      if k > 0 then front + [Pow2(k - 1)] else front
  }

  /** `part_one`. */
  function PartOne(cards: seq<Card>): int
  {
    Sum(Scores(MatchCounts(cards)))
  }

  /** The score of a card with `k` matches: nothing without a match, then 1, 2, 4, ... */
  function Points(k: nat): nat
  {
    if k == 0 then 0 else Pow2(k - 1)
  }

  /** Each further match doubles the points; a card scores at least as many points as it has matches. */
  lemma {:induction false} PointsDouble(k: nat)
    ensures k >= 1 ==> Points(k + 1) == 2 * Points(k)
    ensures Points(k) >= k
  {
    if k >= 2 {
      PointsDouble(k - 1);
    }
  }

  /** Part one adds up, card by card, the points of each card. */
  lemma {:induction false} PartOneByCard(cards: seq<Card>)
    requires cards != []
    ensures PartOne(cards) == PartOne(cards[..|cards| - 1]) + Points(Matches(cards[|cards| - 1]))
  {
    var counts := MatchCounts(cards);
    assert counts[..|counts| - 1] == MatchCounts(cards[..|cards| - 1]);
    var front := Scores(counts[..|counts| - 1]);
    if Matches(cards[|cards| - 1]) > 0 {
      SumSnoc(front, Pow2(Matches(cards[|cards| - 1]) - 1));
    }
  }

  /** The total is zero exactly when no card has a match, and otherwise at least the number of matches of any card. */
  lemma {:induction false} PartOneZeroIff(cards: seq<Card>)
    ensures PartOne(cards) >= 0
    ensures PartOne(cards) == 0 <==> forall i :: 0 <= i < |cards| ==> Matches(cards[i]) == 0
    ensures forall i :: 0 <= i < |cards| ==> PartOne(cards) >= Matches(cards[i])
  {
    if cards != [] {
      var front := cards[..|cards| - 1];
      var last := Matches(cards[|cards| - 1]);
      PartOneZeroIff(front);
      PartOneByCard(cards);
      PointsDouble(last);
      assert forall i :: 0 <= i < |front| ==> front[i] == cards[i];
    }
  }

  // ----- Part two -----

  /** `cards_copies` after processing the first `done` cards. */
  function Copies(counts: seq<nat>, done: nat): (copies: seq<int>)
    requires done <= |counts|
    ensures |copies| == |counts|
  {
    if done == 0 then seq(|counts|, _ => 1)
    else
      var before := Copies(counts, done - 1);
      var idx := done - 1;
      AddToRange(before, idx + 1, Clip(idx + 1 + counts[idx], |counts|), before[idx])
  }

  /** The end of a slice `[lo:hi]` on a list of length `n`, clipped as Python clips it. */
  function Clip(hi: int, n: nat): nat
  {
    if hi < 0 then 0 else if hi > n then n else hi
  }

  /** `s` with `v` added to the positions `lo .. hi - 1`, and nothing else changed. */
  function AddToRange(s: seq<int>, lo: int, hi: int, v: int): (r: seq<int>)
    ensures |r| == |s|
  {
    seq(|s|, j requires 0 <= j < |s| => if lo <= j < hi then s[j] + v else s[j])
  }

  /**
    The copies of card `j`, counted independently of the array: the original
    plus every copy of each earlier card `i` whose matches reach `j`.
   */
  function Won(counts: seq<nat>, j: nat): int
    requires j < |counts|
    decreases j, 1, 0
  {
    1 + WonFrom(counts, j, j)
  }

  /** The copies card `j` wins from the cards before position `m`. */
  function WonFrom(counts: seq<nat>, j: nat, m: nat): int
    requires m <= j < |counts|
    decreases j, 0, m
  {
    if m == 0 then 0
    else WonFrom(counts, j, m - 1) + (if j <= m - 1 + counts[m - 1] then Won(counts, m - 1) else 0)
  }

  /** Before card `j` is processed it holds its original copy plus what earlier cards gave it; afterwards it is final. */
  lemma {:induction false} CopiesAreWon(counts: seq<nat>, done: nat, j: nat)
    requires done <= |counts| && j < |counts|
    ensures done <= j ==> Copies(counts, done)[j] == 1 + WonFrom(counts, j, done)
    ensures done > j ==> Copies(counts, done)[j] == Won(counts, j)
  {
    if done > 0 {
      var idx := done - 1;
      CopiesAreWon(counts, idx, j);
      if idx < j {
        CopiesAreWon(counts, idx, idx);
      }
    }
  }

  /** Copies are never removed: every entry is at least one at every stage. */
  lemma {:induction false} CopiesAtLeastOne(counts: seq<nat>, done: nat)
    requires done <= |counts|
    ensures forall j :: 0 <= j < |counts| ==> Copies(counts, done)[j] >= 1
  {
    if done > 0 {
      CopiesAtLeastOne(counts, done - 1);
    }
  }

  /** The processing of card `idx` changes only the next `counts[idx]` entries, and no entry decreases. */
  lemma CopiesStep(counts: seq<nat>, idx: nat, j: nat)
    requires idx < |counts| && j < |counts|
    ensures (j <= idx || j > idx + counts[idx]) ==> Copies(counts, idx + 1)[j] == Copies(counts, idx)[j]
    ensures Copies(counts, idx + 1)[j] >= Copies(counts, idx)[j]
  {
    CopiesAtLeastOne(counts, idx);
  }

  /** Adds card `idx`'s copies to the next `count` cards: `cards_copies[idx+1:idx+1+count] += cards_copies[idx]`. */
  method AddCopies(copies: array<int>, idx: nat, count: nat)
    requires idx < copies.Length
    modifies copies
    ensures copies[..] == AddToRange(old(copies[..]), idx + 1, Clip(idx + 1 + count, copies.Length), old(copies[idx]))
  {
    var v := copies[idx];
    var hi := Clip(idx + 1 + count, copies.Length);
    var j := idx + 1;
    while j < hi
      invariant idx + 1 <= j <= hi
      invariant copies[..] == AddToRange(old(copies[..]), idx + 1, j, v)
    {
      copies[j] := copies[j] + v;
      j := j + 1;
    }
  }

  /** `part_two`: the total number of cards held once every won copy is counted. */
  method PartTwo(cards: seq<Card>) returns (total: int)
    ensures total == Sum(Copies(MatchCounts(cards), |cards|))
  {
    total := TotalCopies(MatchCounts(cards));
  }

  /** The loop of `part_two` over the match counts, on the `cards_copies` array. */
  method TotalCopies(counts: seq<nat>) returns (total: int)
    ensures total == Sum(Copies(counts, |counts|))
  {
    var copies := new int[|counts|](_ => 1);
    assert copies[..] == Copies(counts, 0);
    for idx := 0 to |counts|
      invariant copies[..] == Copies(counts, idx)
    {
      AddCopies(copies, idx, counts[idx]);
    }
    total := Sum(copies[..]);
  }

  /** Every card ends with its won copies, and the total is at least the number of cards. */
  lemma PartTwoTotal(cards: seq<Card>)
    ensures forall j :: 0 <= j < |cards| ==> Copies(MatchCounts(cards), |cards|)[j] == Won(MatchCounts(cards), j)
    ensures Sum(Copies(MatchCounts(cards), |cards|)) >= |cards|
  {
    var counts := MatchCounts(cards);
    forall j | 0 <= j < |cards| ensures Copies(counts, |cards|)[j] == Won(counts, j) {
      CopiesAreWon(counts, |cards|, j);
    }
    CopiesAtLeastOne(counts, |cards|);
    SumAtLeastLength(Copies(counts, |cards|));
  }
}
