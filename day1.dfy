/**
  Day 1 (Trebuchet?!): each line's calibration value is its first and last
  digit read as a two-digit number (`part_one`); `part_two` first rewrites
  each spelled-out digit word `w` as `w`, its digit, `w`.
 */
module Day1Trebuchet {
  import opened Common

  /** `CONVERTING_RULES`, in its dictionary order. */
  function Rules(): seq<(string, char)>
  {
    [("one", '1'), ("two", '2'), ("three", '3'), ("four", '4'), ("five", '5'),
     ("six", '6'), ("seven", '7'), ("eight", '8'), ("nine", '9')]
  }

  /** `int(digits[0] + digits[-1])` for a line, or `Raises` (`ValueError`) when it has no digit. */
  function LineValue(line: string): Outcome
  {
    var digits := Digits(line);
    if |digits| == 0 then Raises
    else Returns(DecimalValue([digits[0], digits[|digits| - 1]]))
  }

  /** The value is ten times the first digit plus the last, so at most 99; a single digit counts twice. */
  lemma LineValueDigits(line: string)
    ensures LineValue(line).Raises? <==> forall i :: 0 <= i < |line| ==> !IsDigit(line[i])
    ensures LineValue(line).Returns? ==>
      LineValue(line).value == 10 * DigitValue(Digits(line)[0]) + DigitValue(Digits(line)[|Digits(line)| - 1])
    ensures LineValue(line).Returns? ==> LineValue(line).value <= 99
    ensures |Digits(line)| == 1 ==> LineValue(line).value == 11 * DigitValue(Digits(line)[0])
  {
    NoDigitIff(line);
    var d := Digits(line);
    if |d| != 0 {
      TwoDigits(d[0], d[|d| - 1]);
    }
  }

  /** No digit is read from a line exactly when none of its characters is a digit. */
  lemma NoDigitIff(line: string)
    ensures |Digits(line)| == 0 <==> forall i :: 0 <= i < |line| ==> !IsDigit(line[i])
  {
    DigitsMembers(line);
    var d := Digits(line);
    if |d| == 0 {
      forall i | 0 <= i < |line| ensures !IsDigit(line[i]) {
        assert line[i] in line;
      }
    } else {
      assert d[0] in d;
    }
  }

  /** The value read through the positions of the first and the last digit of the line. */
  lemma LineValueAt(line: string)
    ensures LineValue(line).Returns? ==> exists i, j ::
      FirstDigitAt(line, i) && LastDigitAt(line, j) && LineValue(line).value == 10 * DigitValue(line[i]) + DigitValue(line[j])
  {
    var d := Digits(line);
    if d != [] {
      DigitsFirst(line);
      DigitsLast(line);
      var i :| 0 <= i < |line| && FirstDigitAt(line, i) && d[0] == line[i];
      var j :| 0 <= j < |line| && LastDigitAt(line, j) && d[|d| - 1] == line[j];
      TwoDigits(line[i], line[j]);
      assert LineValue(line).value == 10 * DigitValue(line[i]) + DigitValue(line[j]);
    }
  }

  lemma TwoDigits(a: char, b: char)
    requires IsDigit(a) && IsDigit(b)
    ensures DecimalValue([a, b]) == 10 * DigitValue(a) + DigitValue(b)
  {
    var pair := [a, b];
    assert pair[..|pair| - 1] == [a] && pair[|pair| - 1] == b;
    assert [a][..0] == [];
    assert DecimalValue([a]) == DigitValue(a);
  }

  /** The line as the digits are read from it: as given in part one, rewritten in part two. */
  function Prepared(line: string, rewrite: bool): string
  {
    if rewrite then Rewrite(line) else line
  }

  /** `calibration_sum` after one more line's value, or the raise at that line. */
  function AddLine(sum: Outcome, value: Outcome): Outcome
  {
    if sum.Returns? && value.Returns? then Returns(sum.value + value.value) else Raises
  }

  /** The calibration sum over the lines, raising at the first line without a digit. */
  function CalibrationSum(lines: seq<string>, rewrite: bool): Outcome
  {
    if lines == [] then Returns(0)
    else AddLine(CalibrationSum(lines[..|lines| - 1], rewrite), LineValue(Prepared(lines[|lines| - 1], rewrite)))
  }

  /** The sum raises exactly when some line (after rewriting, in part two) has no digit. */
  lemma {:induction false} CalibrationSumRaisesIff(lines: seq<string>, rewrite: bool)
    ensures CalibrationSum(lines, rewrite).Raises? <==>
      exists i :: 0 <= i < |lines| && LineValue(Prepared(lines[i], rewrite)).Raises?
  {
    if lines != [] {
      var front := lines[..|lines| - 1];
      CalibrationSumRaisesIff(front, rewrite);
      assert forall i :: 0 <= i < |front| ==> front[i] == lines[i];
    }
  }

  /** Every line is worth at most 99, so the sum is at most 99 per line. */
  lemma {:induction false} CalibrationSumBound(lines: seq<string>, rewrite: bool)
    ensures CalibrationSum(lines, rewrite).Returns? ==> 0 <= CalibrationSum(lines, rewrite).value <= 99 * |lines|
  {
    if lines != [] {
      CalibrationSumBound(lines[..|lines| - 1], rewrite);
      LineValueDigits(Prepared(lines[|lines| - 1], rewrite));
    }
  }

  lemma CalibrationSumStep(lines: seq<string>, k: nat, rewrite: bool)
    requires k < |lines|
    ensures CalibrationSum(lines[..k + 1], rewrite) ==
      AddLine(CalibrationSum(lines[..k], rewrite), LineValue(Prepared(lines[k], rewrite)))
  {
    assert lines[..k + 1][..k] == lines[..k];
  }

  lemma {:induction false} CalibrationSumPrefixRaises(lines: seq<string>, k: nat, rewrite: bool)
    requires k <= |lines| && CalibrationSum(lines[..k], rewrite).Raises?
    ensures CalibrationSum(lines, rewrite).Raises?
    decreases |lines| - k
  {
    if k < |lines| {
      CalibrationSumStep(lines, k, rewrite);
      CalibrationSumPrefixRaises(lines, k + 1, rewrite);
    } else {
      assert lines[..k] == lines;
    }
  }

  /** `part_one`. */
  method PartOne(calibrationValues: seq<string>) returns (r: Outcome)
    ensures r == CalibrationSum(calibrationValues, false)
  {
    var calibrationSum := 0;
    for k := 0 to |calibrationValues|
      invariant CalibrationSum(calibrationValues[..k], false) == Returns(calibrationSum)
    {
      var line := calibrationValues[k];
      CalibrationSumStep(calibrationValues, k, false);
      assert Prepared(line, false) == line;
      var value := LineValue(line);
      if value.Raises? {
        CalibrationSumPrefixRaises(calibrationValues, k + 1, false);
        return Raises;
      }
      calibrationSum := calibrationSum + value.value;
    }
    assert calibrationValues[..|calibrationValues|] == calibrationValues;
    r := Returns(calibrationSum);
  }

  // ----- part_two's rewriting -----

  /** `s.replace(key, rep)`: every occurrence of `key`, scanning left to right without overlap, becomes `rep`. */
  function Replace(s: string, key: string, rep: string): string
    requires key != []
  {
    if |s| < |key| then s
    else if s[..|key|] == key then rep + Replace(s[|key|..], key, rep)
    else [s[0]] + Replace(s[1..], key, rep)
  }

  /** The rules applied in order from rule `k` on: `line = line.replace(key, key + value + key)`. */
  function RewriteFrom(line: string, k: nat): string
    requires k <= |Rules()|
    decreases |Rules()| - k
  {
    if k == |Rules()| then line
    else
      var (key, value) := Rules()[k];
      RewriteFrom(Replace(line, key, key + [value] + key), k + 1)
  }

  function Rewrite(line: string): string
  {
    RewriteFrom(line, 0)
  }

  /** `a` can be obtained from `b` by deleting characters. */
  predicate Subsequence(a: string, b: string)
    decreases |b|
  {
    a == [] || (b != [] && (Subsequence(a, b[1..]) || (a[0] == b[0] && Subsequence(a[1..], b[1..]))))
  }

  lemma {:induction false} SubsequencePrefix(a: string, c: string, b: string)
    requires Subsequence(a, b)
    ensures Subsequence(a, c + b)
  {
    if c != [] {
      SubsequencePrefix(a, c[1..], b);
      assert (c + b)[1..] == c[1..] + b;
      assert Subsequence(a, (c + b)[1..]);
    } else {
      assert c + b == b;
    }
  }

  lemma {:induction false} SubsequenceRefl(a: string)
    ensures Subsequence(a, a)
  {
    if a != [] {
      SubsequenceRefl(a[1..]);
    }
  }

  /** Keeping a common front: `p + a` is a subsequence of `p + b` when `a` is one of `b`. */
  lemma {:induction false} SubsequenceCommonFront(p: string, a: string, b: string)
    requires Subsequence(a, b)
    ensures Subsequence(p + a, p + b)
  {
    if p != [] {
      SubsequenceCommonFront(p[1..], a, b);
      assert (p + a)[1..] == p[1..] + a;
      assert (p + b)[1..] == p[1..] + b;
      assert (p + a)[0] == (p + b)[0];
      assert Subsequence((p + a)[1..], (p + b)[1..]);
    } else {
      assert p + a == a && p + b == b;
    }
  }

  lemma {:induction false} SubsequenceTrans(a: string, b: string, c: string)
    requires Subsequence(a, b) && Subsequence(b, c)
    ensures Subsequence(a, c)
    decreases |c|
  {
    if a != [] {
      if Subsequence(b, c[1..]) {
        SubsequenceTrans(a, b, c[1..]);
      } else if Subsequence(a, b[1..]) {
        SubsequenceTrans(a, b[1..], c[1..]);
      } else {
        SubsequenceTrans(a[1..], b[1..], c[1..]);
      }
    }
  }

  /** Replacing `key` by a text that starts with `key` only inserts characters. */
  lemma {:induction false} ReplaceInserts(s: string, key: string, tail: string)
    requires key != []
    ensures Subsequence(s, Replace(s, key, key + tail))
    decreases |s|
  {
    if |s| < |key| {
      SubsequenceRefl(s);
    } else if s[..|key|] == key {
      var rest := s[|key|..];
      ReplaceInserts(rest, key, tail);
      SubsequencePrefix(rest, tail, Replace(rest, key, key + tail));
      SubsequenceCommonFront(key, rest, tail + Replace(rest, key, key + tail));
      assert s == key + rest;
      assert key + tail + Replace(rest, key, key + tail) == key + (tail + Replace(rest, key, key + tail));
    } else {
      ReplaceInserts(s[1..], key, tail);
      SubsequenceCommonFront([s[0]], s[1..], Replace(s[1..], key, key + tail));
      assert s == [s[0]] + s[1..];
    }
  }

  /** The whole rewrite only inserts characters: the line is a subsequence of its rewrite. */
  lemma {:induction false} RewriteInserts(line: string, k: nat)
    requires k <= |Rules()|
    ensures Subsequence(line, RewriteFrom(line, k))
    decreases |Rules()| - k
  {
    if k == |Rules()| {
      SubsequenceRefl(line);
    } else {
      var (key, value) := Rules()[k];
      var next := Replace(line, key, key + [value] + key);
      assert key + [value] + key == key + ([value] + key);
      ReplaceInserts(line, key, [value] + key);
      RewriteInserts(next, k + 1);
      SubsequenceTrans(line, next, RewriteFrom(next, k + 1));
    }
  }

  /** Deleting characters from a line deletes digits from its digits. */
  lemma {:induction false} DigitsSubsequence(a: string, b: string)
    requires Subsequence(a, b)
    ensures Subsequence(Digits(a), Digits(b))
    decreases |b|
  {
    if a == [] {
    } else if Subsequence(a, b[1..]) {
      DigitsSubsequence(a, b[1..]);
      if IsDigit(b[0]) {
        SubsequencePrefix(Digits(a), [b[0]], Digits(b[1..]));
      }
    } else {
      DigitsSubsequence(a[1..], b[1..]);
      if IsDigit(b[0]) {
        SubsequenceCommonFront([b[0]], Digits(a[1..]), Digits(b[1..]));
      }
    }
  }

  /** The line's own digits survive the rewrite in their order, so a line with a digit never raises in part two. */
  lemma RewriteKeepsDigits(line: string)
    ensures Subsequence(Digits(line), Digits(Rewrite(line)))
    ensures LineValue(line).Returns? ==> LineValue(Rewrite(line)).Returns?
  {
    RewriteInserts(line, 0);
    DigitsSubsequence(line, Rewrite(line));
  }

  /** `key` occurs in `s` starting at index `i`. */
  predicate OccursAt(s: string, key: string, i: nat)
  {
    i + |key| <= |s| && s[i..i + |key|] == key
  }

  /** Replacing a key that does not occur changes nothing. */
  lemma {:induction false} ReplaceAbsent(s: string, key: string, rep: string)
    requires key != []
    requires forall i: nat :: !OccursAt(s, key, i)
    ensures Replace(s, key, rep) == s
    decreases |s|
  {
    if |s| >= |key| {
      assert !OccursAt(s, key, 0);
      forall i: nat ensures !OccursAt(s[1..], key, i) {
        assert !OccursAt(s, key, i + 1);
        if i + |key| <= |s[1..]| {
          assert s[1..][i..i + |key|] == s[i + 1..i + 1 + |key|];
        }
      }
      ReplaceAbsent(s[1..], key, rep);
    }
  }

  /** A line holding no digit word is left as it is, so part two reads it as part one does. */
  lemma {:induction false} RewriteWithoutWords(line: string, k: nat)
    requires k <= |Rules()|
    requires forall j, i: nat :: k <= j < |Rules()| ==> !OccursAt(line, Rules()[j].0, i)
    ensures RewriteFrom(line, k) == line
    ensures k == 0 ==> LineValue(Rewrite(line)) == LineValue(line)
    decreases |Rules()| - k
  {
    if k < |Rules()| {
      var (key, value) := Rules()[k];
      ReplaceAbsent(line, key, key + [value] + key);
      RewriteWithoutWords(line, k + 1);
    }
  }

  /** A key at the front of the text is replaced there. */
  lemma ReplaceFront(key: string, rest: string, rep: string)
    requires key != []
    ensures Replace(key + rest, key, rep) == rep + Replace(rest, key, rep)
  {
    assert (key + rest)[..|key|] == key;
    assert (key + rest)[|key|..] == rest;
  }

  /** The line after the first `k` rules, as the loop over the rules holds it. */
  function Stage(line: string, k: nat): string
    requires k <= |Rules()|
  {
    if k == 0 then line
    else
      var (key, value) := Rules()[k - 1];
      Replace(Stage(line, k - 1), key, key + [value] + key)
  }

  lemma {:induction false} StageThenRest(line: string, k: nat)
    requires k <= |Rules()|
    ensures RewriteFrom(Stage(line, k), k) == Rewrite(line)
  {
    if k > 0 {
      StageThenRest(line, k - 1);
    }
  }

  /** Where `key` occurs, the replacement is made somewhere: the digit appears in the result. */
  lemma {:induction false} ReplaceInsertsDigit(s: string, key: string, d: char, i: nat)
    requires key != [] && OccursAt(s, key, i)
    ensures d in Replace(s, key, key + [d] + key)
    decreases |s|
  {
    var rep := key + [d] + key;
    if s[..|key|] == key {
      assert rep[|key|] == d;
    } else {
      assert i > 0;
      assert s[1..][i - 1..i - 1 + |key|] == s[i..i + |key|];
      ReplaceInsertsDigit(s[1..], key, d, i - 1);
    }
  }

  /** A digit word present when its rule is applied puts its digit among the rewritten line's digits, after all later rules. */
  lemma WordYieldsDigit(line: string, j: nat, i: nat)
    requires j < |Rules()| && OccursAt(Stage(line, j), Rules()[j].0, i)
    ensures Rules()[j].1 in Digits(Rewrite(line))
  {
    var (key, value) := Rules()[j];
    var next := Stage(line, j + 1);
    ReplaceInsertsDigit(Stage(line, j), key, value, i);
    assert value in next && IsDigit(value);
    DigitsMembers(next);
    assert value in Digits(next);
    RewriteInserts(next, j + 1);
    DigitsSubsequence(next, RewriteFrom(next, j + 1));
    SubsequenceKeepsMembers(Digits(next), Digits(RewriteFrom(next, j + 1)), value);
    StageThenRest(line, j + 1);
  }

  lemma {:induction false} SubsequenceKeepsMembers(a: string, b: string, c: char)
    requires Subsequence(a, b) && c in a
    ensures c in b
    decreases |b|
  {
    if Subsequence(a, b[1..]) {
      SubsequenceKeepsMembers(a, b[1..], c);
    } else if c != a[0] {
      assert c in a[1..];
      SubsequenceKeepsMembers(a[1..], b[1..], c);
    }
  }

  /** "one", the first rule, yields a 1 wherever it stands in the line. */
  lemma FirstWordYieldsDigit(line: string, i: nat)
    requires OccursAt(line, "one", i)
    ensures '1' in Digits(Rewrite(line))
  {
    WordYieldsDigit(line, 0, i);
  }

  /** Part two's rewrite of one line, rule after rule, as the inner loop does it. */
  method RewriteLine(line: string) returns (rewritten: string)
    ensures rewritten == Rewrite(line)
  {
    var rules := Rules();
    rewritten := line;
    for k := 0 to |rules|
      invariant RewriteFrom(rewritten, k) == Rewrite(line)
    {
      var (key, value) := rules[k];
      rewritten := Replace(rewritten, key, key + [value] + key);
    }
  }

  /** `part_two`. */
  method PartTwo(calibrationValues: seq<string>) returns (r: Outcome)
    ensures r == CalibrationSum(calibrationValues, true)
  {
    var calibrationSum := 0;
    for k := 0 to |calibrationValues|
      invariant CalibrationSum(calibrationValues[..k], true) == Returns(calibrationSum)
    {
      var line := RewriteLine(calibrationValues[k]);
      CalibrationSumStep(calibrationValues, k, true);
      var value := LineValue(line);
      if value.Raises? {
        CalibrationSumPrefixRaises(calibrationValues, k + 1, true);
        return Raises;
      }
      calibrationSum := calibrationSum + value.value;
    }
    assert calibrationValues[..|calibrationValues|] == calibrationValues;
    r := Returns(calibrationSum);
  }
}
