/**
  Shared vocabulary of the puzzle models: an optional result standing for a
  Python exception, sums of integer lists, decimal digits and `str.split`
  on a one-character separator.
 */
module Common {

  /** `None` stands for the point where the Python code raises. */
  datatype Option<T> = None | Some(value: T)

  /** An integer answer, or `Raises` where the Python code raises. */
  datatype Outcome = Raises | Returns(value: int)

  /** `sum(xs)`, accumulated from the left as the scripts' loops do. */
  function Sum(xs: seq<int>): int
  {
    if xs == [] then 0 else Sum(xs[..|xs| - 1]) + xs[|xs| - 1]
  }

  lemma {:induction false} SumAppend(xs: seq<int>, ys: seq<int>)
    ensures Sum(xs + ys) == Sum(xs) + Sum(ys)
  {
    if ys != [] {
      assert (xs + ys)[..|xs + ys| - 1] == xs + ys[..|ys| - 1];
      SumAppend(xs, ys[..|ys| - 1]);
    } else {
      assert xs + ys == xs;
    }
  }

  lemma SumSnoc(xs: seq<int>, x: int)
    ensures Sum(xs + [x]) == Sum(xs) + x
  {
    assert (xs + [x])[..|xs|] == xs;
  }

  /** A sum of non-negative terms is at least the number of terms when every term is at least one. */
  lemma {:induction false} SumAtLeastLength(xs: seq<int>)
    requires forall i :: 0 <= i < |xs| ==> xs[i] >= 1
    ensures Sum(xs) >= |xs|
  {
    if xs != [] {
      SumAtLeastLength(xs[..|xs| - 1]);
    }
  }

  /** The characters `'0'..'9'`; Python's Unicode `isdigit` is narrowed to these. */
  predicate IsDigit(c: char)
  {
    '0' <= c <= '9'
  }

  function DigitValue(c: char): (d: nat)
    requires IsDigit(c)
    ensures d <= 9
  {
    (c as int) - ('0' as int)
  }

  function DigitChar(d: nat): (c: char)
    requires d <= 9
    ensures IsDigit(c) && DigitValue(c) == d
  {
    (('0' as int) + d) as char
  }

  predicate AllDigits(s: string)
  {
    forall i :: 0 <= i < |s| ==> IsDigit(s[i])
  }

  /** `int(s)` for a non-empty string of decimal digits. */
  function DecimalValue(s: string): nat
    requires AllDigits(s)
  {
    if s == [] then 0 else 10 * DecimalValue(s[..|s| - 1]) + DigitValue(s[|s| - 1])
  }

  /** The decimal digits of `n`, most significant first, without leading zeros (`str(n)`). */
  function DecimalString(n: nat): (s: string)
    ensures |s| >= 1 && AllDigits(s)
    decreases n
  {
    if n < 10 then [DigitChar(n)] else DecimalString(n / 10) + [DigitChar(n % 10)]
  }

  lemma {:induction false} DecimalRoundTrip(n: nat)
    ensures DecimalValue(DecimalString(n)) == n
    decreases n
  {
    if n >= 10 {
      DecimalRoundTrip(n / 10);
      var s := DecimalString(n);
      assert s[..|s| - 1] == DecimalString(n / 10);
    }
  }

  /** `[c for c in s if c.isdigit()]`: the digits of `s`, in order. */
  function Digits(s: string): (r: string)
    ensures AllDigits(r) && |r| <= |s|
  {
    if s == [] then []
    else if IsDigit(s[0]) then [s[0]] + Digits(s[1..])
    else Digits(s[1..])
  }

  /** Exactly the digit characters of `s` are collected. */
  lemma {:induction false} DigitsMembers(s: string)
    ensures forall c :: c in Digits(s) <==> c in s && IsDigit(c)
  {
    if s != [] {
      DigitsMembers(s[1..]);
      assert forall c :: c in s <==> c == s[0] || c in s[1..];
    }
  }

  /** `s.split(sep)`: the pieces between occurrences of `sep`, empty pieces included. */
  function Split(s: string, sep: char): (pieces: seq<string>)
    ensures |pieces| >= 1
    ensures forall i :: 0 <= i < |pieces| ==> sep !in pieces[i]
  {
    if s == [] then [""]
    else
      var rest := Split(s[1..], sep);
      if s[0] == sep then [""] + rest
      else [[s[0]] + rest[0]] + rest[1..]
  }

  /** There is one more piece than occurrences of the separator. */
  lemma {:induction false} SplitCount(s: string, sep: char)
    ensures |Split(s, sep)| == multiset(s)[sep] + 1
  {
    if s != [] {
      SplitCount(s[1..], sep);
      assert s == [s[0]] + s[1..];
    }
  }

  /** Digits are collected piecewise: the digits of a concatenation are those of each part, in order. */
  lemma {:induction false} DigitsAppend(a: string, b: string)
    ensures Digits(a + b) == Digits(a) + Digits(b)
  {
    if a == [] {
      assert a + b == b;
    } else {
      DigitsAppend(a[1..], b);
      assert (a + b)[1..] == a[1..] + b;
      if IsDigit(a[0]) {
        assert [a[0]] + (Digits(a[1..]) + Digits(b)) == ([a[0]] + Digits(a[1..])) + Digits(b);
      }
    }
  }

  /** The first digit collected is the digit at the first digit position of `s`. */
  lemma {:induction false} DigitsFirst(s: string)
    ensures Digits(s) != [] ==> exists i :: 0 <= i < |s| && FirstDigitAt(s, i) && Digits(s)[0] == s[i]
  {
    if s != [] && Digits(s) != [] {
      if IsDigit(s[0]) {
        assert FirstDigitAt(s, 0);
      } else {
        DigitsFirst(s[1..]);
        var i :| 0 <= i < |s[1..]| && FirstDigitAt(s[1..], i) && Digits(s[1..])[0] == s[1..][i];
        assert FirstDigitAt(s, i + 1);
      }
    }
  }

  /** The last digit collected is the digit at the last digit position of `s`. */
  lemma {:induction false} DigitsLast(s: string)
    ensures Digits(s) != [] ==> exists j :: 0 <= j < |s| && LastDigitAt(s, j) && Digits(s)[|Digits(s)| - 1] == s[j]
  {
    if s != [] && Digits(s) != [] {
      var rest := Digits(s[1..]);
      if rest == [] {
        DigitsMembers(s[1..]);
        assert forall k :: 1 <= k < |s| ==> s[k] == s[1..][k - 1] && s[1..][k - 1] in s[1..];
        assert LastDigitAt(s, 0);
      } else {
        var t := s[1..];
        DigitsLast(t);
        var j :| 0 <= j < |t| && LastDigitAt(t, j) && Digits(t)[|Digits(t)| - 1] == t[j];
        var d := Digits(s);
        assert d == rest || d == [s[0]] + rest;
        assert d[|d| - 1] == rest[|rest| - 1];
        assert forall k :: j + 1 < k < |s| ==> s[k] == t[k - 1];
        assert LastDigitAt(s, j + 1);
      }
    }
  }

  /** Position `i` holds the first digit of `s`. */
  predicate FirstDigitAt(s: string, i: int)
  {
    0 <= i < |s| && IsDigit(s[i]) && forall k :: 0 <= k < i ==> !IsDigit(s[k])
  }

  /** Position `j` holds the last digit of `s`. */
  predicate LastDigitAt(s: string, j: int)
  {
    0 <= j < |s| && IsDigit(s[j]) && forall k :: j < k < |s| ==> !IsDigit(s[k])
  }

  /** `sep.join(pieces)`. */
  function Join(pieces: seq<string>, sep: char): string
    requires |pieces| >= 1
  {
    if |pieces| == 1 then pieces[0] else pieces[0] + [sep] + Join(pieces[1..], sep)
  }

  /** Splitting loses nothing: joining the pieces back gives the original string. */
  lemma {:induction false} JoinSplit(s: string, sep: char)
    ensures Join(Split(s, sep), sep) == s
  {
    if s != [] {
      JoinSplit(s[1..], sep);
      var rest := Split(s[1..], sep);
      if s[0] != sep && |rest| > 1 {
        assert Split(s, sep)[1..] == rest[1..];
      }
    }
  }

  /** Splitting a join of separator-free pieces gives the pieces back. */
  lemma {:induction false} SplitJoin(pieces: seq<string>, sep: char)
    requires |pieces| >= 1
    requires forall i :: 0 <= i < |pieces| ==> sep !in pieces[i]
    ensures Split(Join(pieces, sep), sep) == pieces
  {
    if |pieces| == 1 {
      SplitPiece(pieces[0], sep, []);
      assert pieces[0] + [] == pieces[0];
    } else {
      var tail := [sep] + Join(pieces[1..], sep);
      SplitJoin(pieces[1..], sep);
      SplitPiece(pieces[0], sep, tail);
      assert tail[1..] == Join(pieces[1..], sep);
      assert Split(tail, sep) == [""] + pieces[1..];
      assert Join(pieces, sep) == pieces[0] + tail;
      assert pieces[0] + "" == pieces[0];
      assert pieces == [pieces[0]] + pieces[1..];
    }
  }

  /** A separator-free prefix is glued onto the first piece of what follows. */
  lemma {:induction false} SplitPiece(p: string, sep: char, t: string)
    requires sep !in p
    ensures Split(p + t, sep) == [p + Split(t, sep)[0]] + Split(t, sep)[1..]
  {
    if p != [] {
      var r := Split(t, sep);
      SplitPiece(p[1..], sep, t);
      assert (p + t)[1..] == p[1..] + t;
      assert [p[0]] + (p[1..] + r[0]) == p + r[0];
    } else {
      var r := Split(t, sep);
      assert p + t == t;
      assert p + r[0] == r[0];
      assert r == [r[0]] + r[1..];
    }
  }

  /** A string without the separator splits into itself alone. */
  lemma SplitNoSep(s: string, sep: char)
    requires sep !in s
    ensures Split(s, sep) == [s]
  {
    SplitPiece(s, sep, []);
    assert s + [] == s;
    assert s + "" == s;
  }

  /** Splitting at a first separator: the separator-free front, then the pieces of the rest. */
  lemma SplitAround(p: string, sep: char, q: string)
    requires sep !in p
    ensures Split(p + [sep] + q, sep) == [p] + Split(q, sep)
  {
    SplitPiece(p, sep, [sep] + q);
    assert ([sep] + q)[1..] == q;
    assert p + [sep] + q == p + ([sep] + q);
    assert p + "" == p;
  }

  /** A trailing separator adds one empty piece at the end. */
  lemma {:induction false} SplitAppendSep(s: string, sep: char)
    ensures Split(s + [sep], sep) == Split(s, sep) + [""]
  {
    if s == [] {
      assert Split([sep], sep) == [""] + Split([], sep);
    } else {
      SplitAppendSep(s[1..], sep);
      assert (s + [sep])[1..] == s[1..] + [sep];
    }
  }
}
