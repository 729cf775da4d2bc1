/**
 * String primitives with the JavaScript semantics the application relies on:
 * `String.prototype.split` with a one-character separator, `Array.prototype.join`,
 * `trim`, `includes`, `startsWith`, the regular-expression class `\s`, ASCII case
 * mapping, and decimal rendering of integers.
 */
module Strings {

  /** The characters matched by the regular-expression class `\s`; `trim` strips the same set. */
  predicate IsSpace(c: char) {
    || c == ' ' || c == '\t' || c == '\n' || c == '\r' || c == '\U{000B}' || c == '\U{000C}'
    || c == '\U{00A0}' || c == '\U{1680}' || ('\U{2000}' <= c <= '\U{200A}')
    || c == '\U{2028}' || c == '\U{2029}' || c == '\U{202F}' || c == '\U{205F}'
    || c == '\U{3000}' || c == '\U{FEFF}'
  }

  /** The line terminators at which `^` matches in a multi-line regular expression. */
  predicate IsLineTerminator(c: char) {
    c == '\n' || c == '\r' || c == '\U{2028}' || c == '\U{2029}'
  }

  predicate IsDigit(c: char) {
    '0' <= c <= '9'
  }

  predicate IsUpper(c: char) {
    'A' <= c <= 'Z'
  }

  predicate IsLower(c: char) {
    'a' <= c <= 'z'
  }

  /** `toLowerCase` restricted to ASCII letters. */
  function ToLowerChar(c: char): (r: char)
    ensures IsUpper(c) ==> IsLower(r)
    ensures !IsUpper(c) ==> r == c
  {
    if IsUpper(c) then (c as int + 32) as char else c
  }

  /** `toUpperCase` restricted to ASCII letters. */
  function ToUpperChar(c: char): (r: char)
    ensures IsLower(c) ==> IsUpper(r)
    ensures !IsLower(c) ==> r == c
  {
    if IsLower(c) then (c as int - 32) as char else c
  }

  function ToLower(s: string): (r: string)
    ensures |r| == |s|
    ensures forall i :: 0 <= i < |s| ==> r[i] == ToLowerChar(s[i])
  {
    seq(|s|, i requires 0 <= i < |s| => ToLowerChar(s[i]))
  }

  function ToUpper(s: string): (r: string)
    ensures |r| == |s|
    ensures forall i :: 0 <= i < |s| ==> r[i] == ToUpperChar(s[i])
  {
    seq(|s|, i requires 0 <= i < |s| => ToUpperChar(s[i]))
  }

  predicate StartsWith(s: string, prefix: string) {
    |prefix| <= |s| && s[..|prefix|] == prefix
  }

  /** `t` occurs in `s` at position `i`. */
  predicate OccursAt(s: string, t: string, i: int) {
    0 <= i && i + |t| <= |s| && s[i..i + |t|] == t
  }

  /** `s.includes(t)`, scanning left to right. */
  predicate Contains(s: string, t: string)
    decreases |s|
  {
    StartsWith(s, t) || (|s| > 0 && Contains(s[1..], t))
  }

  /** `Contains` is exactly "occurs somewhere". */
  lemma {:induction false} ContainsIff(s: string, t: string)
    ensures Contains(s, t) <==> exists i :: OccursAt(s, t, i)
    decreases |s|
  {
    if StartsWith(s, t) {
      assert OccursAt(s, t, 0);
    } else if |s| == 0 {
      assert forall i :: OccursAt(s, t, i) ==> i == 0 && StartsWith(s, t);
    } else {
      ContainsIff(s[1..], t);
      if Contains(s[1..], t) {
        var i :| OccursAt(s[1..], t, i);
        assert s[1..][i..i + |t|] == s[i + 1..i + 1 + |t|];
        assert OccursAt(s, t, i + 1);
      }
      forall i | OccursAt(s, t, i) ensures Contains(s[1..], t) {
        assert i != 0;
        assert s[i..i + |t|] == s[1..][i - 1..i - 1 + |t|];
        assert OccursAt(s[1..], t, i - 1);
      }
    }
  }

  /** Number of occurrences of `c` in `s`. */
  function Count(s: string, c: char): nat
  {
    if |s| == 0 then 0 else (if s[0] == c then 1 else 0) + Count(s[1..], c)
  }

  /** No occurrence counted exactly when the character is absent. */
  lemma {:induction false} CountZero(s: string, c: char)
    ensures Count(s, c) == 0 <==> c !in s
    decreases |s|
  {
    if |s| > 0 {
      CountZero(s[1..], c);
      assert s == [s[0]] + s[1..];
    }
  }

  // ---------------------------------------------------------------------------
  // split / join

  /** `s.split(c)` for a one-character separator `c`. */
  function Split(s: string, c: char): (parts: seq<string>)
    ensures |parts| >= 1
    decreases |s|
  {
    if |s| == 0 then [""]
    else
      var rest := Split(s[1..], c);
      if s[0] == c then [""] + rest else [[s[0]] + rest[0]] + rest[1..]
  }

  /** `parts.join(c)`; joining no parts gives the empty string. */
  function Join(parts: seq<string>, c: char): string
    decreases |parts|
  {
    if |parts| == 0 then ""
    else if |parts| == 1 then parts[0]
    else parts[0] + [c] + Join(parts[1..], c)
  }

  /** The last element of a non-empty sequence, as `pop()` returns it. */
  function Last<T>(xs: seq<T>): T
    requires |xs| > 0
  {
    xs[|xs| - 1]
  }

  lemma {:induction false} SplitPartsAvoidSeparator(s: string, c: char)
    ensures forall k :: 0 <= k < |Split(s, c)| ==> c !in Split(s, c)[k]
    decreases |s|
  {
    if |s| > 0 {
      SplitPartsAvoidSeparator(s[1..], c);
    }
  }

  /** Joining the pieces of a split gives the original string back. */
  lemma {:induction false} JoinSplit(s: string, c: char)
    ensures Join(Split(s, c), c) == s
    decreases |s|
  {
    if |s| > 0 {
      JoinSplit(s[1..], c);
      var rest := Split(s[1..], c);
      if s[0] == c {
        assert Split(s, c)[1..] == rest;
      } else {
        var parts := Split(s, c);
        if |rest| == 1 {
          assert parts == [[s[0]] + rest[0]];
        } else {
          assert parts[1..] == rest[1..];
          assert Join(rest, c) == rest[0] + [c] + Join(rest[1..], c);
        }
      }
    }
  }

  /** Splitting the join of separator-free pieces gives the pieces back. */
  lemma {:induction false} SplitJoin(parts: seq<string>, c: char)
    requires |parts| >= 1
    requires forall k :: 0 <= k < |parts| ==> c !in parts[k]
    ensures Split(Join(parts, c), c) == parts
    decreases |parts|, |parts[0]|
  {
    if |parts[0]| > 0 {
      var p0 := parts[0];
      var parts' := [p0[1..]] + parts[1..];
      assert parts'[1..] == parts[1..];
      SplitJoin(parts', c);
      if |parts| == 1 {
        assert Join(parts, c) == p0;
        assert Join(parts', c) == p0[1..];
      } else {
        assert Join(parts, c) == p0 + [c] + Join(parts[1..], c);
        assert Join(parts', c) == p0[1..] + [c] + Join(parts[1..], c);
        assert Join(parts, c)[1..] == Join(parts', c);
      }
      assert Join(parts, c)[0] == p0[0];
      assert [p0[0]] + p0[1..] == p0;
      assert parts == [p0] + parts'[1..];
    } else if |parts| > 1 {
      SplitJoin(parts[1..], c);
      var j := Join(parts, c);
      assert j == [c] + Join(parts[1..], c);
      assert j[1..] == Join(parts[1..], c);
      assert parts == [""] + parts[1..];
    }
  }

  /** A split has one more piece than the string has separators. */
  lemma {:induction false} SplitCount(s: string, c: char)
    ensures |Split(s, c)| == Count(s, c) + 1
    decreases |s|
  {
    if |s| > 0 {
      SplitCount(s[1..], c);
    }
  }

  /** The text after the last `c` in `s`, or the whole of `s` when it has no `c`:
      what `s.split(c).pop()` returns. */
  function AfterLast(s: string, c: char): (r: string)
    ensures c !in r
    ensures |r| <= |s| && s[|s| - |r|..] == r
    ensures r == s || s[|s| - |r| - 1] == c
  {
    LastOfSplit(s, c);
    assert TailAfter(s, c, Last(Split(s, c)));
    Last(Split(s, c))
  }

  /** The three properties in `AfterLast`'s contract pin its result down. */
  lemma AfterLastUnique(s: string, c: char, r: string)
    requires c !in r
    requires |r| <= |s| && s[|s| - |r|..] == r
    requires r == s || s[|s| - |r| - 1] == c
    ensures AfterLast(s, c) == r
  {
    var a := AfterLast(s, c);
    forall q | |s| - |r| <= q < |s| ensures s[q] != c {
      assert s[q] == r[q - (|s| - |r|)];
    }
    forall q | |s| - |a| <= q < |s| ensures s[q] != c {
      assert s[q] == a[q - (|s| - |a|)];
    }
    assert |a| == |r|;
  }

  /** The text after the last separator of `stem + [c] + tail` is `tail`, when `tail` has none. */
  lemma AfterLastOfJoined(stem: string, c: char, tail: string)
    requires c !in tail
    ensures AfterLast(stem + [c] + tail, c) == tail
  {
    var s := stem + [c] + tail;
    assert s[|s| - |tail|..] == tail;
    AfterLastUnique(s, c, tail);
  }

  /** A string without the separator is its own last piece. */
  lemma AfterLastOfPlain(s: string, c: char)
    requires c !in s
    ensures AfterLast(s, c) == s
  {
    AfterLastUnique(s, c, s);
  }

  /** `r` is the separator-free tail of `s` that follows its last `c` (or all of `s`). */
  predicate TailAfter(s: string, c: char, r: string) {
    c !in r && |r| <= |s| && s[|s| - |r|..] == r && (r == s || s[|s| - |r| - 1] == c)
  }

  /** The last piece of a split is the separator-free tail that follows the last separator. */
  lemma {:induction false} LastOfSplit(s: string, c: char)
    ensures TailAfter(s, c, Last(Split(s, c)))
    decreases |s|
  {
    if |s| == 0 {
      assert Last(Split(s, c)) == s;
    } else {
      LastOfSplit(s[1..], c);
      if s[0] != c && |Split(s[1..], c)| == 1 {
        LastOfUnsplit(s, c);
      } else {
        LastOfSplitStep(s, c);
      }
    }
  }

  /** Past a separator, or with a separator still to come, the last piece is the tail's last piece. */
  lemma LastOfSplitStep(s: string, c: char)
    requires |s| > 0 && (s[0] == c || |Split(s[1..], c)| > 1)
    requires TailAfter(s[1..], c, Last(Split(s[1..], c)))
    ensures TailAfter(s, c, Last(Split(s, c)))
  {
    var t := s[1..];
    var rest := Split(t, c);
    assert Last(Split(s, c)) == Last(rest);
    if s[0] == c {
      TailAfterSeparator(s, c, Last(rest));
    } else {
      SplitCount(t, c);
      CountZero(t, c);
      TailAfterLonger(s, c, Last(rest));
    }
  }

  lemma LastOfUnsplit(s: string, c: char)
    requires |s| > 0 && s[0] != c && |Split(s[1..], c)| == 1
    ensures TailAfter(s, c, Last(Split(s, c)))
  {
    var t := s[1..];
    var rest := Split(t, c);
    SplitCount(t, c);
    CountZero(t, c);
    JoinSplit(t, c);
    assert rest[0] == t;
    assert Split(s, c) == [[s[0]] + t];
    assert [s[0]] + t == s;
  }

  lemma TailAfterSeparator(s: string, c: char, r: string)
    requires |s| > 0 && s[0] == c && TailAfter(s[1..], c, r)
    ensures TailAfter(s, c, r)
  {
    assert s[|s| - |r|..] == s[1..][|s| - 1 - |r|..];
  }

  lemma TailAfterLonger(s: string, c: char, r: string)
    requires |s| > 0 && TailAfter(s[1..], c, r) && c in s[1..]
    ensures TailAfter(s, c, r)
  {
    var t := s[1..];
    assert r != t;
    assert s[|s| - |r|..] == t[|t| - |r|..];
    assert s[|s| - |r| - 1] == t[|t| - |r| - 1];
  }

  /** Index of the first `c` in `s`, or `|s|` when there is none. */
  function FirstIndex(s: string, c: char): (k: nat)
    ensures k <= |s|
    ensures c !in s[..k]
    ensures k < |s| ==> s[k] == c
    decreases |s|
  {
    if |s| == 0 || s[0] == c then 0 else 1 + FirstIndex(s[1..], c)
  }

  /** The first `c` of `a + b` is the first character of `b` when `a` has none. */
  lemma FirstIndexOfJoined(a: string, b: string, c: char)
    requires c !in a
    requires |b| > 0 && b[0] == c
    ensures FirstIndex(a + b, c) == |a|
  {
    var s := a + b;
    assert s[|a|] == c;
    assert s[..|a|] == a;
  }

  // ---------------------------------------------------------------------------
  // trim

  /** Number of leading white-space characters. */
  function LeadingSpaces(s: string): (n: nat)
    ensures n <= |s|
    ensures forall i :: 0 <= i < n ==> IsSpace(s[i])
    ensures n < |s| ==> !IsSpace(s[n])
    decreases |s|
  {
    if |s| == 0 || !IsSpace(s[0]) then 0 else 1 + LeadingSpaces(s[1..])
  }

  /** End of `s[a..j]` once its trailing white space is dropped. */
  function TrimEnd(s: string, a: nat, j: nat): (b: nat)
    requires a <= j <= |s|
    ensures a <= b <= j
    ensures forall i :: b <= i < j ==> IsSpace(s[i])
    ensures a < b ==> !IsSpace(s[b - 1])
    decreases j
  {
    if j == a || !IsSpace(s[j - 1]) then j else TrimEnd(s, a, j - 1)
  }

  /** `s.trim()`: the slice between the leading and the trailing white space. */
  function Trim(s: string): (r: string)
    ensures exists a, b :: (0 <= a <= b <= |s| && r == s[a..b]
      && (forall i :: 0 <= i < a ==> IsSpace(s[i]))
      && (forall i :: b <= i < |s| ==> IsSpace(s[i])))
    ensures r == [] || (!IsSpace(r[0]) && !IsSpace(r[|r| - 1]))
  {
    var a := LeadingSpaces(s);
    var b := TrimEnd(s, a, |s|);
    s[a..b]
  }

  /** A string trims to nothing exactly when it is all white space. */
  lemma TrimEmptyIff(s: string)
    ensures Trim(s) == [] <==> forall i :: 0 <= i < |s| ==> IsSpace(s[i])
  {
    var r := Trim(s);
    var a, b :| 0 <= a <= b <= |s| && r == s[a..b]
      && (forall i :: 0 <= i < a ==> IsSpace(s[i]))
      && (forall i :: b <= i < |s| ==> IsSpace(s[i]));
    if r == [] {
      forall i | 0 <= i < |s| ensures IsSpace(s[i]) {
        if a <= i < b { assert false; }
      }
    } else {
      assert s[a] == r[0];
    }
  }

  // ---------------------------------------------------------------------------
  // decimal numerals

  function DigitChar(d: nat): (c: char)
    requires d < 10
    ensures IsDigit(c)
  {
    "0123456789"[d]
  }

  function DigitValue(c: char): (d: nat)
    requires IsDigit(c)
    ensures d < 10
  {
    c as int - '0' as int
  }

  /** The value of a string of decimal digits. */
  function DecimalValue(s: string): nat
    requires forall i :: 0 <= i < |s| ==> IsDigit(s[i])
    decreases |s|
  {
    if |s| == 0 then 0 else DecimalValue(s[..|s| - 1]) * 10 + DigitValue(s[|s| - 1])
  }

  /** `n.toString()` for a natural number. */
  function NatToString(n: nat): (r: string)
    ensures |r| > 0
    ensures forall i :: 0 <= i < |r| ==> IsDigit(r[i])
    decreases n
  {
    if n < 10 then [DigitChar(n)] else NatToString(n / 10) + [DigitChar(n % 10)]
  }

  /** Reading back a rendered number gives the number. */
  lemma {:induction false} NatToStringRoundTrip(n: nat)
    ensures DecimalValue(NatToString(n)) == n
    decreases n
  {
    var r := NatToString(n);
    if n >= 10 {
      NatToStringRoundTrip(n / 10);
      assert r[..|r| - 1] == NatToString(n / 10);
    }
    assert DigitValue(DigitChar(n % 10)) == n % 10 by {
      var d := n % 10;
      assert "0123456789"[d] as int == '0' as int + d;
    }
  }

  /** `n.toString()` for an integer: a minus sign before negative numbers. */
  function IntToString(n: int): (r: string)
    ensures |r| > 0
  {
    if n < 0 then "-" + NatToString(-n) else NatToString(n)
  }
}
