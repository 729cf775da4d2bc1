/**
 * Document versions (`incrementVersion` in the documentation controller): the
 * version string is split on '.', the last segment is read with `parseInt`,
 * incremented, written back with `toString`, and the segments are re-joined.
 */
module Version {
  import opened Strings
  import opened JsValues

  const InitialVersion := "1.0"

  predicate IsHexDigit(c: char) {
    IsDigit(c) || ('a' <= c <= 'f') || ('A' <= c <= 'F')
  }

  function HexDigitValue(c: char): (d: nat)
    requires IsHexDigit(c)
    ensures d < 16
  {
    if IsDigit(c) then DigitValue(c)
    else if 'a' <= c <= 'f' then c as int - 'a' as int + 10
    else c as int - 'A' as int + 10
  }

  function HexValue(s: string): nat
    requires forall i :: 0 <= i < |s| ==> IsHexDigit(s[i])
    decreases |s|
  {
    if |s| == 0 then 0 else HexValue(s[..|s| - 1]) * 16 + HexDigitValue(s[|s| - 1])
  }

  /** Length of the longest prefix of decimal digits. */
  function DigitRun(s: string): (n: nat)
    ensures n <= |s|
    ensures forall i :: 0 <= i < n ==> IsDigit(s[i])
    ensures n < |s| ==> !IsDigit(s[n])
    decreases |s|
  {
    if |s| == 0 || !IsDigit(s[0]) then 0 else 1 + DigitRun(s[1..])
  }

  /** Length of the longest prefix of hexadecimal digits. */
  function HexRun(s: string): (n: nat)
    ensures n <= |s|
    ensures forall i :: 0 <= i < n ==> IsHexDigit(s[i])
    ensures n < |s| ==> !IsHexDigit(s[n])
    decreases |s|
  {
    if |s| == 0 || !IsHexDigit(s[0]) then 0 else 1 + HexRun(s[1..])
  }

  predicate AllDigits(s: string) {
    forall i :: 0 <= i < |s| ==> IsDigit(s[i])
  }

  /** A non-empty run of decimal digits, the shape of a well-formed version segment. */
  predicate IsNumeral(s: string) {
    |s| > 0 && AllDigits(s)
  }

  /**
   * `parseInt(s)` with no radix argument; `None` is NaN. Leading white space is
   * skipped, one sign is accepted, "0x"/"0X" switches to base 16, and the longest
   * digit prefix is read; anything after it is ignored.
   */
  function ParseInt(s: string): (n: Option<int>)
    ensures IsNumeral(s) ==> n == Some(DecimalValue(s))
    ensures |s| > 0 && !IsSpace(s[0]) && !IsDigit(s[0]) && s[0] != '-' && s[0] != '+' ==> n == None
  {
    var t := s[LeadingSpaces(s)..];
    var negative := |t| > 0 && t[0] == '-';
    var u := if |t| > 0 && (t[0] == '-' || t[0] == '+') then t[1..] else t;
    var hex := |u| >= 2 && u[0] == '0' && (u[1] == 'x' || u[1] == 'X');
    var body := if hex then u[2..] else u;
    var k := if hex then HexRun(body) else DigitRun(body);
    if k == 0 then None
    else
      var v := if hex then HexValue(body[..k]) else DecimalValue(body[..k]);
      assert IsNumeral(s) ==> t == s && body == s && k == |s| && body[..k] == s;
      Some(if negative then -v else v)
  }

  /** `String(x)` for the result of `parseInt(..) + 1`. */
  function RenderNumber(n: Option<int>): (r: string)
    ensures '.' !in r
  {
    match n
    case None => "NaN"
    case Some(v) =>
      var r := IntToString(v);
      assert forall i :: 0 <= i < |r| ==> r[i] == '-' || IsDigit(r[i]);
      r
  }

  function Successor(n: Option<int>): Option<int> {
    match n
    case None => None
    case Some(v) => Some(v + 1)
  }

  /** `incrementVersion`: split on '.', bump the last segment, join again. */
  function IncrementVersion(version: string): string {
    var parts := Split(version, '.');
    Join(parts[..|parts| - 1] + [RenderNumber(Successor(ParseInt(Last(parts))))], '.')
  }

  /**
   * The segment count and every segment but the last are kept; a numeric last
   * segment goes up by exactly one, and a last segment that does not start with
   * a number becomes "NaN".
   */
  lemma IncrementVersionSpec(version: string)
    ensures var r := IncrementVersion(version);
      && |Split(r, '.')| == |Split(version, '.')|
      && Split(r, '.')[..|Split(r, '.')| - 1] == Split(version, '.')[..|Split(version, '.')| - 1]
      && (IsNumeral(Last(Split(version, '.'))) ==>
            IsNumeral(Last(Split(r, '.')))
            && DecimalValue(Last(Split(r, '.'))) == DecimalValue(Last(Split(version, '.'))) + 1)
      && (ParseInt(Last(Split(version, '.'))) == None ==> Last(Split(r, '.')) == "NaN")
  {
    var parts := Split(version, '.');
    var bumped := RenderNumber(Successor(ParseInt(Last(parts))));
    var parts' := parts[..|parts| - 1] + [bumped];
    SplitPartsAvoidSeparator(version, '.');
    SplitJoin(parts', '.');
    BumpNumeral(Last(parts));
  }

  lemma BumpNumeral(s: string)
    ensures IsNumeral(s) ==>
      var b := RenderNumber(Successor(ParseInt(s)));
      IsNumeral(b) && DecimalValue(b) == DecimalValue(s) + 1
  {
    if IsNumeral(s) {
      var v := DecimalValue(s);
      assert ParseInt(s) == Some(v);
      var b := NatToString(v + 1);
      assert RenderNumber(Successor(Some(v))) == b;
      assert IsNumeral(b);
      NatToStringRoundTrip(v + 1);
    }
  }

  /** With a numeric last segment, the edit renders the next number in its place. */
  lemma BumpLastSegment(major: string, n: nat)
    requires '.' !in major
    ensures IncrementVersion(major + "." + NatToString(n)) == major + "." + NatToString(n + 1)
  {
    var last := NatToString(n);
    var next := NatToString(n + 1);
    assert Split(major + "." + last, '.') == [major, last] by {
      assert '.' !in last by {
        assert forall i :: 0 <= i < |last| ==> IsDigit(last[i]);
      }
      JoinPair(major, last);
      SplitJoin([major, last], '.');
    }
    assert ParseInt(last) == Some(n) by {
      NatToStringRoundTrip(n);
    }
    assert RenderNumber(Successor(Some(n))) == next;
    assert [major, last][..1] + [next] == [major, next];
    JoinPair(major, next);
  }

  lemma JoinPair(a: string, b: string)
    ensures Join([a, b], '.') == a + "." + b
  {
    assert [a, b][1..] == [b];
  }

  /** The initial version is "1." followed by the numeral of 0, and the numeral of 1 after "1." reads "1.1". */
  lemma InitialVersionParts()
    ensures InitialVersion == "1" + "." + NatToString(0)
    ensures "1" + "." + NatToString(1) == "1.1"
  {
  }

  /** The initial version has a numeric last segment, so the first edit gives "1.1". */
  lemma InitialVersionShape()
    ensures InitialVersion == "1" + "." + NatToString(0)
    ensures "1" + "." + NatToString(1) == "1.1"
    ensures IncrementVersion(InitialVersion) == "1.1"
  {
    InitialVersionParts();
    BumpLastSegment("1", 0);
  }

  /** "NaN" starts with a letter, so `parseInt` reads no number from it. */
  lemma NaNIsNotANumber()
    ensures RenderNumber(Successor(ParseInt("NaN"))) == "NaN"
  {
    var s := "NaN";
    assert |s| > 0 && s[0] == 'N';
    assert !IsSpace(s[0]) && !IsDigit(s[0]);
  }

  /** Once the last segment is "NaN" the version never changes again. */
  lemma NaNIsSticky(version: string)
    requires Last(Split(version, '.')) == "NaN"
    ensures IncrementVersion(version) == version
  {
    var parts := Split(version, '.');
    NaNIsNotANumber();
    assert parts[..|parts| - 1] + [Last(parts)] == parts;
    JoinSplit(version, '.');
  }
}
