/**
 * `postProcessDocumentation`: the fixed sequence of rewrites applied to the
 * model's Markdown before it is stored.
 *
 *   1. runs of three or more '\n' become exactly two          (`/\n{3,}/g`)
 *   2. a run of four or more '#' at a line start becomes "###" (`/^#{4,}/gm`)
 *   3. "# <filename> Documentation\n\n" is prepended unless the text already
 *      contains the file name
 *   4. white space after "**", before "**", after "`" and before "`" is removed
 *   5. "[Placeholder]" and "[TODO]", in any letter case, are replaced by fixed phrases
 *
 * Each regular-expression replacement is modelled as the left-to-right scan the
 * regular-expression engine performs: try to match at the current position,
 * emit the replacement and skip the match, otherwise emit one character and move on.
 */
module PostProcess {
  import opened Strings

  /** Length of the run of `c` at the start of `s`. */
  function Run(s: string, c: char): (n: nat)
    ensures n <= |s|
    ensures forall i :: 0 <= i < n ==> s[i] == c
    ensures n < |s| ==> s[n] != c
    decreases |s|
  {
    if |s| == 0 || s[0] != c then 0 else 1 + Run(s[1..], c)
  }

  // ---------------------------------------------------------------------------
  // Step 1: collapse blank lines

  /** No three consecutive newlines anywhere. */
  predicate NoTripleNewline(s: string) {
    forall i :: 0 <= i < |s| - 2 ==> !(s[i] == '\n' && s[i + 1] == '\n' && s[i + 2] == '\n')
  }

  /** `s.replace(/\n{3,}/g, '\n\n')`. */
  function CollapseNewlines(s: string): string
    decreases |s|
  {
    if |s| == 0 then ""
    else if s[0] != '\n' then [s[0]] + CollapseNewlines(s[1..])
    else
      var k := Run(s, '\n');
      (if k >= 3 then "\n\n" else s[..k]) + CollapseNewlines(s[k..])
  }

  /** After step 1 no three consecutive newlines remain. */
  lemma {:induction false} CollapseLeavesNoTriple(s: string)
    ensures NoTripleNewline(CollapseNewlines(s))
    decreases |s|
  {
    var r := CollapseNewlines(s);
    if |s| > 0 && s[0] != '\n' {
      var rest := CollapseNewlines(s[1..]);
      CollapseLeavesNoTriple(s[1..]);
      assert r == [s[0]] + rest;
      forall i | 1 <= i < |r| - 2 ensures !(r[i] == '\n' && r[i + 1] == '\n' && r[i + 2] == '\n') {
        assert r[i] == rest[i - 1] && r[i + 1] == rest[i] && r[i + 2] == rest[i + 1];
      }
    } else if |s| > 0 {
      var k := Run(s, '\n');
      var head := if k >= 3 then "\n\n" else s[..k];
      var t := s[k..];
      var rest := CollapseNewlines(t);
      CollapseLeavesNoTriple(t);
      assert r == head + rest;
      assert |head| <= 2;
      if |t| > 0 {
        assert rest == [t[0]] + CollapseNewlines(t[1..]);
      }
      forall i | 0 <= i < |r| - 2 ensures !(r[i] == '\n' && r[i + 1] == '\n' && r[i + 2] == '\n') {
        if i >= |head| {
          assert r[i] == rest[i - |head|] && r[i + 1] == rest[i - |head| + 1] && r[i + 2] == rest[i - |head| + 2];
        } else {
          assert r[|head|] == rest[0];
        }
      }
    }
  }

  /** Text that already has no three consecutive newlines is left alone. */
  lemma {:induction false} CollapseKeepsTidyText(s: string)
    requires NoTripleNewline(s)
    ensures CollapseNewlines(s) == s
    decreases |s|
  {
    if |s| > 0 {
      if s[0] != '\n' {
        CollapseKeepsTidyText(s[1..]);
      } else {
        var k := Run(s, '\n');
        assert |s| >= 3 ==> !(s[0] == '\n' && s[1] == '\n' && s[2] == '\n');
        assert k < 3;
        assert NoTripleNewline(s[k..]) by {
          forall i | 0 <= i < |s[k..]| - 2
            ensures !(s[k..][i] == '\n' && s[k..][i + 1] == '\n' && s[k..][i + 2] == '\n')
          {
            assert s[k..][i] == s[k + i];
          }
        }
        CollapseKeepsTidyText(s[k..]);
        assert s[..k] + s[k..] == s;
      }
    }
  }

  /** Collapsing twice is collapsing once. */
  lemma CollapseIdempotent(s: string)
    ensures CollapseNewlines(CollapseNewlines(s)) == CollapseNewlines(s)
  {
    CollapseLeavesNoTriple(s);
    CollapseKeepsTidyText(CollapseNewlines(s));
  }

  /** Collapsing passes newline-free text through. */
  lemma {:induction false} CollapseKeepsPlainPrefix(p: string, t: string)
    requires '\n' !in p
    ensures CollapseNewlines(p + t) == p + CollapseNewlines(t)
    decreases |p|
  {
    if |p| > 0 {
      var s := p + t;
      assert s[0] == p[0] && s[1..] == p[1..] + t;
      assert '\n' !in p[1..];
      CollapseKeepsPlainPrefix(p[1..], t);
      calc {
        CollapseNewlines(s);
        [p[0]] + CollapseNewlines(p[1..] + t);
        [p[0]] + (p[1..] + CollapseNewlines(t));
        { assert p == [p[0]] + p[1..]; }
        p + CollapseNewlines(t);
      }
    } else {
      assert p + t == t;
    }
  }

  // ---------------------------------------------------------------------------
  // Step 2: clamp heading depth

  /** Position `i` begins a line of `s`. */
  predicate LineStart(s: string, i: int) {
    0 <= i < |s| && (i == 0 || IsLineTerminator(s[i - 1]))
  }

  /** No line begins with four or more '#'. */
  predicate NoDeepHeading(s: string) {
    forall i :: 0 <= i < |s| && LineStart(s, i) ==> Run(s[i..], '#') < 4
  }

  /**
   * `s.replace(/^#{4,}/gm, '###')`, scanning with `atLineStart` telling whether
   * the current position is a line start.
   */
  function Clamp(s: string, atLineStart: bool): (r: string)
    decreases |s|
  {
    if |s| == 0 then ""
    else if atLineStart && Run(s, '#') >= 4 then "###" + Clamp(s[Run(s, '#')..], false)
    else [s[0]] + Clamp(s[1..], IsLineTerminator(s[0]))
  }

  function ClampHeadings(s: string): string {
    Clamp(s, true)
  }

  /** Outside a deep heading, the leading run of '#' is passed through unchanged. */
  lemma {:induction false} ClampKeepsHashRun(s: string, atLineStart: bool)
    requires !(atLineStart && Run(s, '#') >= 4)
    ensures Run(Clamp(s, atLineStart), '#') == Run(s, '#')
    decreases |s|
  {
    if |s| > 0 && s[0] == '#' {
      ClampKeepsHashRun(s[1..], false);
      var r := Clamp(s, atLineStart);
      assert r[1..] == Clamp(s[1..], false);
    }
  }

  /** Every line start of `r`, and its start when `atLineStart`, has fewer than four '#'. */
  predicate HeadingsBounded(r: string, atLineStart: bool) {
    (atLineStart && |r| > 0 ==> Run(r, '#') < 4)
    && forall i :: 0 < i < |r| && IsLineTerminator(r[i - 1]) ==> Run(r[i..], '#') < 4
  }

  lemma {:induction false} ClampBoundsHeadings(s: string, atLineStart: bool)
    ensures HeadingsBounded(Clamp(s, atLineStart), atLineStart)
    decreases |s|
  {
    if |s| > 0 {
      if atLineStart && Run(s, '#') >= 4 {
        ClampBoundsHeadings(s[Run(s, '#')..], false);
        ClampDeepStep(s);
      } else {
        ClampBoundsHeadings(s[1..], IsLineTerminator(s[0]));
        ClampPlainStep(s, atLineStart);
      }
    }
  }

  /** A deep heading becomes "###" followed by text that starts with no '#'. */
  lemma ClampDeepStep(s: string)
    requires Run(s, '#') >= 4
    requires HeadingsBounded(Clamp(s[Run(s, '#')..], false), false)
    ensures HeadingsBounded(Clamp(s, true), true)
  {
    var r := Clamp(s, true);
    var t := s[Run(s, '#')..];
    var rest := Clamp(t, false);
    ClampKeepsHashRun(t, false);
    assert Run(rest, '#') == 0;
    assert r == "###" + rest;
    assert r[3..] == rest;
    assert Run(r, '#') == 3 by {
      assert r[1..][1..][1..] == rest;
    }
    forall i | 0 < i < |r| && IsLineTerminator(r[i - 1]) ensures Run(r[i..], '#') < 4 {
      assert i >= 4;
      assert r[i..] == rest[i - 3..];
    }
  }

  /** Any other character is copied, and the line-start flag follows it. */
  lemma ClampPlainStep(s: string, atLineStart: bool)
    requires |s| > 0 && !(atLineStart && Run(s, '#') >= 4)
    requires HeadingsBounded(Clamp(s[1..], IsLineTerminator(s[0])), IsLineTerminator(s[0]))
    ensures HeadingsBounded(Clamp(s, atLineStart), atLineStart)
  {
    var r := Clamp(s, atLineStart);
    var rest := Clamp(s[1..], IsLineTerminator(s[0]));
    assert r == [s[0]] + rest;
    assert atLineStart ==> Run(r, '#') < 4 by {
      if atLineStart {
        ClampKeepsHashRun(s, atLineStart);
      }
    }
    forall i | 0 < i < |r| && IsLineTerminator(r[i - 1]) ensures Run(r[i..], '#') < 4 {
      assert r[i..] == rest[i - 1..];
      if i == 1 {
        assert rest[0..] == rest;
      } else {
        assert rest[i - 2] == r[i - 1];
      }
    }
  }

  /** After step 2 no line starts with four or more '#'. */
  lemma ClampHeadingsBoundsDepth(s: string)
    ensures NoDeepHeading(ClampHeadings(s))
  {
    var r := ClampHeadings(s);
    ClampBoundsHeadings(s, true);
    forall i | LineStart(r, i) ensures Run(r[i..], '#') < 4 {
      if i == 0 {
        assert r[0..] == r;
      }
    }
  }

  /** Away from a line start, clamping passes text without line terminators through. */
  lemma {:induction false} ClampKeepsPlainPrefix(p: string, t: string)
    requires forall i :: 0 <= i < |p| ==> !IsLineTerminator(p[i])
    requires |p| > 0
    ensures Clamp(p + t, false) == p + Clamp(t, false)
    decreases |p|
  {
    var s := p + t;
    assert s[1..] == p[1..] + t;
    if |p| > 1 {
      ClampKeepsPlainPrefix(p[1..], t);
    }
  }

  // ---------------------------------------------------------------------------
  // Step 3: title

  function Title(filename: string): string {
    "# " + filename + " Documentation\n\n"
  }

  function WithTitle(text: string, filename: string): string {
    if Contains(text, filename) then text else Title(filename) + text
  }

  // ---------------------------------------------------------------------------
  // Step 4: spacing inside bold and code markers

  /** `s.replace(/M\s+/g, M)` for a marker `M` ("**" or "`"). */
  function StripAfter(s: string, marker: string): string
    requires |marker| > 0
    decreases |s|
  {
    if |s| == 0 then ""
    else if StartsWith(s, marker) && |s| > |marker| && IsSpace(s[|marker|]) then
      var t := s[|marker|..];
      marker + StripAfter(t[LeadingSpaces(t)..], marker)
    else [s[0]] + StripAfter(s[1..], marker)
  }

  /** `s.replace(/\s+M/g, M)` for a marker `M` ("**" or "`"). */
  function StripBefore(s: string, marker: string): string
    requires |marker| > 0
    decreases |s|
  {
    if |s| == 0 then ""
    else if IsSpace(s[0]) && StartsWith(s[LeadingSpaces(s)..], marker) then
      marker + StripBefore(s[LeadingSpaces(s) + |marker|..], marker)
    else [s[0]] + StripBefore(s[1..], marker)
  }

  /** Text without the marker's first character is passed through by `StripAfter`. */
  lemma {:induction false} StripAfterKeepsPrefix(p: string, t: string, marker: string)
    requires |marker| > 0
    requires marker[0] !in p
    ensures StripAfter(p + t, marker) == p + StripAfter(t, marker)
    decreases |p|
  {
    if |p| > 0 {
      var s := p + t;
      assert s[0] == p[0] && s[1..] == p[1..] + t;
      assert !StartsWith(s, marker) by {
        assert |marker| <= |s| ==> s[..|marker|][0] == p[0];
      }
      assert marker[0] !in p[1..];
      StripAfterKeepsPrefix(p[1..], t, marker);
      calc {
        StripAfter(s, marker);
        [p[0]] + StripAfter(p[1..] + t, marker);
        [p[0]] + (p[1..] + StripAfter(t, marker));
        { assert p == [p[0]] + p[1..]; }
        p + StripAfter(t, marker);
      }
    } else {
      assert p + t == t;
    }
  }

  /**
   * Text without the marker's first character that does not end in white space is
   * passed through by `StripBefore`: every white-space run in it ends inside it.
   */
  lemma {:induction false} StripBeforeKeepsPrefix(p: string, t: string, marker: string)
    requires |marker| > 0
    requires marker[0] !in p
    requires |p| > 0 ==> !IsSpace(p[|p| - 1])
    ensures StripBefore(p + t, marker) == p + StripBefore(t, marker)
    decreases |p|
  {
    if |p| > 0 {
      var s := p + t;
      assert s[1..] == p[1..] + t;
      SpaceRunEndsInside(p, t, marker);
      assert marker[0] !in p[1..];
      assert |p[1..]| > 0 ==> p[1..][|p[1..]| - 1] == p[|p| - 1];
      StripBeforeKeepsPrefix(p[1..], t, marker);
      calc {
        StripBefore(s, marker);
        [p[0]] + StripBefore(p[1..] + t, marker);
        [p[0]] + (p[1..] + StripBefore(t, marker));
        { assert p == [p[0]] + p[1..]; }
        p + StripBefore(t, marker);
      }
    } else {
      assert p + t == t;
    }
  }

  /** Text without the marker's first character is passed through by `StripBefore`. */
  lemma {:induction false} StripBeforeFree(s: string, marker: string)
    requires |marker| > 0
    requires marker[0] !in s
    ensures StripBefore(s, marker) == s
    decreases |s|
  {
    if |s| > 0 {
      var n := LeadingSpaces(s);
      assert n < |s| ==> s[n] != marker[0];
      assert !StartsWith(s[n..], marker) by {
        assert |marker| <= |s[n..]| ==> s[n..][..|marker|][0] == s[n];
      }
      assert marker[0] !in s[1..];
      StripBeforeFree(s[1..], marker);
      assert s == [s[0]] + s[1..];
    }
  }

  /** A white-space run that starts in `p` ends inside `p`, on a character that is not the marker's. */
  lemma SpaceRunEndsInside(p: string, t: string, marker: string)
    requires |marker| > 0
    requires marker[0] !in p
    requires |p| > 0 && !IsSpace(p[|p| - 1])
    ensures !StartsWith((p + t)[LeadingSpaces(p + t)..], marker)
  {
    var s := p + t;
    var n := LeadingSpaces(s);
    assert s[|p| - 1] == p[|p| - 1];
    assert s[n] == p[n];
    assert |marker| <= |s[n..]| ==> s[n..][..|marker|][0] == p[n];
  }

  // ---------------------------------------------------------------------------
  // Step 5: placeholders

  /** `pattern` (lower-case) occurs at `i` in `s`, ignoring ASCII letter case. */
  predicate OccursCI(s: string, pattern: string, i: int) {
    0 <= i && i + |pattern| <= |s| && ToLower(s[i..i + |pattern|]) == pattern
  }

  /** `s.replace(/pattern/gi, replacement)` for a literal pattern. */
  function ReplaceCI(s: string, pattern: string, replacement: string): string
    requires |pattern| > 0
    decreases |s|
  {
    if |s| == 0 then ""
    else if OccursCI(s, pattern, 0) then replacement + ReplaceCI(s[|pattern|..], pattern, replacement)
    else [s[0]] + ReplaceCI(s[1..], pattern, replacement)
  }

  const Placeholder := "[placeholder]"
  const PlaceholderText := "[Details from code analysis]"
  const Todo := "[todo]"
  const TodoText := "[Implementation specific]"

  /** A bracketed word: '[' first and nowhere else. */
  predicate Bracketed(w: string) {
    |w| >= 2 && w[0] == '[' && forall j :: 1 <= j < |w| ==> w[j] != '['
  }

  lemma LowerBracket(c: char)
    ensures ToLowerChar(c) == '[' <==> c == '['
  {
  }

  /** A replacement prefix free of '[' was copied from the input unchanged. */
  lemma {:induction false} ReplacePrefixCopied(t: string, pattern: string, replacement: string, k: nat)
    requires Bracketed(pattern) && Bracketed(replacement)
    requires k <= |ReplaceCI(t, pattern, replacement)|
    requires forall j :: 0 <= j < k ==> ReplaceCI(t, pattern, replacement)[j] != '['
    ensures k <= |t| && ReplaceCI(t, pattern, replacement)[..k] == t[..k]
    decreases |t|
  {
    if k > 0 {
      var r := ReplaceCI(t, pattern, replacement);
      assert r[0] != '[';
      var rest := ReplaceCI(t[1..], pattern, replacement);
      assert r == [t[0]] + rest;
      assert forall j :: 0 <= j < k - 1 ==> rest[j] == r[j + 1];
      ReplacePrefixCopied(t[1..], pattern, replacement, k - 1);
    }
  }

  lemma OccursShift(s: string, q: string, off: nat, i: int)
    requires 0 <= i && off <= |s|
    ensures OccursCI(s[off..], q, i) <==> OccursCI(s, q, i + off)
  {
    if 0 <= i && i + |q| <= |s| - off {
      assert s[off..][i..i + |q|] == s[i + off..i + off + |q|];
    }
  }

  /**
   * After replacing every `pattern`, a bracketed word `q` occurs nowhere, provided
   * every `q` in the input was a `pattern` (as when `q` is `pattern`, or absent)
   * and the replacement neither is nor creates a `q`.
   */
  lemma {:induction false} ReplaceLeavesNone(s: string, pattern: string, replacement: string, q: string)
    requires Bracketed(pattern) && Bracketed(replacement) && Bracketed(q)
    requires |q| <= |replacement| && !OccursCI(replacement, q, 0)
    requires forall i :: OccursCI(s, q, i) ==> OccursCI(s, pattern, i)
    ensures forall i :: !OccursCI(ReplaceCI(s, pattern, replacement), q, i)
    decreases |s|
  {
    var r := ReplaceCI(s, pattern, replacement);
    if |s| > 0 {
      var off := if OccursCI(s, pattern, 0) then |pattern| else 1;
      var head := if OccursCI(s, pattern, 0) then replacement else [s[0]];
      var tail := s[off..];
      var rest := ReplaceCI(tail, pattern, replacement);
      assert r == head + rest;
      forall i | OccursCI(tail, q, i) ensures OccursCI(tail, pattern, i) {
        OccursShift(s, q, off, i);
        OccursShift(s, pattern, off, i);
      }
      ReplaceLeavesNone(tail, pattern, replacement, q);
      forall i ensures !OccursCI(r, q, i) {
        if i >= |head| && i + |q| <= |r| {
          assert r[i..i + |q|] == rest[i - |head|..i - |head| + |q|];
          assert !OccursCI(rest, q, i - |head|);
        } else if 0 < i < |head| && i + |q| <= |r| {
          assert head == replacement;
          assert r[i] == replacement[i];
          assert ToLower(r[i..i + |q|])[0] == ToLowerChar(r[i]);
          LowerBracket(r[i]);
        } else if i == 0 && head == replacement && |q| <= |r| {
          assert r[..|q|] == replacement[..|q|];
        } else if i == 0 && head != replacement && |q| <= |r| {
          assert !OccursCI(s, q, 0);
          var w := r[..|q|];
          if exists j :: 1 <= j < |q| && w[j] == '[' {
            var j :| 1 <= j < |q| && w[j] == '[';
            assert ToLower(w)[j] == '[';
          } else {
            assert forall j :: 0 <= j < |q| - 1 ==> rest[j] != '[' by {
              forall j | 0 <= j < |q| - 1 ensures rest[j] != '[' {
                assert rest[j] == w[j + 1];
              }
            }
            ReplacePrefixCopied(tail, pattern, replacement, |q| - 1);
            assert w == [s[0]] + tail[..|q| - 1];
            assert w == s[..|q|];
          }
        }
      }
    }
  }

  /** The replacement step leaves text without '[' untouched. */
  lemma {:induction false} ReplaceKeepsPrefix(p: string, t: string, pattern: string, replacement: string)
    requires Bracketed(pattern)
    requires '[' !in p
    ensures ReplaceCI(p + t, pattern, replacement) == p + ReplaceCI(t, pattern, replacement)
    decreases |p|
  {
    if |p| > 0 {
      var s := p + t;
      assert s[1..] == p[1..] + t;
      assert s[0] == p[0];
      LowerBracket(s[0]);
      assert !OccursCI(s, pattern, 0) by {
        assert |pattern| <= |s| ==> ToLower(s[..|pattern|])[0] == ToLowerChar(s[0]);
      }
      assert '[' !in p[1..];
      ReplaceKeepsPrefix(p[1..], t, pattern, replacement);
      calc {
        ReplaceCI(s, pattern, replacement);
        [p[0]] + ReplaceCI(p[1..] + t, pattern, replacement);
        [p[0]] + (p[1..] + ReplaceCI(t, pattern, replacement));
        { assert p == [p[0]] + p[1..]; }
        p + ReplaceCI(t, pattern, replacement);
      }
    } else {
      assert p + t == t;
    }
  }

  // ---------------------------------------------------------------------------
  // The whole pipeline

  /** Steps 1 and 2. */
  function Normalize(content: string): string {
    ClampHeadings(CollapseNewlines(content))
  }

  /** Steps 4 and 5. */
  function Tidy(s: string): string {
    var bold := StripBefore(StripAfter(s, "**"), "**");
    var code := StripBefore(StripAfter(bold, "`"), "`");
    ReplaceCI(ReplaceCI(code, Placeholder, PlaceholderText), Todo, TodoText)
  }

  /** No "[placeholder]" or "[todo]", in any letter case. */
  predicate NoPlaceholders(s: string) {
    forall i :: 0 <= i <= |s| ==> !OccursCI(s, Placeholder, i) && !OccursCI(s, Todo, i)
  }

  /** The two placeholder words and their replacements are bracketed, and no replacement is a placeholder. */
  lemma PlaceholderWords()
    ensures Bracketed(Placeholder) && Bracketed(PlaceholderText) && Bracketed(Todo) && Bracketed(TodoText)
    ensures !OccursCI(PlaceholderText, Placeholder, 0)
    ensures !OccursCI(TodoText, Todo, 0) && !OccursCI(TodoText, Placeholder, 0)
  {
    assert ToLower(PlaceholderText[..|Placeholder|])[1] == ToLowerChar('D') == 'd';
    assert ToLower(TodoText[..|Todo|])[1] == ToLowerChar('I') == 'i';
    assert ToLower(TodoText[..|Placeholder|])[1] == 'i';
  }

  /** After step 5 no placeholder word is left, in any letter case. */
  lemma TidyLeavesNoPlaceholders(s: string)
    ensures NoPlaceholders(Tidy(s))
  {
    var bold := StripBefore(StripAfter(s, "**"), "**");
    var code := StripBefore(StripAfter(bold, "`"), "`");
    var once := ReplaceCI(code, Placeholder, PlaceholderText);
    PlaceholderWords();
    ReplaceLeavesNone(code, Placeholder, PlaceholderText, Placeholder);
    ReplaceLeavesNone(once, Todo, TodoText, Todo);
    ReplaceLeavesNone(once, Todo, TodoText, Placeholder);
  }

  /** `postProcessDocumentation(content, filename)`. */
  function PostProcessDocumentation(content: string, filename: string): (r: string)
    ensures NoPlaceholders(r)
  {
    TidyLeavesNoPlaceholders(WithTitle(Normalize(content), filename));
    Tidy(WithTitle(Normalize(content), filename))
  }

  /** What step 3 prepends, without its trailing blank line. */
  function Heading(filename: string): string {
    "# " + filename + " Documentation"
  }

  lemma HeadingShape(filename: string)
    requires '*' !in filename && '`' !in filename && '[' !in filename
    ensures '*' !in Heading(filename) && '`' !in Heading(filename) && '[' !in Heading(filename)
    ensures Heading(filename)[|Heading(filename)| - 1] == 'n'
  {
    var h := Heading(filename);
    var tail := " Documentation";
    assert h == "# " + filename + tail;
    forall i | 0 <= i < |h| ensures h[i] != '*' && h[i] != '`' && h[i] != '[' {
      if i < 2 {
        assert h[i] == "# "[i];
      } else if i < 2 + |filename| {
        assert h[i] == filename[i - 2];
      } else {
        assert h[i] == tail[i - 2 - |filename|];
      }
    }
  }

  /** Step 4 and 5 pass through a prefix free of '*', '`' and '[' that does not end in white space. */
  lemma TidyKeepsPrefix(p: string, t: string)
    requires '*' !in p && '`' !in p && '[' !in p
    requires |p| > 0 && !IsSpace(p[|p| - 1])
    ensures Tidy(p + t) == p + Tidy(t)
  {
    StripAfterKeepsPrefix(p, t, "**");
    var a := StripAfter(t, "**");
    StripBeforeKeepsPrefix(p, a, "**");
    var b := StripBefore(a, "**");
    StripAfterKeepsPrefix(p, b, "`");
    var c := StripAfter(b, "`");
    StripBeforeKeepsPrefix(p, c, "`");
    var d := StripBefore(c, "`");
    ReplaceKeepsPrefix(p, d, Placeholder, PlaceholderText);
    var e := ReplaceCI(d, Placeholder, PlaceholderText);
    ReplaceKeepsPrefix(p, e, Todo, TodoText);
  }

  /**
   * When the normalised text does not mention the file name, the output opens with
   * "# <filename> Documentation", provided the name has no '*', '`' or '['
   * (characters the later steps may rewrite).
   */
  lemma TitleWhenNameMissing(content: string, filename: string)
    requires !Contains(Normalize(content), filename)
    requires '*' !in filename && '`' !in filename && '[' !in filename
    ensures StartsWith(PostProcessDocumentation(content, filename), Heading(filename))
  {
    TitledOutput(content, filename);
    PrefixStarts(Heading(filename), Tidy("\n\n" + Normalize(content)));
  }

  /** The output is the heading followed by the tidied rest. */
  lemma TitledOutput(content: string, filename: string)
    requires !Contains(Normalize(content), filename)
    requires '*' !in filename && '`' !in filename && '[' !in filename
    ensures PostProcessDocumentation(content, filename) == Heading(filename) + Tidy("\n\n" + Normalize(content))
  {
    var h := Heading(filename);
    var n := Normalize(content);
    assert WithTitle(n, filename) == h + ("\n\n" + n);
    HeadingShape(filename);
    TidyKeepsPrefix(h, "\n\n" + n);
  }

  lemma PrefixStarts(p: string, t: string)
    ensures StartsWith(p + t, p)
  {
    assert (p + t)[..|p|] == p;
  }

  /** When the normalised text already mentions the file name, nothing is prepended. */
  lemma NoTitleWhenNamePresent(content: string, filename: string)
    requires Contains(Normalize(content), filename)
    ensures PostProcessDocumentation(content, filename) == Tidy(Normalize(content))
  {
  }

  /** Text without '*', '`' and '[' passes through steps 4 and 5 unchanged. */
  lemma TidyKeepsPlainText(s: string)
    requires '*' !in s && '`' !in s && '[' !in s
    ensures Tidy(s) == s
  {
    assert s + "" == s;
    StripAfterKeepsPrefix(s, "", "**");
    StripBeforeFree(s, "**");
    StripAfterKeepsPrefix(s, "", "`");
    StripBeforeFree(s, "`");
    ReplaceKeepsPrefix(s, "", Placeholder, PlaceholderText);
    ReplaceKeepsPrefix(s, "", Todo, TodoText);
  }

  lemma TidyNewlines()
    ensures Tidy("\n\n") == "\n\n"
    ensures Tidy("\n\n\n\n") == "\n\n\n\n"
  {
    TidyKeepsPlainText("\n\n");
    TidyKeepsPlainText("\n\n\n\n");
  }

  /** A name safe for the title: non-empty, one line, and free of '*', '`' and '['. */
  predicate PlainName(f: string) {
    |f| > 0 && '*' !in f && '`' !in f && '[' !in f
    && forall i :: 0 <= i < |f| ==> !IsLineTerminator(f[i])
  }

  lemma PlainHeading(f: string)
    requires PlainName(f)
    ensures forall i :: 0 <= i < |Heading(f)| ==> !IsLineTerminator(Heading(f)[i])
    ensures |Heading(f)| > 1 && Heading(f)[0] == '#' && Heading(f)[1] == ' '
  {
    var h := Heading(f);
    var tail := " Documentation";
    assert h == "# " + f + tail;
    forall i | 0 <= i < |h| ensures !IsLineTerminator(h[i]) {
      if i < 2 {
        assert h[i] == "# "[i];
      } else if i < 2 + |f| {
        assert h[i] == f[i - 2];
      } else {
        assert h[i] == tail[i - 2 - |f|];
      }
    }
  }

  lemma NormalizeBlankLine()
    ensures Normalize("\n\n") == "\n\n"
  {
    assert CollapseNewlines("\n\n") == "\n\n";
    assert ClampHeadings("\n\n") == "\n\n";
  }

  /** A one-line name never occurs in a blank line. */
  lemma NameNotInBlankLine(f: string)
    requires PlainName(f)
    ensures !Contains("\n\n", f)
  {
    var b := "\n\n";
    forall i | 0 <= i ensures !OccursAt(b, f, i) {
      if i + |f| <= |b| {
        assert b[i..i + |f|][0] == b[i] == '\n';
      }
    }
    ContainsIff(b, f);
  }

  lemma FirstPass(f: string)
    requires PlainName(f)
    ensures PostProcessDocumentation("\n\n", f) == Heading(f) + "\n\n\n\n"
  {
    var h := Heading(f);
    assert WithTitle(Normalize("\n\n"), f) == h + "\n\n\n\n" by {
      NormalizeBlankLine();
      NameNotInBlankLine(f);
    }
    assert Tidy(h + "\n\n\n\n") == h + "\n\n\n\n" by {
      HeadingShape(f);
      TidyKeepsPrefix(h, "\n\n\n\n");
      TidyNewlines();
    }
  }

  lemma SecondPassNormalize(f: string)
    requires PlainName(f)
    ensures Normalize(Heading(f) + "\n\n\n\n") == Heading(f) + "\n\n"
  {
    PlainHeading(f);
    HeadingCollapse(Heading(f));
    HeadingClamp(Heading(f));
  }

  /** Step 1 shortens the four newlines after a one-line heading to two. */
  lemma HeadingCollapse(h: string)
    requires forall i :: 0 <= i < |h| ==> !IsLineTerminator(h[i])
    ensures CollapseNewlines(h + "\n\n\n\n") == h + "\n\n"
  {
    assert '\n' !in h by {
      assert forall i :: 0 <= i < |h| ==> h[i] != '\n';
    }
    assert Run("\n\n\n\n", '\n') == 4;
    assert CollapseNewlines("\n\n\n\n") == "\n\n";
    CollapseKeepsPlainPrefix(h, "\n\n\n\n");
  }

  /** Step 2 leaves a one-line "# " heading and a blank line alone. */
  lemma HeadingClamp(h: string)
    requires forall i :: 0 <= i < |h| ==> !IsLineTerminator(h[i])
    requires |h| > 1 && h[0] == '#' && h[1] == ' '
    ensures ClampHeadings(h + "\n\n") == h + "\n\n"
  {
    var c := h + "\n\n";
    assert Run(c, '#') == 1 by {
      assert c[0] == '#' && c[1] == ' ';
    }
    assert c[1..] == h[1..] + "\n\n";
    ClampKeepsPlainPrefix(h[1..], "\n\n");
    assert Clamp("\n\n", false) == "\n\n";
    assert h == [h[0]] + h[1..];
  }

  lemma SecondPass(f: string)
    requires PlainName(f)
    ensures PostProcessDocumentation(Heading(f) + "\n\n\n\n", f) == Heading(f) + "\n\n"
  {
    SecondPassNormalize(f);
    HeadingNamesFile(f);
    HeadingBlankLineIsTidy(f);
  }

  /** The heading mentions the file name, so no second title is added. */
  lemma HeadingNamesFile(f: string)
    requires PlainName(f)
    ensures WithTitle(Heading(f) + "\n\n", f) == Heading(f) + "\n\n"
  {
    var c := Heading(f) + "\n\n";
    assert c[2..2 + |f|] == f;
    assert OccursAt(c, f, 2);
    ContainsIff(c, f);
  }

  lemma HeadingBlankLineIsTidy(f: string)
    requires PlainName(f)
    ensures Tidy(Heading(f) + "\n\n") == Heading(f) + "\n\n"
  {
    HeadingShape(f);
    TidyNewlines();
    TidyKeepsPrefix(Heading(f), "\n\n");
  }

  /**
   * Post-processing is not idempotent: for blank-line input, the blank line the
   * title step adds meets the one already in the text, and only a second pass
   * collapses the run of four newlines they form.
   */
  lemma PostProcessNotIdempotent(f: string)
    requires PlainName(f)
    ensures PostProcessDocumentation("\n\n", f) == Heading(f) + "\n\n\n\n"
    ensures PostProcessDocumentation(PostProcessDocumentation("\n\n", f), f) == Heading(f) + "\n\n"
    ensures PostProcessDocumentation(PostProcessDocumentation("\n\n", f), f) != PostProcessDocumentation("\n\n", f)
  {
    FirstPass(f);
    SecondPass(f);
    assert |Heading(f) + "\n\n"| < |Heading(f) + "\n\n\n\n"|;
  }
}
