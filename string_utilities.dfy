/**
 * Terminal text helpers: the markdown-to-escape rewriting applied to story
 * names and descriptions, and the status -> colour table.
 */
module StringUtilities {
  import opened Wrappers

  const Esc: char := '\U{1B}'

  // Select-graphic-rendition escape sequences: bold, underline, and reset to normal.
  const BoldOn: string := [Esc, '[', '1', 'm']
  const UnderlineOn: string := [Esc, '[', '4', 'm']
  const Reset: string := [Esc, '[', '0', 'm']

  predicate StartsWith(s: string, prefix: string)
  {
    |prefix| <= |s| && s[..|prefix|] == prefix
  }

  predicate NoNewline(s: string)
  {
    forall i :: 0 <= i < |s| ==> s[i] != '\n'
  }

  /** True when `d` starts at no position of `s`. */
  predicate Absent(s: string, d: string)
  {
    forall i :: 0 <= i <= |s| ==> !StartsWith(s[i..], d)
  }

  /**
   * Where the lazy group `(.*?)` ends: the least offset k at which `t` holds
   * the closing delimiter `d`, with no newline before it (`.` does not match
   * one). `CloseAtIsLeast` states the minimality.
   */
  function CloseAt(t: string, d: string): (k: Option<nat>)
    ensures k.Some? ==> k.value + |d| <= |t| && StartsWith(t[k.value..], d)
  {
    if StartsWith(t, d) then Some(0)
    else if |t| == 0 || t[0] == '\n' then None
    else
      match CloseAt(t[1..], d)
      case None => None
      case Some(k) =>
        assert t[1..][k..] == t[k + 1..];
        Some(k + 1)
  }

  /**
   * The closing delimiter found is the first one on the line: none starts
   * earlier, no newline precedes it, and when none is found, none starts
   * anywhere before the first newline.
   */
  lemma {:induction false} CloseAtIsLeast(t: string, d: string)
    ensures CloseAt(t, d).Some? ==> NoNewline(t[..CloseAt(t, d).value])
    ensures CloseAt(t, d).Some? ==> forall j :: 0 <= j < CloseAt(t, d).value ==> !StartsWith(t[j..], d)
    ensures CloseAt(t, d).None? ==> forall j :: 0 <= j <= |t| && NoNewline(t[..j]) ==> !StartsWith(t[j..], d)
  {
    if !StartsWith(t, d) && |t| > 0 && t[0] != '\n' {
      var u := t[1..];
      CloseAtIsLeast(u, d);
      assert t[0..] == t;
      match CloseAt(u, d)
      case Some(k) =>
        assert t[..k + 1] == [t[0]] + u[..k];
        forall j | 0 <= j < k + 1 ensures !StartsWith(t[j..], d) {
          if j > 0 {
            assert t[j..] == u[j - 1..];
          }
        }
      case None =>
        forall j | 0 <= j <= |t| && NoNewline(t[..j]) ensures !StartsWith(t[j..], d) {
          if j > 0 {
            assert t[j..] == u[j - 1..];
            assert t[..j] == [t[0]] + u[..j - 1];
            var v, w := u[..j - 1], t[..j];
            assert NoNewline(v) by {
              forall i | 0 <= i < |v| ensures v[i] != '\n' {
                assert v[i] == w[i + 1];
              }
            }
          }
        }
    }
  }

  /**
   * One `gsub(/(d)(.*?)(d)/, on + '\2' + Reset)`: scanning left to right, each
   * delimiter that has a closing partner on the same line wraps the text
   * between the two in `on` ... `Reset`; scanning resumes after the closing
   * delimiter. Any other character is copied, so a first character that
   * cannot open the delimiter stays first.
   */
  function Replace(s: string, d: string, on: string): (r: string)
    requires |d| > 0
    ensures |s| > 0 && s[0] != d[0] ==> |r| > 0 && r[0] == s[0]
    decreases |s|
  {
    if |s| == 0 then ""
    else if StartsWith(s, d) && CloseAt(s[|d|..], d).Some? then
      var k := CloseAt(s[|d|..], d).value;
      on + s[|d|..|d| + k] + Reset + Replace(s[|d| + k + |d|..], d, on)
    else [s[0]] + Replace(s[1..], d, on)
  }

  /** `embiggen_string`: `**X**` to bold, then `_X_` to underline, unless markdown is disabled. */
  function Embiggen(s: string, markdownDisabled: bool): (r: string)
    ensures markdownDisabled ==> r == s
  {
    if markdownDisabled then s
    else Replace(Replace(s, "**", BoldOn), "_", UnderlineOn)
  }

  /** Text holding no delimiter comes back unchanged. */
  lemma {:induction false} ReplaceAbsent(s: string, d: string, on: string)
    requires |d| > 0
    requires Absent(s, d)
    ensures Replace(s, d, on) == s
  {
    if |s| > 0 {
      assert !StartsWith(s[0..], d);
      assert s[0..] == s;
      assert Absent(s[1..], d) by {
        forall i | 0 <= i <= |s[1..]| ensures !StartsWith(s[1..][i..], d) {
          assert s[1..][i..] == s[i + 1..];
        }
      }
      ReplaceAbsent(s[1..], d, on);
    }
  }

  /** Text in which the delimiter's first character never occurs comes back unchanged. */
  lemma {:induction false} ReplaceWithoutDelimiterChar(s: string, d: string, on: string)
    requires |d| > 0
    requires d[0] !in s
    ensures Replace(s, d, on) == s
  {
    if |s| > 0 {
      assert s[0] != d[0];
      assert d[0] !in s[1..];
      ReplaceWithoutDelimiterChar(s[1..], d, on);
    }
  }

  /** Input with no `**` and no `_` is returned unchanged. */
  lemma EmbiggenPlain(s: string)
    requires Absent(s, "**")
    requires forall i :: 0 <= i < |s| ==> s[i] != '_'
    ensures Embiggen(s, false) == s
  {
    ReplaceAbsent(s, "**", BoldOn);
    assert Absent(s, "_") by {
      forall i | 0 <= i <= |s| ensures !StartsWith(s[i..], "_") {
        if i < |s| {
          assert s[i..][..1] == [s[i]];
        }
      }
    }
    ReplaceAbsent(s, "_", UnderlineOn);
  }

  /** Text shorter than the delimiter is copied. */
  lemma {:induction false} ReplaceShort(s: string, d: string, on: string)
    requires |s| < |d|
    ensures Replace(s, d, on) == s
  {
    if |s| > 0 {
      ReplaceShort(s[1..], d, on);
    }
  }

  /** An unpaired trailing delimiter is left as it is. */
  lemma {:induction false} ReplaceTrailing(s: string, d: string, on: string)
    requires |d| > 0
    requires Absent(s, d)
    ensures Replace(s + d, d, on) == s + d
  {
    var t := s + d;
    if |s| == 0 {
      assert t == d;
      assert d[|d|..] == [];
      assert CloseAt(d[|d|..], d).None?;
      ReplaceShort(d[1..], d, on);
    } else {
      assert !StartsWith(s[0..], d);
      assert s[0..] == s;
      if StartsWith(t, d) {
        // Only possible when the delimiter straddles the end of s: what follows it is shorter than d.
        assert |s| < |d|;
        assert |t[|d|..]| < |d|;
        ShortHasNoClose(t[|d|..], d);
      }
      assert Absent(s[1..], d) by {
        forall i | 0 <= i <= |s[1..]| ensures !StartsWith(s[1..][i..], d) {
          assert s[1..][i..] == s[i + 1..];
        }
      }
      assert t[1..] == s[1..] + d;
      ReplaceTrailing(s[1..], d, on);
    }
  }

  /** A closing delimiter found in `u` is still the one found once more text follows. */
  lemma {:induction false} CloseAtExtend(u: string, v: string, d: string)
    requires CloseAt(u, d).Some?
    ensures CloseAt(u + v, d) == CloseAt(u, d)
  {
    var k := CloseAt(u, d).value;
    assert (u + v)[..|d|] == u[..|d|];
    if !StartsWith(u, d) {
      assert (u + v)[1..] == u[1..] + v;
      CloseAtExtend(u[1..], v, d);
    }
  }

  /** `.` does not match a newline: no closing delimiter before one means none at all. */
  lemma {:induction false} CloseAtNewline(u: string, v: string, d: string)
    requires '\n' !in d
    requires CloseAt(u, d).None?
    ensures CloseAt(u + "\n" + v, d).None?
  {
    var t := u + "\n" + v;
    assert !StartsWith(t, d) by {
      if |d| <= |u| {
        assert t[..|d|] == u[..|d|];
      } else {
        assert t[|u|] == '\n';
      }
    }
    if |u| > 0 && u[0] != '\n' {
      assert t[1..] == u[1..] + "\n" + v;
      CloseAtNewline(u[1..], v, d);
    }
  }

  /** A delimiter opens the joined text exactly when it opens the first line. */
  lemma OpenAtLineStart(p: string, t: string, s: string, d: string)
    requires |d| > 0 && '\n' !in d
    requires s == p + "\n" + t
    ensures StartsWith(s, d) <==> StartsWith(p, d)
    ensures StartsWith(p, d) ==> s[|d|..] == p[|d|..] + ("\n" + t)
  {
    if |d| <= |p| {
      assert s[..|d|] == p[..|d|];
      assert s[|d|..] == p[|d|..] + ("\n" + t);
    } else {
      assert s[|p|] == '\n';
    }
  }

  /** The pair opened on a line closes on that line, or not at all. */
  lemma PairAtLineStart(p: string, t: string, s: string, d: string)
    requires |d| > 0 && '\n' !in d
    requires s == p + "\n" + t
    ensures (StartsWith(s, d) && CloseAt(s[|d|..], d).Some?) <==> (StartsWith(p, d) && CloseAt(p[|d|..], d).Some?)
    ensures StartsWith(p, d) && CloseAt(p[|d|..], d).Some? ==> CloseAt(s[|d|..], d) == CloseAt(p[|d|..], d)
  {
    OpenAtLineStart(p, t, s, d);
    if StartsWith(p, d) {
      var u := p[|d|..];
      if CloseAt(u, d).Some? {
        CloseAtExtend(u, "\n" + t, d);
      } else {
        assert u + ("\n" + t) == u + "\n" + t;
        CloseAtNewline(u, t, d);
      }
    }
  }

  /** One unfolding of `Replace` where no pair opens. */
  lemma ReplaceUnmatched(s: string, d: string, on: string)
    requires |d| > 0
    requires |s| > 0 && !(StartsWith(s, d) && CloseAt(s[|d|..], d).Some?)
    ensures Replace(s, d, on) == [s[0]] + Replace(s[1..], d, on)
  {
  }

  /**
   * Lines are rewritten independently: a delimiter without a newline never
   * pairs across one, so a pass over two lines is the pass over each.
   */
  lemma {:induction false} ReplaceLines(p: string, t: string, d: string, on: string)
    requires |d| > 0 && '\n' !in d
    ensures Replace(p + "\n" + t, d, on) == Replace(p, d, on) + "\n" + Replace(t, d, on)
    decreases |p|
  {
    var s := p + "\n" + t;
    PairAtLineStart(p, t, s, d);
    if |p| == 0 {
      assert s == "\n" + t;
      ReplaceUnmatched(s, d, on);
      assert s[1..] == t;
    } else if StartsWith(p, d) && CloseAt(p[|d|..], d).Some? {
      var k := CloseAt(p[|d|..], d).value;
      ReplaceLines(p[|d| + k + |d|..], t, d, on);
      LinesPairStep(p, t, s, d, on, k);
    } else {
      ReplaceLines(p[1..], t, d, on);
      LinesCopyStep(p, t, s, d, on);
    }
  }

  lemma LineSlices(p: string, t: string, i: nat, j: nat)
    requires i <= j <= |p|
    ensures (p + "\n" + t)[i..j] == p[i..j] && (p + "\n" + t)[j..] == p[j..] + "\n" + t
  {
  }

  lemma LineTail(p: string, t: string)
    requires |p| > 0
    ensures (p + "\n" + t)[0] == p[0] && (p + "\n" + t)[1..] == p[1..] + "\n" + t
  {
  }

  /** The step of `ReplaceLines` where the first line opens with a pair. */
  lemma LinesPairStep(p: string, t: string, s: string, d: string, on: string, k: nat)
    requires |d| > 0 && s == p + "\n" + t
    requires StartsWith(p, d) && CloseAt(p[|d|..], d) == Some(k)
    requires StartsWith(s, d) && CloseAt(s[|d|..], d) == Some(k)
    requires Replace(p[|d| + k + |d|..] + "\n" + t, d, on) == Replace(p[|d| + k + |d|..], d, on) + "\n" + Replace(t, d, on)
    ensures Replace(s, d, on) == Replace(p, d, on) + "\n" + Replace(t, d, on)
  {
    var x, rest := p[|d|..|d| + k], p[|d| + k + |d|..];
    ReplaceMatched(p, d, on, k);
    PairOnJoinedLine(p, t, s, d, on, k);
    Regroup(on + x + Reset, Replace(rest, d, on), Replace(t, d, on));
  }

  /** The pair opening `p` is rewritten the same way when more lines follow `p`. */
  lemma PairOnJoinedLine(p: string, t: string, s: string, d: string, on: string, k: nat)
    requires |d| > 0 && s == p + "\n" + t
    requires StartsWith(s, d) && CloseAt(s[|d|..], d) == Some(k)
    requires |d| + k + |d| <= |p|
    ensures Replace(s, d, on) == on + p[|d|..|d| + k] + Reset + Replace(p[|d| + k + |d|..] + "\n" + t, d, on)
  {
    LineSlices(p, t, |d|, |d| + k);
    LineSlices(p, t, |d| + k + |d|, |d| + k + |d|);
    ReplaceMatchedAt(s, d, on, k, p[|d|..|d| + k], p[|d| + k + |d|..] + "\n" + t);
  }

  /** `ReplaceMatched`, with the enclosed text and the rest given by name. */
  lemma ReplaceMatchedAt(s: string, d: string, on: string, k: nat, x: string, rest: string)
    requires |d| > 0
    requires |s| > 0 && StartsWith(s, d) && CloseAt(s[|d|..], d) == Some(k)
    requires x == s[|d|..|d| + k] && rest == s[|d| + k + |d|..]
    ensures Replace(s, d, on) == on + x + Reset + Replace(rest, d, on)
  {
    ReplaceMatched(s, d, on, k);
  }

  lemma Regroup(w: string, a: string, b: string)
    ensures w + (a + "\n" + b) == (w + a) + "\n" + b
  {
  }

  /** The step of `ReplaceLines` where the first character of the first line is copied. */
  lemma LinesCopyStep(p: string, t: string, s: string, d: string, on: string)
    requires |d| > 0 && |p| > 0 && s == p + "\n" + t
    requires !(StartsWith(s, d) && CloseAt(s[|d|..], d).Some?)
    requires !(StartsWith(p, d) && CloseAt(p[|d|..], d).Some?)
    requires Replace(p[1..] + "\n" + t, d, on) == Replace(p[1..], d, on) + "\n" + Replace(t, d, on)
    ensures Replace(s, d, on) == Replace(p, d, on) + "\n" + Replace(t, d, on)
  {
    ReplaceUnmatched(s, d, on);
    ReplaceUnmatched(p, d, on);
    LineTail(p, t);
    Regroup([p[0]], Replace(p[1..], d, on), Replace(t, d, on));
  }

  /** An unpaired delimiter ending the last line is left as it is, whatever earlier lines hold. */
  lemma ReplaceTrailingLastLine(p: string, s: string, d: string, on: string)
    requires |d| > 0 && '\n' !in d
    requires Absent(s, d)
    ensures Replace(p + "\n" + s + d, d, on) == Replace(p, d, on) + "\n" + s + d
  {
    var t := s + d;
    JoinedLast(p, s, d);
    ReplaceLines(p, t, d, on);
    ReplaceTrailing(s, d, on);
    JoinedLast(Replace(p, d, on), s, d);
  }

  lemma JoinedLast(p: string, s: string, d: string)
    ensures p + "\n" + s + d == p + "\n" + (s + d)
  {
  }

  lemma {:induction false} ShortHasNoClose(t: string, d: string)
    requires |t| < |d|
    ensures CloseAt(t, d).None?
  {
    if |t| > 0 && t[0] != '\n' {
      ShortHasNoClose(t[1..], d);
    }
  }

  /**
   * The inverse of one `Replace` pass: turns every `on` and every `Reset`
   * back into the delimiter.
   */
  function Unmark(r: string, d: string, on: string): string
    requires |on| > 0
    decreases |r|
  {
    if |r| == 0 then ""
    else if StartsWith(r, on) then d + Unmark(r[|on|..], d, on)
    else if StartsWith(r, Reset) then d + Unmark(r[|Reset|..], d, on)
    else [r[0]] + Unmark(r[1..], d, on)
  }

  lemma {:induction false} UnmarkPlain(x: string, u: string, d: string, on: string)
    requires |on| > 0 && on[0] == Esc
    requires forall i :: 0 <= i < |x| ==> x[i] != Esc
    ensures Unmark(x + u, d, on) == x + Unmark(u, d, on)
  {
    if |x| > 0 {
      assert (x + u)[0] == x[0];
      assert (x + u)[1..] == x[1..] + u;
      UnmarkPlain(x[1..], u, d, on);
    } else {
      assert x + u == u;
    }
  }

  /** Undoing one wrapped span gives back the delimited span. */
  lemma UnmarkWrapped(x: string, t: string, d: string, on: string)
    requires |on| == |Reset| && on != Reset && on[0] == Esc
    requires forall i :: 0 <= i < |x| ==> x[i] != Esc
    ensures Unmark(on + x + Reset + t, d, on) == d + x + d + Unmark(t, d, on)
  {
    var tailOut := Reset + t;
    var r := on + (x + tailOut);
    assert on + x + Reset + t == r;
    assert r[..|on|] == on;
    assert r[|on|..] == x + tailOut;
    assert Unmark(r, d, on) == d + Unmark(x + tailOut, d, on);
    UnmarkPlain(x, tailOut, d, on);
    assert tailOut[..|on|] != on;
    assert tailOut[..|Reset|] == Reset;
    assert tailOut[|Reset|..] == t;
    assert Unmark(tailOut, d, on) == d + Unmark(t, d, on);
  }

  /** The input of a matched span is delimiter, text, delimiter, remainder. */
  lemma SplitMatch(s: string, d: string, k: nat)
    requires |d| > 0 && StartsWith(s, d)
    requires k + |d| <= |s[|d|..]| && StartsWith(s[|d|..][k..], d)
    ensures s == d + s[|d|..|d| + k] + d + s[|d| + k + |d|..]
  {
    assert s[|d|..][k..][..|d|] == s[|d| + k..|d| + k + |d|];
    assert s == s[..|d|] + s[|d|..|d| + k] + s[|d| + k..|d| + k + |d|] + s[|d| + k + |d|..];
  }

  /**
   * A pass loses no text: on input without escape characters, putting the
   * delimiters back where the escape codes are recovers the input exactly.
   */
  lemma {:induction false} ReplaceRoundTrip(s: string, d: string, on: string)
    requires |d| > 0
    requires |on| == |Reset| && on != Reset && on[0] == Esc
    requires forall i :: 0 <= i < |s| ==> s[i] != Esc
    ensures Unmark(Replace(s, d, on), d, on) == s
    decreases |s|
  {
    if |s| > 0 {
      if StartsWith(s, d) && CloseAt(s[|d|..], d).Some? {
        var k := CloseAt(s[|d|..], d).value;
        RoundTripMatched(s, d, on, k);
      } else {
        assert Replace(s, d, on) == [s[0]] + Replace(s[1..], d, on);
        UnmarkPlain([s[0]], Replace(s[1..], d, on), d, on);
        ReplaceRoundTrip(s[1..], d, on);
      }
    }
  }

  lemma {:induction false} RoundTripMatched(s: string, d: string, on: string, k: nat)
    requires |d| > 0
    requires |on| == |Reset| && on != Reset && on[0] == Esc
    requires forall i :: 0 <= i < |s| ==> s[i] != Esc
    requires |s| > 0 && StartsWith(s, d) && CloseAt(s[|d|..], d) == Some(k)
    ensures Unmark(Replace(s, d, on), d, on) == s
    decreases |s|, 0
  {
    var x := s[|d|..|d| + k];
    var rest := s[|d| + k + |d|..];
    ReplaceMatched(s, d, on, k);
    SplitMatch(s, d, k);
    ReplaceRoundTrip(rest, d, on);
    UnmarkWrapped(x, Replace(rest, d, on), d, on);
  }

  /** One unfolding of `Replace` at a matched opening delimiter. */
  lemma ReplaceMatched(s: string, d: string, on: string, k: nat)
    requires |d| > 0
    requires |s| > 0 && StartsWith(s, d) && CloseAt(s[|d|..], d) == Some(k)
    ensures Replace(s, d, on) == on + s[|d|..|d| + k] + Reset + Replace(s[|d| + k + |d|..], d, on)
  {
    assert |s| != 0;
    assert CloseAt(s[|d|..], d).value == k;
  }

  /** The story name used throughout the tests: only the first word is bold. */
  lemma BoldExample(s: string)
    requires s == "**THIS** IS"
    ensures Embiggen(s, false) == BoldOn + "THIS" + Reset + " IS"
  {
    BoldPassExample(s);
    var bold := BoldOn + "THIS" + Reset + " IS";
    assert '_' !in BoldOn && '_' !in "THIS" && '_' !in Reset && '_' !in " IS";
    ReplaceWithoutDelimiterChar(bold, "_", UnderlineOn);
  }

  lemma BoldPassExample(s: string)
    requires s == "**THIS** IS"
    ensures Replace(s, "**", BoldOn) == BoldOn + "THIS" + Reset + " IS"
  {
    assert s[..2] == "**";
    assert s[2..] == "THIS** IS";
    ClosingExample(s[2..]);
    ReplaceMatched(s, "**", BoldOn, 4);
    assert s[2..6] == "THIS";
    assert s[8..] == " IS";
    ReplaceWithoutDelimiterChar(s[8..], "**", BoldOn);
  }

  lemma ClosingExample(t: string)
    requires t == "THIS** IS"
    ensures CloseAt(t, "**") == Some(4)
  {
    assert t[4..][..2] == "**" && CloseAt(t[4..], "**") == Some(0);
    assert t[3..][..2] != "**" && t[3..][1..] == t[4..] && CloseAt(t[3..], "**") == Some(1);
    assert t[2..][..2] != "**" && t[2..][1..] == t[3..] && CloseAt(t[2..], "**") == Some(2);
    assert t[1..][..2] != "**" && t[1..][1..] == t[2..] && CloseAt(t[1..], "**") == Some(3);
    assert t[..2] != "**";
  }

  datatype Color = Red | Green | Cyan | Yellow | Magenta

  /** A string with an optional foreground colour around it. */
  datatype Styled = Plain(text: string) | Colored(color: Color, text: string)

  /** `colorize_status`. */
  function ColorizeStatus(state: string): (r: Styled)
    ensures r.text == state
    ensures r == Colored(Red, state) <==> state == "rejected"
    ensures r == Colored(Green, state) <==> state == "accepted"
    ensures r == Colored(Cyan, state) <==> state == "delivered"
    ensures r == Colored(Yellow, state) <==> state == "finished"
    ensures r == Colored(Magenta, state) <==> state == "started"
    ensures r.Plain? <==> state !in {"rejected", "accepted", "delivered", "finished", "started"}
  {
    match state
    case "rejected" => Colored(Red, state)
    case "accepted" => Colored(Green, state)
    case "delivered" => Colored(Cyan, state)
    case "finished" => Colored(Yellow, state)
    case "started" => Colored(Magenta, state)
    case "unstarted" => Plain(state)
    case _ => Plain(state)
  }
}
