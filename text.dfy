/** The handful of Python `str` operations the scripts rely on, written out with
    Python's semantics (`in`, `startswith`, `strip`, `split`, `join`, `replace`,
    `lower`, `int` on decimal digits and decimal formatting of integers), together
    with the facts about them that the rest of the model needs. */
module Text {
  import opened Wrappers

  // ---------------------------------------------------------------------------
  // Substrings
  // ---------------------------------------------------------------------------

  /** `p` occurs in `s` starting at index `i`. */
  predicate OccursAt(s: string, p: string, i: nat) {
    i + |p| <= |s| && s[i..i + |p|] == p
  }

  /** Python's `p in s`. */
  predicate Contains(s: string, p: string) {
    exists i: nat | i <= |s| :: OccursAt(s, p, i)
  }

  /** Python's `s.startswith(p)`. */
  predicate StartsWith(s: string, p: string) {
    |p| <= |s| && s[..|p|] == p
  }

  lemma ContainsChar(s: string, c: char)
    ensures Contains(s, [c]) <==> c in s
  {
    if c in s {
      var i :| 0 <= i < |s| && s[i] == c;
      assert OccursAt(s, [c], i);
    }
    if Contains(s, [c]) {
      var i: nat :| i <= |s| && OccursAt(s, [c], i);
      assert s[i..i + 1][0] == s[i];
    }
  }

  /** An occurrence of `p` whose first character cannot lie in `a` and whose
      last character cannot lie in `c` lies inside `b`. */
  lemma ContainsInMiddle(a: string, b: string, c: string, p: string)
    requires |p| > 0 && p[0] !in a && p[|p| - 1] !in c
    requires Contains(a + b + c, p)
    ensures Contains(b, p)
  {
    var s := a + b + c;
    var i: nat :| i <= |s| && OccursAt(s, p, i);
    OccurrenceAfter(a, b + c, p, i);
    assert s == (a + b) + c;
    OccurrenceBefore(a + b, c, p, i);
    var j: nat := i - |a|;
    assert b[j..j + |p|] == s[i..i + |p|];
    assert OccursAt(b, p, j);
  }

  /** An occurrence whose first character is not in `x` starts after `x`. */
  lemma OccurrenceAfter(x: string, y: string, p: string, i: nat)
    requires |p| > 0 && p[0] !in x && OccursAt(x + y, p, i)
    ensures i >= |x|
  {
    assert (x + y)[i..i + |p|][0] == p[0];
    assert (x + y)[i] == p[0];
  }

  /** An occurrence whose last character is not in `y` ends before `y`. */
  lemma OccurrenceBefore(x: string, y: string, p: string, i: nat)
    requires |p| > 0 && p[|p| - 1] !in y && OccursAt(x + y, p, i)
    ensures i + |p| <= |x|
  {
    assert (x + y)[i..i + |p|][|p| - 1] == p[|p| - 1];
    assert (x + y)[i + |p| - 1] == p[|p| - 1];
  }

  // ---------------------------------------------------------------------------
  // Whitespace and strip()
  // ---------------------------------------------------------------------------

  /** The ASCII characters Python's `str.strip()` removes: space, \t, \n, \v,
      \f, \r and the four separators \x1c to \x1f. */
  predicate IsSpace(c: char) {
    c == ' ' || '\t' <= c <= '\r' || '\U{1C}' <= c <= '\U{1F}'
  }

  predicate AllSpace(w: string) {
    forall i | 0 <= i < |w| :: IsSpace(w[i])
  }

  /** Drops the leading characters that satisfy `drop`. */
  function TrimLeft(s: string, drop: char -> bool): (r: string)
    ensures |r| <= |s|
  {
    if |s| > 0 && drop(s[0]) then TrimLeft(s[1..], drop) else s
  }

  /** Drops the trailing characters that satisfy `drop`. */
  function TrimRight(s: string, drop: char -> bool): (r: string)
    ensures |r| <= |s|
  {
    if |s| > 0 && drop(s[|s| - 1]) then TrimRight(s[..|s| - 1], drop) else s
  }

  /** Python's `s.strip()`. */
  function Strip(s: string): string {
    TrimRight(TrimLeft(s, IsSpace), IsSpace)
  }

  /** Python's `s.strip('`')`. */
  function StripBackticks(s: string): string {
    TrimRight(TrimLeft(s, c => c == '`'), c => c == '`')
  }

  /** A text without backticks at its ends comes back out of its backtick
      quotes unchanged. */
  lemma StripBackticksQuoted(x: string)
    requires |x| == 0 || (x[0] != '`' && x[|x| - 1] != '`')
    ensures StripBackticks("`" + x + "`") == x
  {
    var tick := (c: char) => c == '`';
    assert ("`" + x + "`")[1..] == x + "`";
    if |x| == 0 {
      assert TrimLeft("`", tick) == "";
    } else {
      assert TrimLeft(x + "`", tick) == x + "`";
      assert (x + "`")[..|x|] == x;
    }
  }

  /** Trimming on the left drops the longest prefix of characters that
      satisfy `drop`. */
  lemma {:induction false} TrimLeftCut(s: string, drop: char -> bool) returns (n: nat)
    ensures n <= |s| && TrimLeft(s, drop) == s[n..]
    ensures forall i | 0 <= i < n :: drop(s[i])
    ensures n < |s| ==> !drop(s[n])
    decreases |s|
  {
    if |s| > 0 && drop(s[0]) {
      var m := TrimLeftCut(s[1..], drop);
      n := m + 1;
      assert s[1..][m..] == s[n..];
      assert forall i | 1 <= i < n :: s[i] == s[1..][i - 1];
    } else {
      n := 0;
    }
  }

  /** Trimming on the right drops the longest suffix of characters that
      satisfy `drop`. */
  lemma {:induction false} TrimRightCut(s: string, drop: char -> bool) returns (m: nat)
    ensures m <= |s| && TrimRight(s, drop) == s[..m]
    ensures forall i | m <= i < |s| :: drop(s[i])
    ensures 0 < m ==> !drop(s[m - 1])
    decreases |s|
  {
    if |s| > 0 && drop(s[|s| - 1]) {
      m := TrimRightCut(s[..|s| - 1], drop);
      assert s[..|s| - 1][..m] == s[..m];
      assert forall i | m <= i < |s| - 1 :: s[i] == s[..|s| - 1][i];
    } else {
      m := |s|;
    }
  }

  /** `s.strip('`')` is a slice of `s` with only backticks around it and none
      at its own ends. */
  lemma StripBackticksCut(s: string) returns (lo: nat, hi: nat)
    ensures lo <= hi <= |s| && StripBackticks(s) == s[lo..hi]
    ensures forall i | 0 <= i < lo || hi <= i < |s| :: s[i] == '`'
    ensures lo < hi ==> s[lo] != '`' && s[hi - 1] != '`'
  {
    var tick := (c: char) => c == '`';
    lo := TrimLeftCut(s, tick);
    var rest := s[lo..];
    var m := TrimRightCut(rest, tick);
    hi := lo + m;
    assert rest[..m] == s[lo..hi];
    assert forall i | hi <= i < |s| :: s[i] == rest[i - lo];
  }

  predicate IsStripped(s: string) {
    |s| == 0 || (!IsSpace(s[0]) && !IsSpace(s[|s| - 1]))
  }

  lemma {:induction false} TrimLeftSpaces(w: string, p: string)
    requires AllSpace(w)
    ensures TrimLeft(w + p, IsSpace) == TrimLeft(p, IsSpace)
    decreases |w|
  {
    if |w| > 0 {
      assert (w + p)[0] == w[0];
      assert (w + p)[1..] == w[1..] + p;
      TrimLeftSpaces(w[1..], p);
    } else {
      assert w + p == p;
    }
  }

  lemma {:induction false} TrimRightSpaces(p: string, w: string)
    requires AllSpace(w)
    ensures TrimRight(p + w, IsSpace) == TrimRight(p, IsSpace)
    decreases |w|
  {
    if |w| > 0 {
      assert (p + w)[|p + w| - 1] == w[|w| - 1];
      assert (p + w)[..|p + w| - 1] == p + w[..|w| - 1];
      TrimRightSpaces(p, w[..|w| - 1]);
    } else {
      assert p + w == p;
    }
  }

  /** Trimming the left of `p + w` only reaches `w` when `p` is all space. */
  lemma {:induction false} TrimLeftAppend(p: string, w: string)
    ensures AllSpace(p) ==> TrimLeft(p + w, IsSpace) == TrimLeft(w, IsSpace)
    ensures !AllSpace(p) ==> TrimLeft(p + w, IsSpace) == TrimLeft(p, IsSpace) + w
    decreases |p|
  {
    if |p| == 0 {
      assert p + w == w;
    } else {
      assert (p + w)[0] == p[0];
      assert (p + w)[1..] == p[1..] + w;
      TrimLeftAppend(p[1..], w);
      if IsSpace(p[0]) {
        if AllSpace(p[1..]) {
          assert AllSpace(p) by {
            forall i | 0 <= i < |p| ensures IsSpace(p[i]) {
              if i > 0 { assert p[i] == p[1..][i - 1]; }
            }
          }
        } else {
          assert !AllSpace(p);
        }
      } else {
        assert !AllSpace(p);
      }
    }
  }

  lemma {:induction false} TrimLeftAllSpace(p: string)
    requires AllSpace(p)
    ensures TrimLeft(p, IsSpace) == ""
    decreases |p|
  {
    if |p| > 0 {
      assert AllSpace(p[1..]) by {
        forall i | 0 <= i < |p[1..]| ensures IsSpace(p[1..][i]) { assert p[1..][i] == p[i + 1]; }
      }
      TrimLeftAllSpace(p[1..]);
    }
  }

  /** Surrounding whitespace never changes what `strip()` returns. */
  lemma StripSpaceLeft(w: string, p: string)
    requires AllSpace(w)
    ensures Strip(w + p) == Strip(p)
  {
    TrimLeftSpaces(w, p);
  }

  lemma StripSpaceRight(p: string, w: string)
    requires AllSpace(w)
    ensures Strip(p + w) == Strip(p)
  {
    TrimLeftAppend(p, w);
    if AllSpace(p) {
      TrimLeftAllSpace(p);
      TrimLeftAllSpace(w);
      assert TrimLeft(p + w, IsSpace) == "";
    } else {
      TrimRightSpaces(TrimLeft(p, IsSpace), w);
    }
  }

  lemma StrippedFixed(s: string)
    requires IsStripped(s)
    ensures Strip(s) == s
  {
  }

  lemma StripPadded(w: string, x: string, w': string)
    requires AllSpace(w) && AllSpace(w') && IsStripped(x)
    ensures Strip(w + x + w') == x
  {
    StripSpaceLeft(w, x + w');
    assert w + x + w' == w + (x + w');
    StripSpaceRight(x, w');
  }

  lemma {:induction false} TrimLeftShape(s: string) returns (w: string)
    ensures AllSpace(w) && s == w + TrimLeft(s, IsSpace)
    ensures TrimLeft(s, IsSpace) == "" || !IsSpace(TrimLeft(s, IsSpace)[0])
    decreases |s|
  {
    if |s| > 0 && IsSpace(s[0]) {
      var w0 := TrimLeftShape(s[1..]);
      w := [s[0]] + w0;
      assert AllSpace(w) by {
        forall i | 0 <= i < |w| ensures IsSpace(w[i]) { if i > 0 { assert w[i] == w0[i - 1]; } }
      }
      assert s == [s[0]] + s[1..];
    } else {
      w := "";
      assert s == w + s;
    }
  }

  lemma {:induction false} TrimRightShape(s: string) returns (w: string)
    ensures AllSpace(w) && s == TrimRight(s, IsSpace) + w
    ensures TrimRight(s, IsSpace) == "" || !IsSpace(TrimRight(s, IsSpace)[|TrimRight(s, IsSpace)| - 1])
    ensures forall k | 0 <= k < |TrimRight(s, IsSpace)| :: TrimRight(s, IsSpace)[k] == s[k]
    decreases |s|
  {
    if |s| > 0 && IsSpace(s[|s| - 1]) {
      var w0 := TrimRightShape(s[..|s| - 1]);
      w := w0 + [s[|s| - 1]];
      assert AllSpace(w) by {
        forall i | 0 <= i < |w| ensures IsSpace(w[i]) { if i < |w0| { assert w[i] == w0[i]; } }
      }
      assert s == s[..|s| - 1] + [s[|s| - 1]];
    } else {
      w := "";
      assert s == s + w;
    }
  }

  /** `s` is its stripped core with whitespace on either side. */
  lemma StripShape(s: string) returns (w: string, w': string)
    ensures AllSpace(w) && AllSpace(w') && s == w + Strip(s) + w'
    ensures IsStripped(Strip(s))
  {
    w := TrimLeftShape(s);
    var t := TrimLeft(s, IsSpace);
    w' := TrimRightShape(t);
    var u := TrimRight(t, IsSpace);
    if |u| > 0 {
      assert u[0] == t[0];
    }
  }

  // ---------------------------------------------------------------------------
  // replace()
  // ---------------------------------------------------------------------------

  /** Python's `s.replace(pat, rep)`: left to right, non-overlapping. */
  function ReplaceAll(s: string, pat: string, rep: string): string
    requires |pat| > 0
    decreases |s|
  {
    if |s| < |pat| then s
    else if s[..|pat|] == pat then rep + ReplaceAll(s[|pat|..], pat, rep)
    else [s[0]] + ReplaceAll(s[1..], pat, rep)
  }

  /** Replacing only brings in the characters of the replacement. */
  lemma {:induction false} ReplaceLacks(s: string, pat: string, rep: string, c: char)
    requires |pat| > 0 && c !in s && c !in rep
    ensures c !in ReplaceAll(s, pat, rep)
    decreases |s|
  {
    if |s| >= |pat| {
      if s[..|pat|] == pat {
        ReplaceLacks(s[|pat|..], pat, rep, c);
      } else {
        ReplaceLacks(s[1..], pat, rep, c);
      }
    }
  }

  /** Python's `s.replace(pat, '')`. */
  function RemoveAll(s: string, pat: string): string
    requires |pat| > 0
  {
    ReplaceAll(s, pat, "")
  }

  lemma {:induction false} ReplaceAbsent(s: string, pat: string, rep: string)
    requires |pat| > 0 && !Contains(s, pat)
    ensures ReplaceAll(s, pat, rep) == s
    decreases |s|
  {
    if |s| >= |pat| {
      if s[..|pat|] == pat {
        assert OccursAt(s, pat, 0);
        assert false;
      }
      assert !Contains(s[1..], pat) by {
        if Contains(s[1..], pat) {
          var i: nat :| i <= |s[1..]| && OccursAt(s[1..], pat, i);
          assert s[i + 1..i + 1 + |pat|] == s[1..][i..i + |pat|];
          assert OccursAt(s, pat, i + 1);
        }
      }
      ReplaceAbsent(s[1..], pat, rep);
    }
  }

  /** No occurrence of `pat` in `x + y` starts in `x` and ends in `y`. */
  predicate NoStraddle(x: string, y: string, pat: string) {
    forall i: nat | i < |x| && |x| < i + |pat| :: !OccursAt(x + y, pat, i)
  }

  lemma NoStraddleDrop(x: string, y: string, pat: string, d: nat)
    requires |pat| > 0 && d <= |x| && NoStraddle(x, y, pat)
    ensures NoStraddle(x[d..], y, pat)
  {
    var s := x + y;
    assert s[d..] == x[d..] + y;
    forall i: nat | i < |x[d..]| && |x[d..]| < i + |pat|
      ensures !OccursAt(x[d..] + y, pat, i)
    {
      assert !OccursAt(s, pat, i + d);
      if i + |pat| <= |x[d..] + y| {
        assert s[i + d..i + d + |pat|] == (x[d..] + y)[i..i + |pat|];
      }
    }
  }

  /** One step of `replace` when `s` does not start with `pat`. */
  lemma ReplaceStep(s: string, pat: string, rep: string)
    requires |pat| > 0 && |s| > 0 && !OccursAt(s, pat, 0)
    ensures ReplaceAll(s, pat, rep) == [s[0]] + ReplaceAll(s[1..], pat, rep)
  {
    if |s| < |pat| {
      ReplaceAbsentShort(s[1..], pat, rep);
      assert s == [s[0]] + s[1..];
    }
  }

  lemma ReplaceAbsentShort(s: string, pat: string, rep: string)
    requires 0 < |pat| && |s| < |pat|
    ensures ReplaceAll(s, pat, rep) == s
  {
  }

  /** `replace` works piecewise across a boundary no occurrence straddles. */
  lemma {:induction false} ReplaceConcat(x: string, y: string, pat: string, rep: string)
    requires |pat| > 0 && NoStraddle(x, y, pat)
    ensures ReplaceAll(x + y, pat, rep) == ReplaceAll(x, pat, rep) + ReplaceAll(y, pat, rep)
    decreases |x|
  {
    var s := x + y;
    if |x| == 0 {
      assert s == y;
    } else if |x| < |pat| || x[..|pat|] != pat {
      assert !OccursAt(s, pat, 0) by {
        if |x| >= |pat| { assert s[..|pat|] == x[..|pat|]; }
      }
      assert s[1..] == x[1..] + y;
      NoStraddleDrop(x, y, pat, 1);
      ReplaceConcat(x[1..], y, pat, rep);
      ReplaceStep(s, pat, rep);
      assert !OccursAt(x, pat, 0);
      ReplaceStep(x, pat, rep);
    } else {
      assert s[..|pat|] == x[..|pat|];
      assert s[|pat|..] == x[|pat|..] + y;
      NoStraddleDrop(x, y, pat, |pat|);
      ReplaceConcat(x[|pat|..], y, pat, rep);
    }
  }

  lemma ReplaceWhole(pat: string, rep: string)
    requires |pat| > 0
    ensures ReplaceAll(pat, pat, rep) == rep
  {
    assert pat[..|pat|] == pat;
    assert pat[|pat|..] == "";
  }

  /** A boundary cannot be straddled when `y` starts with a character that
      occurs nowhere in `pat` but at its start. */
  lemma NoStraddleByHead(x: string, y: string, pat: string)
    requires |pat| > 0 && |y| > 0 && forall k | 0 < k < |pat| :: pat[k] != y[0]
    ensures NoStraddle(x, y, pat)
  {
    forall i: nat | i < |x| && |x| < i + |pat|
      ensures !OccursAt(x + y, pat, i)
    {
      var k := |x| - i;
      if i + |pat| <= |x + y| {
        assert (x + y)[i..i + |pat|][k] == (x + y)[|x|] == y[0];
      }
    }
  }

  /** A boundary cannot be straddled when no character of `x` that could start
      a straddling occurrence equals the first character of `pat`. */
  lemma NoStraddleByTail(x: string, y: string, pat: string)
    requires |pat| > 0
    requires forall i | 0 <= i < |x| && |x| < i + |pat| :: x[i] != pat[0]
    ensures NoStraddle(x, y, pat)
  {
    forall i: nat | i < |x| && |x| < i + |pat|
      ensures !OccursAt(x + y, pat, i)
    {
      if i + |pat| <= |x + y| {
        assert (x + y)[i..i + |pat|][0] == (x + y)[i] == x[i];
      }
    }
  }

  // ---------------------------------------------------------------------------
  // split() and join()
  // ---------------------------------------------------------------------------

  /** Python's `s.split(sep)` for a non-empty separator. */
  function SplitOn(s: string, sep: string): (r: seq<string>)
    requires |sep| > 0
    ensures |r| >= 1
    decreases |s|
  {
    if |s| == 0 then [""]
    else if StartsWith(s, sep) then [""] + SplitOn(s[|sep|..], sep)
    else
      var rest := SplitOn(s[1..], sep);
      [[s[0]] + rest[0]] + rest[1..]
  }

  /** Python's `sep.join(ps)`. */
  function Join(ps: seq<string>, sep: string): string {
    if |ps| == 0 then ""
    else if |ps| == 1 then ps[0]
    else ps[0] + sep + Join(ps[1..], sep)
  }

  lemma JoinCons(x: string, rest: seq<string>, sep: string)
    requires |rest| > 0
    ensures Join([x] + rest, sep) == x + sep + Join(rest, sep)
  {
    assert ([x] + rest)[1..] == rest;
  }

  /** Python's `s.split(sep)[-1]`. */
  function LastSegment(s: string, sep: string): string
    requires |sep| > 0
  {
    var parts := SplitOn(s, sep);
    parts[|parts| - 1]
  }

  /** `[p.strip() for p in ps]`. */
  function StripAll(ps: seq<string>): (r: seq<string>)
    ensures |r| == |ps|
    ensures forall i | 0 <= i < |ps| :: r[i] == Strip(ps[i])
  {
    if |ps| == 0 then [] else [Strip(ps[0])] + StripAll(ps[1..])
  }

  lemma {:induction false} SplitWithoutSep(s: string, c: char)
    requires c !in s
    ensures SplitOn(s, [c]) == [s]
    decreases |s|
  {
    if |s| > 0 {
      assert !StartsWith(s, [c]) by { assert s[..1][0] == s[0]; }
      SplitWithoutSep(s[1..], c);
      assert s == [s[0]] + s[1..];
    }
  }

  lemma {:induction false} SplitPieceThenSep(p: string, c: char, rest: string)
    requires c !in p
    ensures SplitOn(p + [c] + rest, [c]) == [p] + SplitOn(rest, [c])
    decreases |p|
  {
    var s := p + [c] + rest;
    if |p| == 0 {
      assert s == [c] + rest;
      assert StartsWith(s, [c]);
      assert s[1..] == rest;
    } else {
      assert s[0] == p[0];
      assert !StartsWith(s, [c]) by { assert s[..1][0] == s[0]; }
      assert s[1..] == p[1..] + [c] + rest;
      SplitPieceThenSep(p[1..], c, rest);
      assert p == [p[0]] + p[1..];
    }
  }

  /** Splitting what was joined gives the pieces back, when none holds the separator. */
  lemma {:induction false} SplitJoin(ps: seq<string>, c: char)
    requires |ps| >= 1
    requires forall i | 0 <= i < |ps| :: c !in ps[i]
    ensures SplitOn(Join(ps, [c]), [c]) == ps
    decreases |ps|
  {
    if |ps| == 1 {
      SplitWithoutSep(ps[0], c);
    } else {
      SplitJoin(ps[1..], c);
      SplitPieceThenSep(ps[0], c, Join(ps[1..], [c]));
      assert ps == [ps[0]] + ps[1..];
    }
  }

  lemma {:induction false} SplitPiecesLackSep(s: string, c: char)
    ensures forall i | 0 <= i < |SplitOn(s, [c])| :: c !in SplitOn(s, [c])[i]
    decreases |s|
  {
    if |s| > 0 {
      SplitPiecesLackSep(s[1..], c);
      if !StartsWith(s, [c]) {
        assert s[..1][0] == s[0];
      }
    }
  }

  /** Joining what was split gives the string back. */
  lemma {:induction false} JoinSplit(s: string, c: char)
    ensures Join(SplitOn(s, [c]), [c]) == s
    decreases |s|
  {
    if |s| > 0 {
      var rest := SplitOn(s[1..], [c]);
      JoinSplit(s[1..], c);
      if StartsWith(s, [c]) {
        assert s[..1][0] == s[0];
        assert s == [c] + s[1..];
      } else {
        var r := SplitOn(s, [c]);
        if |rest| == 1 {
          assert r == [[s[0]] + rest[0]];
        } else {
          assert r[1..] == rest[1..];
          assert Join(r, [c]) == [s[0]] + rest[0] + [c] + Join(rest[1..], [c]);
        }
        assert s == [s[0]] + s[1..];
      }
    }
  }

  lemma LastSegmentLacksSep(s: string, c: char)
    ensures c !in LastSegment(s, [c])
  {
    SplitPiecesLackSep(s, c);
  }

  /** Whatever precedes the last separator, the last segment is what follows it. */
  lemma {:induction false} SplitAfterLastSep(x: string, c: char, y: string)
    requires c !in y
    ensures |SplitOn(x + [c] + y, [c])| >= 2
    ensures SplitOn(x + [c] + y, [c])[|SplitOn(x + [c] + y, [c])| - 1] == y
    decreases |x|
  {
    var s := x + [c] + y;
    SplitOnCharStep(s, c);
    if |x| == 0 {
      assert s[0] == c && s[1..] == y;
      SplitWithoutSep(y, c);
    } else {
      assert s[0] == x[0] && s[1..] == x[1..] + [c] + y;
      SplitAfterLastSep(x[1..], c, y);
    }
  }

  lemma LastSegmentAfter(x: string, c: char, y: string)
    requires c !in y
    ensures LastSegment(x + [c] + y, [c]) == y
  {
    SplitAfterLastSep(x, c, y);
  }

  /** An occurrence in a prefix is an occurrence in the whole. */
  lemma ContainsExtend(a: string, b: string, p: string)
    requires Contains(a, p)
    ensures Contains(a + b, p)
  {
    var i: nat :| i <= |a| && OccursAt(a, p, i);
    assert (a + b)[i..i + |p|] == a[i..i + |p|];
    assert OccursAt(a + b, p, i);
  }

  lemma LastSegmentWithoutSep(s: string, c: char)
    requires c !in s
    ensures LastSegment(s, [c]) == s
  {
    SplitWithoutSep(s, c);
  }

  /** One step of `split(c)` on a non-empty string. */
  lemma SplitOnCharStep(s: string, c: char)
    requires |s| > 0
    ensures s[0] == c ==> SplitOn(s, [c]) == [""] + SplitOn(s[1..], [c])
    ensures s[0] != c ==> SplitOn(s, [c]) == PrependToFirst([s[0]], SplitOn(s[1..], [c]))
  {
    assert s[..1] == [s[0]];
  }

  /** `w` glued to the front of the first piece. */
  function PrependToFirst(w: string, ps: seq<string>): seq<string>
    requires |ps| >= 1
  {
    [w + ps[0]] + ps[1..]
  }

  /** `w` glued to the end of the last piece. */
  function AppendToLast(ps: seq<string>, w: string): seq<string>
    requires |ps| >= 1
  {
    ps[..|ps| - 1] + [ps[|ps| - 1] + w]
  }

  lemma PrependToFirstTwice(a: string, b: string, ps: seq<string>)
    requires |ps| >= 1
    ensures PrependToFirst(a, PrependToFirst(b, ps)) == PrependToFirst(a + b, ps)
  {
    assert a + (b + ps[0]) == a + b + ps[0];
  }

  lemma AppendToLastCons(a: string, ps: seq<string>, w: string)
    requires |ps| >= 1
    ensures AppendToLast([a] + ps, w) == [a] + AppendToLast(ps, w)
  {
    assert ([a] + ps)[..|ps|] == [a] + ps[..|ps| - 1];
  }

  lemma AppendToLastMerge(h: string, ps: seq<string>, w: string)
    requires |ps| >= 1
    ensures PrependToFirst(h, AppendToLast(ps, w)) == AppendToLast(PrependToFirst(h, ps), w)
  {
    if |ps| == 1 {
      assert h + (ps[0] + w) == h + ps[0] + w;
    } else {
      var q := AppendToLast(ps, w);
      assert q[0] == ps[0];
      assert q[1..] == ps[1..|ps| - 1] + [ps[|ps| - 1] + w];
    }
  }

  lemma {:induction false} SplitPrependPlain(w: string, x: string, c: char)
    requires c !in w
    ensures SplitOn(w + x, [c]) == PrependToFirst(w, SplitOn(x, [c]))
    decreases |w|
  {
    if |w| > 0 {
      var s := w + x;
      assert s[0] == w[0] && s[1..] == w[1..] + x;
      SplitOnCharStep(s, c);
      SplitPrependPlain(w[1..], x, c);
      PrependToFirstTwice([w[0]], w[1..], SplitOn(x, [c]));
      assert [w[0]] + w[1..] == w;
    } else {
      assert w + x == x;
      var p := SplitOn(x, [c]);
      assert w + p[0] == p[0];
    }
  }

  lemma {:induction false} SplitAppendPlain(x: string, w: string, c: char)
    requires c !in w
    ensures SplitOn(x + w, [c]) == AppendToLast(SplitOn(x, [c]), w)
    decreases |x|
  {
    if |x| == 0 {
      SplitWithoutSep(w, c);
      assert x + w == w;
      assert AppendToLast([""], w) == [w];
    } else {
      var s := x + w;
      assert s[0] == x[0] && s[1..] == x[1..] + w;
      SplitOnCharStep(s, c);
      SplitOnCharStep(x, c);
      SplitAppendPlain(x[1..], w, c);
      var q := SplitOn(x[1..], [c]);
      if x[0] == c {
        AppendToLastCons("", q, w);
      } else {
        AppendToLastMerge([x[0]], q, w);
      }
    }
  }

  lemma StripFirstPadded(w: string, ps: seq<string>)
    requires |ps| >= 1 && AllSpace(w)
    ensures StripAll(PrependToFirst(w, ps)) == StripAll(ps)
  {
    StripSpaceLeft(w, ps[0]);
    var r := PrependToFirst(w, ps);
    forall i | 0 <= i < |ps| ensures StripAll(r)[i] == StripAll(ps)[i] {
      if i > 0 { assert r[i] == ps[i]; }
    }
  }

  lemma StripLastPadded(ps: seq<string>, w: string)
    requires |ps| >= 1 && AllSpace(w)
    ensures StripAll(AppendToLast(ps, w)) == StripAll(ps)
  {
    StripSpaceRight(ps[|ps| - 1], w);
    var r := AppendToLast(ps, w);
    forall i | 0 <= i < |ps| ensures StripAll(r)[i] == StripAll(ps)[i] {
      if i < |ps| - 1 { assert r[i] == ps[i]; }
    }
  }

  /** `strip()` before `split(c)` makes no difference once every piece is stripped. */
  lemma SplitIgnoresOuterSpace(s: string, c: char)
    requires !IsSpace(c)
    ensures StripAll(SplitOn(Strip(s), [c])) == StripAll(SplitOn(s, [c]))
  {
    var w, w' := StripShape(s);
    var t := Strip(s);
    assert c !in w && c !in w';
    SplitAppendPlain(t, w', c);
    SplitPrependPlain(w, t + w', c);
    assert s == w + (t + w');
    var p := SplitOn(t, [c]);
    StripLastPadded(p, w');
    StripFirstPadded(w, AppendToLast(p, w'));
  }

  /** A string that holds the separator splits into at least two pieces. */
  lemma {:induction false} SplitOnContains(s: string, sep: string)
    requires |sep| > 0 && Contains(s, sep)
    ensures |SplitOn(s, sep)| >= 2
    decreases |s|
  {
    var i: nat :| i <= |s| && OccursAt(s, sep, i);
    if !StartsWith(s, sep) {
      assert i > 0;
      assert s[1..][i - 1..i - 1 + |sep|] == s[i..i + |sep|];
      assert OccursAt(s[1..], sep, i - 1);
      SplitOnContains(s[1..], sep);
    }
  }

  /** A string without the separator is a single piece. */
  lemma {:induction false} SplitOnAbsent(s: string, sep: string)
    requires |sep| > 0 && !Contains(s, sep)
    ensures SplitOn(s, sep) == [s]
    decreases |s|
  {
    if |s| > 0 {
      assert !OccursAt(s, sep, 0);
      assert !Contains(s[1..], sep) by {
        if Contains(s[1..], sep) {
          var i: nat :| i <= |s[1..]| && OccursAt(s[1..], sep, i);
          assert s[i + 1..i + 1 + |sep|] == s[1..][i..i + |sep|];
          assert OccursAt(s, sep, i + 1);
        }
      }
      SplitOnAbsent(s[1..], sep);
      assert s == [s[0]] + s[1..];
    }
  }

  /** Every character of an occurring pattern occurs in the string. */
  lemma ContainsCharOf(s: string, p: string, c: char)
    requires Contains(s, p) && c in p
    ensures c in s
  {
    var i: nat :| i <= |s| && OccursAt(s, p, i);
    var k :| 0 <= k < |p| && p[k] == c;
    assert s[i..i + |p|][k] == s[i + k];
  }

  /** A pattern with a character that `s` lacks does not occur in `s`. */
  lemma MissingCharNotContained(s: string, p: string, c: char)
    requires c in p && c !in s
    ensures !Contains(s, p)
  {
    if Contains(s, p) {
      ContainsCharOf(s, p, c);
    }
  }

  /** A string contains its own prefix. */
  lemma ContainsPrefix(p: string, x: string)
    ensures Contains(p + x, p)
  {
    assert (p + x)[0..|p|] == p;
    assert OccursAt(p + x, p, 0);
  }

  /** Removing a one-character pattern that does not occur in the middle part. */
  lemma RemoveAroundChar(c: char, x: string)
    requires c !in x
    ensures RemoveAll([c] + x + [c], [c]) == x
  {
    assert NoStraddle([c], x + [c], [c]);
    ReplaceConcat([c], x + [c], [c], "");
    ReplaceWhole([c], "");
    assert NoStraddle(x, [c], [c]);
    ReplaceConcat(x, [c], [c], "");
    ContainsChar(x, c);
    ReplaceAbsent(x, [c], "");
    assert [c] + x + [c] == [c] + (x + [c]);
  }

  /** Stripping only removes characters. */
  lemma StripLacks(s: string, c: char)
    requires c !in s
    ensures c !in Strip(s)
  {
    var w, w' := StripShape(s);
  }

  /** A string that begins with a non-space character after one blank begins
      with that character once stripped. */
  lemma StripAfterBlank(s: string)
    requires |s| > 0 && !IsSpace(s[0])
    ensures |Strip(" " + s)| > 0 && Strip(" " + s)[0] == s[0]
  {
    StripSpaceLeft(" ", s);
    StripKeepsHead(s);
  }

  /** A string that begins with a non-space character still begins with it once stripped. */
  lemma StripKeepsHead(s: string)
    requires |s| > 0 && !IsSpace(s[0])
    ensures |Strip(s)| > 0 && Strip(s)[0] == s[0]
  {
    assert TrimLeft(s, IsSpace) == s;
    var w := TrimRightShape(s);
    assert s[0] !in w;
  }

  /** `(" " + c + " ").join(ps)` split on `c`, each piece stripped, gives back
      pieces that were stripped and free of `c`. */
  lemma {:induction false} SplitJoinSpaced(ps: seq<string>, c: char)
    requires |ps| >= 1 && !IsSpace(c)
    requires forall i | 0 <= i < |ps| :: c !in ps[i] && IsStripped(ps[i])
    ensures StripAll(SplitOn(Join(ps, [' ', c, ' ']), [c])) == ps
    decreases |ps|
  {
    if |ps| == 1 {
      SplitWithoutSep(ps[0], c);
      StrippedFixed(ps[0]);
    } else {
      var sep := [' ', c, ' '];
      var j := Join(ps[1..], sep);
      var p := SplitOn(j, [c]);
      var r := SplitOn(Join(ps, sep), [c]);
      assert r == [ps[0] + " "] + PrependToFirst(" ", p) by {
        assert Join(ps, sep) == (ps[0] + " ") + [c] + (" " + j) by {
          assert Join(ps, sep) == ps[0] + sep + j;
        }
        SplitPieceThenSep(ps[0] + " ", c, " " + j);
        SplitPrependPlain(" ", j, c);
      }
      assert StripAll([ps[0] + " "]) == [ps[0]] by {
        StripSpaceRight(ps[0], " ");
        StrippedFixed(ps[0]);
      }
      assert StripAll(PrependToFirst(" ", p)) == ps[1..] by {
        SplitJoinSpaced(ps[1..], c);
        StripFirstPadded(" ", p);
      }
      StripAllConcat([ps[0] + " "], PrependToFirst(" ", p));
      assert ps == [ps[0]] + ps[1..];
    }
  }

  lemma StripAllConcat(a: seq<string>, b: seq<string>)
    ensures StripAll(a + b) == StripAll(a) + StripAll(b)
  {
  }

  // ---------------------------------------------------------------------------
  // lower()
  // ---------------------------------------------------------------------------

  function LowerChar(c: char): char {
    if 'A' <= c <= 'Z' then (c as int + 32) as char else c
  }

  /** Python's `s.lower()` on ASCII letters. */
  function Lower(s: string): (r: string)
    ensures |r| == |s|
  {
    seq(|s|, i requires 0 <= i < |s| => LowerChar(s[i]))
  }

  predicate IsLower(s: string) {
    forall i | 0 <= i < |s| :: !('A' <= s[i] <= 'Z')
  }

  lemma LowerOfLower(s: string)
    requires IsLower(s)
    ensures Lower(s) == s
  {
  }

  lemma LowerKeepsStripped(s: string)
    requires IsStripped(s)
    ensures IsStripped(Lower(s))
  {
  }

  lemma LowerConcat(a: string, b: string)
    ensures Lower(a + b) == Lower(a) + Lower(b)
  {
  }

  // ---------------------------------------------------------------------------
  // Decimal numbers
  // ---------------------------------------------------------------------------

  predicate IsDigit(c: char) {
    '0' <= c <= '9'
  }

  function DigitChar(d: nat): (c: char)
    requires d < 10
  {
    (d + '0' as int) as char
  }

  /** Python's `str(n)` for a natural number. */
  function NatToString(n: nat): (s: string)
    decreases n
  {
    if n < 10 then [DigitChar(n)] else NatToString(n / 10) + [DigitChar(n % 10)]
  }

  function DigitsValue(s: string): nat
    requires forall i | 0 <= i < |s| :: IsDigit(s[i])
  {
    if |s| == 0 then 0
    else
      assert IsDigit(s[|s| - 1]);
      DigitsValue(s[..|s| - 1]) * 10 + (s[|s| - 1] as int - '0' as int)
  }

  /** Python's `int(s)` on a string of decimal digits; `None` where it raises. */
  function ParseNat(s: string): Option<nat> {
    if |s| > 0 && forall i | 0 <= i < |s| :: IsDigit(s[i]) then Some(DigitsValue(s)) else None
  }

  lemma {:induction false} NatToStringDigits(n: nat)
    ensures |NatToString(n)| > 0
    ensures forall i | 0 <= i < |NatToString(n)| :: IsDigit(NatToString(n)[i])
    ensures DigitsValue(NatToString(n)) == n
    decreases n
  {
    if n >= 10 {
      NatToStringDigits(n / 10);
      var s := NatToString(n);
      assert s[..|s| - 1] == NatToString(n / 10);
    }
  }

  /** Decimal formatting and parsing are inverse. */
  lemma ParseNatToString(n: nat)
    ensures ParseNat(NatToString(n)) == Some(n)
  {
    NatToStringDigits(n);
  }

  /** Distinct numbers print differently. */
  lemma NatToStringInjective(m: nat, n: nat)
    requires NatToString(m) == NatToString(n)
    ensures m == n
  {
    ParseNatToString(m);
    ParseNatToString(n);
  }
}
