/**
 The string operations the scripts take from Python's `str` and `re`:
 whitespace, `split()`, `strip()`, `' '.join(...)`, `lower()` and
 `re.sub(r'\s+', ' ', s)`. Every script tokenises with the one `Words`.
 */
module Text {

  /** `c.isspace()`: the characters Python (and `\s` in a `str` regex) treats as whitespace. */
  predicate IsSpace(c: char)
  {
    || c == ' '
    || '\t' <= c <= '\r'
    || '\U{1C}' <= c <= '\U{1F}'
    || c == '\U{85}'
    || c == '\U{A0}'
    || c == '\U{1680}'
    || '\U{2000}' <= c <= '\U{200A}'
    || c == '\U{2028}'
    || c == '\U{2029}'
    || c == '\U{202F}'
    || c == '\U{205F}'
    || c == '\U{3000}'
  }

  predicate AllSpace(s: string)
  {
    forall k :: 0 <= k < |s| ==> IsSpace(s[k])
  }

  predicate NoSpace(s: string)
  {
    forall k :: 0 <= k < |s| ==> !IsSpace(s[k])
  }

  /** A token of `str.split()`: a non-empty run of non-whitespace characters. */
  predicate IsToken(w: string)
  {
    w != [] && NoSpace(w)
  }

  /** Neither end of `s` is whitespace. */
  predicate Trimmed(s: string)
  {
    s == [] || (!IsSpace(s[0]) && !IsSpace(s[|s| - 1]))
  }

  /** The shape `re.sub(r'\s+', ' ', ...)` leaves: every whitespace character is a plain
      space and no two whitespace characters are adjacent. */
  predicate Collapsed(s: string)
  {
    && (forall k :: 0 <= k < |s| && IsSpace(s[k]) ==> s[k] == ' ')
    && (forall k :: 0 <= k < |s| - 1 ==> !IsSpace(s[k]) || !IsSpace(s[k + 1]))
  }

  /** `s.lstrip()` */
  function LStrip(s: string): (r: string)
    ensures |r| <= |s|
    ensures r == [] || !IsSpace(r[0])
    decreases |s|
  {
    if s != [] && IsSpace(s[0]) then LStrip(s[1..]) else s
  }

  /** `s.lstrip()` removes a whitespace-only prefix and keeps the rest. */
  lemma {:induction false} LStripDrops(s: string)
    ensures var r := LStrip(s); r == s[|s| - |r|..] && AllSpace(s[..|s| - |r|])
    decreases |s|
  {
    if s != [] && IsSpace(s[0]) {
      LStripDrops(s[1..]);
      var r := LStrip(s);
      assert s[1..][..|s| - 1 - |r|] == s[1..|s| - |r|];
    }
  }

  /** `s.rstrip()` */
  function RStrip(s: string): (r: string)
    ensures |r| <= |s|
    ensures r == [] || !IsSpace(r[|r| - 1])
    decreases |s|
  {
    if s != [] && IsSpace(s[|s| - 1]) then RStrip(s[..|s| - 1]) else s
  }

  /** `s.rstrip()` removes a whitespace-only suffix and keeps the rest. */
  lemma {:induction false} RStripDrops(s: string)
    ensures var r := RStrip(s); r == s[..|r|] && AllSpace(s[|r|..])
    decreases |s|
  {
    if s != [] && IsSpace(s[|s| - 1]) {
      RStripDrops(s[..|s| - 1]);
      var r := RStrip(s);
      assert r == RStrip(s[..|s| - 1]);
      assert s[..|s| - 1][|r|..] == s[|r|..|s| - 1];
      assert s[..|s| - 1][..|r|] == s[..|r|];
      assert s[|r|..] == s[|r|..|s| - 1] + [s[|s| - 1]];
    }
  }

  /** `s.strip()` */
  function Strip(s: string): (r: string)
    ensures Trimmed(r)
    ensures |r| <= |s|
  {
    var t := LStrip(s);
    RStripDrops(t);
    RStrip(t)
  }

  /** Stripping leaves nothing exactly when the string is all whitespace. */
  lemma StripEmpty(s: string)
    ensures Strip(s) == [] <==> AllSpace(s)
  {
    var t := LStrip(s);
    LStripDrops(s);
    RStripDrops(t);
    if !AllSpace(s) {
      var k :| 0 <= k < |s| && !IsSpace(s[k]);
      if k < |s| - |t| {
        assert s[..|s| - |t|][k] == s[k];
      }
    }
  }

  /** Stripping a whitespace-only padding off a trimmed string gives the string back. */
  lemma {:induction false} StripPadded(p: string, j: string, q: string)
    requires AllSpace(p) && AllSpace(q) && Trimmed(j)
    ensures Strip(p + j + q) == j
  {
    if j == [] {
      assert p + j + q == p + q;
      StripEmpty(p + q);
      assert AllSpace(p + q) by {
        forall k | 0 <= k < |p + q| ensures IsSpace((p + q)[k]) {
          if k < |p| { assert (p + q)[k] == p[k]; } else { assert (p + q)[k] == q[k - |p|]; }
        }
      }
    } else {
      assert p + j + q == p + (j + q);
      LStripSpacePrefix(p, j + q);
      RStripSpaceSuffix(j, q);
    }
  }

  lemma {:induction false} LStripSpacePrefix(p: string, x: string)
    requires AllSpace(p) && (x == [] || !IsSpace(x[0]))
    ensures LStrip(p + x) == x
    decreases |p|
  {
    if p == [] {
      assert p + x == x;
    } else {
      assert (p + x)[1..] == p[1..] + x;
      LStripSpacePrefix(p[1..], x);
    }
  }

  lemma {:induction false} RStripSpaceSuffix(x: string, q: string)
    requires AllSpace(q) && (x == [] || !IsSpace(x[|x| - 1]))
    ensures RStrip(x + q) == x
    decreases |q|
  {
    if q == [] {
      assert x + q == x;
    } else {
      assert (x + q)[..|x + q| - 1] == x + q[..|q| - 1];
      RStripSpaceSuffix(x, q[..|q| - 1]);
    }
  }

  /** `Collapsed` holds of every infix of a collapsed string. */
  lemma CollapsedInfix(s: string, i: nat, j: nat)
    requires i <= j <= |s| && Collapsed(s)
    ensures Collapsed(s[i..j])
  {
    var t := s[i..j];
    assert forall k :: 0 <= k < |t| ==> t[k] == s[i + k];
  }

  /** A stripped collapsed string is still collapsed. */
  lemma StripCollapsed(s: string)
    requires Collapsed(s)
    ensures Collapsed(Strip(s))
  {
    var t := LStrip(s);
    LStripDrops(s);
    RStripDrops(t);
    CollapsedInfix(s, |s| - |t|, |s|);
    CollapsedInfix(t, 0, |RStrip(t)|);
  }

  /** Length of the run of non-whitespace characters at the front of `s`. */
  function WordLen(s: string): (n: nat)
    ensures n <= |s| && NoSpace(s[..n])
    ensures n == |s| || IsSpace(s[n])
    decreases |s|
  {
    if s == [] || IsSpace(s[0]) then 0 else 1 + WordLen(s[1..])
  }

  /** `s.split()`: the maximal runs of non-whitespace characters, in order, never empty. */
  function Words(s: string): (ws: seq<string>)
    ensures forall i :: 0 <= i < |ws| ==> IsToken(ws[i])
    decreases |s|
  {
    var t := LStrip(s);
    if t == [] then
      []
    else
      var n := WordLen(t);
      [t[..n]] + Words(t[n..])
  }

  /** `' '.join(ws)` */
  function JoinSpace(ws: seq<string>): string
  {
    if ws == [] then "" else if |ws| == 1 then ws[0] else ws[0] + " " + JoinSpace(ws[1..])
  }

  /** Joining two non-empty lists puts one space between their joins. */
  lemma {:induction false} JoinSpaceAppend(a: seq<string>, b: seq<string>)
    requires a != [] && b != []
    ensures JoinSpace(a + b) == JoinSpace(a) + " " + JoinSpace(b)
    decreases |a|
  {
    if |a| == 1 {
      assert (a + b)[1..] == b;
    } else {
      assert (a + b)[1..] == a[1..] + b;
      JoinSpaceAppend(a[1..], b);
    }
  }

  /** Tokens joined by single spaces form a trimmed string that is empty only for no tokens. */
  lemma {:induction false} JoinTokensTrimmed(ws: seq<string>)
    requires forall i :: 0 <= i < |ws| ==> IsToken(ws[i])
    ensures Trimmed(JoinSpace(ws))
    ensures JoinSpace(ws) == [] <==> ws == []
    ensures ws != [] ==> JoinSpace(ws)[0] == ws[0][0]
  {
    if |ws| > 1 {
      JoinTokensTrimmed(ws[1..]);
    }
  }

  /** `re.sub(r'\s+', ' ', s)`: the regex matches each maximal whitespace run and
      replaces it with one space. */
  function CollapseSpace(s: string): (r: string)
    ensures |r| == 0 <==> |s| == 0
    ensures r != [] ==> (IsSpace(r[0]) <==> IsSpace(s[0]))
    decreases |s|
  {
    if s == [] then []
    else if IsSpace(s[0]) then " " + CollapseSpace(LStrip(s[1..]))
    else [s[0]] + CollapseSpace(s[1..])
  }

  /** What `CollapseSpace` leaves has only single plain spaces for whitespace. */
  lemma {:induction false} CollapseSpaceCollapsed(s: string)
    ensures Collapsed(CollapseSpace(s))
    decreases |s|
  {
    if s != [] {
      var c := if IsSpace(s[0]) then ' ' else s[0];
      var tail := if IsSpace(s[0]) then LStrip(s[1..]) else s[1..];
      var rest := CollapseSpace(tail);
      CollapseSpaceCollapsed(tail);
      assert CollapseSpace(s) == [c] + rest;
      assert forall k :: 0 < k < |rest| + 1 ==> ([c] + rest)[k] == rest[k - 1];
    }
  }

  /** A trailing space, as `CollapseSpace` leaves one, exactly when `t` ends in whitespace. */
  function TrailingSpace(t: string): string
  {
    if t != [] && IsSpace(t[|t| - 1]) then " " else ""
  }

  lemma {:induction false} CollapseAfterToken(w: string, x: string)
    requires NoSpace(w)
    ensures CollapseSpace(w + x) == w + CollapseSpace(x)
    decreases |w|
  {
    if w != [] {
      assert (w + x)[0] == w[0];
      assert (w + x)[1..] == w[1..] + x;
      CollapseAfterToken(w[1..], x);
      assert w == [w[0]] + w[1..];
    } else {
      assert w + x == x;
    }
  }

  /** For a string that does not begin with whitespace, collapsing yields its tokens joined
      by single spaces, followed by one space when the string ends in whitespace. */
  lemma {:induction false} CollapseFromToken(t: string)
    requires t == [] || !IsSpace(t[0])
    ensures CollapseSpace(t) == JoinSpace(Words(t)) + TrailingSpace(t)
    decreases |t|
  {
    if t != [] {
      var n := WordLen(t);
      var w, rest := t[..n], t[n..];
      assert Words(t) == [w] + Words(rest) by { WordsAtToken(t); }
      assert CollapseSpace(t) == w + CollapseSpace(rest) by {
        assert t == w + rest;
        CollapseAfterToken(w, rest);
      }
      if rest == [] {
        assert TrailingSpace(t) == "" by { assert t[|t| - 1] == w[|w| - 1]; }
      } else {
        var u := LStrip(rest[1..]);
        CollapseFromToken(u);
        CollapseAfterSpace(t, w, rest, u);
      }
    }
  }

  /** The step of `CollapseFromToken` after the first token, once the rest is known to
      begin with whitespace. */
  lemma CollapseAfterSpace(t: string, w: string, rest: string, u: string)
    requires t == w + rest && rest != [] && IsSpace(rest[0]) && u == LStrip(rest[1..])
    requires CollapseSpace(u) == JoinSpace(Words(u)) + TrailingSpace(u)
    ensures w + CollapseSpace(rest) == JoinSpace([w] + Words(rest)) + TrailingSpace(t)
  {
    assert CollapseSpace(rest) == " " + CollapseSpace(u);
    assert Words(rest) == Words(u) by { WordsSkipSpace(rest); }
    if u == [] {
      assert TrailingSpace(t) == " " by { LastTrailingSpace(t, w, rest); }
    } else {
      assert TrailingSpace(t) == TrailingSpace(u) by { SuffixTrailingSpace(t, w, rest, u); }
      JoinAfterToken(w, JoinSpace(Words(u)), TrailingSpace(u), Words(u));
    }
  }

  lemma LastTrailingSpace(t: string, w: string, rest: string)
    requires t == w + rest && rest != [] && IsSpace(rest[0]) && LStrip(rest[1..]) == []
    ensures TrailingSpace(t) == " "
  {
    LStripDrops(rest[1..]);
    assert t[|t| - 1] == rest[|rest| - 1];
    assert |rest| == 1 || rest[|rest| - 1] == rest[1..][|rest| - 2];
  }

  lemma SuffixTrailingSpace(t: string, w: string, rest: string, u: string)
    requires t == w + rest && rest != [] && u == LStrip(rest[1..]) && u != []
    ensures TrailingSpace(t) == TrailingSpace(u)
  {
    LStripDrops(rest[1..]);
    assert t[|t| - 1] == rest[|rest| - 1] == rest[1..][|rest| - 2] == u[|u| - 1];
  }

  lemma JoinAfterToken(w: string, j: string, tr: string, ws: seq<string>)
    requires ws != [] && j == JoinSpace(ws)
    ensures w + (" " + (j + tr)) == JoinSpace([w] + ws) + tr
  {
    JoinSpaceCons(w, ws);
    assert w + (" " + (j + tr)) == (w + " " + j) + tr;
  }

  /** Splitting a string that starts with a token yields that token first. */
  lemma WordsAtToken(t: string)
    requires t != [] && !IsSpace(t[0])
    ensures Words(t) == [t[..WordLen(t)]] + Words(t[WordLen(t)..])
  {
  }

  /** Leading whitespace does not change the tokens. */
  lemma WordsSkipSpace(s: string)
    requires s != [] && IsSpace(s[0])
    ensures Words(s) == Words(LStrip(s[1..]))
  {
    LStripIdempotent(LStrip(s[1..]));
  }

  lemma LStripIdempotent(u: string)
    requires u == [] || !IsSpace(u[0])
    ensures LStrip(u) == u
  {
  }

  lemma JoinSpaceCons(w: string, ws: seq<string>)
    requires ws != []
    ensures JoinSpace([w] + ws) == w + " " + JoinSpace(ws)
  {
    assert ([w] + ws)[1..] == ws;
  }

  /** `re.sub(r'\s+', ' ', s).strip()` is `' '.join(s.split())`. */
  lemma {:induction false} StripCollapseIsJoinWords(s: string)
    ensures Strip(CollapseSpace(s)) == JoinSpace(Words(s))
  {
    var lead, j, trail := LeadingSpace(s), JoinSpace(Words(s)), TrailingSpace(LStrip(s));
    CollapseSplit(s);
    PaddingIsSpace(s);
    JoinWordsTrimmed(s);
    StripPadded(lead, j, trail);
  }

  lemma CollapseSplit(s: string)
    ensures CollapseSpace(s) == LeadingSpace(s) + JoinSpace(Words(s)) + TrailingSpace(LStrip(s))
  {
    var t := LStrip(s);
    CollapseLeading(s);
    CollapseFromToken(t);
    ConcatThree(CollapseSpace(s), LeadingSpace(s), CollapseSpace(t), JoinSpace(Words(t)), TrailingSpace(t));
  }

  lemma ConcatThree(x: string, a: string, y: string, b: string, c: string)
    requires x == a + y && y == b + c
    ensures x == a + b + c
  {
    assert a + (b + c) == a + b + c;
  }

  lemma PaddingIsSpace(s: string)
    ensures AllSpace(LeadingSpace(s)) && AllSpace(TrailingSpace(LStrip(s)))
  {
  }

  lemma JoinWordsTrimmed(s: string)
    ensures Trimmed(JoinSpace(Words(s)))
  {
    JoinTokensTrimmed(Words(s));
  }

  /** A leading space, as `CollapseSpace` leaves one, exactly when `s` begins with whitespace. */
  function LeadingSpace(s: string): string
  {
    if s != [] && IsSpace(s[0]) then " " else ""
  }

  /** Leading whitespace becomes one space and does not change the tokens. */
  lemma CollapseLeading(s: string)
    ensures CollapseSpace(s) == LeadingSpace(s) + CollapseSpace(LStrip(s))
    ensures Words(s) == Words(LStrip(s))
  {
    if s != [] && IsSpace(s[0]) {
      WordsSkipSpace(s);
    } else {
      assert LeadingSpace(s) + CollapseSpace(s) == CollapseSpace(s);
    }
  }

  /** A string already in collapsed form is left alone by `re.sub(r'\s+', ' ', ...)`. */
  lemma {:induction false} CollapseSpaceIdentity(x: string)
    requires Collapsed(x)
    ensures CollapseSpace(x) == x
    decreases |x|
  {
    if x != [] {
      CollapsedInfix(x, 1, |x|);
      if IsSpace(x[0]) {
        LStripIdempotent(x[1..]);
      }
      CollapseSpaceIdentity(x[1..]);
      assert x == [x[0]] + x[1..];
    }
  }

  /** A trimmed string is its own `strip()`. */
  lemma StripTrimmed(x: string)
    requires Trimmed(x)
    ensures Strip(x) == x
  {
    StripPadded("", x, "");
    assert "" + x + "" == x;
  }

  /** Two non-empty trimmed collapsed strings joined by one space are collapsed and trimmed. */
  lemma CollapsedSpaceJoin(a: string, b: string)
    requires a != [] && b != [] && Trimmed(a) && Trimmed(b) && Collapsed(a) && Collapsed(b)
    ensures Collapsed(a + " " + b) && Trimmed(a + " " + b)
  {
    var s := a + " " + b;
    assert forall k :: 0 <= k < |a| ==> s[k] == a[k];
    assert forall k :: |a| < k < |s| ==> s[k] == b[k - |a| - 1];
    assert s[|a|] == ' ';
  }

  /** Lines without doubled or odd whitespace, joined by single spaces, keep that form. */
  lemma {:induction false} JoinCollapsed(ls: seq<string>)
    requires forall i :: 0 <= i < |ls| ==> ls[i] != [] && Trimmed(ls[i]) && Collapsed(ls[i])
    ensures Collapsed(JoinSpace(ls)) && Trimmed(JoinSpace(ls))
    ensures ls != [] ==> JoinSpace(ls) != []
  {
    if |ls| > 1 {
      JoinCollapsed(ls[1..]);
      CollapsedSpaceJoin(ls[0], JoinSpace(ls[1..]));
    }
  }

  /** `c.lower()` for ASCII; every other character is left as it is. */
  function LowerChar(c: char): (d: char)
    ensures !('A' <= d <= 'Z')
    ensures IsSpace(d) == IsSpace(c)
  {
    if 'A' <= c <= 'Z' then (c as int + 32) as char else c
  }

  /** `s.lower()`, character by character. */
  function Lower(s: string): (r: string)
    ensures |r| == |s| && forall k :: 0 <= k < |s| ==> r[k] == LowerChar(s[k])
  {
    seq(|s|, k requires 0 <= k < |s| => LowerChar(s[k]))
  }

  /** No upper-case ASCII letter occurs in `s`. */
  predicate IsLowerCase(s: string)
  {
    forall k :: 0 <= k < |s| ==> !('A' <= s[k] <= 'Z')
  }

  /** Lower-casing a trimmed string keeps it trimmed and leaves no upper-case letter. */
  lemma LowerTrimmed(s: string)
    requires Trimmed(s)
    ensures Trimmed(Lower(s)) && IsLowerCase(Lower(s))
  {
  }
}
