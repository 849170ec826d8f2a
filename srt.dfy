/**
 `srt_to_plaintext` in scripts/srt_to_text.py, from the contents of the subtitle file to the
 returned string: the byte-order mark is removed, the file is cut into blocks at blank lines,
 the sequence-number and timestamp lines of each block are dropped, the remaining lines are
 stripped, and the text is joined with single spaces.
 */
module Srt {
  import opened Wrappers
  import opened Text

  /** U+FEFF, the byte-order mark an editor may leave at the start of the file. */
  const Bom: char := '\U{FEFF}'

  /** `content.lstrip('\ufeff')` */
  function StripBom(s: string): (r: string)
    ensures r == [] || r[0] != Bom
  {
    if s != [] && s[0] == Bom then StripBom(s[1..]) else s
  }

  /** `lstrip('\ufeff')` removes a leading run of marks and nothing else. */
  lemma {:induction false} StripBomDrops(s: string)
    ensures var r := StripBom(s); |r| <= |s| && r == s[|s| - |r|..]
    ensures forall k :: 0 <= k < |s| - |StripBom(s)| ==> s[k] == Bom
  {
    if s != [] && s[0] == Bom {
      StripBomDrops(s[1..]);
    }
  }

  /** `n` byte-order marks. */
  function Boms(n: nat): string
  {
    if n == 0 then [] else [Bom] + Boms(n - 1)
  }

  /** However many marks precede the text, the same text remains. */
  lemma {:induction false} StripBomPrefix(n: nat, s: string)
    ensures StripBom(Boms(n) + s) == StripBom(s)
  {
    if n > 0 {
      var t := Boms(n - 1) + s;
      assert Boms(n) + s == [Bom] + t;
      assert ([Bom] + t)[1..] == t;
      StripBomPrefix(n - 1, s);
    } else {
      assert Boms(n) + s == s;
    }
  }

  // ---------------------------------------------------------------------------------------
  // re.split(r'\n\s*\n', text)

  /** A string the pattern `\n\s*\n` matches in full: a line feed, whitespace, a line feed. */
  predicate IsSeparator(w: string)
  {
    |w| >= 2 && w[0] == '\n' && w[|w| - 1] == '\n' && AllSpace(w)
  }

  /** The end of the maximal run of whitespace that starts at `j`. */
  function SpaceRunEnd(s: string, j: nat): (e: nat)
    requires j <= |s|
    ensures j <= e <= |s| && (e == |s| || !IsSpace(s[e]))
    ensures forall k :: j <= k < e ==> IsSpace(s[k])
    decreases |s| - j
  {
    if j < |s| && IsSpace(s[j]) then SpaceRunEnd(s, j + 1) else j
  }

  /** The last index in [lo, hi) that holds a line feed. */
  function LastNewline(s: string, lo: nat, hi: nat): (k: Option<nat>)
    requires lo <= hi <= |s|
    ensures k.Some? ==> lo <= k.value < hi && s[k.value] == '\n'
    ensures k.Some? ==> forall m :: k.value < m < hi ==> s[m] != '\n'
    ensures k.None? ==> forall m :: lo <= m < hi ==> s[m] != '\n'
    decreases hi - lo
  {
    if lo == hi then None
    else if s[hi - 1] == '\n' then Some(hi - 1)
    else LastNewline(s, lo, hi - 1)
  }

  /** Where the match of `\n\s*\n` that starts at `i` ends, if one starts there. The greedy
      `\s*` first takes the whole whitespace run after the line feed, then gives characters
      back until a line feed follows, so the match ends just after the last line feed of the
      run. */
  function MatchEnd(s: string, i: nat): Option<nat>
    requires i < |s|
  {
    if s[i] != '\n' then None
    else
      match LastNewline(s, i + 1, SpaceRunEnd(s, i + 1))
      case None => None
      case Some(k) => Some(k + 1)
  }

  /** The match found at `i` is the longest separator starting at `i`, and there is none
      exactly when no separator starts at `i`. */
  lemma MatchEndLongest(s: string, i: nat)
    requires i < |s|
    ensures MatchEnd(s, i).None? <==> forall e :: i < e <= |s| ==> !IsSeparator(s[i..e])
    ensures MatchEnd(s, i).Some? ==>
      var e := MatchEnd(s, i).value;
      i < e <= |s| && IsSeparator(s[i..e]) &&
      forall e' :: e < e' <= |s| ==> !IsSeparator(s[i..e'])
  {
    if s[i] == '\n' {
      var r := SpaceRunEnd(s, i + 1);
      forall e | i < e <= |s| && IsSeparator(s[i..e])
        ensures LastNewline(s, i + 1, r).Some? && e <= LastNewline(s, i + 1, r).value + 1
      {
        SeparatorWithinRun(s, i, e, r);
      }
      match LastNewline(s, i + 1, r)
      case None =>
      case Some(k) =>
        assert IsSeparator(s[i..k + 1]) by {
          assert forall m :: i < m <= k ==> IsSpace(s[m]);
        }
    }
  }

  lemma SeparatorWithinRun(s: string, i: nat, e: nat, r: nat)
    requires i < e <= |s| && IsSeparator(s[i..e])
    requires i + 1 <= r <= |s| && (r == |s| || !IsSpace(s[r]))
    requires forall k :: i + 1 <= k < r ==> IsSpace(s[k])
    ensures LastNewline(s, i + 1, r).Some? && e <= LastNewline(s, i + 1, r).value + 1
  {
    assert s[e - 1] == s[i..e][e - 1 - i] == '\n';
    assert e - 1 < r;
  }

  /** `re.split(r'\n\s*\n', s)` scanning from `i`, with the current piece starting at `start`. */
  function SplitFrom(s: string, start: nat, i: nat): (bs: seq<string>)
    requires start <= i <= |s|
    ensures bs != []
    decreases |s| - i
  {
    if i == |s| then
      [s[start..]]
    else
      match MatchEnd(s, i)
      case Some(e) =>
        assert i + 2 <= e by { MatchEndLongest(s, i); }
        [s[start..i]] + SplitFrom(s, e, e)
      case None => SplitFrom(s, start, i + 1)
  }

  /** `re.split(r'\n\s*\n', s)`: the pieces between the successive non-overlapping matches. */
  function Blocks(s: string): seq<string>
  {
    SplitFrom(s, 0, 0)
  }

  /** No substring of `x` matches the pattern. */
  ghost predicate NoSeparator(x: string)
  {
    forall i, e :: 0 <= i < e <= |x| ==> !IsSeparator(x[i..e])
  }

  /** Positions where no match starts leave the current piece open. */
  lemma {:induction false} SplitSkip(s: string, start: nat, i: nat, j: nat)
    requires start <= i <= j <= |s|
    requires forall k :: i <= k < j ==> MatchEnd(s, k).None?
    ensures SplitFrom(s, start, i) == SplitFrom(s, start, j)
    decreases j - i
  {
    if i < j {
      SplitSkip(s, start, i + 1, j);
    }
  }

  lemma {:induction false} SpaceRunEndShift(p: string, y: string, j: nat)
    requires j <= |y|
    ensures SpaceRunEnd(p + y, |p| + j) == |p| + SpaceRunEnd(y, j)
    decreases |y| - j
  {
    if j < |y| {
      assert (p + y)[|p| + j] == y[j];
      if IsSpace(y[j]) {
        SpaceRunEndShift(p, y, j + 1);
      }
    }
  }

  lemma {:induction false} LastNewlineShift(p: string, y: string, lo: nat, hi: nat)
    requires lo <= hi <= |y|
    ensures LastNewline(y, lo, hi).None? ==> LastNewline(p + y, |p| + lo, |p| + hi).None?
    ensures LastNewline(y, lo, hi).Some? ==>
      LastNewline(p + y, |p| + lo, |p| + hi) == Some(|p| + LastNewline(y, lo, hi).value)
    decreases hi - lo
  {
    if lo < hi {
      assert (p + y)[|p| + hi - 1] == y[hi - 1];
      if y[hi - 1] != '\n' {
        LastNewlineShift(p, y, lo, hi - 1);
      }
    }
  }

  /** What precedes a position does not change the match found there. */
  lemma MatchEndShift(p: string, y: string, b: nat)
    requires b < |y|
    ensures MatchEnd(y, b).None? ==> MatchEnd(p + y, |p| + b).None?
    ensures MatchEnd(y, b).Some? ==> MatchEnd(p + y, |p| + b) == Some(|p| + MatchEnd(y, b).value)
  {
    assert (p + y)[|p| + b] == y[b];
    if y[b] == '\n' {
      SpaceRunEndShift(p, y, b + 1);
      LastNewlineShift(p, y, b + 1, SpaceRunEnd(y, b + 1));
    }
  }

  lemma {:induction false} SplitShift(p: string, y: string, a: nat, b: nat)
    requires a <= b <= |y|
    ensures SplitFrom(p + y, |p| + a, |p| + b) == SplitFrom(y, a, b)
    decreases |y| - b
  {
    if b == |y| {
      SplitAtEnd(p + y, |p| + a);
      SplitAtEnd(y, a);
      assert (p + y)[|p| + a..] == y[a..];
    } else if MatchEnd(y, b).Some? {
      var e := MatchEnd(y, b).value;
      MatchEndBounds(y, b);
      SplitAtMatch(y, a, b, e);
      SplitShiftMatch(p, y, a, b, e);
      SplitShift(p, y, e, e);
    } else {
      SplitNoMatch(y, a, b);
      SplitShiftSkip(p, y, a, b);
      SplitShift(p, y, a, b + 1);
    }
  }

  lemma SplitShiftMatch(p: string, y: string, a: nat, b: nat, e: nat)
    requires a <= b < |y| && MatchEnd(y, b) == Some(e)
    ensures e <= |y|
    ensures SplitFrom(p + y, |p| + a, |p| + b) == [y[a..b]] + SplitFrom(p + y, |p| + e, |p| + e)
  {
    MatchEndShift(p, y, b);
    MatchEndBounds(y, b);
    SplitAtMatch(p + y, |p| + a, |p| + b, |p| + e);
    assert (p + y)[|p| + a..|p| + b] == y[a..b];
  }

  lemma SplitShiftSkip(p: string, y: string, a: nat, b: nat)
    requires a <= b < |y| && MatchEnd(y, b).None?
    ensures SplitFrom(p + y, |p| + a, |p| + b) == SplitFrom(p + y, |p| + a, |p| + (b + 1))
  {
    MatchEndShift(p, y, b);
    SplitNoMatch(p + y, |p| + a, |p| + b);
  }

  lemma MatchEndBounds(s: string, i: nat)
    requires i < |s|
    ensures MatchEnd(s, i).Some? ==> i + 2 <= MatchEnd(s, i).value <= |s|
  {
    MatchEndLongest(s, i);
  }

  lemma SplitAtEnd(s: string, start: nat)
    requires start <= |s|
    ensures SplitFrom(s, start, |s|) == [s[start..]]
  {
  }

  lemma SplitNoMatch(s: string, start: nat, i: nat)
    requires start <= i < |s| && MatchEnd(s, i).None?
    ensures SplitFrom(s, start, i) == SplitFrom(s, start, i + 1)
  {
  }

  /** Text without a blank line is one block. */
  lemma SingleBlock(x: string)
    requires NoSeparator(x)
    ensures Blocks(x) == [x]
  {
    forall k | 0 <= k < |x| ensures MatchEnd(x, k).None? {
      MatchEndLongest(x, k);
    }
    SplitSkip(x, 0, 0, |x|);
  }

  /** A run of blank lines, however long, is one separator: the text before it is a block and
      splitting goes on after it. */
  lemma SeparatorRun(x: string, w: string, y: string)
    requires NoSeparator(x) && (x == [] || !IsSpace(x[|x| - 1]))
    requires IsSeparator(w)
    requires y == [] || !IsSpace(y[0])
    ensures Blocks(x + w + y) == [x] + Blocks(y)
  {
    var p := x + w;
    var s := p + y;
    assert s == x + (w + y);
    SplitToSeparator(x, w + y);
    MatchAfterBlock(x, w, y);
    SplitAtMatch(s, 0, |x|, |p|);
    assert s[0..|x|] == x;
    BlocksAfter(p, y);
  }

  /** Splitting resumes after a prefix as if the prefix were not there. */
  lemma BlocksAfter(p: string, y: string)
    ensures SplitFrom(p + y, |p|, |p|) == Blocks(y)
  {
    SplitShift(p, y, 0, 0);
  }

  lemma SplitAtMatch(s: string, start: nat, i: nat, e: nat)
    requires start <= i < |s| && MatchEnd(s, i) == Some(e) && e <= |s|
    ensures SplitFrom(s, start, i) == [s[start..i]] + SplitFrom(s, e, e)
  {
  }

  lemma SplitToSeparator(x: string, z: string)
    requires NoSeparator(x) && (x == [] || !IsSpace(x[|x| - 1]))
    ensures SplitFrom(x + z, 0, 0) == SplitFrom(x + z, 0, |x|)
  {
    forall k | 0 <= k < |x| ensures MatchEnd(x + z, k).None? {
      NoMatchInBlock(x, z, k);
    }
    SplitSkip(x + z, 0, 0, |x|);
  }

  lemma NoMatchInBlock(x: string, z: string, k: nat)
    requires NoSeparator(x) && x != [] && !IsSpace(x[|x| - 1])
    requires k < |x|
    ensures MatchEnd(x + z, k).None?
  {
    var s := x + z;
    MatchEndLongest(s, k);
    forall e | k < e <= |s| ensures !IsSeparator(s[k..e]) {
      if e <= |x| {
        assert s[k..e] == x[k..e];
      } else {
        assert s[k..e][|x| - 1 - k] == x[|x| - 1];
      }
    }
  }

  lemma MatchAfterBlock(x: string, w: string, y: string)
    requires IsSeparator(w) && (y == [] || !IsSpace(y[0]))
    ensures MatchEnd(x + w + y, |x|) == Some(|x| + |w|)
  {
    var s := x + w + y;
    MatchEndLongest(s, |x|);
    assert s[|x|..|x| + |w|] == w;
    forall e | |x| + |w| < e <= |s| ensures !IsSeparator(s[|x|..e]) {
      assert s[|x|..e][|w|] == y[0];
    }
  }

  // ---------------------------------------------------------------------------------------
  // block.strip().split('\n') and the lines kept from it

  predicate NoNewline(l: string)
  {
    forall k :: 0 <= k < |l| ==> l[k] != '\n'
  }

  /** Length of the first line of `s`, the characters before its first line feed. */
  function LineLen(s: string): (n: nat)
    ensures n <= |s| && (n == |s| || s[n] == '\n')
    ensures forall k :: 0 <= k < n ==> s[k] != '\n'
  {
    if s == [] || s[0] == '\n' then 0 else 1 + LineLen(s[1..])
  }

  /** `s.split('\n')`: at least one line, empty lines included. */
  function SplitLines(s: string): (ls: seq<string>)
    ensures ls != []
    decreases |s|
  {
    var n := LineLen(s);
    if n == |s| then [s] else [s[..n]] + SplitLines(s[n + 1..])
  }

  /** `'\n'.join(ls)` */
  function JoinLines(ls: seq<string>): string
  {
    if ls == [] then "" else if |ls| == 1 then ls[0] else ls[0] + "\n" + JoinLines(ls[1..])
  }

  /** Splitting at line feeds loses nothing: joining the lines back gives the text, and no
      line holds a line feed. */
  lemma {:induction false} SplitLinesJoin(s: string)
    ensures JoinLines(SplitLines(s)) == s
    ensures forall i :: 0 <= i < |SplitLines(s)| ==> NoNewline(SplitLines(s)[i])
    decreases |s|
  {
    var n := LineLen(s);
    if n < |s| {
      SplitLinesJoin(s[n + 1..]);
      assert s == s[..n] + "\n" + s[n + 1..];
    }
  }

  /** The other direction: lines without line feeds come back from their join unchanged. */
  lemma {:induction false} JoinLinesSplit(ls: seq<string>)
    requires ls != [] && forall i :: 0 <= i < |ls| ==> NoNewline(ls[i])
    ensures SplitLines(JoinLines(ls)) == ls
  {
    if |ls| == 1 {
      LineLenOf(ls[0], "");
      assert ls[0] + "" == ls[0];
    } else {
      JoinLinesSplit(ls[1..]);
      SplitLinesCons(ls[0], JoinLines(ls[1..]));
      assert ls == [ls[0]] + ls[1..];
    }
  }

  /** A first line without a line feed comes off as the first element. */
  lemma SplitLinesCons(l: string, t: string)
    requires NoNewline(l)
    ensures SplitLines(l + "\n" + t) == [l] + SplitLines(t)
  {
    var s := l + "\n" + t;
    assert s == l + ("\n" + t);
    LineLenOf(l, "\n" + t);
    assert s[..|l|] == l && s[|l| + 1..] == t;
  }

  lemma {:induction false} LineLenOf(l: string, t: string)
    requires NoNewline(l) && (t == [] || t[0] == '\n')
    ensures LineLen(l + t) == |l|
    decreases |l|
  {
    if l != [] {
      assert (l + t)[1..] == l[1..] + t;
      LineLenOf(l[1..], t);
    }
  }

  /** A text has one line more than it has line feeds. */
  lemma {:induction false} SplitLinesCount(s: string)
    ensures |SplitLines(s)| == multiset(s)['\n'] + 1
    decreases |s|
  {
    var n := LineLen(s);
    if n == |s| {
      assert '\n' !in multiset(s);
    } else {
      SplitLinesCount(s[n + 1..]);
      assert s == s[..n] + [s[n]] + s[n + 1..];
      assert '\n' !in multiset(s[..n]);
    }
  }

  /** `[l.strip() for l in lines if l.strip()]`, written as the inner loop builds it. */
  function KeepNonEmpty(lines: seq<string>): (kept: seq<string>)
    ensures forall k :: 0 <= k < |kept| ==> kept[k] != [] && Trimmed(kept[k])
  {
    if lines == [] then []
    else
      var t := Strip(lines[|lines| - 1]);
      KeepNonEmpty(lines[..|lines| - 1]) + (if t == [] then [] else [t])
  }

  /** Kept lines stay in their order. */
  lemma {:induction false} KeepNonEmptyAppend(a: seq<string>, b: seq<string>)
    ensures KeepNonEmpty(a + b) == KeepNonEmpty(a) + KeepNonEmpty(b)
    decreases |b|
  {
    if b == [] {
      assert a + b == a;
    } else {
      var c := b[..|b| - 1];
      assert (a + b)[..|a + b| - 1] == a + c;
      KeepNonEmptyAppend(a, c);
    }
  }

  /** The text lines of one block: its lines after the first two, stripped, blank ones
      dropped. */
  function BlockText(block: string): seq<string>
  {
    var lines := SplitLines(Strip(block));
    KeepNonEmpty(lines[if |lines| < 2 then |lines| else 2..])
  }

  /** A block with at most one line break inside it (at most two lines) gives no text. */
  lemma ShortBlock(block: string)
    requires multiset(Strip(block))['\n'] <= 1
    ensures BlockText(block) == []
  {
    SplitLinesCount(Strip(block));
  }

  /** The first two lines of a block are dropped whatever they hold; the text is that of the
      lines after them. */
  lemma BlockDropsHeader(block: string, index: string, timing: string, body: string)
    requires NoNewline(index) && NoNewline(timing)
    requires Strip(block) == index + "\n" + timing + "\n" + body
    ensures BlockText(block) == KeepNonEmpty(SplitLines(body))
  {
    var lines := SplitLines(Strip(block));
    DropHeader(Strip(block), index, timing, body);
    assert lines[if |lines| < 2 then |lines| else 2..] == SplitLines(body);
  }

  lemma DropHeader(s: string, index: string, timing: string, body: string)
    requires NoNewline(index) && NoNewline(timing)
    requires s == index + "\n" + timing + "\n" + body
    ensures |SplitLines(s)| >= 2 && SplitLines(s)[2..] == SplitLines(body)
  {
    var rest := timing + "\n" + body;
    assert s == index + "\n" + rest;
    DropTwo(s, index, rest, timing, body);
  }

  lemma DropTwo(s: string, index: string, rest: string, timing: string, body: string)
    requires NoNewline(index) && NoNewline(timing)
    requires s == index + "\n" + rest && rest == timing + "\n" + body
    ensures |SplitLines(s)| >= 2 && SplitLines(s)[2..] == SplitLines(body)
  {
    SplitLinesCons(index, rest);
    SplitLinesCons(timing, body);
    DropConsTwo(SplitLines(s), index, SplitLines(rest), timing, SplitLines(body));
  }

  lemma DropConsTwo<T>(xs: seq<T>, a: T, ys: seq<T>, b: T, zs: seq<T>)
    requires xs == [a] + ys && ys == [b] + zs
    ensures |xs| >= 2 && xs[2..] == zs
  {
    assert xs[2..] == ys[1..];
  }

  /** The lists `f(x)` for the elements of `xs`, one after another. */
  function ConcatMap<T>(xs: seq<T>, f: T -> seq<string>): seq<string>
  {
    if xs == [] then [] else ConcatMap(xs[..|xs| - 1], f) + f(xs[|xs| - 1])
  }

  lemma ConcatMapSnoc<T>(a: seq<T>, x: T, f: T -> seq<string>)
    ensures ConcatMap(a + [x], f) == ConcatMap(a, f) + f(x)
  {
    assert (a + [x])[..|a|] == a;
  }

  lemma {:induction false} ConcatMapAppend<T>(a: seq<T>, b: seq<T>, f: T -> seq<string>)
    ensures ConcatMap(a + b, f) == ConcatMap(a, f) + ConcatMap(b, f)
    decreases |b|
  {
    if b == [] {
      assert a + b == a;
    } else {
      var c, x := b[..|b| - 1], b[|b| - 1];
      assert b == c + [x];
      assert a + b == (a + c) + [x];
      ConcatMapSnoc(a + c, x, f);
      ConcatMapSnoc(c, x, f);
      ConcatMapAppend(a, c, f);
    }
  }

  /** The text lines of all blocks, block after block. */
  function KeptLines(blocks: seq<string>): seq<string>
  {
    ConcatMap(blocks, BlockText)
  }

  /** Blocks contribute their lines in block order. */
  lemma KeptLinesAppend(a: seq<string>, b: seq<string>)
    ensures KeptLines(a + b) == KeptLines(a) + KeptLines(b)
  {
    ConcatMapAppend(a, b, BlockText);
  }

  // ---------------------------------------------------------------------------------------
  // srt_to_plaintext

  /** The text lines of the file: those of its blocks once the marks and the surrounding
      whitespace are gone. */
  function FileLines(content: string): seq<string>
  {
    KeptLines(Blocks(Strip(StripBom(content))))
  }

  /** The string `srt_to_plaintext` returns for the file contents `content`. */
  function PlainText(content: string): string
  {
    Strip(CollapseSpace(JoinSpace(FileLines(content))))
  }

  /** `srt_to_plaintext(srt_path, join_fragments=...)` once the file has been read into
      `content`: the result does not depend on `joinFragments`, because joining a block's
      lines first and then joining the blocks puts the same single spaces between the same
      lines as joining all lines at once. */
  method SrtToPlaintext(content: string, joinFragments: bool) returns (plainText: string)
    ensures plainText == PlainText(content)
  {
    var text := StripBom(content);
    var blocks := Blocks(Strip(text));
    var textLines: seq<string> := [];
    var b := 0;
    while b < |blocks|
      invariant 0 <= b <= |blocks|
      invariant JoinSpace(textLines) == JoinSpace(KeptLines(blocks[..b]))
      invariant textLines == [] <==> KeptLines(blocks[..b]) == []
    {
      var lines := SplitLines(Strip(blocks[b]));
      // The source's `if not lines: continue` never fires: `split` returns at least one line.
      var textContent := StrippedLines(lines[if |lines| < 2 then |lines| else 2..]);
      assert textContent == BlockText(blocks[b]);
      KeptLinesStep(blocks, b);
      JoinStep(textLines, KeptLines(blocks[..b]), textContent, joinFragments);
      if textContent != [] {
        if joinFragments {
          textLines := textLines + [JoinSpace(textContent)];
        } else {
          textLines := textLines + textContent;
        }
      }
      b := b + 1;
    }
    assert blocks[..b] == blocks;
    plainText := Strip(CollapseSpace(JoinSpace(textLines)));
  }

  /** The inner loop of `srt_to_plaintext` over `lines[2:]`: each line stripped, the blank
      ones skipped. */
  method StrippedLines(body: seq<string>) returns (textContent: seq<string>)
    ensures textContent == KeepNonEmpty(body)
  {
    textContent := [];
    var j := 0;
    while j < |body|
      invariant 0 <= j <= |body|
      invariant textContent == KeepNonEmpty(body[..j])
    {
      var line := Strip(body[j]);
      if line != [] {
        textContent := textContent + [line];
      }
      assert body[..j + 1][..j] == body[..j];
      j := j + 1;
    }
    assert body[..j] == body;
  }

  lemma KeptLinesStep(blocks: seq<string>, b: nat)
    requires b < |blocks|
    ensures KeptLines(blocks[..b + 1]) == KeptLines(blocks[..b]) + BlockText(blocks[b])
  {
    assert blocks[..b + 1] == blocks[..b] + [blocks[b]];
    ConcatMapSnoc(blocks[..b], blocks[b], BlockText);
  }

  /** Appending a block's lines, joined or one by one, keeps the join of all lines so far. */
  lemma JoinStep(textLines: seq<string>, kept: seq<string>, lines: seq<string>, joined: bool)
    requires JoinSpace(textLines) == JoinSpace(kept) && (textLines == [] <==> kept == [])
    ensures var next :=
        if lines == [] then textLines
        else if joined then textLines + [JoinSpace(lines)]
        else textLines + lines;
      JoinSpace(next) == JoinSpace(kept + lines) && (next == [] <==> kept + lines == [])
  {
    if lines == [] {
      assert kept + lines == kept;
    } else if kept == [] {
      assert kept + lines == lines;
      assert textLines + lines == lines;
      assert textLines + [JoinSpace(lines)] == [JoinSpace(lines)];
    } else {
      JoinSpaceAppend(kept, lines);
      JoinSpaceAppend(textLines, lines);
      JoinSpaceAppend(textLines, [JoinSpace(lines)]);
    }
  }

  /** The result is the whitespace tokens of the kept lines joined by single spaces. */
  lemma PlainTextWords(content: string)
    ensures PlainText(content) == JoinSpace(Words(JoinSpace(FileLines(content))))
  {
    StripCollapseIsJoinWords(JoinSpace(FileLines(content)));
  }

  /** The result has no whitespace at either end, no line feed, and no whitespace but
      single plain spaces between non-whitespace characters. */
  lemma PlainTextClean(content: string)
    ensures Trimmed(PlainText(content)) && Collapsed(PlainText(content))
    ensures NoNewline(PlainText(content))
  {
    var x := CollapseSpace(JoinSpace(FileLines(content)));
    CollapseSpaceCollapsed(JoinSpace(FileLines(content)));
    StripCollapsed(x);
  }

  /** An empty file, or one holding only byte-order marks and whitespace, gives "". */
  lemma PlainTextBlank(content: string)
    requires AllSpace(StripBom(content))
    ensures PlainText(content) == ""
  {
    StripEmpty(StripBom(content));
    assert Strip(StripBom(content)) == "";
    SingleBlock("");
    ConcatMapSnoc([], "", BlockText);
    assert [] + [""] == [""];
  }

  /** Leading byte-order marks do not change the result. */
  lemma PlainTextBom(n: nat, content: string)
    ensures PlainText(Boms(n) + content) == PlainText(content)
  {
    StripBomPrefix(n, content);
  }

  /** When every kept line is already trimmed and has only single plain spaces inside, the
      result is exactly those lines joined by single spaces. */
  lemma PlainTextJoinsLines(content: string)
    requires forall i :: 0 <= i < |FileLines(content)| ==> Collapsed(FileLines(content)[i])
    ensures PlainText(content) == JoinSpace(FileLines(content))
  {
    var kept := FileLines(content);
    var j := JoinSpace(kept);
    KeptLinesTrimmed(Blocks(Strip(StripBom(content))));
    assert kept == KeptLines(Blocks(Strip(StripBom(content))));
    assert forall i :: 0 <= i < |kept| ==> kept[i] != [] && Trimmed(kept[i]) && Collapsed(kept[i]);
    JoinCollapsed(kept);
    CollapseSpaceIdentity(j);
    StripTrimmed(j);
  }

  /** Every kept line is non-empty and trimmed. */
  lemma {:induction false} KeptLinesTrimmed(blocks: seq<string>)
    ensures forall i :: 0 <= i < |KeptLines(blocks)| ==>
      KeptLines(blocks)[i] != [] && Trimmed(KeptLines(blocks)[i])
  {
    if blocks != [] {
      var a, x := blocks[..|blocks| - 1], blocks[|blocks| - 1];
      KeptLinesTrimmed(a);
      var p, t := KeptLines(a), BlockText(x);
      assert KeptLines(blocks) == p + t;
      forall i | 0 <= i < |p + t| ensures (p + t)[i] != [] && Trimmed((p + t)[i]) {
        if i >= |p| {
          assert (p + t)[i] == t[i - |p|];
        }
      }
    }
  }
}
