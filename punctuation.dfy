/**
 scripts/calculate_punctuation_accuracy.py: counting punctuation marks, extracting the word
 context of each mark, grouping the contexts, matching reference against hypothesis, the
 per-mark count accuracy, punctuation density and the composite score, and the ranking of the
 runs by that score.

 Two Python library behaviours stay abstract: `str.isalnum` is the parameter `alnum`, and
 `round(x, 2)` is the parameter `round`. Floating point is modelled by `real`.
 */
module Punctuation {
  import opened Reals
  import opened Text
  import opened Ranking

  /** The marks whose context is extracted (line 19). */
  const ContextMarks: seq<char> := ['.', '!', '?', ',', ';', ':', '-', '\U{2014}']

  /** The marks that are counted (line 43): the context marks and the two quotes. */
  const CountMarks: seq<char> := ContextMarks + ['"', '\'']

  /** No mark is listed twice. */
  predicate Distinct(ms: seq<char>)
  {
    forall a, b :: 0 <= a < b < |ms| ==> ms[a] != ms[b]
  }

  lemma MarkListsDistinct()
    ensures Distinct(ContextMarks) && Distinct(CountMarks)
    ensures '"' !in ContextMarks && '\'' !in ContextMarks
  {
  }

  // ---------------------------------------------------------------------------------------
  // count_punctuation

  /** The Counter `count_punctuation` returns, as a map: every counted mark that occurs in
      `text`, with its number of occurrences. */
  function MarkCounts(text: string): map<char, nat>
  {
    map m | m in CountMarks && multiset(text)[m] > 0 :: multiset(text)[m]
  }

  /** `counts.get(m, 0)` */
  function Get(counts: map<char, nat>, m: char): nat
  {
    if m in counts then counts[m] else 0
  }

  /** `count_punctuation(text)`: one pass over the characters, incrementing the counter of each
      counted mark. */
  method CountPunctuation(text: string) returns (counts: map<char, nat>)
    ensures counts == MarkCounts(text)
  {
    counts := map[];
    var i := 0;
    while i < |text|
      invariant 0 <= i <= |text|
      invariant counts == MarkCounts(text[..i])
    {
      var c := text[i];
      assert text[..i + 1] == text[..i] + [c];
      if c in CountMarks {
        counts := counts[c := Get(counts, c) + 1];
      }
      MarkCountsSnoc(text[..i], c);
      i := i + 1;
    }
    assert text[..i] == text;
  }

  lemma MarkCountsSnoc(s: string, c: char)
    ensures MarkCounts(s + [c]) ==
      if c in CountMarks then MarkCounts(s)[c := Get(MarkCounts(s), c) + 1] else MarkCounts(s)
  {
    var r := if c in CountMarks then MarkCounts(s)[c := Get(MarkCounts(s), c) + 1] else MarkCounts(s);
    assert multiset(s + [c]) == multiset(s) + multiset{c};
    assert MarkCounts(s + [c]).Keys == r.Keys;
    forall m | m in r ensures MarkCounts(s + [c])[m] == r[m] {
    }
  }

  /** The counter holds only counted marks, each at least once, with its number of
      occurrences in the text. */
  lemma MarkCountsMeaning(text: string, m: char)
    ensures m in MarkCounts(text) <==> m in CountMarks && m in text
    ensures m in MarkCounts(text) ==> MarkCounts(text)[m] >= 1 && MarkCounts(text)[m] == multiset(text)[m]
  {
  }

  /** `sum(counts.values())`, added up as `counts.get(m, 0)` over the distinct `CountMarks`;
      `TotalIsSumOfValues` shows this is the sum of the values of any counter whose keys are
      counted marks. */
  function Total(counts: map<char, nat>): nat
  {
    SumOver(CountMarks, counts)
  }

  function SumOver(ms: seq<char>, counts: map<char, nat>): nat
  {
    if ms == [] then 0 else Get(counts, ms[0]) + SumOver(ms[1..], counts)
  }

  /** The sum of the values of a map, taken in any order. */
  ghost function SumValues(c: map<char, nat>): nat
    decreases |c.Keys|
  {
    if c.Keys == {} then 0
    else
      var m :| m in c.Keys;
      assert (c - {m}).Keys == c.Keys - {m};
      c[m] + SumValues(c - {m})
  }

  /** Any key may be taken first: the sum does not depend on the order. */
  lemma {:induction false} SumValuesRemove(c: map<char, nat>, x: char)
    requires x in c
    ensures SumValues(c) == c[x] + SumValues(c - {x})
    decreases |c.Keys|
  {
    var m :| m in c.Keys && SumValues(c) == c[m] + SumValues(c - {m});
    if m != x {
      assert (c - {m}).Keys == c.Keys - {m};
      assert (c - {x}).Keys == c.Keys - {x};
      SumValuesRemove(c - {m}, x);
      SumValuesRemove(c - {x}, m);
      assert c - {m} - {x} == c - {x} - {m};
    }
  }

  /** Leaving out a key that is not listed does not change a sum over the list. */
  lemma {:induction false} SumOverWithout(ms: seq<char>, c: map<char, nat>, x: char)
    requires x !in ms
    ensures SumOver(ms, c - {x}) == SumOver(ms, c)
  {
    if ms != [] {
      SumOverWithout(ms[1..], c, x);
    }
  }

  /** Over a list of distinct marks that holds every key, `SumOver` adds up the values. */
  lemma {:induction false} SumOverValues(ms: seq<char>, c: map<char, nat>)
    requires Distinct(ms)
    requires forall m :: m in c ==> m in ms
    ensures SumOver(ms, c) == SumValues(c)
  {
    if ms == [] {
      assert c.Keys == {};
    } else {
      var m0 := ms[0];
      assert Distinct(ms[1..]);
      assert m0 !in ms[1..];
      if m0 in c {
        SumOverWithout(ms[1..], c, m0);
        SumOverValues(ms[1..], c - {m0});
        SumValuesRemove(c, m0);
      } else {
        SumOverValues(ms[1..], c);
      }
    }
  }

  /** `Total` is `sum(counts.values())` for every counter whose keys are counted marks, the
      counter of `count_punctuation` among them. */
  lemma TotalIsSumOfValues(counts: map<char, nat>)
    requires forall m :: m in counts ==> m in CountMarks
    ensures Total(counts) == SumValues(counts)
  {
    MarkListsDistinct();
    SumOverValues(CountMarks, counts);
  }

  /** The number of characters of `s` that are in `ms`. */
  function CountIn(s: string, ms: seq<char>): nat
  {
    if s == [] then 0 else (if s[0] in ms then 1 else 0) + CountIn(s[1..], ms)
  }

  /** The values of the counter add up to the number of characters of the text that are
      counted marks. */
  lemma TotalIsMarkedChars(text: string)
    ensures Total(MarkCounts(text)) == CountIn(text, CountMarks)
  {
    MarkListsDistinct();
    SumOverMultiset(CountMarks, text);
    SumOverCountIn(CountMarks, text);
  }

  /** For the counter, `counts.get(m, 0)` is the multiset count. */
  lemma {:induction false} SumOverMultiset(ms: seq<char>, text: string)
    requires forall k :: 0 <= k < |ms| ==> ms[k] in CountMarks
    ensures SumOver(ms, MarkCounts(text)) == SumMultiset(ms, text)
  {
    if ms != [] {
      SumOverMultiset(ms[1..], text);
    }
  }

  /** Σ over `ms` of the number of occurrences in `text`. */
  function SumMultiset(ms: seq<char>, text: string): nat
  {
    if ms == [] then 0 else multiset(text)[ms[0]] + SumMultiset(ms[1..], text)
  }

  lemma {:induction false} SumOverCountIn(ms: seq<char>, text: string)
    requires Distinct(ms)
    ensures SumMultiset(ms, text) == CountIn(text, ms)
    decreases |text|
  {
    if text != [] {
      var c, t := text[0], text[1..];
      assert text == [c] + t;
      SumOverCountIn(ms, t);
      SumMultisetCons(ms, c, t);
    } else {
      SumMultisetEmpty(ms);
    }
  }

  lemma SumMultisetEmpty(ms: seq<char>)
    ensures SumMultiset(ms, "") == 0
  {
  }

  /** One more character adds one exactly when it is one of the distinct marks. */
  lemma {:induction false} SumMultisetCons(ms: seq<char>, c: char, t: string)
    requires Distinct(ms)
    ensures SumMultiset(ms, [c] + t) == SumMultiset(ms, t) + (if c in ms then 1 else 0)
  {
    if ms != [] {
      assert multiset([c] + t) == multiset{c} + multiset(t);
      assert Distinct(ms[1..]);
      SumMultisetCons(ms[1..], c, t);
      assert c in ms <==> c == ms[0] || c in ms[1..];
      assert ms[0] in ms[1..] ==> false;
    }
  }

  // ---------------------------------------------------------------------------------------
  // extract_punctuation_context

  /** A `(context, punct)` tuple. */
  datatype PunctContext = PunctContext(context: string, mark: char)

  /** The marks of `ms` that occur in `w`, in the order of `ms`: the inner loop of
      `extract_punctuation_context` tests each listed mark once per token. */
  function MarksIn(ms: seq<char>, w: string): seq<char>
  {
    if ms == [] then [] else MarksIn(ms[..|ms| - 1], w) + (if ms[|ms| - 1] in w then [ms[|ms| - 1]] else [])
  }

  /** A mark is reported for a token exactly when it is listed and occurs in the token. */
  lemma {:induction false} MarksInMembers(ms: seq<char>, w: string, m: char)
    ensures m in MarksIn(ms, w) <==> m in ms && m in w
  {
    if ms != [] {
      MarksInMembers(ms[..|ms| - 1], w, m);
      assert ms == ms[..|ms| - 1] + [ms[|ms| - 1]];
    }
  }

  /** A mark that occurs several times in one token is reported once. */
  lemma {:induction false} MarksInDistinct(ms: seq<char>, w: string)
    requires Distinct(ms)
    ensures Distinct(MarksIn(ms, w))
  {
    if ms != [] {
      var init, last := ms[..|ms| - 1], ms[|ms| - 1];
      MarksInDistinct(init, w);
      MarksInMembers(init, w, last);
      var r := MarksIn(init, w);
      assert last !in init;
      forall a, b | 0 <= a < b < |MarksIn(ms, w)| ensures MarksIn(ms, w)[a] != MarksIn(ms, w)[b] {
        if b >= |r| {
          assert MarksIn(ms, w)[a] == r[a];
        }
      }
    }
  }

  /** The marks come in the order of the list, not in the order they occur in the token:
      those listed in `ms1` before those listed in `ms2`, so in `a,b.` the full stop is
      reported before the comma. */
  lemma {:induction false} MarksInAppend(ms1: seq<char>, ms2: seq<char>, w: string)
    ensures MarksIn(ms1 + ms2, w) == MarksIn(ms1, w) + MarksIn(ms2, w)
  {
    if ms2 != [] {
      var init := ms2[..|ms2| - 1];
      assert (ms1 + ms2)[..|ms1 + ms2| - 1] == ms1 + init;
      MarksInAppend(ms1, init, w);
    } else {
      assert ms1 + ms2 == ms1;
    }
  }

  /** Only which listed marks a token contains matters, not where or how often: a token and
      any rearrangement or repetition of its characters yield the same marks. */
  lemma {:induction false} MarksInIgnoresPosition(ms: seq<char>, w1: string, w2: string)
    requires forall m :: m in ms ==> (m in w1 <==> m in w2)
    ensures MarksIn(ms, w1) == MarksIn(ms, w2)
  {
    if ms != [] {
      MarksInIgnoresPosition(ms[..|ms| - 1], w1, w2);
    }
  }

  /** `''.join(c for c in word if c.isalnum() or c.isspace())` */
  function CleanWord(w: string, alnum: char -> bool): (r: string)
    ensures |r| <= |w|
    ensures forall k :: 0 <= k < |r| ==> alnum(r[k]) || IsSpace(r[k])
  {
    if w == [] then []
    else (if alnum(w[0]) || IsSpace(w[0]) then [w[0]] else []) + CleanWord(w[1..], alnum)
  }

  /** Every alphanumeric or whitespace character of the token is kept, as often as it occurs,
      and every other character is dropped. */
  lemma {:induction false} CleanWordCounts(w: string, alnum: char -> bool)
    ensures forall c :: multiset(CleanWord(w, alnum))[c] == if alnum(c) || IsSpace(c) then multiset(w)[c] else 0
  {
    if w != [] {
      CleanWordCounts(w[1..], alnum);
      assert w == [w[0]] + w[1..];
      assert multiset(w) == multiset{w[0]} + multiset(w[1..]);
    }
  }

  /** Cleaning works character by character and keeps the order: the cleaned halves of a
      token, one after the other, are the cleaned token. */
  lemma {:induction false} CleanWordAppend(a: string, b: string, alnum: char -> bool)
    ensures CleanWord(a + b, alnum) == CleanWord(a, alnum) + CleanWord(b, alnum)
  {
    if a != [] {
      var head := if alnum(a[0]) || IsSpace(a[0]) then [a[0]] else [];
      assert (a + b)[0] == a[0] && (a + b)[1..] == a[1..] + b;
      assert CleanWord(a + b, alnum) == head + CleanWord(a[1..] + b, alnum);
      CleanWordAppend(a[1..], b, alnum);
      assert CleanWord(a, alnum) == head + CleanWord(a[1..], alnum);
    } else {
      assert a + b == b;
    }
  }

  /** A token of alphanumeric and whitespace characters only is left as it is. */
  lemma {:induction false} CleanWordKeeps(w: string, alnum: char -> bool)
    requires forall k :: 0 <= k < |w| ==> alnum(w[k]) || IsSpace(w[k])
    ensures CleanWord(w, alnum) == w
  {
    if w != [] {
      CleanWordKeeps(w[1..], alnum);
    }
  }

  /** `words[max(0, i - context_words):i]` */
  function Before(words: seq<string>, i: nat, k: nat): seq<string>
    requires i < |words|
  {
    words[if i >= k then i - k else 0..i]
  }

  /** `words[i + 1:min(len(words), i + context_words + 1)]` */
  function After(words: seq<string>, i: nat, k: nat): seq<string>
    requires i < |words|
  {
    words[i + 1..if |words| <= i + k + 1 then |words| else i + k + 1]
  }

  /** The windows hold the `k` tokens on either side of token `i`, fewer at the ends. */
  lemma WindowSizes(words: seq<string>, i: nat, k: nat)
    requires i < |words|
    ensures |Before(words, i, k)| == (if i < k then i else k)
    ensures |After(words, i, k)| == (if |words| - i - 1 < k then |words| - i - 1 else k)
    ensures Before(words, i, k) == words[i - |Before(words, i, k)|..i]
    ensures After(words, i, k) == words[i + 1..i + 1 + |After(words, i, k)|]
  {
  }

  /** The context of token `i`, as it is stored: lower-cased. */
  function Context(words: seq<string>, i: nat, k: nat, alnum: char -> bool): string
    requires i < |words|
  {
    var joined := JoinSpace(Before(words, i, k)) + " " + CleanWord(words[i], alnum) + " "
      + JoinSpace(After(words, i, k));
    Lower(Strip(joined))
  }

  /** A context has no whitespace at either end and no upper-case letter. */
  lemma ContextShape(words: seq<string>, i: nat, k: nat, alnum: char -> bool)
    requires i < |words|
    ensures Trimmed(Context(words, i, k, alnum)) && IsLowerCase(Context(words, i, k, alnum))
  {
    var joined := JoinSpace(Before(words, i, k)) + " " + CleanWord(words[i], alnum) + " "
      + JoinSpace(After(words, i, k));
    LowerTrimmed(Strip(joined));
  }

  /** The tuples token `i` adds for the listed marks `ms`. */
  function TokenPairs(words: seq<string>, i: nat, k: nat, alnum: char -> bool, ms: seq<char>): seq<PunctContext>
    requires i < |words|
  {
    if ms == [] then []
    else
      TokenPairs(words, i, k, alnum, ms[..|ms| - 1])
      + (if ms[|ms| - 1] in words[i] then [PunctContext(Context(words, i, k, alnum), ms[|ms| - 1])] else [])
  }

  /** A token adds one tuple per mark it contains, in list order, all with its context. */
  lemma {:induction false} TokenPairsShape(words: seq<string>, i: nat, k: nat, alnum: char -> bool, ms: seq<char>)
    requires i < |words|
    ensures |TokenPairs(words, i, k, alnum, ms)| == |MarksIn(ms, words[i])|
    ensures forall j :: 0 <= j < |TokenPairs(words, i, k, alnum, ms)| ==>
      TokenPairs(words, i, k, alnum, ms)[j] == PunctContext(Context(words, i, k, alnum), MarksIn(ms, words[i])[j])
  {
    if ms != [] {
      TokenPairsShape(words, i, k, alnum, ms[..|ms| - 1]);
    }
  }

  /** The tuples of the first `n` tokens. */
  function PairsUpTo(words: seq<string>, n: nat, k: nat, alnum: char -> bool): seq<PunctContext>
    requires n <= |words|
  {
    if n == 0 then [] else PairsUpTo(words, n - 1, k, alnum) + TokenPairs(words, n - 1, k, alnum, ContextMarks)
  }

  /** What `extract_punctuation_context(text, context_words)` returns. */
  function ContextPairs(text: string, k: nat, alnum: char -> bool): seq<PunctContext>
  {
    var words := Words(text);
    PairsUpTo(words, |words|, k, alnum)
  }

  /** `extract_punctuation_context(text, context_words)`: for each token, for each listed mark
      it contains, one tuple with the token's context. */
  method ExtractPunctuationContext(text: string, contextWords: nat, alnum: char -> bool)
    returns (results: seq<PunctContext>)
    ensures results == ContextPairs(text, contextWords, alnum)
  {
    results := [];
    var words := Words(text);
    var i := 0;
    while i < |words|
      invariant 0 <= i <= |words|
      invariant results == PairsUpTo(words, i, contextWords, alnum)
    {
      results := AppendTokenPairs(results, words, i, contextWords, alnum);
      i := i + 1;
    }
  }

  /** The inner loop of lines 26-36: appends the tuples of token `i` to `results`. */
  method AppendTokenPairs(results: seq<PunctContext>, words: seq<string>, i: nat, contextWords: nat, alnum: char -> bool)
    returns (extended: seq<PunctContext>)
    requires i < |words|
    ensures extended == results + TokenPairs(words, i, contextWords, alnum, ContextMarks)
  {
    extended := results;
    var word := words[i];
    var p := 0;
    while p < |ContextMarks|
      invariant 0 <= p <= |ContextMarks|
      invariant extended == results + TokenPairs(words, i, contextWords, alnum, ContextMarks[..p])
    {
      var punct := ContextMarks[p];
      ghost var done := TokenPairs(words, i, contextWords, alnum, ContextMarks[..p]);
      TokenPairsStep(words, i, contextWords, alnum, p);
      if punct in word {
        var contextBefore := JoinSpace(words[if i >= contextWords then i - contextWords else 0..i]);
        var contextAfter := JoinSpace(words[i + 1..Min(|words|, i + contextWords + 1)]);
        var wordClean := CleanWord(word, alnum);
        var context := Strip(contextBefore + " " + wordClean + " " + contextAfter);
        assert Lower(context) == Context(words, i, contextWords, alnum);
        var pair := PunctContext(Lower(context), punct);
        assert (results + done) + [pair] == results + (done + [pair]);
        extended := extended + [pair];
      } else {
        assert done + [] == done;
      }
      p := p + 1;
    }
    assert ContextMarks[..p] == ContextMarks;
  }

  lemma TokenPairsStep(words: seq<string>, i: nat, k: nat, alnum: char -> bool, p: nat)
    requires i < |words| && p < |ContextMarks|
    ensures TokenPairs(words, i, k, alnum, ContextMarks[..p + 1])
      == TokenPairs(words, i, k, alnum, ContextMarks[..p])
         + (if ContextMarks[p] in words[i] then [PunctContext(Context(words, i, k, alnum), ContextMarks[p])] else [])
  {
    assert ContextMarks[..p + 1][..p] == ContextMarks[..p];
  }

  function Min(a: int, b: int): int
  {
    if a <= b then a else b
  }

  /** A tuple as `extract_punctuation_context` emits it: a listed mark, and a context without
      surrounding whitespace and in lower case. */
  predicate WellShaped(p: PunctContext)
  {
    p.mark in ContextMarks && Trimmed(p.context) && IsLowerCase(p.context)
  }

  lemma TokenPairsWellShaped(words: seq<string>, i: nat, k: nat, alnum: char -> bool)
    requires i < |words|
    ensures forall j :: 0 <= j < |TokenPairs(words, i, k, alnum, ContextMarks)| ==>
      WellShaped(TokenPairs(words, i, k, alnum, ContextMarks)[j])
  {
    TokenPairsShape(words, i, k, alnum, ContextMarks);
    ContextShape(words, i, k, alnum);
    var b := TokenPairs(words, i, k, alnum, ContextMarks);
    forall j | 0 <= j < |b| ensures WellShaped(b[j]) {
      MarksInMembers(ContextMarks, words[i], b[j].mark);
    }
  }

  lemma {:induction false} PairsUpToShape(words: seq<string>, n: nat, k: nat, alnum: char -> bool)
    requires n <= |words|
    ensures forall j :: 0 <= j < |PairsUpTo(words, n, k, alnum)| ==> WellShaped(PairsUpTo(words, n, k, alnum)[j])
  {
    if n > 0 {
      PairsUpToShape(words, n - 1, k, alnum);
      TokenPairsWellShaped(words, n - 1, k, alnum);
      var a: seq<PunctContext> := PairsUpTo(words, n - 1, k, alnum);
      var b: seq<PunctContext> := TokenPairs(words, n - 1, k, alnum, ContextMarks);
      forall j | 0 <= j < |a + b| ensures WellShaped((a + b)[j]) {
        if j >= |a| {
          assert (a + b)[j] == b[j - |a|];
        }
      }
    }
  }

  lemma ContextPairsShape(text: string, k: nat, alnum: char -> bool)
    ensures forall j :: 0 <= j < |ContextPairs(text, k, alnum)| ==>
      var p := ContextPairs(text, k, alnum)[j];
      p.mark in ContextMarks && p.mark != '"' && p.mark != '\'' && Trimmed(p.context) && IsLowerCase(p.context)
  {
    MarkListsDistinct();
    PairsUpToShape(Words(text), |Words(text)|, k, alnum);
  }

  // ---------------------------------------------------------------------------------------
  // ref_dict / hyp_dict

  /** A Python dict from context to list of marks: `keys` in insertion order, `marks` the
      entries. */
  datatype ContextMap = ContextMap(keys: seq<string>, marks: map<string, seq<char>>)

  /** What every Python dict satisfies: each key once, and the keys are those of the
      entries. */
  ghost predicate WellFormed(d: ContextMap)
  {
    && (forall a, b :: 0 <= a < b < |d.keys| ==> d.keys[a] != d.keys[b])
    && (forall c :: c in d.marks <==> c in d.keys)
  }

  /** One step of the grouping loop: `if context not in d: d[context] = []`, then
      `d[context].append(punct)`. */
  function AddPair(d: ContextMap, p: PunctContext): ContextMap
  {
    if p.context in d.marks then ContextMap(d.keys, d.marks[p.context := d.marks[p.context] + [p.mark]])
    else ContextMap(d.keys + [p.context], d.marks[p.context := [p.mark]])
  }

  /** The dict the grouping loop builds from `pairs`. */
  function Group(pairs: seq<PunctContext>): ContextMap
  {
    if pairs == [] then ContextMap([], map[]) else AddPair(Group(pairs[..|pairs| - 1]), pairs[|pairs| - 1])
  }

  /** The loop of lines 92-96 (and 99-102 for the hypothesis). */
  method GroupByContext(pairs: seq<PunctContext>) returns (d: ContextMap)
    ensures d == Group(pairs)
  {
    d := ContextMap([], map[]);
    var j := 0;
    while j < |pairs|
      invariant 0 <= j <= |pairs|
      invariant d == Group(pairs[..j])
    {
      var context, punct := pairs[j].context, pairs[j].mark;
      assert pairs[..j + 1][..j] == pairs[..j];
      if context !in d.marks {
        d := ContextMap(d.keys + [context], d.marks[context := []]);
      }
      d := d.(marks := d.marks[context := d.marks[context] + [punct]]);
      assert [] + [punct] == [punct];
      j := j + 1;
    }
    assert pairs[..j] == pairs;
  }

  /** The marks of the tuples with context `c`, in emission order, duplicates kept. */
  function MarksAt(pairs: seq<PunctContext>, c: string): seq<char>
  {
    if pairs == [] then []
    else MarksAt(pairs[..|pairs| - 1], c) + (if pairs[|pairs| - 1].context == c then [pairs[|pairs| - 1].mark] else [])
  }

  /** The grouping is a well-formed dict whose keys are the contexts that occur and whose
      entry for a context is the list of its marks in emission order. */
  lemma {:induction false} GroupMeaning(pairs: seq<PunctContext>)
    ensures WellFormed(Group(pairs))
    ensures forall c :: c in Group(pairs).marks <==> exists j :: 0 <= j < |pairs| && pairs[j].context == c
    ensures forall c :: c in Group(pairs).marks ==> Group(pairs).marks[c] == MarksAt(pairs, c)
  {
    if pairs != [] {
      var init := pairs[..|pairs| - 1];
      GroupMeaning(init);
      forall c ensures c in Group(pairs).marks <==> exists j :: 0 <= j < |pairs| && pairs[j].context == c {
        if c in Group(init).marks {
          var j :| 0 <= j < |init| && init[j].context == c;
          assert pairs[j] == init[j];
        }
        if exists j :: 0 <= j < |pairs| && pairs[j].context == c {
          var j :| 0 <= j < |pairs| && pairs[j].context == c;
          if j < |init| {
            assert init[j] == pairs[j];
          }
        }
      }
      forall c | c in Group(pairs).marks ensures Group(pairs).marks[c] == MarksAt(pairs, c) {
        var p := pairs[|pairs| - 1];
        if c != p.context {
          assert Group(pairs).marks[c] == Group(init).marks[c];
        } else if p.context !in Group(init).marks {
          assert forall j :: 0 <= j < |init| ==> init[j].context != c;
          MarksAtAbsent(init, c);
        }
      }
    }
  }

  lemma {:induction false} MarksAtAbsent(pairs: seq<PunctContext>, c: string)
    requires forall j :: 0 <= j < |pairs| ==> pairs[j].context != c
    ensures MarksAt(pairs, c) == []
  {
    if pairs != [] {
      MarksAtAbsent(pairs[..|pairs| - 1], c);
    }
  }

  /** Σ of the list lengths over the keys. */
  function SumLengths(keys: seq<string>, marks: map<string, seq<char>>): nat
  {
    if keys == [] then 0 else (if keys[0] in marks then |marks[keys[0]]| else 0) + SumLengths(keys[1..], marks)
  }

  /** Grouping loses no tuple: the lists hold as many marks as there were tuples. */
  lemma {:induction false} GroupSize(pairs: seq<PunctContext>)
    ensures SumLengths(Group(pairs).keys, Group(pairs).marks) == |pairs|
  {
    if pairs != [] {
      var init, p := pairs[..|pairs| - 1], pairs[|pairs| - 1];
      var d := Group(init);
      GroupSize(init);
      GroupMeaning(init);
      if p.context in d.marks {
        SumLengthsUpdate(d.keys, d.marks, p.context, d.marks[p.context] + [p.mark]);
      } else {
        SumLengthsFresh(d.keys, d.marks, p.context, [p.mark]);
        SumLengthsSnoc(d.keys, d.marks[p.context := [p.mark]], p.context);
      }
    }
  }

  lemma {:induction false} SumLengthsUpdate(keys: seq<string>, marks: map<string, seq<char>>, c: string, v: seq<char>)
    requires c in marks && c in keys
    requires forall a, b :: 0 <= a < b < |keys| ==> keys[a] != keys[b]
    ensures SumLengths(keys, marks[c := v]) + |marks[c]| == SumLengths(keys, marks) + |v|
  {
    if keys[0] == c {
      assert c !in keys[1..];
      SumLengthsFresh(keys[1..], marks, c, v);
    } else {
      SumLengthsUpdate(keys[1..], marks, c, v);
    }
  }

  lemma {:induction false} SumLengthsFresh(keys: seq<string>, marks: map<string, seq<char>>, c: string, v: seq<char>)
    requires c !in keys
    ensures SumLengths(keys, marks[c := v]) == SumLengths(keys, marks)
  {
    if keys != [] {
      SumLengthsFresh(keys[1..], marks, c, v);
    }
  }

  lemma {:induction false} SumLengthsSnoc(keys: seq<string>, marks: map<string, seq<char>>, c: string)
    requires c in marks
    ensures SumLengths(keys + [c], marks) == SumLengths(keys, marks) + |marks[c]|
  {
    if keys == [] {
      assert [] + [c] == [c];
    } else {
      assert (keys + [c])[1..] == keys[1..] + [c];
      SumLengthsSnoc(keys[1..], marks, c);
    }
  }

  // ---------------------------------------------------------------------------------------
  // Context matching

  /** The reference context `c` has, in the hypothesis, exactly the same list of marks. */
  predicate Agrees(c: string, r: map<string, seq<char>>, h: map<string, seq<char>>)
  {
    c in r && c in h && r[c] == h[c]
  }

  /** How many of `keys` agree between the two dicts. */
  function Matches(keys: seq<string>, r: map<string, seq<char>>, h: map<string, seq<char>>): nat
  {
    if keys == [] then 0
    else Matches(keys[..|keys| - 1], r, h) + (if Agrees(keys[|keys| - 1], r, h) then 1 else 0)
  }

  /** The `matched_contexts` loop of lines 105-113 and `total_contexts` of line 106. */
  method MatchContexts(refDict: ContextMap, hypDict: ContextMap) returns (matched: nat, total: nat)
    requires WellFormed(refDict)
    ensures matched == Matches(refDict.keys, refDict.marks, hypDict.marks)
    ensures total == |refDict.keys|
  {
    matched := 0;
    total := |refDict.keys|;
    var j := 0;
    while j < |refDict.keys|
      invariant 0 <= j <= |refDict.keys|
      invariant matched == Matches(refDict.keys[..j], refDict.marks, hypDict.marks)
    {
      var context := refDict.keys[j];
      var refPuncts := refDict.marks[context];
      assert refDict.keys[..j + 1][..j] == refDict.keys[..j];
      if context in hypDict.marks {
        var hypPuncts := hypDict.marks[context];
        if refPuncts == hypPuncts {
          matched := matched + 1;
        }
      }
      j := j + 1;
    }
    assert refDict.keys[..j] == refDict.keys;
  }

  /** At most every reference context matches, and all of them match exactly when each one
      has the same list of marks in the hypothesis. */
  lemma {:induction false} MatchesBound(keys: seq<string>, r: map<string, seq<char>>, h: map<string, seq<char>>)
    ensures Matches(keys, r, h) <= |keys|
    ensures Matches(keys, r, h) == |keys| <==> forall j :: 0 <= j < |keys| ==> Agrees(keys[j], r, h)
  {
    if keys != [] {
      var init := keys[..|keys| - 1];
      MatchesBound(init, r, h);
      if forall j :: 0 <= j < |keys| ==> Agrees(keys[j], r, h) {
        assert forall j :: 0 <= j < |init| ==> init[j] == keys[j];
      }
      if Matches(keys, r, h) == |keys| {
        forall j | 0 <= j < |keys| ensures Agrees(keys[j], r, h) {
          if j < |init| {
            assert init[j] == keys[j];
          }
        }
      }
    }
  }

  /** A hypothesis context that is not a reference context never changes the count, whether
      it is there or not, and whatever its marks. */
  lemma {:induction false} MatchesIgnoresExtra(keys: seq<string>, r: map<string, seq<char>>, h: map<string, seq<char>>, c: string, v: seq<char>)
    requires c !in keys
    ensures Matches(keys, r, h[c := v]) == Matches(keys, r, h)
    ensures Matches(keys, r, h - {c}) == Matches(keys, r, h)
  {
    if keys != [] {
      assert c !in keys[..|keys| - 1];
      MatchesIgnoresExtra(keys[..|keys| - 1], r, h, c, v);
    }
  }

  /** `context_accuracy` of line 115. */
  function ContextAccuracy(matched: nat, total: nat): real
  {
    if total > 0 then matched as real / total as real * 100.0 else 0.0
  }

  /** The percentage lies in [0, 100], is 0 without reference contexts, and is 100 exactly
      when there are some and all of them match. */
  lemma ContextAccuracyRange(matched: nat, total: nat)
    requires matched <= total
    ensures 0.0 <= ContextAccuracy(matched, total) <= 100.0
    ensures total == 0 ==> ContextAccuracy(matched, total) == 0.0
    ensures ContextAccuracy(matched, total) == 100.0 <==> total > 0 && matched == total
  {
    if total > 0 {
      var q := matched as real / total as real;
      assert q * total as real == matched as real;
      assert q <= 1.0;
      if q * 100.0 == 100.0 {
        assert q == 1.0;
      }
    }
  }

  // ---------------------------------------------------------------------------------------
  // Per-mark count accuracy

  /** The closeness of the two counts of one mark, lines 75-79. */
  function CountAccuracy(refCount: nat, hypCount: nat): real
  {
    if refCount == 0 then (if hypCount == 0 then 100.0 else 0.0)
    else Max(0.0, 100.0 - Deviation(refCount, hypCount) * 100.0)
  }

  /** `abs(ref_count - hyp_count) / ref_count` */
  function Deviation(refCount: nat, hypCount: nat): real
    requires refCount > 0
  {
    Abs(refCount as real - hypCount as real) / refCount as real
  }

  /** The accuracy lies in [0, 100], is 100 exactly when the counts agree, and is 0 when
      either text lacks the mark while the other has it. */
  lemma CountAccuracyFacts(refCount: nat, hypCount: nat)
    ensures 0.0 <= CountAccuracy(refCount, hypCount) <= 100.0
    ensures CountAccuracy(refCount, hypCount) == 100.0 <==> refCount == hypCount
    ensures refCount == 0 && hypCount > 0 ==> CountAccuracy(refCount, hypCount) == 0.0
    ensures hypCount == 0 && refCount > 0 ==> CountAccuracy(refCount, hypCount) == 0.0
  {
    if refCount > 0 {
      var d := Abs(refCount as real - hypCount as real) / refCount as real;
      assert d * refCount as real == Abs(refCount as real - hypCount as real);
      assert d >= 0.0;
      if refCount != hypCount {
        assert d > 0.0;
      }
      if hypCount == 0 {
        assert d == 1.0;
      }
    }
  }

  /** An entry of `mark_accuracy`. */
  datatype MarkAccuracy = MarkAccuracy(referenceCount: nat, hypothesisCount: nat, countAccuracy: real)

  /** The entry of `mark_accuracy` for mark `m`, with `round(·, 2)` given as `round`. */
  function MarkEntry(refCounts: map<char, nat>, hypCounts: map<char, nat>, round: real -> real, m: char): MarkAccuracy
  {
    MarkAccuracy(Get(refCounts, m), Get(hypCounts, m), round(CountAccuracy(Get(refCounts, m), Get(hypCounts, m))))
  }

  /** `mark_accuracy` as lines 71-85 fill it. */
  function MarkAccuracyMap(refCounts: map<char, nat>, hypCounts: map<char, nat>, round: real -> real): map<char, MarkAccuracy>
  {
    map m | m in refCounts.Keys + hypCounts.Keys :: MarkEntry(refCounts, hypCounts, round, m)
  }

  /** The loop of lines 71-85 over the marks of either text. */
  method MarkAccuracies(refCounts: map<char, nat>, hypCounts: map<char, nat>, round: real -> real)
    returns (markAccuracy: map<char, MarkAccuracy>)
    ensures markAccuracy == MarkAccuracyMap(refCounts, hypCounts, round)
  {
    markAccuracy := map[];
    var todo := refCounts.Keys + hypCounts.Keys;
    while todo != {}
      invariant todo <= refCounts.Keys + hypCounts.Keys
      invariant markAccuracy.Keys == refCounts.Keys + hypCounts.Keys - todo
      invariant forall m :: m in markAccuracy ==> markAccuracy[m] == MarkEntry(refCounts, hypCounts, round, m)
      decreases |todo|
    {
      var mark :| mark in todo;
      var refCount := Get(refCounts, mark);
      var hypCount := Get(hypCounts, mark);
      var accuracy := CountAccuracy(refCount, hypCount);
      var entry := MarkAccuracy(refCount, hypCount, round(accuracy));
      assert entry == MarkEntry(refCounts, hypCounts, round, mark);
      markAccuracy := markAccuracy[mark := entry];
      todo := todo - {mark};
    }
    MarkAccuracyMapOf(markAccuracy, refCounts, hypCounts, round);
  }

  lemma MarkAccuracyMapOf(acc: map<char, MarkAccuracy>, refCounts: map<char, nat>, hypCounts: map<char, nat>, round: real -> real)
    requires acc.Keys == refCounts.Keys + hypCounts.Keys
    requires forall m :: m in acc ==> acc[m] == MarkEntry(refCounts, hypCounts, round, m)
    ensures acc == MarkAccuracyMap(refCounts, hypCounts, round)
  {
  }

  /** For the counts of two texts, the keys are the marks counted in either text; a mark the
      reference lacks is one the hypothesis has, and scores 0 before rounding. */
  lemma MarkAccuracyMeaning(reference: string, hypothesis: string, round: real -> real, m: char)
    ensures var acc := MarkAccuracyMap(MarkCounts(reference), MarkCounts(hypothesis), round);
      && (m in acc <==> m in CountMarks && (m in reference || m in hypothesis))
      && (m in acc ==>
            && acc[m].referenceCount == multiset(reference)[m]
            && acc[m].hypothesisCount == multiset(hypothesis)[m]
            && (acc[m].referenceCount == 0 ==> acc[m].hypothesisCount > 0))
  {
    MarkCountsMeaning(reference, m);
    MarkCountsMeaning(hypothesis, m);
    if m in CountMarks {
      assert m in reference <==> multiset(reference)[m] > 0;
      assert m in hypothesis <==> multiset(hypothesis)[m] > 0;
    }
  }

  // ---------------------------------------------------------------------------------------
  // Density and composite score

  /** Marks per hundred whitespace tokens, lines 121-122. */
  function Density(total: nat, words: nat): (r: real)
    ensures r >= 0.0
    ensures words == 0 ==> r == 0.0
    ensures words > 0 ==> r * words as real == total as real * 100.0
  {
    if words > 0 then total as real / words as real * 100.0 else 0.0
  }

  /** The composite of lines 137-138, on the unrounded context accuracy and densities. */
  function Score(contextAccuracy: real, refDensity: real, hypDensity: real): real
  {
    contextAccuracy * 0.7 + (100.0 - Abs(refDensity - hypDensity) / Max(refDensity, 0.01) * 100.0) * 0.3
  }

  /** The score never exceeds 100 for a context accuracy of at most 100; it reaches 100 with
      full context agreement and equal densities, and 30 with no context agreement. */
  lemma ScoreFacts(contextAccuracy: real, refDensity: real, hypDensity: real)
    requires contextAccuracy <= 100.0
    ensures Score(contextAccuracy, refDensity, hypDensity) <= 100.0
    ensures refDensity == hypDensity ==> Score(contextAccuracy, refDensity, hypDensity) == contextAccuracy * 0.7 + 30.0
  {
    var q := Abs(refDensity - hypDensity) / Max(refDensity, 0.01);
    assert q * Max(refDensity, 0.01) == Abs(refDensity - hypDensity);
    assert q >= 0.0;
  }

  /** The score is not clamped: a hypothesis with far more marks per word than the reference
      scores below zero. */
  lemma ScoreUnclamped()
    ensures Score(0.0, 1.0, 5.0) < 0.0
  {
    assert Abs(1.0 - 5.0) / Max(1.0, 0.01) == 4.0;
  }

  // ---------------------------------------------------------------------------------------
  // calculate_punctuation_metrics

  /** The dict returned by `calculate_punctuation_metrics`, field by field. */
  datatype Metrics = Metrics(
    totalReference: nat,
    totalHypothesis: nat,
    difference: int,
    referencePercent: real,
    hypothesisPercent: real,
    markAccuracy: map<char, MarkAccuracy>,
    contextMatchAccuracy: real,
    overallScore: real)

  /** The window the metrics use: the default of `extract_punctuation_context`. */
  const DefaultContextWords: nat := 2

  /** The context dict of a text. */
  function ContextDict(text: string, alnum: char -> bool): ContextMap
  {
    Group(ContextPairs(text, DefaultContextWords, alnum))
  }

  /** `context_accuracy` before rounding. */
  function ContextMatch(reference: string, hypothesis: string, alnum: char -> bool): real
  {
    var refDict, hypDict := ContextDict(reference, alnum), ContextDict(hypothesis, alnum);
    ContextAccuracy(Matches(refDict.keys, refDict.marks, hypDict.marks), |refDict.keys|)
  }

  /** The density of a text before rounding. */
  function TextDensity(text: string): real
  {
    Density(Total(MarkCounts(text)), |Words(text)|)
  }

  /** What `calculate_punctuation_metrics(reference, hypothesis)` returns. */
  function PunctuationMetrics(reference: string, hypothesis: string, alnum: char -> bool, round: real -> real): Metrics
  {
    var refTotal, hypTotal := Total(MarkCounts(reference)), Total(MarkCounts(hypothesis));
    var ctx := ContextMatch(reference, hypothesis, alnum);
    var refDensity, hypDensity := TextDensity(reference), TextDensity(hypothesis);
    Metrics(refTotal, hypTotal, hypTotal as int - refTotal as int, round(refDensity), round(hypDensity),
      MarkAccuracyMap(MarkCounts(reference), MarkCounts(hypothesis), round),
      round(ctx), round(Score(ctx, refDensity, hypDensity)))
  }

  /** Lines 53-141. */
  method CalculatePunctuationMetrics(reference: string, hypothesis: string, alnum: char -> bool, round: real -> real)
    returns (metrics: Metrics)
    ensures metrics == PunctuationMetrics(reference, hypothesis, alnum, round)
  {
    var refCounts := CountPunctuation(reference);
    var hypCounts := CountPunctuation(hypothesis);
    var totalRefPunct, totalHypPunct := Total(refCounts), Total(hypCounts);
    var markAccuracy := MarkAccuracies(refCounts, hypCounts, round);
    var refPunctContext := ExtractPunctuationContext(reference, DefaultContextWords, alnum);
    var hypPunctContext := ExtractPunctuationContext(hypothesis, DefaultContextWords, alnum);
    var refDict := GroupByContext(refPunctContext);
    var hypDict := GroupByContext(hypPunctContext);
    GroupMeaning(refPunctContext);
    var matchedContexts, totalContexts := MatchContexts(refDict, hypDict);
    var contextAccuracy := ContextAccuracy(matchedContexts, totalContexts);
    assert contextAccuracy == ContextMatch(reference, hypothesis, alnum);
    var refWords, hypWords := |Words(reference)|, |Words(hypothesis)|;
    var refDensity := Density(totalRefPunct, refWords);
    var hypDensity := Density(totalHypPunct, hypWords);
    assert refDensity == TextDensity(reference) && hypDensity == TextDensity(hypothesis);
    metrics := Metrics(totalRefPunct, totalHypPunct, totalHypPunct as int - totalRefPunct as int,
      round(refDensity), round(hypDensity), markAccuracy, round(contextAccuracy),
      round(Score(contextAccuracy, refDensity, hypDensity)));
  }

  /** The totals count the marked characters of each text, and `difference` is the signed
      excess of the hypothesis. */
  lemma MetricsTotals(reference: string, hypothesis: string, alnum: char -> bool, round: real -> real)
    ensures var m := PunctuationMetrics(reference, hypothesis, alnum, round);
      && m.totalReference == CountIn(reference, CountMarks)
      && m.totalHypothesis == CountIn(hypothesis, CountMarks)
      && m.difference == m.totalHypothesis - m.totalReference
  {
    TotalIsMarkedChars(reference);
    TotalIsMarkedChars(hypothesis);
  }

  /** The context match accuracy lies in [0, 100], is 0 when the reference yields no pair,
      and is 100 exactly when the reference has a context and every reference context has
      the same mark list in the hypothesis. */
  lemma ContextMatchRange(reference: string, hypothesis: string, alnum: char -> bool)
    ensures 0.0 <= ContextMatch(reference, hypothesis, alnum) <= 100.0
    ensures ContextPairs(reference, DefaultContextWords, alnum) == [] ==> ContextMatch(reference, hypothesis, alnum) == 0.0
    ensures var refDict, hypDict := ContextDict(reference, alnum), ContextDict(hypothesis, alnum);
      ContextMatch(reference, hypothesis, alnum) == 100.0 <==>
        refDict.keys != [] && forall j :: 0 <= j < |refDict.keys| ==> Agrees(refDict.keys[j], refDict.marks, hypDict.marks)
  {
    var refDict, hypDict := ContextDict(reference, alnum), ContextDict(hypothesis, alnum);
    MatchesBound(refDict.keys, refDict.marks, hypDict.marks);
    ContextAccuracyRange(Matches(refDict.keys, refDict.marks, hypDict.marks), |refDict.keys|);
  }

  /** The dict has a key exactly when there is a pair. */
  lemma GroupEmpty(pairs: seq<PunctContext>)
    ensures Group(pairs).keys == [] <==> pairs == []
  {
    GroupMeaning(pairs);
    if pairs != [] {
      assert pairs[0].context in Group(pairs).marks;
    }
  }

  /** A text compared with itself: no difference in totals, every mark scores 100 before
      rounding, and the composite is 100 when the text yields a (context, mark) pair and 30
      when it yields none. */
  lemma IdenticalTexts(text: string, alnum: char -> bool, round: real -> real)
    ensures var m := PunctuationMetrics(text, text, alnum, round);
      var full := ContextPairs(text, DefaultContextWords, alnum) != [];
      && m.difference == 0
      && m.referencePercent == m.hypothesisPercent
      && (forall c :: c in m.markAccuracy ==> m.markAccuracy[c].countAccuracy == round(100.0))
      && m.contextMatchAccuracy == round(if full then 100.0 else 0.0)
      && m.overallScore == round(if full then 100.0 else 30.0)
  {
    var d := ContextDict(text, alnum);
    var pairs := ContextPairs(text, DefaultContextWords, alnum);
    GroupMeaning(pairs);
    GroupEmpty(pairs);
    MatchesBound(d.keys, d.marks, d.marks);
    var ctx := ContextMatch(text, text, alnum);
    ContextAccuracyRange(|d.keys|, |d.keys|);
    assert ctx == (if pairs != [] then 100.0 else 0.0);
    ScoreFacts(ctx, TextDensity(text), TextDensity(text));
    forall c | c in MarkAccuracyMap(MarkCounts(text), MarkCounts(text), round)
      ensures MarkAccuracyMap(MarkCounts(text), MarkCounts(text), round)[c].countAccuracy == round(100.0)
    {
      CountAccuracyFacts(Get(MarkCounts(text), c), Get(MarkCounts(text), c));
    }
  }

  // ---------------------------------------------------------------------------------------
  // The score ranking of `main`

  /** One entry of `results`. */
  datatype PunctuationResult = PunctuationResult(runId: string, provider: string, model: string, metrics: Metrics)

  /** The sort key of line 240. */
  function OverallScore(r: PunctuationResult): real
  {
    r.metrics.overallScore
  }

  /** Lines 240-247: the results by descending overall score, numbered from 1. */
  method PunctuationRankings(results: seq<PunctuationResult>) returns (rows: seq<Ranked<PunctuationResult>>)
    ensures |rows| == |results|
    ensures forall i :: 0 <= i < |rows| ==> rows[i].rank == i + 1
    ensures multiset(Items(rows)) == multiset(results)
    ensures Ordered(Items(rows), OverallScore, true)
    ensures KeepsTies(results, Items(rows), OverallScore)
  {
    rows := RankRows(results, OverallScore, true);
  }
}
