/**
 * The Python string built-ins the worker-ID derivation relies on:
 * `str.isspace`, `str.upper`, `str.strip()`, `str.split()` without
 * arguments and the slice `s[:n]`.
 */
module PyText {

  /** The characters Python's `str.isspace` accepts, which are the ones
      `strip()` removes and `split()` splits on. */
  predicate IsSpace(c: char) {
    || c == ' '
    || ('\t' <= c <= '\r')
    || ('\U{1C}' <= c <= '\U{1F}')
    || c == '\U{85}' || c == '\U{A0}' || c == '\U{1680}'
    || ('\U{2000}' <= c <= '\U{200A}')
    || c == '\U{2028}' || c == '\U{2029}' || c == '\U{202F}'
    || c == '\U{205F}' || c == '\U{3000}'
  }

  predicate AllSpace(s: string) {
    forall i :: 0 <= i < |s| ==> IsSpace(s[i])
  }

  predicate NoSpace(s: string) {
    forall i :: 0 <= i < |s| ==> !IsSpace(s[i])
  }

  /** Upper-casing of one character, for ASCII and Latin-1 letters. */
  function UpperChar(c: char): char {
    if 'a' <= c <= 'z' then (c as int - 32) as char
    else if '\U{E0}' <= c <= '\U{FE}' && c != '\U{F7}' then (c as int - 32) as char
    else if c == '\U{FF}' then '\U{178}'
    else c
  }

  function Upper(s: string): (r: string)
    ensures |r| == |s|
    ensures forall i :: 0 <= i < |s| ==> r[i] == UpperChar(s[i])
  {
    if s == [] then [] else Upper(s[..|s| - 1]) + [UpperChar(s[|s| - 1])]
  }

  /** A string that upper-casing leaves as it is. */
  predicate IsUpper(s: string) {
    forall i :: 0 <= i < |s| ==> UpperChar(s[i]) == s[i]
  }

  /** Python's `s[:n]`. */
  function Take(s: string, n: nat): (r: string)
    ensures |r| == if |s| < n then |s| else n
    ensures r == s[..|r|]
  {
    if |s| <= n then s else s[..n]
  }

  /** The first index at or after `k` that is not whitespace, or `|s|`. */
  function SkipSpace(s: string, k: nat): (j: nat)
    requires k <= |s|
    ensures k <= j <= |s|
    ensures forall i :: k <= i < j ==> IsSpace(s[i])
    ensures j < |s| ==> !IsSpace(s[j])
    decreases |s| - k
  {
    if k < |s| && IsSpace(s[k]) then SkipSpace(s, k + 1) else k
  }

  /** The first index at or after `k` that is whitespace, or `|s|`. */
  function SkipWord(s: string, k: nat): (j: nat)
    requires k <= |s|
    ensures k <= j <= |s|
    ensures forall i :: k <= i < j ==> !IsSpace(s[i])
    ensures j < |s| ==> IsSpace(s[j])
    decreases |s| - k
  {
    if k < |s| && !IsSpace(s[k]) then SkipWord(s, k + 1) else k
  }

  /** The end of `s[..k]` once its trailing whitespace is dropped. */
  function SkipSpaceBack(s: string, k: nat): (j: nat)
    requires k <= |s|
    ensures j <= k
    ensures forall i :: j <= i < k ==> IsSpace(s[i])
    ensures j > 0 ==> !IsSpace(s[j - 1])
    decreases k
  {
    if k > 0 && IsSpace(s[k - 1]) then SkipSpaceBack(s, k - 1) else k
  }

  /** `s.lstrip()`: the suffix of `s` left after its leading whitespace. */
  function TrimLeft(s: string): (r: string)
    ensures |r| <= |s| && r == s[|s| - |r|..]
    ensures AllSpace(s[..|s| - |r|])
    ensures r == [] || !IsSpace(r[0])
  {
    s[SkipSpace(s, 0)..]
  }

  /** `s.rstrip()`: the prefix of `s` left before its trailing whitespace. */
  function TrimRight(s: string): (r: string)
    ensures |r| <= |s| && r == s[..|r|]
    ensures AllSpace(s[|r|..])
    ensures r == [] || !IsSpace(r[|r| - 1])
  {
    s[..SkipSpaceBack(s, |s|)]
  }

  /** `s.strip()`. */
  function Strip(s: string): string {
    TrimRight(TrimLeft(s))
  }

  /** `s.split()`: the maximal runs of non-whitespace characters, in order. */
  function Words(s: string): (ws: seq<string>)
    ensures forall i :: 0 <= i < |ws| ==> ws[i] != [] && NoSpace(ws[i])
  {
    WordsFrom(s, 0)
  }

  /** The words of `s[k..]`. */
  function WordsFrom(s: string, k: nat): (ws: seq<string>)
    requires k <= |s|
    ensures forall i :: 0 <= i < |ws| ==> ws[i] != [] && NoSpace(ws[i])
    decreases |s| - k
  {
    var i := SkipSpace(s, k);
    if i == |s| then []
    else
      var j := SkipWord(s, i);
      [s[i..j]] + WordsFrom(s, j)
  }

  /** `" ".join(ws)`. */
  function Join(ws: seq<string>): string {
    if |ws| == 0 then []
    else if |ws| == 1 then ws[0]
    else ws[0] + " " + Join(ws[1..])
  }

  // ----- upper-casing -----

  lemma {:induction false} UpperIdempotent(s: string)
    ensures Upper(Upper(s)) == Upper(s) && IsUpper(Upper(s))
  {
    var u := Upper(s);
    forall i | 0 <= i < |u| ensures UpperChar(u[i]) == u[i] {
      UpperCharIdempotent(s[i]);
    }
    UpperOfUpper(u);
  }

  lemma UpperCharIdempotent(c: char)
    ensures UpperChar(UpperChar(c)) == UpperChar(c)
  {
  }

  lemma {:induction false} UpperKeepsSpace(s: string)
    ensures forall i :: 0 <= i < |s| ==> (IsSpace(Upper(s)[i]) <==> IsSpace(s[i]))
  {
  }

  lemma {:induction false} UpperOfUpper(s: string)
    requires IsUpper(s)
    ensures Upper(s) == s
  {
  }

  lemma {:induction false} UpperAppend(a: string, b: string)
    ensures Upper(a + b) == Upper(a) + Upper(b)
  {
    var l := Upper(a + b);
    var r := Upper(a) + Upper(b);
    forall i | 0 <= i < |l| ensures l[i] == r[i] {
      if i < |a| {
        assert (a + b)[i] == a[i];
      } else {
        assert (a + b)[i] == b[i - |a|];
      }
    }
  }

  /** Slices and words of an upper-case string are upper-case. */
  lemma {:induction false} UpperTake(s: string, n: nat)
    requires IsUpper(s)
    ensures IsUpper(Take(s, n))
  {
  }

  lemma {:induction false} WordsOfUpper(s: string)
    requires IsUpper(s)
    ensures forall i :: 0 <= i < |Words(s)| ==> IsUpper(Words(s)[i])
  {
    WordsFromUpper(s, 0);
  }

  lemma {:induction false} WordsFromUpper(s: string, k: nat)
    requires IsUpper(s) && k <= |s|
    ensures forall i :: 0 <= i < |WordsFrom(s, k)| ==> IsUpper(WordsFrom(s, k)[i])
    decreases |s| - k
  {
    var i := SkipSpace(s, k);
    if i < |s| {
      var j := SkipWord(s, i);
      var w := s[i..j];
      assert IsUpper(w) by {
        forall x | 0 <= x < |w| ensures UpperChar(w[x]) == w[x] {
          assert w[x] == s[i + x];
        }
      }
      WordsFromUpper(s, j);
      var ws := WordsFrom(s, k);
      assert ws == [w] + WordsFrom(s, j);
      forall x | 0 <= x < |ws| ensures IsUpper(ws[x]) {
        if x > 0 {
          assert ws[x] == WordsFrom(s, j)[x - 1];
        }
      }
    }
  }

  // ----- strip -----

  lemma {:induction false} StripOfUpper(s: string)
    requires IsUpper(s)
    ensures IsUpper(Strip(s))
  {
    var t := TrimLeft(s);
    assert IsUpper(t) by {
      forall i | 0 <= i < |t| ensures UpperChar(t[i]) == t[i] {
        assert t[i] == s[|s| - |t| + i];
      }
    }
    var r := TrimRight(t);
    assert IsUpper(r) by {
      forall i | 0 <= i < |r| ensures UpperChar(r[i]) == r[i] {
        assert r[i] == t[i];
      }
    }
  }

  /** `s.strip()` keeps every word of `s`: `s.strip().split() == s.split()`. */
  lemma {:induction false} WordsOfStrip(s: string)
    ensures Words(Strip(s)) == Words(s)
  {
    var t := TrimLeft(s);
    SplitAt(s, |s| - |t|);
    WordsAfterLeadingSpace(s[..|s| - |t|], t);
    var r := TrimRight(t);
    SplitAt(t, |r|);
    WordsBeforeTrailingSpace(r, t[|r|..]);
  }

  lemma SplitAt<T>(s: seq<T>, k: nat)
    requires k <= |s|
    ensures s == s[..k] + s[k..]
  {
  }

  // ----- the three scans, pinned down by their contracts -----

  lemma SkipSpaceIs(s: string, k: nat, j: nat)
    requires k <= j <= |s|
    requires forall i :: k <= i < j ==> IsSpace(s[i])
    requires j < |s| ==> !IsSpace(s[j])
    ensures SkipSpace(s, k) == j
  {
  }

  lemma SkipWordIs(s: string, k: nat, j: nat)
    requires k <= j <= |s|
    requires forall i :: k <= i < j ==> !IsSpace(s[i])
    requires j < |s| ==> IsSpace(s[j])
    ensures SkipWord(s, k) == j
  {
  }

  lemma SkipSpaceBackIs(s: string, k: nat, j: nat)
    requires j <= k <= |s|
    requires forall i :: j <= i < k ==> IsSpace(s[i])
    requires j > 0 ==> !IsSpace(s[j - 1])
    ensures SkipSpaceBack(s, k) == j
  {
  }

  // ----- words -----

  /** `s[k..]` and `t[m..]` are the same text. */
  predicate SameFrom(s: string, k: nat, t: string, m: nat) {
    && k <= |s| && m <= |t| && |s| - k == |t| - m
    && forall x :: k <= x < |s| ==> s[x] == t[x - k + m]
  }

  lemma {:induction false} SameFromLater(s: string, k: nat, t: string, m: nat, e: nat)
    requires SameFrom(s, k, t, m) && e <= |s| - k
    ensures SameFrom(s, k + e, t, m + e)
  {
  }

  lemma {:induction false} SkipSpaceShift(s: string, k: nat, t: string, m: nat)
    requires SameFrom(s, k, t, m)
    ensures SkipSpace(t, m) == SkipSpace(s, k) - k + m
  {
    var d := SkipSpace(s, k) - k;
    forall y | m <= y < m + d ensures IsSpace(t[y]) {
      assert s[y - m + k] == t[y];
    }
    if m + d < |t| {
      assert s[k + d] == t[m + d];
    }
    SkipSpaceIs(t, m, m + d);
  }

  lemma {:induction false} SkipWordShift(s: string, k: nat, t: string, m: nat)
    requires SameFrom(s, k, t, m)
    ensures SkipWord(t, m) == SkipWord(s, k) - k + m
  {
    var d := SkipWord(s, k) - k;
    forall y | m <= y < m + d ensures !IsSpace(t[y]) {
      assert s[y - m + k] == t[y];
    }
    if m + d < |t| {
      assert s[k + d] == t[m + d];
    }
    SkipWordIs(t, m, m + d);
  }

  lemma {:induction false} SliceShift(s: string, k: nat, t: string, m: nat, a: nat, b: nat)
    requires SameFrom(s, k, t, m) && k <= a <= b <= |s|
    ensures s[a..b] == t[a - k + m..b - k + m]
  {
    forall x | 0 <= x < b - a ensures s[a..b][x] == t[a - k + m..b - k + m][x] {
      assert s[a + x] == t[a + x - k + m];
    }
  }

  /** `split()` finds no word exactly in an all-whitespace string. */
  lemma {:induction false} NoWords(s: string)
    ensures Words(s) == [] <==> AllSpace(s)
  {
    NoWordsFrom(s, 0);
  }

  /** `s[k..]` has no words exactly when it is all whitespace. */
  lemma {:induction false} NoWordsFrom(s: string, k: nat)
    requires k <= |s|
    ensures WordsFrom(s, k) == [] <==> forall i :: k <= i < |s| ==> IsSpace(s[i])
  {
  }

  /** One step of `WordsFrom` from a position before a word. */
  lemma {:induction false} WordsFromStep(s: string, k: nat)
    requires k <= |s| && SkipSpace(s, k) < |s|
    ensures var i := SkipSpace(s, k);
      WordsFrom(s, k) == [s[i..SkipWord(s, i)]] + WordsFrom(s, SkipWord(s, i))
  {
  }

  /** The words of `s[k..]` depend on nothing else of `s`. */
  lemma {:induction false} WordsShift(s: string, k: nat, t: string, m: nat)
    requires SameFrom(s, k, t, m)
    ensures WordsFrom(s, k) == WordsFrom(t, m)
    decreases |s| - k
  {
    var i := SkipSpace(s, k);
    SkipSpaceShift(s, k, t, m);
    if i < |s| {
      var i' := SkipSpace(t, m);
      SameFromLater(s, k, t, m, i - k);
      var j := SkipWord(s, i);
      SkipWordShift(s, i, t, i');
      var j' := SkipWord(t, i');
      SliceShift(s, k, t, m, i, j);
      assert s[i..j] == t[i'..j'];
      SameFromLater(s, k, t, m, j - k);
      WordsShift(s, j, t, j');
      WordsFromStep(s, k);
      WordsFromStep(t, m);
    }
  }

  /** Whitespace before position `j` is skipped. */
  lemma {:induction false} WordsSkip(s: string, k: nat, j: nat)
    requires k <= j <= |s|
    requires forall i :: k <= i < j ==> IsSpace(s[i])
    ensures WordsFrom(s, k) == WordsFrom(s, j)
  {
    var i := SkipSpace(s, j);
    SkipSpaceIs(s, k, i);
  }

  lemma {:induction false} WordsAfterLeadingSpace(p: string, s: string)
    requires AllSpace(p)
    ensures Words(p + s) == Words(s)
  {
    WordsSkip(p + s, 0, |p|);
    WordsShift(p + s, |p|, s, 0);
  }

  lemma {:induction false} WordsBeforeTrailingSpace(s: string, q: string)
    requires AllSpace(q)
    ensures Words(s + q) == Words(s)
  {
    WordsPadRight(s, q, 0);
  }

  lemma {:induction false} WordsPadRight(s: string, q: string, k: nat)
    requires AllSpace(q) && k <= |s|
    ensures WordsFrom(s + q, k) == WordsFrom(s, k)
    decreases |s| - k
  {
    var x := s + q;
    var i := SkipSpace(s, k);
    if i < |s| {
      SkipSpaceIs(x, k, i);
      var j := SkipWord(s, i);
      SkipWordIs(x, i, j);
      assert x[i..j] == s[i..j];
      WordsPadRight(s, q, j);
    } else {
      SkipSpaceIs(x, k, |x|);
    }
  }

  /** `split()` cuts at every whitespace character: the words on either
      side of it are kept apart, in order. With `Words([]) == []` and
      `WordsSingle` this fixes `split()` on every input. */
  lemma {:induction false} WordsAtSpace(a: string, c: char, b: string)
    requires IsSpace(c)
    ensures Words(a + [c] + b) == Words(a) + Words(b)
  {
    WordsFromAtSpace(a, c, b, 0);
  }

  lemma {:induction false} WordsFromAtSpace(a: string, c: char, b: string, k: nat)
    requires IsSpace(c) && k <= |a|
    ensures WordsFrom(a + [c] + b, k) == WordsFrom(a, k) + Words(b)
    decreases |a| - k
  {
    if SkipSpace(a, k) < |a| {
      WordsFromAtSpace(a, c, b, SkipWord(a, SkipSpace(a, k)));
      WordAtSpaceStep(a, c, b, k);
    } else {
      NoWordBeforeSpace(a, c, b, k);
    }
  }

  /** The inductive step of `WordsFromAtSpace`: its next word, then the
      rest as the hypothesis gives it. */
  lemma {:induction false} WordAtSpaceStep(a: string, c: char, b: string, k: nat)
    requires IsSpace(c) && k <= |a| && SkipSpace(a, k) < |a|
    requires var j := SkipWord(a, SkipSpace(a, k));
      WordsFrom(a + [c] + b, j) == WordsFrom(a, j) + Words(b)
    ensures WordsFrom(a + [c] + b, k) == WordsFrom(a, k) + Words(b)
  {
    var i := SkipSpace(a, k);
    var j := SkipWord(a, i);
    WordBeforeSpace(a, c, b, k);
    WordsFromStep(a, k);
    ConsAppend(WordsFrom(a + [c] + b, k), WordsFrom(a, k), a[i..j],
               WordsFrom(a + [c] + b, j), WordsFrom(a, j), Words(b));
  }

  lemma ConsAppend<T>(x: seq<T>, y: seq<T>, w: T, xs: seq<T>, ys: seq<T>, zs: seq<T>)
    requires x == [w] + xs && y == [w] + ys && xs == ys + zs
    ensures x == y + zs
  {
    assert [w] + (ys + zs) == ([w] + ys) + zs;
  }

  /** The next word of `a` is the next word of `a + [c] + b`. */
  lemma {:induction false} WordBeforeSpace(a: string, c: char, b: string, k: nat)
    requires IsSpace(c) && k <= |a| && SkipSpace(a, k) < |a|
    ensures var i := SkipSpace(a, k);
      var j := SkipWord(a, i);
      WordsFrom(a + [c] + b, k) == [a[i..j]] + WordsFrom(a + [c] + b, j)
  {
    var x := a + [c] + b;
    assert forall y :: 0 <= y < |a| ==> x[y] == a[y];
    assert x[|a|] == c;
    var i := SkipSpace(a, k);
    SkipSpaceIs(x, k, i);
    var j := SkipWord(a, i);
    SkipWordIs(x, i, j);
    assert x[i..j] == a[i..j];
    WordsFromStep(x, k);
  }

  /** With only whitespace left in `a`, the words are those of `b`. */
  lemma {:induction false} NoWordBeforeSpace(a: string, c: char, b: string, k: nat)
    requires IsSpace(c) && k <= |a| && SkipSpace(a, k) == |a|
    ensures WordsFrom(a + [c] + b, k) == Words(b)
  {
    var x := a + [c] + b;
    forall y | k <= y < |a| + 1 ensures IsSpace(x[y]) {
      if y < |a| {
        assert x[y] == a[y];
      } else {
        assert x[y] == c;
      }
    }
    WordsSkip(x, k, |a| + 1);
    assert SameFrom(x, |a| + 1, b, 0) by {
      forall y | |a| + 1 <= y < |x| ensures x[y] == b[y - (|a| + 1)] {
      }
    }
    WordsShift(x, |a| + 1, b, 0);
  }

  lemma {:induction false} WordsAllSpace(s: string)
    requires AllSpace(s)
    ensures Words(s) == []
  {
    SkipSpaceIs(s, 0, |s|);
  }

  /** A non-empty run without whitespace is one word. */
  lemma {:induction false} WordsSingle(s: string)
    requires s != [] && NoSpace(s)
    ensures Words(s) == [s]
  {
    SkipSpaceIs(s, 0, 0);
    SkipWordIs(s, 0, |s|);
    assert WordsFrom(s, |s|) == [];
    assert s[0..|s|] == s;
    assert Words(s) == [s[0..|s|]] + WordsFrom(s, |s|);
  }

  // ----- strip -----

  lemma {:induction false} TrimLeftSpaces(p: string, s: string)
    requires AllSpace(p)
    ensures TrimLeft(p + s) == TrimLeft(s)
  {
    var x := p + s;
    var i := SkipSpace(s, 0);
    SkipSpaceIs(x, 0, |p| + i);
    assert x[|p| + i..] == s[i..];
  }

  lemma {:induction false} TrimLeftAppend(s: string, q: string)
    requires !AllSpace(s)
    ensures TrimLeft(s + q) == TrimLeft(s) + q
  {
    var x := s + q;
    var i := SkipSpace(s, 0);
    SkipSpaceIs(x, 0, i);
    assert x[i..] == s[i..] + q;
  }

  lemma {:induction false} TrimRightSpaces(s: string, q: string)
    requires AllSpace(q)
    ensures TrimRight(s + q) == TrimRight(s)
  {
    var x := s + q;
    var j := SkipSpaceBack(s, |s|);
    SkipSpaceBackIs(x, |x|, j);
    assert x[..j] == s[..j];
  }

  /** `strip()` ignores whatever whitespace surrounds its argument. */
  lemma {:induction false} StripPadded(p: string, s: string, q: string)
    requires AllSpace(p) && AllSpace(q)
    ensures Strip(p + s + q) == Strip(s)
  {
    assert p + s + q == p + (s + q);
    TrimLeftSpaces(p, s + q);
    if AllSpace(s) {
      assert AllSpace(s + q);
      TrimLeftAllSpace(s + q);
      TrimLeftAllSpace(s);
    } else {
      TrimLeftAppend(s, q);
      TrimRightSpaces(TrimLeft(s), q);
    }
  }

  /** A string that neither starts nor ends with whitespace is already
      stripped. */
  lemma StripTrimmed(s: string)
    requires s != [] ==> !IsSpace(s[0]) && !IsSpace(s[|s| - 1])
    ensures Strip(s) == s
  {
    SkipSpaceIs(s, 0, 0);
    assert TrimLeft(s) == s;
    SkipSpaceBackIs(s, |s|, |s|);
  }

  lemma {:induction false} TrimLeftAllSpace(s: string)
    requires AllSpace(s)
    ensures TrimLeft(s) == []
  {
    SkipSpaceIs(s, 0, |s|);
  }

  /** `" ".join(ws).split() == ws` for words without whitespace. */
  lemma {:induction false} JoinRoundTrip(ws: seq<string>)
    requires forall i :: 0 <= i < |ws| ==> ws[i] != [] && NoSpace(ws[i])
    ensures Words(Join(ws)) == ws
  {
    if |ws| == 1 {
      WordsSingle(ws[0]);
    } else if |ws| > 1 {
      JoinRoundTrip(ws[1..]);
      WordsCons(ws[0], Join(ws[1..]));
      assert Join(ws) == ws[0] + [' '] + Join(ws[1..]);
      assert ws == [ws[0]] + ws[1..];
    }
  }

  /** A word, a space, then the rest: the word comes first. */
  lemma {:induction false} WordsCons(w: string, r: string)
    requires w != [] && NoSpace(w)
    ensures Words(w + [' '] + r) == [w] + Words(r)
  {
    WordsAtSpace(w, ' ', r);
    WordsSingle(w);
  }
}
