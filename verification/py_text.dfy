/**
  The few pieces of Python's `str` the dispatcher relies on: what counts as
  whitespace, `strip()`, `split()` with no separator, and `' '.join(...)`.
  Strings are sequences of code points, as Python 3 `str` values are.
 */
module PyText {

  /** `str.isspace()` on one character: the 29 code points CPython treats as
      whitespace. `strip()` and `split()` without arguments use the same set. */
  predicate IsSpace(c: char) {
    || c == ' '
    || ('\t' <= c <= '\r')
    || ('\U{1C}' <= c <= '\U{1F}')
    || c == '\U{85}'
    || c == '\U{A0}'
    || c == '\U{1680}'
    || ('\U{2000}' <= c <= '\U{200A}')
    || c == '\U{2028}'
    || c == '\U{2029}'
    || c == '\U{202F}'
    || c == '\U{205F}'
    || c == '\U{3000}'
  }

  predicate AllSpace(s: string) {
    forall k :: 0 <= k < |s| ==> IsSpace(s[k])
  }

  /** A word as `split()` yields it: non-empty, no whitespace inside. */
  predicate IsWord(w: string) {
    w != [] && forall k :: 0 <= k < |w| ==> !IsSpace(w[k])
  }

  predicate AllWords(ws: seq<string>) {
    forall i :: 0 <= i < |ws| ==> IsWord(ws[i])
  }

  /** The characters of `s` that are not whitespace, in order. */
  function Visible(s: string): (r: string)
    ensures |r| <= |s|
    ensures forall k :: 0 <= k < |r| ==> !IsSpace(r[k])
  {
    if s == [] then []
    else if IsSpace(s[0]) then Visible(s[1..])
    else [s[0]] + Visible(s[1..])
  }

  function Concat(ws: seq<string>): string {
    if ws == [] then [] else ws[0] + Concat(ws[1..])
  }

  /** Number of whitespace characters at the start of `s`. */
  function LeadingSpace(s: string): (n: nat)
    ensures n <= |s|
    ensures forall k :: 0 <= k < n ==> IsSpace(s[k])
    ensures n < |s| ==> !IsSpace(s[n])
  {
    if s == [] || !IsSpace(s[0]) then 0 else 1 + LeadingSpace(s[1..])
  }

  /** Length of `s` without its trailing whitespace. */
  function TextEnd(s: string): (n: nat)
    ensures n <= |s|
    ensures forall k :: n <= k < |s| ==> IsSpace(s[k])
    ensures n > 0 ==> !IsSpace(s[n - 1])
  {
    if s == [] || !IsSpace(s[|s| - 1]) then |s| else TextEnd(s[..|s| - 1])
  }

  /** `r` is `s` with its leading and trailing whitespace removed: the slice
      of `s` starting at `i`, framed by whitespace only, and neither end of
      which is whitespace. */
  predicate TrimmedAt(s: string, r: string, i: nat) {
    && i + |r| <= |s|
    && s[i..i + |r|] == r
    && AllSpace(s[..i])
    && AllSpace(s[i + |r|..])
    && (r == [] || (!IsSpace(r[0]) && !IsSpace(r[|r| - 1])))
  }

  ghost predicate Trimmed(s: string, r: string) {
    exists i: nat :: TrimmedAt(s, r, i)
  }

  /** `s.strip()` */
  function Strip(s: string): (r: string)
    ensures Trimmed(s, r)
    ensures r == [] <==> AllSpace(s)
  {
    var i := LeadingSpace(s);
    var t := s[i..];
    var j := TextEnd(t);
    StripTrimmed(s, i, t, j);
    t[..j]
  }

  /** Length of the run of non-whitespace characters that starts `t`. */
  function WordEnd(t: string): (n: nat)
    ensures n <= |t|
    ensures forall k :: 0 <= k < n ==> !IsSpace(t[k])
    ensures n < |t| ==> IsSpace(t[n])
  {
    if t == [] || IsSpace(t[0]) then 0 else 1 + WordEnd(t[1..])
  }

  /** `s.split()`: the maximal runs of non-whitespace characters, in order. */
  function Split(s: string): seq<string>
    decreases |s|
  {
    var i := LeadingSpace(s);
    if i == |s| then []
    else
      var n := WordEnd(s[i..]);
      FirstWord(s, i, n);
      [s[i..i + n]] + Split(s[i + n..])
  }

  /** Every piece `split()` returns is a word. */
  lemma {:induction false} SplitWords(s: string)
    ensures AllWords(Split(s))
    decreases |s|
  {
    var i := LeadingSpace(s);
    if i < |s| {
      var n := WordEnd(s[i..]);
      FirstWord(s, i, n);
      SplitWords(s[i + n..]);
      SplitUnfold(s, i, n);
      AllWordsCons(s[i..i + n], Split(s[i + n..]));
    } else {
      SplitNone(s);
    }
  }

  lemma AllWordsCons(w: string, ws: seq<string>)
    requires IsWord(w) && AllWords(ws)
    ensures AllWords([w] + ws)
  {
    forall j | 0 <= j < |[w] + ws|
      ensures IsWord(([w] + ws)[j])
    {
      if j > 0 {
        assert ([w] + ws)[j] == ws[j - 1];
      }
    }
  }

  /** The word `split()` finds first. */
  lemma FirstWord(s: string, i: nat, n: nat)
    requires i == LeadingSpace(s) < |s|
    requires n == WordEnd(s[i..])
    ensures 0 < n && i + n <= |s|
    ensures IsWord(s[i..i + n])
  {
    var w := s[i..i + n];
    forall k | 0 <= k < |w|
      ensures !IsSpace(w[k])
    {
      assert w[k] == s[i..][k];
    }
  }

  /** `' '.join(ws)` */
  function Join(ws: seq<string>): string {
    if ws == [] then []
    else if |ws| == 1 then ws[0]
    else ws[0] + " " + Join(ws[1..])
  }

  /* Facts about the definitions above. */

  /** The slice `Strip` returns, described by the whitespace around it. */
  lemma StripTrimmed(s: string, i: nat, t: string, j: nat)
    requires i <= |s| && t == s[i..]
    requires forall k :: 0 <= k < i ==> IsSpace(s[k])
    requires i < |s| ==> !IsSpace(s[i])
    requires j <= |t|
    requires forall k :: j <= k < |t| ==> IsSpace(t[k])
    requires j > 0 ==> !IsSpace(t[j - 1])
    ensures TrimmedAt(s, t[..j], i)
    ensures t[..j] == [] <==> AllSpace(s)
  {
    var r := t[..j];
    assert s[i..i + |r|] == r;
    var p, q := s[..i], t[j..];
    forall k | 0 <= k < |p|
      ensures IsSpace(p[k])
    {
      assert p[k] == s[k];
    }
    forall k | 0 <= k < |q|
      ensures IsSpace(q[k])
    {
      assert q[k] == t[j + k];
    }
    assert s[i + j..] == q;
    assert i < |s| ==> t[0] == s[i];
  }

  lemma DropAppend(s: string, x: string, k: nat)
    requires k <= |s|
    ensures (s + x)[k..] == s[k..] + x
  {
  }

  lemma SliceAppend(s: string, x: string, a: nat, b: nat)
    requires a <= b <= |s|
    ensures (s + x)[a..b] == s[a..b]
  {
  }

  /** Joining words gives the empty string only for no words, and otherwise a
      string that neither starts nor ends with whitespace. */
  lemma {:induction false} JoinShape(ws: seq<string>)
    requires AllWords(ws)
    ensures Join(ws) == [] <==> ws == []
    ensures ws != [] ==> !IsSpace(Join(ws)[0]) && !IsSpace(Join(ws)[|Join(ws)| - 1])
  {
    if |ws| > 1 {
      JoinShape(ws[1..]);
    }
  }

  /** `split()` finds words exactly when some character is not whitespace. */
  lemma SplitEmpty(s: string)
    ensures Split(s) == [] <==> AllSpace(s)
  {
    var i := LeadingSpace(s);
    if i < |s| {
      assert !IsSpace(s[i]);
    }
  }

  /** A word followed by whitespace (or nothing) ends exactly where the word does. */
  lemma WordEndOfWord(w: string, t: string)
    requires IsWord(w)
    requires t == [] || IsSpace(t[0])
    ensures WordEnd(w + t) == |w|
  {
    var m := WordEnd(w + t);
    assert |w| < |w + t| ==> (w + t)[|w|] == t[0];
  }

  /** Appending text after a word that is already cut off by whitespace, or
      appending whitespace, leaves the first word where it was. */
  lemma WordEndExtend(t: string, x: string)
    requires WordEnd(t) < |t| || x == [] || IsSpace(x[0])
    ensures WordEnd(t + x) == WordEnd(t)
  {
    var n, m := WordEnd(t), WordEnd(t + x);
    assert m <= n by {
      if n < |t| {
        assert (t + x)[n] == t[n];
      } else if x != [] {
        assert (t + x)[n] == x[0];
      } else {
        assert t + x == t;
      }
    }
  }

  /** Appending anything after a string that has a word keeps its leading whitespace. */
  lemma LeadingSpaceExtend(s: string, x: string)
    requires LeadingSpace(s) < |s|
    ensures LeadingSpace(s + x) == LeadingSpace(s)
  {
    var i, j := LeadingSpace(s), LeadingSpace(s + x);
    assert (s + x)[i] == s[i];
  }

  /** A whitespace character in front does not change the words. */
  lemma SplitSkipsSpace(c: char, s: string)
    requires IsSpace(c)
    ensures Split([c] + s) == Split(s)
  {
    assert ([c] + s)[1..] == s;
    SplitSkipFirst([c] + s);
  }

  /** Dropping a leading whitespace character does not change the words. */
  lemma SplitSkipFirst(u: string)
    requires u != [] && IsSpace(u[0])
    ensures Split(u) == Split(u[1..])
  {
    var s := u[1..];
    var i := LeadingSpace(s);
    assert LeadingSpace(u) == 1 + i;
    if i < |s| {
      var n := WordEnd(s[i..]);
      assert u[1 + i..] == s[i..];
      SplitSameStep(u, s, 1 + i, i, n);
    } else {
      SplitNone(s);
      SplitNone(u);
    }
  }

  /** Slicing a suffix is slicing the whole string, shifted. */
  lemma DropTake(s: string, a: nat, n: nat)
    requires a + n <= |s|
    ensures s[a..][..n] == s[a..a + n]
    ensures s[a..][n..] == s[a + n..]
  {
  }

  /** Two strings that differ only in their leading whitespace split alike. */
  lemma SplitSameStep(u: string, s: string, a: nat, b: nat, n: nat)
    requires a == LeadingSpace(u) < |u| && b == LeadingSpace(s) < |s|
    requires u[a..] == s[b..]
    requires n == WordEnd(s[b..])
    ensures Split(u) == Split(s)
  {
    DropTake(u, a, n);
    DropTake(s, b, n);
    SplitMatch(u, s, a, b, n, u[a + n..], s[b + n..]);
  }

  /** Two strings split alike when their first words agree and the text after
      those words splits alike. */
  lemma SplitMatch(u: string, s: string, a: nat, b: nat, n: nat, ur: string, sr: string)
    requires a == LeadingSpace(u) < |u| && b == LeadingSpace(s) < |s|
    requires n == WordEnd(u[a..]) && n == WordEnd(s[b..])
    requires u[a..a + n] == s[b..b + n]
    requires ur == u[a + n..] && sr == s[b + n..] && Split(ur) == Split(sr)
    ensures Split(u) == Split(s)
  {
    SplitUnfold(u, a, n);
    SplitUnfold(s, b, n);
  }

  /** Whitespace at the start does not change the words. */
  lemma {:induction false} SplitPrependSpaces(x: string, s: string)
    requires AllSpace(x)
    ensures Split(x + s) == Split(s)
    decreases |x|
  {
    if x != [] {
      assert x + s == [x[0]] + (x[1..] + s);
      SplitSkipsSpace(x[0], x[1..] + s);
      SplitPrependSpaces(x[1..], s);
    } else {
      assert x + s == s;
    }
  }

  /** A word followed by whitespace (or nothing) is the first word `split()` finds. */
  lemma SplitConsWord(w: string, t: string)
    requires IsWord(w)
    requires t == [] || IsSpace(t[0])
    ensures Split(w + t) == [w] + Split(t)
  {
    var s := w + t;
    assert s[0] == w[0];
    assert s[0..] == s;
    WordEndOfWord(w, t);
    assert s[0..|w|] == w;
    assert s[|w|..] == t;
  }

  /** Whitespace after a text with no words still gives no words. */
  lemma SplitAppendNoWords(s: string, x: string)
    requires AllSpace(x)
    requires LeadingSpace(s) == |s|
    ensures Split(s + x) == Split(s)
  {
    SplitEmpty(s);
    assert AllSpace(s + x) by {
      assert forall k :: 0 <= k < |s| ==> (s + x)[k] == s[k];
      assert forall k :: |s| <= k < |s + x| ==> (s + x)[k] == x[k - |s|];
    }
    SplitEmpty(s + x);
  }

  /** The step of `SplitAppendSpaces` past the first word. */
  lemma SplitAppendWord(s: string, x: string, i: nat, n: nat)
    requires i == LeadingSpace(s) < |s| && n == WordEnd(s[i..])
    requires LeadingSpace(s + x) == i && WordEnd((s + x)[i..]) == n
    requires Split(s[i + n..] + x) == Split(s[i + n..])
    ensures Split(s + x) == Split(s)
  {
    var u := s + x;
    assert u[i..i + n] == s[i..i + n] by {
      SliceAppend(s, x, i, i + n);
    }
    DropAppend(s, x, i + n);
    SplitMatch(u, s, i, i, n, s[i + n..] + x, s[i + n..]);
  }

  /** Whitespace at the end does not change the words. */
  lemma {:induction false} SplitAppendSpaces(s: string, x: string)
    requires AllSpace(x)
    ensures Split(s + x) == Split(s)
    decreases |s|
  {
    var i := LeadingSpace(s);
    if i == |s| {
      SplitAppendNoWords(s, x);
    } else {
      var n := WordEnd(s[i..]);
      FirstWord(s, i, n);
      SplitAppendSpaces(s[i + n..], x);
      assert WordEnd((s + x)[i..]) == n by {
        DropAppend(s, x, i);
        WordEndExtend(s[i..], x);
      }
      LeadingSpaceExtend(s, x);
      SplitAppendWord(s, x, i, n);
    }
  }

  /** `split()` undoes `' '.join(...)` on a sequence of words. */
  lemma {:induction false} SplitJoin(ws: seq<string>)
    requires AllWords(ws)
    ensures Split(Join(ws)) == ws
  {
    if |ws| == 1 {
      SplitConsWord(ws[0], []);
      assert ws[0] + [] == ws[0];
    } else if |ws| > 1 {
      var rest := Join(ws[1..]);
      var u := [' '] + rest;
      assert Join(ws) == ws[0] + u;
      assert Split(ws[0] + u) == [ws[0]] + Split(u) by {
        SplitConsWord(ws[0], u);
      }
      assert Split(u) == Split(rest) by {
        SplitSkipsSpace(' ', rest);
      }
      SplitJoin(ws[1..]);
      assert ws == [ws[0]] + ws[1..];
    }
  }

  lemma SplitDropLeading(s: string)
    ensures Split(s[LeadingSpace(s)..]) == Split(s)
  {
    var i := LeadingSpace(s);
    assert s == s[..i] + s[i..];
    SplitPrependSpaces(s[..i], s[i..]);
  }

  lemma SplitTakeText(t: string)
    ensures Split(t[..TextEnd(t)]) == Split(t)
  {
    var j := TextEnd(t);
    assert t == t[..j] + t[j..];
    SplitAppendSpaces(t[..j], t[j..]);
  }

  /** Stripping first does not change what `split()` finds. */
  lemma SplitStrip(s: string)
    ensures Split(Strip(s)) == Split(s)
  {
    SplitDropLeading(s);
    SplitTakeText(s[LeadingSpace(s)..]);
  }

  lemma {:induction false} VisibleAppend(a: string, b: string)
    ensures Visible(a + b) == Visible(a) + Visible(b)
    decreases |a|
  {
    if a != [] {
      assert (a + b)[1..] == a[1..] + b;
      VisibleAppend(a[1..], b);
    } else {
      assert a + b == b;
    }
  }

  lemma {:induction false} VisibleAllSpace(s: string)
    requires AllSpace(s)
    ensures Visible(s) == []
    decreases |s|
  {
    if s != [] {
      VisibleAllSpace(s[1..]);
    }
  }

  lemma {:induction false} VisibleWord(w: string)
    requires forall k :: 0 <= k < |w| ==> !IsSpace(w[k])
    ensures Visible(w) == w
    decreases |w|
  {
    if w != [] {
      VisibleWord(w[1..]);
      assert w == [w[0]] + w[1..];
    }
  }

  lemma SplitNone(s: string)
    requires LeadingSpace(s) == |s|
    ensures Split(s) == []
  {
  }

  /** One step of `split()`: the first word, then the words of the rest. */
  lemma SplitUnfold(s: string, i: nat, n: nat)
    requires i == LeadingSpace(s) < |s|
    requires n == WordEnd(s[i..])
    ensures Split(s) == [s[i..i + n]] + Split(s[i + n..])
  {
  }

  lemma ConcatCons(w: string, ws: seq<string>)
    ensures Concat([w] + ws) == w + Concat(ws)
  {
    assert ([w] + ws)[1..] == ws;
  }

  lemma VisibleSkipSpace(s: string, i: nat)
    requires i == LeadingSpace(s)
    ensures Visible(s) == Visible(s[i..])
  {
    assert s == s[..i] + s[i..];
    VisibleAppend(s[..i], s[i..]);
    VisibleAllSpace(s[..i]);
  }

  lemma VisibleFirstWord(t: string, n: nat)
    requires n == WordEnd(t)
    ensures Visible(t) == t[..n] + Visible(t[n..])
  {
    assert t == t[..n] + t[n..];
    VisibleAppend(t[..n], t[n..]);
    VisibleWord(t[..n]);
  }

  /** `split()` loses no character other than whitespace and adds none. */
  lemma {:induction false} SplitKeepsText(s: string)
    ensures Concat(Split(s)) == Visible(s)
    decreases |s|
  {
    var i := LeadingSpace(s);
    VisibleSkipSpace(s, i);
    if i < |s| {
      var t := s[i..];
      var n := WordEnd(t);
      VisibleFirstWord(t, n);
      assert t[..n] == s[i..i + n] && t[n..] == s[i + n..];
      SplitKeepsText(s[i + n..]);
      SplitUnfold(s, i, n);
      ConcatCons(s[i..i + n], Split(s[i + n..]));
    } else {
      assert s[i..] == [];
    }
  }

  /** `Trimmed` pins the result down: `Strip` is the only function meeting it. */
  lemma StripUnique(s: string, r: string)
    requires Trimmed(s, r)
    ensures r == Strip(s)
  {
    var i: nat :| TrimmedAt(s, r, i);
    var p := LeadingSpace(s);
    if r == [] {
      assert AllSpace(s) by {
        assert s == s[..i] + s[i..];
      }
    } else {
      assert forall k :: 0 <= k < i ==> s[k] == s[..i][k];
      assert s[i] == r[0];
      assert p == i;
      var t := s[i..];
      assert t[..|r|] == r;
      assert forall k :: |r| <= k < |t| ==> t[k] == s[i + |r|..][k - |r|];
      assert t[|r| - 1] == r[|r| - 1];
      assert TextEnd(t) == |r|;
    }
  }
}
