/**
  `escape_instructions` (plugins/smart-compact/scripts/auto-compact.py): turn
  the instruction text into a one-line argument for the `/compact` command by
  replacing newlines with spaces and then re-joining the whitespace-separated
  words with single spaces.
 */
module Sanitize {
  import opened PyText

  /** A one-line command argument: the only whitespace is the plain space,
      never two of them in a row, and none at either end. */
  predicate OneLine(r: string) {
    && (forall k :: 0 <= k < |r| && IsSpace(r[k]) ==> r[k] == ' ')
    && (forall k :: 0 <= k < |r| - 1 && r[k] == ' ' ==> r[k + 1] != ' ')
    && (r != [] ==> !IsSpace(r[0]) && !IsSpace(r[|r| - 1]))
  }

  /** `r` has whitespace exactly where `s` has, and the same text elsewhere. */
  predicate SameText(s: string, r: string) {
    && |r| == |s|
    && (forall k :: 0 <= k < |s| ==> (IsSpace(r[k]) <==> IsSpace(s[k])))
    && (forall k :: 0 <= k < |s| && !IsSpace(s[k]) ==> r[k] == s[k])
  }

  /** `instructions.replace('\n', ' ')`: each newline becomes a plain space
      and every other character, other whitespace included, is kept. */
  function ReplaceNewlines(s: string): (r: string)
    ensures '\n' !in r
    ensures SameText(s, r)
    ensures |r| == |s|
    ensures forall k :: 0 <= k < |s| && s[k] == '\n' ==> r[k] == ' '
    ensures forall k :: 0 <= k < |s| && s[k] != '\n' ==> r[k] == s[k]
  {
    seq(|s|, k requires 0 <= k < |s| => if s[k] == '\n' then ' ' else s[k])
  }

  /** `escape_instructions(instructions)` */
  function Escape(s: string): (r: string)
    ensures OneLine(r)
    ensures Split(r) == Split(s)
  {
    var ws := Split(ReplaceNewlines(s));
    SplitWords(ReplaceNewlines(s));
    SplitSameText(s, ReplaceNewlines(s));
    JoinOneLine(ws);
    SplitJoin(ws);
    Join(ws)
  }

  /* Lemmas about `split()` on strings with the same text. */

  lemma LeadingSpaceSameText(s: string, r: string)
    requires SameText(s, r)
    ensures LeadingSpace(r) == LeadingSpace(s)
  {
    var i, j := LeadingSpace(s), LeadingSpace(r);
    assert i < |s| ==> (IsSpace(r[i]) <==> IsSpace(s[i]));
    assert j < |s| ==> (IsSpace(r[j]) <==> IsSpace(s[j]));
  }

  lemma WordEndSameText(s: string, r: string)
    requires SameText(s, r)
    ensures WordEnd(r) == WordEnd(s)
  {
    var n, m := WordEnd(s), WordEnd(r);
    assert n < |s| ==> (IsSpace(r[n]) <==> IsSpace(s[n]));
    assert m < |s| ==> (IsSpace(r[m]) <==> IsSpace(s[m]));
  }

  lemma SameTextDrop(s: string, r: string, i: nat)
    requires SameText(s, r)
    requires i <= |s|
    ensures SameText(s[i..], r[i..])
  {
    assert forall k :: 0 <= k < |s| - i ==> s[i..][k] == s[i + k] && r[i..][k] == r[i + k];
  }

  lemma SameTextWord(s: string, r: string, i: nat, n: nat)
    requires SameText(s, r)
    requires i + n <= |s|
    requires forall k :: 0 <= k < n ==> !IsSpace(s[i..][k])
    ensures r[i..i + n] == s[i..i + n]
  {
    var a, b := r[i..i + n], s[i..i + n];
    forall k | 0 <= k < n
      ensures a[k] == b[k]
    {
      assert s[i..][k] == s[i + k];
    }
  }

  /** `split()` sees only where the whitespace is and what the other characters are. */
  lemma {:induction false} SplitSameText(s: string, r: string)
    requires SameText(s, r)
    ensures Split(r) == Split(s)
    decreases |s|
  {
    var i := LeadingSpace(s);
    LeadingSpaceSameText(s, r);
    if i < |s| {
      SameTextDrop(s, r, i);
      WordEndSameText(s[i..], r[i..]);
      var n := WordEnd(s[i..]);
      SameTextWord(s, r, i, n);
      SameTextDrop(s, r, i + n);
      SplitSameText(s[i + n..], r[i + n..]);
      SplitUnfold(s, i, n);
      SplitUnfold(r, i, n);
    }
  }

  /* Lemmas about the shape of `' '.join(...)`. */

  lemma OneLineWord(w: string)
    requires IsWord(w)
    ensures OneLine(w)
  {
  }

  lemma OneLineCons(w: string, rest: string)
    requires IsWord(w)
    requires OneLine(rest)
    requires rest != [] && !IsSpace(rest[0])
    ensures OneLine(w + " " + rest)
  {
    var r := w + " " + rest;
    forall k | 0 <= k < |r| && IsSpace(r[k])
      ensures r[k] == ' '
    {
      if k > |w| {
        assert r[k] == rest[k - |w| - 1];
      }
    }
    forall k | 0 <= k < |r| - 1 && r[k] == ' '
      ensures r[k + 1] != ' '
    {
      if k > |w| {
        assert r[k] == rest[k - |w| - 1] && r[k + 1] == rest[k - |w|];
      } else if k == |w| {
        assert r[k + 1] == rest[0];
      }
    }
    assert r[|r| - 1] == rest[|rest| - 1];
  }

  /** Words joined with single spaces make a one-line string. */
  lemma {:induction false} JoinOneLine(ws: seq<string>)
    requires AllWords(ws)
    ensures OneLine(Join(ws))
  {
    if |ws| == 1 {
      OneLineWord(ws[0]);
    } else if |ws| > 1 {
      JoinOneLine(ws[1..]);
      JoinShape(ws[1..]);
      OneLineCons(ws[0], Join(ws[1..]));
    }
  }

  lemma OneLineSuffix(s: string, i: nat)
    requires OneLine(s)
    requires i < |s| && !IsSpace(s[i])
    ensures OneLine(s[i..])
  {
    var t := s[i..];
    assert forall k :: 0 <= k < |t| ==> t[k] == s[i + k];
  }

  /** In a one-line string, a word that does not reach the end is followed by
      one space and then the next word. */
  lemma OneLineGap(s: string, n: nat)
    requires OneLine(s)
    requires n < |s| && IsSpace(s[n])
    ensures s[n] == ' '
    ensures n + 1 < |s| && !IsSpace(s[n + 1])
  {
  }

  lemma JoinSplitStep(s: string, n: nat, rest: string)
    requires LeadingSpace(s) == 0 < |s|
    requires n == WordEnd(s) < |s| && s[n] == ' '
    requires rest == s[n + 1..]
    requires Split(s[n..]) == Split(rest)
    requires Split(rest) != [] && Join(Split(rest)) == rest
    ensures Join(Split(s)) == s
  {
    SplitFirstWord(s, n, rest);
    JoinCons(s[..n], Split(rest));
    AroundSpace(s, n);
  }

  lemma AroundSpace(s: string, n: nat)
    requires n < |s| && s[n] == ' '
    ensures s == s[..n] + " " + s[n + 1..]
  {
  }

  lemma SplitFirstWord(s: string, n: nat, rest: string)
    requires LeadingSpace(s) == 0 < |s|
    requires n == WordEnd(s) < |s|
    requires Split(s[n..]) == Split(rest)
    ensures Split(s) == [s[..n]] + Split(rest)
  {
    assert s[0..] == s;
    assert s[0..n] == s[..n];
  }

  lemma JoinCons(w: string, ws: seq<string>)
    requires ws != []
    ensures Join([w] + ws) == w + " " + Join(ws)
  {
    assert ([w] + ws)[1..] == ws;
  }

  lemma JoinSplitWord(s: string)
    requires LeadingSpace(s) == 0 < |s|
    requires WordEnd(s) == |s|
    ensures Join(Split(s)) == s
  {
    assert s[0..] == s;
    assert s[0..|s|] == s;
    assert Split(s) == [s];
  }

  /** A one-line string is rebuilt exactly from its words. */
  lemma {:induction false} JoinSplitOneLine(s: string)
    requires OneLine(s)
    ensures Join(Split(s)) == s
    decreases |s|
  {
    if s != [] {
      assert LeadingSpace(s) == 0;
      assert s[0..] == s;
      var n := WordEnd(s);
      if n == |s| {
        JoinSplitWord(s);
      } else {
        OneLineGap(s, n);
        var rest := s[n + 1..];
        assert Join(Split(rest)) == rest by {
          OneLineSuffix(s, n + 1);
          JoinSplitOneLine(rest);
        }
        assert Split(s[n..]) == Split(rest) by {
          assert s[n..] == [' '] + rest;
          SplitSkipsSpace(' ', rest);
        }
        assert Split(rest) != [] by {
          SplitEmpty(rest);
          assert !IsSpace(rest[0]);
        }
        JoinSplitStep(s, n, rest);
      }
    }
  }

  lemma {:induction false} VisibleJoin(ws: seq<string>)
    requires AllWords(ws)
    ensures Visible(Join(ws)) == Concat(ws)
  {
    if |ws| == 1 {
      VisibleWord(ws[0]);
      assert Concat(ws) == ws[0] + Concat([]);
    } else if |ws| > 1 {
      VisibleJoin(ws[1..]);
      VisibleWord(ws[0]);
      VisibleAppend(ws[0], " " + Join(ws[1..]));
      VisibleAppend(" ", Join(ws[1..]));
      assert Visible(" ") == [];
      assert ws[0] + " " + Join(ws[1..]) == ws[0] + (" " + Join(ws[1..]));
    }
  }

  /* What `escape_instructions` guarantees. */

  /** The sanitised text is unchanged by a second pass. */
  lemma EscapeIdempotent(s: string)
    ensures Escape(Escape(s)) == Escape(s)
  {
    var r := Escape(s);
    JoinSplitOneLine(r);
    SplitSameText(r, ReplaceNewlines(r));
  }

  /** The fixed points of sanitising are exactly the one-line strings. */
  lemma EscapeFixedPoints(s: string)
    ensures Escape(s) == s <==> OneLine(s)
  {
    if OneLine(s) {
      JoinSplitOneLine(s);
      SplitSameText(s, ReplaceNewlines(s));
    }
  }

  /** The sanitised text is the only one-line string with the words of `s`:
      every run of whitespace between two words becomes a single space. */
  lemma EscapeUnique(s: string, r: string)
    requires OneLine(r) && Split(r) == Split(s)
    ensures r == Escape(s)
  {
    JoinSplitOneLine(r);
    JoinSplitOneLine(Escape(s));
  }

  /** Sanitising gives "" exactly when the text is nothing but whitespace. */
  lemma EscapeEmpty(s: string)
    ensures Escape(s) == [] <==> AllSpace(s)
  {
    var ws := Split(ReplaceNewlines(s));
    SplitWords(ReplaceNewlines(s));
    SplitSameText(s, ReplaceNewlines(s));
    JoinShape(ws);
    SplitEmpty(s);
  }

  /** Sanitising drops whitespace only: every other character survives, in order. */
  lemma EscapeKeepsText(s: string)
    ensures Visible(Escape(s)) == Visible(s)
  {
    var ws := Split(ReplaceNewlines(s));
    SplitWords(ReplaceNewlines(s));
    SplitSameText(s, ReplaceNewlines(s));
    VisibleJoin(ws);
    SplitKeepsText(s);
  }

  /** Stripping before sanitising, as `read_instructions` does, changes nothing. */
  lemma EscapeStrip(s: string)
    ensures Escape(Strip(s)) == Escape(s)
  {
    SplitStrip(s);
    SplitSameText(s, ReplaceNewlines(s));
    SplitSameText(Strip(s), ReplaceNewlines(Strip(s)));
  }
}
