/** The concrete tokenisations the Tetrad decoder relies on: Python's
    `str.split()`, `re.findall('\w*\w', s)` and `re.findall('\d*\d', s)`.
    All three return the maximal runs of characters of one class, left to
    right, so they are one function, `Runs`, over a character class. */
module Tokens {
  import opened Common

  /** `\d` restricted to ASCII decimal digits. */
  predicate IsDigit(c: char)
  {
    '0' <= c <= '9'
  }

  /** `\w` restricted to ASCII: letters, digits and underscore. */
  predicate IsWordChar(c: char)
  {
    'a' <= c <= 'z' || 'A' <= c <= 'Z' || IsDigit(c) || c == '_'
  }

  /** The characters Python's `str.isspace` accepts, which `str.split()` splits on. */
  predicate IsSpace(c: char)
  {
    c == ' ' || ('\t' <= c <= '\r') || ('\U{1C}' <= c <= '\U{1F}') ||
    c == '\U{85}' || c == '\U{A0}' || c == '\U{1680}' || ('\U{2000}' <= c <= '\U{200A}') ||
    c == '\U{2028}' || c == '\U{2029}' || c == '\U{202F}' || c == '\U{205F}' || c == '\U{3000}'
  }

  predicate NotSpace(c: char)
  {
    !IsSpace(c)
  }

  /** Length of the longest prefix of `s` made of characters of class `p`. */
  function RunLength(s: string, p: char -> bool): (k: nat)
    ensures k <= |s|
    ensures forall i :: 0 <= i < k ==> p(s[i])
    ensures k < |s| ==> !p(s[k])
  {
    if s == [] || !p(s[0]) then 0 else 1 + RunLength(s[1..], p)
  }

  /** The maximal runs of class-`p` characters of `s`, in order. */
  function Runs(s: string, p: char -> bool): (rs: seq<string>)
    ensures forall k :: 0 <= k < |rs| ==> |rs[k]| > 0
    ensures forall k, i :: 0 <= k < |rs| && 0 <= i < |rs[k]| ==> p(rs[k][i])
    decreases |s|
  {
    if s == [] then []
    else if !p(s[0]) then Runs(s[1..], p)
    else
      var k := RunLength(s, p);
      [s[..k]] + Runs(s[k..], p)
  }

  /** `str.split()`: the whitespace-separated fields of a line. */
  function Fields(line: string): seq<string>
  {
    Runs(line, NotSpace)
  }

  /** `re.findall('\w*\w', line)`: the word tokens of a line. */
  function Words(line: string): seq<string>
  {
    Runs(line, IsWordChar)
  }

  /** The characters of `s` that belong to class `p`, in order. */
  function Keep(s: string, p: char -> bool): string
  {
    if s == [] then [] else (if p(s[0]) then [s[0]] else []) + Keep(s[1..], p)
  }

  function Concat(rs: seq<string>): string
  {
    if rs == [] then [] else rs[0] + Concat(rs[1..])
  }

  /** No run is lost or invented: the runs, glued together, are exactly the
      class-`p` characters of `s`. */
  lemma {:induction false} RunsKeepEverything(s: string, p: char -> bool)
    ensures Concat(Runs(s, p)) == Keep(s, p)
    decreases |s|
  {
    if s == [] {
    } else if !p(s[0]) {
      RunsKeepEverything(s[1..], p);
    } else {
      var k := RunLength(s, p);
      RunsKeepEverything(s[k..], p);
      KeepAll(s[..k], p);
      KeepAppend(s[..k], s[k..], p);
      assert s[..k] + s[k..] == s;
    }
  }

  lemma {:induction false} KeepAll(s: string, p: char -> bool)
    requires forall i :: 0 <= i < |s| ==> p(s[i])
    ensures Keep(s, p) == s
  {
    if s != [] {
      KeepAll(s[1..], p);
    }
  }

  lemma {:induction false} KeepAppend(a: string, b: string, p: char -> bool)
    ensures Keep(a + b, p) == Keep(a, p) + Keep(b, p)
  {
    if a == [] {
      assert a + b == b;
    } else {
      var x := if p(a[0]) then [a[0]] else [];
      assert (a + b)[0] == a[0] && (a + b)[1..] == a[1..] + b;
      assert Keep(a + b, p) == x + Keep(a[1..] + b, p);
      KeepAppend(a[1..], b, p);
      assert Keep(a, p) == x + Keep(a[1..], p);
      assert x + (Keep(a[1..], p) + Keep(b, p)) == (x + Keep(a[1..], p)) + Keep(b, p);
    }
  }

  /** A run is cut exactly where the class ends: after a prefix with no
      class-`p` character, a non-empty run `r` followed by a character outside
      the class (or the end of the string) is the first run returned. */
  lemma {:induction false} RunsAfterGap(pre: string, r: string, post: string, p: char -> bool)
    requires forall i :: 0 <= i < |pre| ==> !p(pre[i])
    requires |r| > 0 && forall i :: 0 <= i < |r| ==> p(r[i])
    requires post == [] || !p(post[0])
    ensures Runs(pre + r + post, p) == [r] + Runs(post, p)
    decreases |pre|
  {
    var s := pre + r + post;
    if pre == [] {
      assert s == r + post;
      RunLengthOf(r, post, p);
      assert s[..|r|] == r && s[|r|..] == post;
    } else {
      assert s[1..] == pre[1..] + r + post;
      RunsAfterGap(pre[1..], r, post, p);
    }
  }

  lemma {:induction false} RunLengthOf(r: string, post: string, p: char -> bool)
    requires forall i :: 0 <= i < |r| ==> p(r[i])
    requires post == [] || !p(post[0])
    ensures RunLength(r + post, p) == |r|
    decreases |r|
  {
    if r == [] {
      assert r + post == post;
    } else {
      assert (r + post)[1..] == r[1..] + post;
      RunLengthOf(r[1..], post, p);
    }
  }

  /** A string with no class-`p` character has no run. */
  lemma {:induction false} RunsOfGap(s: string, p: char -> bool)
    requires forall i :: 0 <= i < |s| ==> !p(s[i])
    ensures Runs(s, p) == []
    decreases |s|
  {
    if s != [] {
      RunsOfGap(s[1..], p);
    }
  }

  /** Value of a string of decimal digits, as Python's `int` reads it
      (leading zeros allowed). Only ever applied to a run of digits. */
  function DecimalValue(ds: string): int
  {
    if ds == [] then 0
    else 10 * DecimalValue(ds[..|ds| - 1]) + (ds[|ds| - 1] as int - '0' as int)
  }

  /** Node index named by a node token such as `X12`, `VAR_3` or `X_7`: the
      first run of digits read as a number, minus one. None when the token
      holds no digit (Python raises IndexError on `n1[0]` then). The value
      can be -1, for a token numbered 0. */
  function NodeIndex(tok: string): Option<int>
  {
    var ds := Runs(tok, IsDigit);
    if ds == [] then None else Some(DecimalValue(ds[0]) - 1)
  }

  /** NodeIndex reads the FIRST digit run of the token, whatever follows it. */
  lemma NodeIndexIsFirstDigitRun(pre: string, ds: string, post: string)
    requires forall i :: 0 <= i < |pre| ==> !IsDigit(pre[i])
    requires |ds| > 0 && forall i :: 0 <= i < |ds| ==> IsDigit(ds[i])
    requires post == [] || !IsDigit(post[0])
    ensures NodeIndex(pre + ds + post) == Some(DecimalValue(ds) - 1)
  {
    var tok := pre + ds + post;
    RunsAfterGap(pre, ds, post, IsDigit);
    NodeIndexOfRuns(tok, ds);
  }

  lemma NodeIndexOfRuns(tok: string, ds: string)
    requires Runs(tok, IsDigit) != [] && Runs(tok, IsDigit)[0] == ds
    ensures NodeIndex(tok) == Some(DecimalValue(ds) - 1)
  {
  }

  /** NodeIndex fails exactly on tokens without a digit. */
  lemma NodeIndexFailsWithoutDigit(tok: string)
    ensures NodeIndex(tok).None? <==> forall i :: 0 <= i < |tok| ==> !IsDigit(tok[i])
  {
    if forall i :: 0 <= i < |tok| ==> !IsDigit(tok[i]) {
      RunsOfGap(tok, IsDigit);
    } else {
      var i :| 0 <= i < |tok| && IsDigit(tok[i]);
      RunsKeepEverything(tok, IsDigit);
      KeepHas(tok, i, IsDigit);
    }
  }

  lemma {:induction false} KeepHas(s: string, i: nat, p: char -> bool)
    requires i < |s| && p(s[i])
    ensures Keep(s, p) != []
  {
    if i > 0 && !p(s[0]) {
      KeepHas(s[1..], i - 1, p);
    }
  }

  /** The worked example of the decoder's own comment: `X12` names node 11. */
  lemma NodeIndexExample()
    ensures NodeIndex("X12") == Some(11)
  {
    NodeIndexIsFirstDigitRun("X", "12", "");
    assert "X" + "12" + "" == "X12";
  }
}
