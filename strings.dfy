/**
 * The JavaScript string operations the server relies on: `trim`, `trimEnd`,
 * `startsWith`, `endsWith`, `includes`, `split("\n")`, and the ASCII case
 * folding of a regular expression with the `i` flag.
 * A string is a sequence of characters.
 */
module Strings {

  /** The characters `String.prototype.trim` removes: ECMAScript WhiteSpace and LineTerminator. */
  predicate IsSpace(c: char) {
    || c == '\t' || c == '\n' || c == '\U{000B}' || c == '\U{000C}' || c == '\r' || c == ' '
    || c == '\U{00A0}' || c == '\U{1680}' || ('\U{2000}' <= c <= '\U{200A}')
    || c == '\U{2028}' || c == '\U{2029}' || c == '\U{202F}' || c == '\U{205F}'
    || c == '\U{3000}' || c == '\U{FEFF}'
  }

  predicate AllSpace(s: string) {
    forall i :: 0 <= i < |s| ==> IsSpace(s[i])
  }

  /** `s.trimEnd()`: the longest prefix of `s` that does not end in white space. */
  function TrimEnd(s: string): (r: string)
    ensures |r| <= |s|
  {
    if s != [] && IsSpace(s[|s| - 1]) then TrimEnd(s[..|s| - 1]) else s
  }

  /** `trimEnd` keeps a prefix that does not end in white space, and removes only white space. */
  lemma {:induction false} TrimEndSpec(s: string)
    ensures |TrimEnd(s)| <= |s| && TrimEnd(s) == s[..|TrimEnd(s)|]
    ensures TrimEnd(s) == [] || !IsSpace(TrimEnd(s)[|TrimEnd(s)| - 1])
    ensures AllSpace(s[|TrimEnd(s)|..])
  {
    if s != [] && IsSpace(s[|s| - 1]) {
      var r := TrimEnd(s[..|s| - 1]);
      TrimEndSpec(s[..|s| - 1]);
      assert s[|r|..] == s[..|s| - 1][|r|..] + [s[|s| - 1]];
    }
  }

  /** `s.trimStart()`: the longest suffix of `s` that does not start with white space. */
  function TrimStart(s: string): (r: string)
    ensures |r| <= |s|
  {
    if s != [] && IsSpace(s[0]) then TrimStart(s[1..]) else s
  }

  /** `trimStart` keeps a suffix that does not start with white space, and removes only white space. */
  lemma {:induction false} TrimStartSpec(s: string)
    ensures |TrimStart(s)| <= |s| && TrimStart(s) == s[|s| - |TrimStart(s)|..]
    ensures TrimStart(s) == [] || !IsSpace(TrimStart(s)[0])
    ensures AllSpace(s[..|s| - |TrimStart(s)|])
  {
    if s != [] && IsSpace(s[0]) {
      var r := TrimStart(s[1..]);
      TrimStartSpec(s[1..]);
      assert s[..|s| - |r|] == [s[0]] + s[1..][..|s| - 1 - |r|];
    }
  }

  /** `s.trim()`. */
  function Trim(s: string): string {
    TrimStart(TrimEnd(s))
  }

  predicate StartsWith(s: string, p: string) {
    |p| <= |s| && s[..|p|] == p
  }

  predicate EndsWith(s: string, p: string) {
    |p| <= |s| && s[|s| - |p|..] == p
  }

  predicate IsSubstringAt(s: string, sub: string, i: int)
    requires 0 <= i <= |s| - |sub|
  {
    s[i..i + |sub|] == sub
  }

  /** `s.includes(sub)`. */
  predicate Contains(s: string, sub: string) {
    exists i :: 0 <= i <= |s| - |sub| && IsSubstringAt(s, sub, i)
  }

  /** Case folding as a non-Unicode `/i` regular expression does it on ASCII letters. */
  function LowerAscii(c: char): char {
    if 'A' <= c <= 'Z' then (c as int + 32) as char else c
  }

  /** `/^p/i.test(s)` for a pattern `p` made of literal characters. */
  predicate StartsWithIgnoringCase(s: string, p: string) {
    |p| <= |s| && forall i :: 0 <= i < |p| ==> LowerAscii(s[i]) == LowerAscii(p[i])
  }

  /** `s.split("\n")`: the pieces between newlines, at least one, possibly empty. */
  function Split(s: string): (pieces: seq<string>)
    ensures |pieces| >= 1
    ensures forall i :: 0 <= i < |pieces| ==> '\n' !in pieces[i]
  {
    if s == [] then [[]]
    else
      var rest := Split(s[1..]);
      if s[0] == '\n' then [[]] + rest else [[s[0]] + rest[0]] + rest[1..]
  }

  /** `pieces.join("\n")`. */
  function Join(pieces: seq<string>): string
    requires |pieces| >= 1
  {
    if |pieces| == 1 then pieces[0] else pieces[0] + "\n" + Join(pieces[1..])
  }

  // ---------- trimming ----------

  /** `trimEnd` is determined by its three properties. */
  lemma {:induction false} TrimEndUnique(s: string, k: nat)
    requires k <= |s| && (k == 0 || !IsSpace(s[k - 1])) && AllSpace(s[k..])
    ensures TrimEnd(s) == s[..k]
  {
    if k < |s| {
      assert IsSpace(s[k..][|s| - 1 - k]);
      assert s[..|s| - 1][k..] == s[k..|s| - 1];
      TrimEndUnique(s[..|s| - 1], k);
    }
  }

  /** `trimStart` is determined by its three properties. */
  lemma {:induction false} TrimStartUnique(s: string, k: nat)
    requires k <= |s| && (k == |s| || !IsSpace(s[k])) && AllSpace(s[..k])
    ensures TrimStart(s) == s[k..]
  {
    if k > 0 {
      assert IsSpace(s[..k][0]);
      assert s[1..][..k - 1] == s[1..k];
      TrimStartUnique(s[1..], k - 1);
    }
  }

  /** Trimming removes surrounding white space and nothing else. */
  lemma TrimAround(w1: string, x: string, w2: string)
    requires AllSpace(w1) && AllSpace(w2)
    requires x != [] && !IsSpace(x[0]) && !IsSpace(x[|x| - 1])
    ensures TrimEnd(w1 + x + w2) == w1 + x
    ensures Trim(w1 + x + w2) == x
  {
    var s := w1 + x + w2;
    assert s[|w1 + x|..] == w2;
    assert s[|w1 + x| - 1] == x[|x| - 1];
    TrimEndUnique(s, |w1 + x|);
    assert s[..|w1 + x|] == w1 + x;
    var t := w1 + x;
    assert t[..|w1|] == w1 && t[|w1|] == x[0] && t[|w1|..] == x;
    TrimStartUnique(t, |w1|);
  }

  /** A string with non-space characters at both ends is its own trim. */
  lemma TrimmedUnchanged(x: string)
    requires x != [] && !IsSpace(x[0]) && !IsSpace(x[|x| - 1])
    ensures TrimEnd(x) == x && Trim(x) == x
  {
    TrimAround("", x, "");
    assert "" + x + "" == x;
  }

  /** Trimming a tail of `s` gives the same whether or not `s` was first trimmed at its end. */
  lemma TrimTailOfTrimEnd(s: string, j: nat)
    requires j <= |TrimEnd(s)|
    ensures Trim(TrimEnd(s)[j..]) == Trim(s[j..])
  {
    var line := TrimEnd(s);
    TrimEndSpec(s);
    var tail := s[j..];
    assert tail[|line| - j..] == s[|line|..];
    assert |line| - j > 0 ==> tail[|line| - j - 1] == line[|line| - 1];
    TrimEndUnique(tail, |line| - j);
    assert tail[..|line| - j] == line[j..];
    var t := line[j..];
    assert t[|t|..] == [];
    assert |t| > 0 ==> t[|t| - 1] == line[|line| - 1];
    TrimEndUnique(t, |t|);
    assert t[..|t|] == t;
  }

  /** A string trims to nothing exactly when it is all white space. */
  lemma TrimEmptyIffAllSpace(s: string)
    ensures Trim(s) == [] <==> AllSpace(s)
  {
    var e := TrimEnd(s);
    if AllSpace(s) {
      TrimEndUnique(s, 0);
    } else {
      TrimEndSpec(s);
      TrimStartSpec(e);
      assert s == e + s[|e|..];
    }
  }

  /** A trimmed string is empty or starts and ends with a non-space character. */
  lemma TrimSpec(s: string)
    ensures Trim(s) == [] || (!IsSpace(Trim(s)[0]) && !IsSpace(Trim(s)[|Trim(s)| - 1]))
  {
    var e := TrimEnd(s);
    TrimEndSpec(s);
    TrimStartSpec(e);
    var t := Trim(s);
    assert |t| > 0 ==> t[|t| - 1] == e[|e| - 1];
  }

  /** Trimming twice is trimming once. */
  lemma TrimIdempotent(s: string)
    ensures Trim(Trim(s)) == Trim(s)
  {
    TrimSpec(s);
    var t := Trim(s);
    if t != [] {
      TrimAround([], t, []);
      assert [] + t + [] == t;
    }
  }

  // ---------- splitting ----------

  /** Splitting undoes joining: `Join(Split(s)) == s`. */
  lemma {:induction false} JoinSplit(s: string)
    ensures Join(Split(s)) == s
  {
    if s != [] {
      var rest := Split(s[1..]);
      JoinSplit(s[1..]);
      if s[0] != '\n' {
        var ps := [[s[0]] + rest[0]] + rest[1..];
        if |rest| > 1 {
          assert ps[1..] == rest[1..];
        }
      }
    }
  }

  lemma {:induction false} SplitNoNewline(p: string)
    requires '\n' !in p
    ensures Split(p) == [p]
  {
    if p != [] {
      SplitNoNewline(p[1..]);
      assert [p[0]] + p[1..] == p;
    }
  }

  lemma {:induction false} SplitPiece(p: string, t: string)
    requires '\n' !in p
    ensures Split(p + "\n" + t) == [p] + Split(t)
  {
    var s := p + "\n" + t;
    if p == [] {
      assert s[1..] == t;
    } else {
      assert s[1..] == p[1..] + "\n" + t;
      SplitPiece(p[1..], t);
      assert [p[0]] + p[1..] == p;
    }
  }

  lemma {:induction false} JoinSnoc(pieces: seq<string>, last: string)
    requires |pieces| >= 1
    ensures Join(pieces + [last]) == Join(pieces) + "\n" + last
  {
    var ps := pieces + [last];
    if |pieces| > 1 {
      assert ps[1..] == pieces[1..] + [last];
      JoinSnoc(pieces[1..], last);
    }
  }

  /** A final newline adds one empty piece at the end. */
  lemma SplitTrailingNewline(s: string)
    ensures Split(s + "\n") == Split(s) + [[]]
  {
    var ps := Split(s) + [[]];
    JoinSnoc(Split(s), []);
    JoinSplit(s);
    assert Join(ps) == s + "\n";
    forall i | 0 <= i < |ps| ensures '\n' !in ps[i] {
      if i < |ps| - 1 {
        assert ps[i] == Split(s)[i];
      }
    }
    SplitJoin(ps);
  }

  /** Joining undoes splitting, for pieces that hold no newline. */
  lemma {:induction false} SplitJoin(pieces: seq<string>)
    requires |pieces| >= 1
    requires forall i :: 0 <= i < |pieces| ==> '\n' !in pieces[i]
    ensures Split(Join(pieces)) == pieces
  {
    if |pieces| == 1 {
      SplitNoNewline(pieces[0]);
    } else {
      SplitJoin(pieces[1..]);
      SplitPiece(pieces[0], Join(pieces[1..]));
      assert [pieces[0]] + pieces[1..] == pieces;
    }
  }
}
