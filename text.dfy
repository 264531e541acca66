/**
 * The JavaScript string primitives the item form and the launcher rely on:
 * `trim`, the regular-expression classes `\s`, `\d` and `.`, `toLowerCase`,
 * the `/i` flag's case folding, `includes` and `startsWith`.
 * A JavaScript string is a sequence of UTF-16 code units; here each code unit of the
 * Basic Multilingual Plane is one `char`. Dafny's `char` is a Unicode scalar value, so a
 * character outside that plane (two surrogate code units in JavaScript) is one `char` here.
 */
module Text {

  /** WhiteSpace and LineTerminator of ECMAScript: what `trim` removes and `\s` matches. */
  predicate IsSpace(c: char) {
    var n := c as int;
    n == 0x09 || n == 0x0A || n == 0x0B || n == 0x0C || n == 0x0D || n == 0x20
    || n == 0xA0 || n == 0x1680 || (0x2000 <= n <= 0x200A)
    || n == 0x2028 || n == 0x2029 || n == 0x202F || n == 0x205F || n == 0x3000 || n == 0xFEFF
  }

  /** LineTerminator: the code units the regular-expression `.` does not match. */
  predicate IsLineTerminator(c: char) {
    var n := c as int;
    n == 0x0A || n == 0x0D || n == 0x2028 || n == 0x2029
  }

  /** `\d` */
  predicate IsDigit(c: char) {
    '0' <= c <= '9'
  }

  predicate AllSpace(s: string) {
    forall k :: 0 <= k < |s| ==> IsSpace(s[k])
  }

  predicate AllDigits(s: string) {
    forall k :: 0 <= k < |s| ==> IsDigit(s[k])
  }

  /** `.+` can consume all of `s` */
  predicate NoLineTerminator(s: string) {
    forall k :: 0 <= k < |s| ==> !IsLineTerminator(s[k])
  }

  /** A string `trim` leaves as it is. */
  predicate IsTrimmed(s: string) {
    s == [] || (!IsSpace(s[0]) && !IsSpace(s[|s| - 1]))
  }

  /** Length of the greedy `\s*` run that starts at index `i`. */
  function SpaceRun(s: string, i: nat): (n: nat)
    requires i <= |s|
    ensures i + n <= |s|
    ensures AllSpace(s[i..i + n])
    ensures i + n == |s| || !IsSpace(s[i + n])
    decreases |s| - i
  {
    if i < |s| && IsSpace(s[i]) then
      var m := SpaceRun(s, i + 1);
      assert s[i..i + 1 + m] == [s[i]] + s[i + 1..i + 1 + m];
      1 + m
    else 0
  }

  function TrimStart(s: string): (r: string)
    ensures |r| <= |s|
    ensures forall k :: 0 <= k < |r| ==> r[k] == s[|s| - |r| + k]
    ensures AllSpace(s[..|s| - |r|])
    ensures r == [] || !IsSpace(r[0])
  {
    var n := SpaceRun(s, 0);
    seq(|s| - n, k requires 0 <= k < |s| - n => s[n + k])
  }

  function TrimEnd(s: string): (r: string)
    ensures |r| <= |s| && r == s[..|r|]
    ensures AllSpace(s[|r|..])
    ensures r == [] || !IsSpace(r[|r| - 1])
  {
    if s != [] && IsSpace(s[|s| - 1]) then TrimEnd(s[..|s| - 1]) else s
  }

  /** `String.prototype.trim`: removes the maximal leading and trailing white space. */
  function Trim(s: string): (r: string)
    ensures IsTrimmed(r)
    ensures |r| <= |s|
  {
    TrimEnd(TrimStart(s))
  }

  /** Trimming removes white space only: what is left sits between two all-space margins of `s`. */
  lemma TrimMargins(s: string) returns (a: nat)
    ensures var r := Trim(s);
      a + |r| <= |s| && r == s[a..a + |r|] && AllSpace(s[..a]) && AllSpace(s[a + |r|..])
  {
    var m := TrimStart(s);
    var r := TrimEnd(m);
    a := |s| - |m|;
    assert r == s[a..a + |r|];
    assert s[a + |r|..] == m[|r|..];
  }

  /** A trimmed string is a fixed point of `trim`. */
  lemma TrimTrimmed(s: string)
    requires IsTrimmed(s)
    ensures Trim(s) == s
  {
    assert SpaceRun(s, 0) == 0;
  }

  /**
   * One code unit of `toLowerCase`, as far as any comparison of this model can tell:
   * `A`-`Z` and the KELVIN SIGN lower-case to ASCII letters; every other code unit that
   * `toLowerCase` changes maps outside ASCII (U+0130 to `i` followed by U+0307), so a
   * string compared with, or searched for in, ASCII text decides the same either way.
   */
  function LowerChar(c: char): (r: char)
    ensures 'A' <= c <= 'Z' ==> r as int == c as int + 32
    ensures c as int == 0x212A ==> r == 'k'
    ensures !('A' <= c <= 'Z') && c as int != 0x212A ==> r == c
  {
    if 'A' <= c <= 'Z' then (c as int + 32) as char
    else if c as int == 0x212A then 'k'
    else c
  }

  function ToLower(s: string): (r: string)
    ensures |r| == |s|
    ensures forall k :: 0 <= k < |s| ==> r[k] == LowerChar(s[k])
  {
    seq(|s|, k requires 0 <= k < |s| => LowerChar(s[k]))
  }

  /** Text without upper-case letters is its own lower case. */
  lemma LowerKeeps(s: string)
    requires forall k :: 0 <= k < |s| ==> !('A' <= s[k] <= 'Z') && s[k] as int != 0x212A
    ensures ToLower(s) == s
  {
  }

  /**
   * The `/i` flag without `u`: a pattern letter matches its own upper or lower case only
   * (ECMAScript's Canonicalize never maps a non-ASCII code unit to an ASCII one).
   */
  function FoldChar(c: char): char {
    if 'A' <= c <= 'Z' then (c as int + 32) as char else c
  }

  /** A letter, in either case, is not white space. */
  lemma LetterNotSpace(c: char)
    requires 'a' <= FoldChar(c) <= 'z'
    ensures !IsSpace(c)
  {
  }

  /** The lower-case literal `lit` matches at index `i` of `s` under `/i`. */
  predicate CiAt(s: string, i: nat, lit: string) {
    i + |lit| <= |s| && forall k :: 0 <= k < |lit| ==> FoldChar(s[i + k]) == lit[k]
  }

  /** A literal does not match where one of its letters differs from the text's. */
  lemma CiAtDiffersAt(s: string, i: nat, lit: string, k: nat)
    requires k < |lit| && i + k < |s|
    requires FoldChar(s[i + k]) != lit[k]
    ensures !CiAt(s, i, lit)
  {
  }

  /** The first two letters of a match of `lit`. */
  lemma CiAtHead(s: string, i: nat, lit: string)
    requires CiAt(s, i, lit) && |lit| >= 2
    ensures FoldChar(s[i]) == lit[0] && FoldChar(s[i + 1]) == lit[1]
  {
    assert s[i + 0] == s[i];
  }

  /** A run of white space followed by a non-space, or by the end, is what `SpaceRun` measures. */
  lemma {:induction false} SpaceRunOf(s: string, i: nat, n: nat)
    requires i + n <= |s| && AllSpace(s[i..i + n])
    requires i + n == |s| || !IsSpace(s[i + n])
    ensures SpaceRun(s, i) == n
    decreases n
  {
    if n > 0 {
      assert IsSpace(s[i..i + n][0]);
      assert s[i + 1..i + n] == s[i..i + n][1..];
      SpaceRunOf(s, i + 1, n - 1);
    }
  }

  /** A piece of `s` that spells `lit` in any case matches `lit` where it sits. */
  lemma CiAtPiece(s: string, i: nat, v: string, lit: string)
    requires i + |v| <= |s| && s[i..i + |v|] == v && CiEquals(v, lit)
    ensures CiAt(s, i, lit)
  {
    forall k | 0 <= k < |lit|
      ensures FoldChar(s[i + k]) == lit[k]
    {
      assert s[i + k] == s[i..i + |v|][k];
    }
  }

  /** A literal matches at index `q` of `s` exactly when it matches at the start of `s[q..]`. */
  lemma CiAtSuffix(s: string, q: nat, lit: string)
    requires q <= |s|
    ensures CiAt(s, q, lit) <==> CiAt(s[q..], 0, lit)
  {
    if CiAt(s[q..], 0, lit) {
      forall k | 0 <= k < |lit|
        ensures FoldChar(s[q + k]) == lit[k]
      {
        assert s[q + k] == s[q..][0 + k];
      }
    }
  }

  /** `s` as a whole matches the lower-case literal `lit` under `/i` (`/^lit$/i`). */
  predicate CiEquals(s: string, lit: string) {
    |s| == |lit| && CiAt(s, 0, lit)
  }

  lemma AppendAssoc(a: string, b: string, c: string)
    ensures (a + b) + c == a + (b + c)
  {
  }

  /** `sub` occurs in `s` starting at index `i`. */
  predicate OccursAt(s: string, sub: string, i: int) {
    0 <= i && i + |sub| <= |s| && s[i..i + |sub|] == sub
  }

  /** `s.includes(sub)`: `sub` occurs in `s` at some index. A string includes each of its prefixes, the empty one too. */
  predicate Contains(s: string, sub: string): (b: bool)
    ensures b ==> |sub| <= |s|
    ensures sub <= s ==> b
  {
    assert sub <= s ==> OccursAt(s, sub, 0);
    exists i :: 0 <= i <= |s| - |sub| && OccursAt(s, sub, i)
  }

  /** `s.startsWith(p)`: the first `|p|` characters of `s` are those of `p`; a string starts with what it includes at index 0. */
  predicate StartsWith(s: string, p: string): (b: bool)
    ensures b <==> |p| <= |s| && forall k :: 0 <= k < |p| ==> s[k] == p[k]
    ensures b ==> Contains(s, p)
  {
    p <= s
  }

  /** Whatever contains `pre + sub` contains `sub`. */
  lemma ContainsPart(s: string, pre: string, sub: string)
    requires Contains(s, pre + sub)
    ensures Contains(s, sub)
  {
    var i :| 0 <= i <= |s| - |pre + sub| && OccursAt(s, pre + sub, i);
    assert s[i + |pre|..i + |pre| + |sub|] == s[i..i + |pre + sub|][|pre|..] == sub;
    assert OccursAt(s, sub, i + |pre|);
  }
}
