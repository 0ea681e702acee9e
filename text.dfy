/** Character classes, ASCII ordinal-ignore-case comparisons, and the one
    rewriting step both label splitters share: inserting a space before
    every marked position of a string. */
module Text {

  predicate IsAsciiUpper(c: char) { 'A' <= c <= 'Z' }

  predicate IsAsciiLower(c: char) { 'a' <= c <= 'z' }

  predicate IsAsciiDigit(c: char) { '0' <= c <= '9' }

  /** The characters .NET's `char.IsWhiteSpace` accepts. */
  predicate IsWhiteSpace(c: char) {
    c == ' ' || ('\t' <= c <= '\r') || c == '\U{0085}' || c == '\U{00A0}'
    || c == '\U{1680}' || ('\U{2000}' <= c <= '\U{200A}') || c == '\U{2028}'
    || c == '\U{2029}' || c == '\U{202F}' || c == '\U{205F}' || c == '\U{3000}'
  }

  /** `string.IsNullOrWhiteSpace` on a non-null string. */
  predicate IsBlank(s: string) {
    forall i :: 0 <= i < |s| ==> IsWhiteSpace(s[i])
  }

  /** ASCII case folding, standing for ordinal-ignore-case comparison. */
  function FoldAscii(c: char): (f: char)
    ensures !IsAsciiUpper(f)
    ensures IsAsciiUpper(c) ==> f as int == c as int + 32
    ensures !IsAsciiUpper(c) ==> f == c
  {
    if IsAsciiUpper(c) then (c as int + 32) as char else c
  }

  predicate EqualsIgnoreCase(a: string, b: string) {
    |a| == |b| && forall i :: 0 <= i < |a| ==> FoldAscii(a[i]) == FoldAscii(b[i])
  }

  predicate EndsWithIgnoreCase(s: string, suffix: string) {
    |suffix| <= |s| && EqualsIgnoreCase(s[|s| - |suffix|..], suffix)
  }

  /** `sub` occurs in `s` at offset `k`, ignoring case. */
  predicate MatchesAt(s: string, sub: string, k: int) {
    0 <= k && k + |sub| <= |s| && EqualsIgnoreCase(s[k..k + |sub|], sub)
  }

  predicate ContainsIgnoreCase(s: string, sub: string) {
    exists k :: 0 <= k <= |s| - |sub| && MatchesAt(s, sub, k)
  }

  /** A string that equals `whole` ignoring case contains every prefix of
      `whole`, ignoring case. */
  lemma {:induction false} EqualsIgnoreCaseContainsPrefix(s: string, whole: string, n: nat)
    requires EqualsIgnoreCase(s, whole)
    requires n <= |whole|
    ensures ContainsIgnoreCase(s, whole[..n])
  {
    var sub := whole[..n];
    forall i | 0 <= i < |sub|
      ensures FoldAscii(s[0..|sub|][i]) == FoldAscii(sub[i])
    {
      assert s[0..|sub|][i] == s[i];
    }
    assert MatchesAt(s, sub, 0);
  }

  /** The number of marked positions. */
  function CountTrue(b: seq<bool>): (n: nat)
    ensures n <= |b|
    ensures n == 0 <==> forall i :: 0 <= i < |b| ==> !b[i]
  {
    if b == [] then 0 else (if b[0] then 1 else 0) + CountTrue(b[1..])
  }

  /** `s` with one space inserted before each position `i` where `b[i]`. */
  function InsertSpaces(s: string, b: seq<bool>): string
    requires |b| == |s|
  {
    if s == [] then [] else (if b[0] then [' ', s[0]] else [s[0]]) + InsertSpaces(s[1..], b[1..])
  }

  /** Deletes, for each marked position, the character placed before it:
      the inverse of `InsertSpaces` for the same marks. */
  function DeleteMarked(r: string, b: seq<bool>): string
    decreases |b|
  {
    if b == [] || r == [] then []
    else if b[0] then (if |r| < 2 then [] else [r[1]] + DeleteMarked(r[2..], b[1..]))
    else [r[0]] + DeleteMarked(r[1..], b[1..])
  }

  /** `s` with every ' ' removed. */
  function RemoveSpaces(s: string): (r: string)
    ensures |r| <= |s|
    ensures forall i :: 0 <= i < |r| ==> r[i] != ' '
  {
    if s == [] then [] else (if s[0] == ' ' then [] else [s[0]]) + RemoveSpaces(s[1..])
  }

  /** Inserting adds exactly one character per mark. */
  lemma {:induction false} InsertSpacesLength(s: string, b: seq<bool>)
    requires |b| == |s|
    ensures |InsertSpaces(s, b)| == |s| + CountTrue(b)
  {
    if s != [] {
      InsertSpacesLength(s[1..], b[1..]);
    }
  }

  /** In `r`, input character `s[j]` sits at index `j` plus the number of
      marks up to and including `j`, and when `j` is marked a space sits just
      before it. */
  predicate SpaceBefore(r: string, s: string, b: seq<bool>, j: int)
    requires |b| == |s| && 0 <= j < |s|
  {
    var k := j + CountTrue(b[..j + 1]);
    k < |r| && r[k] == s[j] && (b[j] ==> r[k - 1] == ' ')
  }

  /** Every input character is copied, in order, with one space before each
      mark. */
  lemma {:induction false} InsertSpacesAt(s: string, b: seq<bool>, j: nat)
    requires |b| == |s| && j < |s|
    ensures SpaceBefore(InsertSpaces(s, b), s, b, j)
  {
    var head: string := if b[0] then [' ', s[0]] else [s[0]];
    var rest := InsertSpaces(s[1..], b[1..]);
    assert InsertSpaces(s, b) == head + rest;
    assert b[..j + 1][0] == b[0];
    assert b[..j + 1][1..] == b[1..][..j];
    if j > 0 {
      InsertSpacesAt(s[1..], b[1..], j - 1);
    } else {
      assert CountTrue(b[1..][..0]) == 0;
    }
  }

  /** Deleting the inserted spaces gives back the input. */
  lemma {:induction false} DeleteMarkedInsertSpaces(s: string, b: seq<bool>)
    requires |b| == |s|
    ensures DeleteMarked(InsertSpaces(s, b), b) == s
  {
    if s != [] {
      var r := InsertSpaces(s, b);
      var rest := InsertSpaces(s[1..], b[1..]);
      DeleteMarkedInsertSpaces(s[1..], b[1..]);
      if b[0] {
        assert r == [' ', s[0]] + rest;
        assert r[2..] == rest;
      } else {
        assert r == [s[0]] + rest;
        assert r[1..] == rest;
      }
      assert s == [s[0]] + s[1..];
    }
  }

  /** With no marks nothing is inserted. */
  lemma {:induction false} InsertSpacesUnmarked(s: string, b: seq<bool>)
    requires |b| == |s|
    requires forall i :: 0 <= i < |b| ==> !b[i]
    ensures InsertSpaces(s, b) == s
  {
    if s != [] {
      assert forall i :: 0 <= i < |b| - 1 ==> !b[1..][i] by {
        forall i | 0 <= i < |b| - 1 ensures !b[1..][i] { assert b[1..][i] == b[i + 1]; }
      }
      InsertSpacesUnmarked(s[1..], b[1..]);
      assert s == [s[0]] + s[1..];
    }
  }

  lemma {:induction false} InsertSpacesAppend(s1: string, b1: seq<bool>, s2: string, b2: seq<bool>)
    requires |b1| == |s1| && |b2| == |s2|
    ensures InsertSpaces(s1 + s2, b1 + b2) == InsertSpaces(s1, b1) + InsertSpaces(s2, b2)
  {
    if s1 == [] {
      assert s1 + s2 == s2 && b1 + b2 == b2;
    } else {
      assert (s1 + s2)[0] == s1[0] && (b1 + b2)[0] == b1[0];
      assert (s1 + s2)[1..] == s1[1..] + s2 && (b1 + b2)[1..] == b1[1..] + b2;
      InsertSpacesAppend(s1[1..], b1[1..], s2, b2);
    }
  }

  /** With a single mark at `k`, one space goes in front of `s[k]`. */
  lemma InsertSpacesSingle(s: string, b: seq<bool>, k: nat)
    requires |b| == |s| && k < |s|
    requires forall i :: 0 <= i < |b| ==> b[i] == (i == k)
    ensures InsertSpaces(s, b) == s[..k] + " " + s[k..]
  {
    assert s == s[..k] + s[k..] && b == b[..k] + b[k..];
    InsertSpacesAppend(s[..k], b[..k], s[k..], b[k..]);
    InsertSpacesUnmarked(s[..k], b[..k]);
    var t, c := s[k..], b[k..];
    InsertSpacesUnmarked(t[1..], c[1..]);
    assert t == [t[0]] + t[1..];
  }

  lemma {:induction false} RemoveSpacesConcat(a: string, b: string)
    ensures RemoveSpaces(a + b) == RemoveSpaces(a) + RemoveSpaces(b)
  {
    if a != [] {
      assert (a + b)[0] == a[0];
      assert (a + b)[1..] == a[1..] + b;
      RemoveSpacesConcat(a[1..], b);
    } else {
      assert a + b == b;
    }
  }

  /** Only spaces are inserted: removing every space from the output gives
      the input with every space removed. */
  lemma {:induction false} InsertSpacesRemoveSpaces(s: string, b: seq<bool>)
    requires |b| == |s|
    ensures RemoveSpaces(InsertSpaces(s, b)) == RemoveSpaces(s)
  {
    if s != [] {
      var head: string := if b[0] then [' ', s[0]] else [s[0]];
      InsertSpacesRemoveSpaces(s[1..], b[1..]);
      RemoveSpacesConcat(head, InsertSpaces(s[1..], b[1..]));
      assert RemoveSpaces(head) == RemoveSpaces([s[0]]) by {
        if b[0] {
          assert head[1..] == [s[0]];
        }
      }
      RemoveSpacesConcat([s[0]], s[1..]);
      assert s == [s[0]] + s[1..];
    }
  }
}
