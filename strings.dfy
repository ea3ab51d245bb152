/**
 * String operations of the Go standard library that the component core relies
 * on (strings.ReplaceAll, strings.HasPrefix, strings.Cut), ASCII title casing,
 * and the ascending key order used to visit the keys of a JSON object.
 */
module Strings {
  import opened Wrappers

  // ---------------------------------------------------------------------------
  // strings.ReplaceAll
  // ---------------------------------------------------------------------------

  /**
   * strings.ReplaceAll: every non-overlapping occurrence of `pat`, scanned from
   * the left, is replaced by `rep`. An empty pattern matches before every
   * character and at the end.
   */
  function ReplaceAll(s: string, pat: string, rep: string): (r: string)
    decreases |s|
  {
    if |pat| == 0 then
      if s == [] then rep else rep + [s[0]] + ReplaceAll(s[1..], pat, rep)
    else if |pat| <= |s| && s[..|pat|] == pat then
      rep + ReplaceAll(s[|pat|..], pat, rep)
    else if s == [] then []
    else [s[0]] + ReplaceAll(s[1..], pat, rep)
  }

  /** Replacing one character by another is a character-wise substitution. */
  lemma {:induction false} ReplaceCharByChar(s: string, c: char, d: char)
    ensures |ReplaceAll(s, [c], [d])| == |s|
    ensures forall i :: 0 <= i < |s| ==> ReplaceAll(s, [c], [d])[i] == (if s[i] == c then d else s[i])
    decreases |s|
  {
    if s != [] {
      ReplaceCharByChar(s[1..], c, d);
      var tail := ReplaceAll(s[1..], [c], [d]);
      if s[0] == c {
        assert s[..1] == [c];
        assert ReplaceAll(s, [c], [d]) == [d] + tail;
      } else {
        assert s[..1] != [c];
        assert ReplaceAll(s, [c], [d]) == [s[0]] + tail;
      }
    }
  }

  /**
   * Deleting a character removes every occurrence of it and keeps every other
   * character, in order.
   */
  lemma {:induction false} DeleteChar(s: string, c: char)
    ensures c !in ReplaceAll(s, [c], [])
    ensures ReplaceAll(s, [c], []) == Without(s, c)
    decreases |s|
  {
    if s != [] {
      DeleteChar(s[1..], c);
      var tail := ReplaceAll(s[1..], [c], []);
      if s[0] == c {
        assert s[..1] == [c];
        assert ReplaceAll(s, [c], []) == tail;
      } else {
        assert s[..1] != [c];
        assert ReplaceAll(s, [c], []) == [s[0]] + tail;
      }
    }
  }

  /** The subsequence of `s` that leaves out `c`. */
  function Without(s: string, c: char): (r: string)
    ensures |r| <= |s|
    ensures forall x :: x in r <==> x in s && x != c
  {
    if s == [] then [] else (if s[0] == c then [] else [s[0]]) + Without(s[1..], c)
  }

  /** A string that does not contain the character is left unchanged. */
  lemma {:induction false} ReplaceAbsentChar(s: string, c: char, rep: string)
    requires c !in s
    ensures ReplaceAll(s, [c], rep) == s
    decreases |s|
  {
    if s != [] {
      assert s[..1] != [c] by { assert s[0] != c; }
      ReplaceAbsentChar(s[1..], c, rep);
      assert [s[0]] + s[1..] == s;
    }
  }

  // ---------------------------------------------------------------------------
  // strings.HasPrefix, strings.Cut
  // ---------------------------------------------------------------------------

  predicate HasPrefix(s: string, p: string) {
    |p| <= |s| && s[..|p|] == p
  }

  /** The index of the first occurrence of `c` in `s`, if any. */
  function IndexOf(s: string, c: char): (r: Option<nat>)
    ensures r.None? <==> c !in s
    ensures r.Some? ==> r.value < |s| && s[r.value] == c && c !in s[..r.value]
  {
    if s == [] then None
    else if s[0] == c then Some(0)
    else match IndexOf(s[1..], c)
      case None => None
      case Some(i) => assert s[..i + 1] == [s[0]] + s[1..][..i]; Some(i + 1)
  }

  /**
   * strings.Cut with a one-character separator: the text before and after the
   * first separator, or None (Go's `found == false`) when there is none.
   */
  function Cut(s: string, sep: char): (r: Option<(string, string)>)
    ensures r.Some? <==> sep in s
    ensures r.Some? ==> s == r.value.0 + [sep] + r.value.1 && sep !in r.value.0
  {
    match IndexOf(s, sep)
    case None => None
    case Some(i) =>
      assert s == s[..i] + [sep] + s[i + 1..];
      Some((s[..i], s[i + 1..]))
  }

  // ---------------------------------------------------------------------------
  // ASCII title casing
  // ---------------------------------------------------------------------------

  predicate IsAsciiLetter(c: char) {
    'a' <= c <= 'z' || 'A' <= c <= 'Z'
  }

  predicate IsWordChar(c: char) {
    IsAsciiLetter(c) || '0' <= c <= '9'
  }

  function ToUpper(c: char): char {
    if 'a' <= c <= 'z' then (c as int - 32) as char else c
  }

  function ToLower(c: char): char {
    if 'A' <= c <= 'Z' then (c as int + 32) as char else c
  }

  /** Position `i` starts a word: its character is a word character and the one before is not. */
  predicate StartsWord(s: string, i: nat)
    requires i < |s|
  {
    IsWordChar(s[i]) && (i == 0 || !IsWordChar(s[i - 1]))
  }

  /**
   * Title casing in the manner of cases.Title: the first letter of every word
   * is upper case and every other letter lower case; other characters are kept.
   */
  function TitleCase(s: string): (r: string)
    ensures |r| == |s|
    ensures forall i :: 0 <= i < |s| ==> r[i] == if StartsWord(s, i) then ToUpper(s[i]) else ToLower(s[i])
  {
    TitleFrom(s, 0)
  }

  function TitleFrom(s: string, i: nat): (r: string)
    requires i <= |s|
    ensures |r| == |s| - i
    ensures forall j :: i <= j < |s| ==> r[j - i] == if StartsWord(s, j) then ToUpper(s[j]) else ToLower(s[j])
    decreases |s| - i
  {
    if i == |s| then []
    else [if StartsWord(s, i) then ToUpper(s[i]) else ToLower(s[i])] + TitleFrom(s, i + 1)
  }

  // ---------------------------------------------------------------------------
  // Ascending order of object keys
  // ---------------------------------------------------------------------------

  /** Lexicographic order on strings, by code point. */
  predicate Less(a: string, b: string) {
    if a == [] then b != []
    else if b == [] then false
    else if a[0] != b[0] then a[0] < b[0]
    else Less(a[1..], b[1..])
  }

  lemma {:induction false} LessTrans(a: string, b: string, c: string)
    requires Less(a, b) && Less(b, c)
    ensures Less(a, c)
  {
    if a != [] && b != [] && c != [] && a[0] == b[0] == c[0] {
      LessTrans(a[1..], b[1..], c[1..]);
    }
  }

  lemma {:induction false} LessTotal(a: string, b: string)
    ensures a == b || Less(a, b) || Less(b, a)
  {
    if a != [] && b != [] && a[0] == b[0] {
      LessTotal(a[1..], b[1..]);
      if a[1..] == b[1..] {
        assert a == [a[0]] + a[1..];
        assert b == [b[0]] + b[1..];
      }
    }
  }

  lemma {:induction false} LessAsym(a: string, b: string)
    ensures !(Less(a, b) && Less(b, a))
  {
    if a != [] && b != [] && a[0] == b[0] {
      LessAsym(a[1..], b[1..]);
    }
  }

  predicate IsMin(k: string, s: set<string>) {
    k in s && forall j :: j in s && j != k ==> Less(k, j)
  }

  lemma {:induction false} MinExists(s: set<string>)
    requires s != {}
    ensures exists k :: IsMin(k, s)
    decreases |s|
  {
    var x :| x in s;
    if s == {x} {
      assert IsMin(x, s);
    } else {
      MinExists(s - {x});
      var m :| IsMin(m, s - {x});
      LessTotal(m, x);
      if Less(m, x) {
        assert IsMin(m, s);
      } else {
        forall j | j in s && j != x
          ensures Less(x, j)
        {
          if j != m {
            LessTrans(x, m, j);
          }
        }
        assert IsMin(x, s);
      }
    }
  }

  lemma MinUnique(s: set<string>)
    ensures forall a, b :: IsMin(a, s) && IsMin(b, s) ==> a == b
  {
    forall a, b | IsMin(a, s) && IsMin(b, s)
      ensures a == b
    {
      if a != b {
        LessAsym(a, b);
      }
    }
  }

  function MinKey(s: set<string>): (k: string)
    requires s != {}
    ensures IsMin(k, s)
  {
    MinExists(s);
    MinUnique(s);
    var k :| IsMin(k, s);
    k
  }

  /** The keys of a set in ascending order. */
  function SortedKeys(s: set<string>): (r: seq<string>)
    ensures forall x :: x in r <==> x in s
    decreases |s|
  {
    if s == {} then []
    else
      var k := MinKey(s);
      [k] + SortedKeys(s - {k})
  }

  /** Each key appears once, and the keys strictly ascend. */
  lemma {:induction false} SortedKeysOrdered(s: set<string>)
    ensures |SortedKeys(s)| == |s|
    ensures forall i, j :: 0 <= i < j < |SortedKeys(s)| ==> Less(SortedKeys(s)[i], SortedKeys(s)[j])
    decreases |s|
  {
    if s != {} {
      var k := MinKey(s);
      var rest := SortedKeys(s - {k});
      SortedKeysOrdered(s - {k});
      assert SortedKeys(s) == [k] + rest;
      forall i, j | 0 <= i < j < |SortedKeys(s)|
        ensures Less(SortedKeys(s)[i], SortedKeys(s)[j])
      {
        assert SortedKeys(s)[j] == rest[j - 1];
        if i > 0 {
          assert SortedKeys(s)[i] == rest[i - 1];
        } else {
          assert rest[j - 1] in s - {k};
        }
      }
    }
  }
}
