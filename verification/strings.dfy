/** Character and string operations the mapper relies on: the sign of Java's
    String.compareTo, ASCII upper-casing, the substring search that a regular
    expression's find() performs for the literal patterns the library builds,
    and the "|"-alternation used by the by-name accessor filter. */
module Strings {

  /** Sign of Java's a.compareTo(b): lexicographic on characters, and a proper
      prefix sorts first. */
  function Compare(a: string, b: string): (r: int)
    ensures -1 <= r <= 1
    ensures r == 0 <==> a == b
  {
    if a == [] then (if b == [] then 0 else -1)
    else if b == [] then 1
    else if a[0] < b[0] then -1
    else if b[0] < a[0] then 1
    else
      var r := Compare(a[1..], b[1..]);
      assert a == [a[0]] + a[1..] && b == [b[0]] + b[1..];
      r
  }

  lemma {:induction false} CompareFlip(a: string, b: string)
    ensures Compare(b, a) == -Compare(a, b)
  {
    if a != [] && b != [] && a[0] == b[0] {
      CompareFlip(a[1..], b[1..]);
    }
  }

  /** compareTo is transitive, and strictly so when either step is strict. */
  lemma {:induction false} CompareTrans(a: string, b: string, c: string)
    requires Compare(a, b) <= 0 && Compare(b, c) <= 0
    ensures Compare(a, c) <= 0
    ensures Compare(a, b) < 0 || Compare(b, c) < 0 ==> Compare(a, c) < 0
  {
    if a != [] && b != [] && c != [] && a[0] == b[0] && b[0] == c[0] {
      CompareTrans(a[1..], b[1..], c[1..]);
    }
  }

  /** Character.toUpperCase restricted to ASCII letters; every other character
      is returned unchanged. */
  function ToUpper(c: char): (u: char)
    ensures 'a' <= c <= 'z' ==> 'A' <= u <= 'Z' && u as int == c as int - 32
    ensures !('a' <= c <= 'z') ==> u == c
  {
    if 'a' <= c <= 'z' then (c as int - 32) as char else c
  }

  /** The character class [A-Za-z0-9]. */
  predicate IsAsciiAlnum(c: char)
  {
    'A' <= c <= 'Z' || 'a' <= c <= 'z' || '0' <= c <= '9'
  }

  predicate OccursAt(s: string, p: string, i: int)
  {
    0 <= i && i + |p| <= |s| && s[i..i + |p|] == p
  }

  /** Whether Pattern.compile(p).matcher(s).find() succeeds for a pattern p
      made of literal characters: p occurs somewhere in s. */
  predicate Contains(s: string, p: string)
  {
    exists i | 0 <= i <= |s| :: OccursAt(s, p, i)
  }

  /** find() for the pattern `pre[A-Za-z0-9]+`: the literal pre followed by at
      least one ASCII letter or digit, anywhere in s. */
  predicate FindsPrefixedWord(s: string, pre: string)
  {
    exists i | 0 <= i < |s| :: OccursAt(s, pre, i) && i + |pre| < |s| && IsAsciiAlnum(s[i + |pre|])
  }

  lemma OccursAtStart(p: string, rest: string)
    ensures OccursAt(p + rest, p, 0)
  {
    assert (p + rest)[0..|p|] == p;
  }

  /** n1|n2|...|nk, the string PropertyAccessorByNameCriteria builds. */
  function Join(parts: seq<string>, sep: char): string
    requires |parts| > 0
  {
    if |parts| == 1 then parts[0] else parts[0] + [sep] + Join(parts[1..], sep)
  }

  /** Every part followed by the separator: what the StringBuilder holds
      before its last character is deleted. */
  function Terminated(parts: seq<string>, sep: char): string
  {
    if parts == [] then [] else parts[0] + [sep] + Terminated(parts[1..], sep)
  }

  lemma {:induction false} TerminatedSnoc(parts: seq<string>, p: string, sep: char)
    ensures Terminated(parts + [p], sep) == Terminated(parts, sep) + p + [sep]
  {
    if parts != [] {
      assert (parts + [p])[1..] == parts[1..] + [p];
      TerminatedSnoc(parts[1..], p, sep);
    } else {
      assert [p][1..] == [];
    }
  }

  lemma {:induction false} TerminatedIsJoin(parts: seq<string>, sep: char)
    requires |parts| > 0
    ensures Terminated(parts, sep) == Join(parts, sep) + [sep]
  {
    if |parts| > 1 {
      TerminatedIsJoin(parts[1..], sep);
    } else {
      assert parts[1..] == [];
    }
  }

  /** Index of the first occurrence of c in s, or -1. */
  function IndexOfChar(s: string, c: char): (i: int)
    ensures -1 <= i < |s|
    ensures i >= 0 ==> s[i] == c && c !in s[..i]
    ensures i < 0 <==> c !in s
  {
    if s == [] then -1
    else if s[0] == c then 0
    else
      var j := IndexOfChar(s[1..], c);
      if j < 0 then -1
      else
        assert s[..j + 1] == [s[0]] + s[1..][..j];
        j + 1
  }

  /** How Pattern.compile reads an alternation of literals: the alternatives
      between the separators. */
  function Split(s: string, sep: char): (parts: seq<string>)
    ensures |parts| > 0
    decreases |s|
  {
    var i := IndexOfChar(s, sep);
    if i < 0 then [s] else [s[..i]] + Split(s[i + 1..], sep)
  }

  /** Splitting the joined names gives back the names, provided none of them
      contains the separator. */
  lemma {:induction false} SplitJoin(parts: seq<string>, sep: char)
    requires |parts| > 0
    requires forall k :: 0 <= k < |parts| ==> sep !in parts[k]
    ensures Split(Join(parts, sep), sep) == parts
  {
    var s := Join(parts, sep);
    if |parts| == 1 {
      assert IndexOfChar(s, sep) < 0;
    } else {
      var rest := Join(parts[1..], sep);
      assert s == parts[0] + [sep] + rest;
      IndexAfterPrefix(parts[0], rest, sep);
      assert s[..|parts[0]|] == parts[0];
      assert s[|parts[0]| + 1..] == rest;
      assert Split(s, sep) == [parts[0]] + Split(rest, sep);
      SplitJoin(parts[1..], sep);
      assert parts == [parts[0]] + parts[1..];
    }
  }

  lemma IndexAfterPrefix(p: string, rest: string, sep: char)
    requires sep !in p
    ensures IndexOfChar(p + [sep] + rest, sep) == |p|
  {
    var s := p + [sep] + rest;
    var i := IndexOfChar(s, sep);
    assert s[|p|] == sep;
    assert s[..|p|] == p;
  }
}
