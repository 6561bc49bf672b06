/**
 * The `str` operations the core relies on: prefix, suffix and substring
 * tests, and `split` on a single separator character with its inverse.
 */
module Strings {

  /** `s.starts_with(prefix)` */
  predicate StartsWith(s: string, prefix: string) {
    prefix <= s
  }

  /** `s.ends_with(suffix)` */
  predicate EndsWith(s: string, suffix: string) {
    |suffix| <= |s| && s[|s| - |suffix|..] == suffix
  }

  /** `s.contains(sub)`: `sub` is a prefix of some suffix of `s`. */
  predicate Contains(s: string, sub: string)
    decreases |s|
  {
    sub <= s || (|s| > 0 && Contains(s[1..], sub))
  }

  /** A string that lacks the first character of `sub` does not contain `sub`. */
  lemma {:induction false} NotContainsWithoutFirst(s: string, sub: string)
    requires |sub| > 0 && sub[0] !in s
    ensures !Contains(s, sub)
    decreases |s|
  {
    if |s| > 0 {
      assert s[0] != sub[0];
      NotContainsWithoutFirst(s[1..], sub);
    }
  }

  /** Position of the first occurrence of `c` in `s`. */
  function IndexOf(s: string, c: char): (i: nat)
    requires c in s
    ensures i < |s| && s[i] == c && c !in s[..i]
  {
    if s[0] == c then 0
    else
      var i := 1 + IndexOf(s[1..], c);
      assert s[..i] == [s[0]] + s[1..][..i - 1];
      i
  }

  /** The parts joined back with the separator between neighbours. */
  function Join(parts: seq<string>, sep: char): string
  {
    if |parts| == 0 then ""
    else if |parts| == 1 then parts[0]
    else parts[0] + [sep] + Join(parts[1..], sep)
  }

  /**
   * `s.split(sep).collect()`: the maximal pieces of `s` free of `sep`, in
   * order, empty pieces included; there is always one more piece than there
   * are separators, so even the empty string yields one (empty) piece.
   */
  function Split(s: string, sep: char): (parts: seq<string>)
    ensures |parts| == multiset(s)[sep] + 1
    ensures forall k :: 0 <= k < |parts| ==> sep !in parts[k]
    ensures Join(parts, sep) == s
    decreases |s|
  {
    if sep in s then
      var i := IndexOf(s, sep);
      var rest := Split(s[i + 1..], sep);
      assert s == s[..i] + [sep] + s[i + 1..];
      assert multiset(s) == multiset(s[..i]) + multiset{sep} + multiset(s[i + 1..]) by {
        calc {
          multiset(s);
          multiset(s[..i] + [sep] + s[i + 1..]);
          multiset(s[..i] + [sep]) + multiset(s[i + 1..]);
        }
      }
      var parts := [s[..i]] + rest;
      assert parts[1..] == rest;
      parts
    else
      [s]
  }

  /** Splitting a join of separator-free parts recovers the parts. */
  lemma {:induction false} SplitJoin(parts: seq<string>, sep: char)
    requires |parts| >= 1
    requires forall k :: 0 <= k < |parts| ==> sep !in parts[k]
    ensures Split(Join(parts, sep), sep) == parts
    decreases |parts|
  {
    var s := Join(parts, sep);
    if |parts| > 1 {
      var tail := Join(parts[1..], sep);
      assert s == parts[0] + [sep] + tail;
      assert sep in s by { assert s[|parts[0]|] == sep; }
      var i := IndexOf(s, sep);
      assert i == |parts[0]|;
      assert s[..i] == parts[0];
      assert s[i + 1..] == tail;
      SplitJoin(parts[1..], sep);
    } else {
      assert s == parts[0];
    }
  }

  /** Joining a leading piece onto further pieces puts one separator between them. */
  lemma JoinCons(head: string, tail: seq<string>, sep: char)
    ensures Join([head] + tail, sep) == if |tail| == 0 then head else head + [sep] + Join(tail, sep)
  {
    assert ([head] + tail)[1..] == tail;
  }

  /** Three separator-free pieces joined by the separator split back into those pieces. */
  lemma SplitThree(a: string, b: string, c: string, sep: char)
    requires sep !in a && sep !in b && sep !in c
    ensures Split(a + [sep] + b + [sep] + c, sep) == [a, b, c]
  {
    var parts := [a, b, c];
    assert Join(parts, sep) == a + [sep] + b + [sep] + c by {
      JoinCons(c, [], sep);
      JoinCons(b, [c], sep);
      JoinCons(a, [b, c], sep);
      assert [a] + [b, c] == parts;
    }
    assert forall k :: 0 <= k < |parts| ==> sep !in parts[k];
    SplitJoin(parts, sep);
  }

  /** Four separator-free pieces joined by the separator split back into those pieces. */
  lemma SplitFour(a: string, b: string, c: string, d: string, sep: char)
    requires sep !in a && sep !in b && sep !in c && sep !in d
    ensures Split(a + [sep] + b + [sep] + c + [sep] + d, sep) == [a, b, c, d]
  {
    var parts := [a, b, c, d];
    assert Join(parts, sep) == a + [sep] + b + [sep] + c + [sep] + d by {
      JoinCons(d, [], sep);
      JoinCons(c, [d], sep);
      JoinCons(b, [c, d], sep);
      JoinCons(a, [b, c, d], sep);
      assert [a] + [b, c, d] == parts;
    }
    assert forall k :: 0 <= k < |parts| ==> sep !in parts[k];
    SplitJoin(parts, sep);
  }
}
