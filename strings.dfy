/** The few Python string operations the importer relies on, on `seq<char>`. */
module Strings {

  /** `s.startswith(prefix)`: a plain prefix test. */
  predicate StartsWith(s: string, prefix: string) {
    |prefix| <= |s| && s[..|prefix|] == prefix
  }

  /** `s.rstrip(c)` for a single character `c`: drops every trailing `c`. */
  function RStrip(s: string, c: char): (r: string)
    ensures |r| <= |s| && r == s[..|r|]
    ensures r == [] || r[|r| - 1] != c
    ensures forall i :: |r| <= i < |s| ==> s[i] == c
    decreases |s|
  {
    if |s| > 0 && s[|s| - 1] == c then RStrip(s[..|s| - 1], c) else s
  }

  /** `s.split(sep)` for a single-character separator: the pieces between separators,
      empty pieces included; never the empty list. */
  function Split(s: string, sep: char): (parts: seq<string>)
    ensures |parts| >= 1
    decreases |s|
  {
    if s == [] then [""]
    else
      var rest := Split(s[1..], sep);
      if s[0] == sep then [""] + rest
      else [[s[0]] + rest[0]] + rest[1..]
  }

  /** `sep.join(parts)`. */
  function Join(parts: seq<string>, sep: char): string
    decreases |parts|
  {
    if |parts| == 0 then ""
    else if |parts| == 1 then parts[0]
    else parts[0] + [sep] + Join(parts[1..], sep)
  }

  /** Splitting and joining again on the same separator gives back the string. */
  lemma {:induction false} SplitJoin(s: string, sep: char)
    ensures Join(Split(s, sep), sep) == s
    decreases |s|
  {
    if s != [] {
      var rest := Split(s[1..], sep);
      SplitJoin(s[1..], sep);
      if s[0] == sep {
        assert Split(s, sep)[1..] == rest;
      } else {
        var parts := Split(s, sep);
        assert parts[0] == [s[0]] + rest[0];
        if |rest| > 1 {
          assert parts[1..] == rest[1..];
        }
      }
    }
  }

  /** No piece of a split contains the separator. */
  lemma {:induction false} SplitPiecesFree(s: string, sep: char)
    ensures forall k :: 0 <= k < |Split(s, sep)| ==> sep !in Split(s, sep)[k]
    decreases |s|
  {
    if s != [] {
      var rest := Split(s[1..], sep);
      SplitPiecesFree(s[1..], sep);
      var parts := Split(s, sep);
      if s[0] == sep {
        forall k | 0 <= k < |parts| ensures sep !in parts[k] {
          if k > 0 { assert parts[k] == rest[k - 1]; }
        }
      } else {
        forall k | 0 <= k < |parts| ensures sep !in parts[k] {
          if k > 0 { assert parts[k] == rest[k]; }
          else { assert parts[0] == [s[0]] + rest[0]; }
        }
      }
    }
  }

  /** Joining splits off the last piece: `a/b/c` is `a/b`, the separator, then `c`. */
  lemma {:induction false} JoinLast(parts: seq<string>, sep: char)
    requires |parts| >= 2
    ensures Join(parts, sep) == Join(parts[..|parts| - 1], sep) + [sep] + parts[|parts| - 1]
    decreases |parts|
  {
    if |parts| > 2 {
      JoinLast(parts[1..], sep);
      assert parts[1..][..|parts[1..]| - 1] == parts[..|parts| - 1][1..];
    }
  }

  /** The last piece of a split is the longest suffix of `s` free of the separator:
      it has no separator, it ends `s`, and if it is not all of `s` a separator precedes it. */
  lemma SplitLastPiece(s: string, sep: char)
    ensures var last := Split(s, sep)[|Split(s, sep)| - 1];
      && sep !in last
      && |last| <= |s| && last == s[|s| - |last|..]
      && (|last| < |s| ==> s[|s| - |last| - 1] == sep)
  {
    var parts := Split(s, sep);
    SplitJoin(s, sep);
    SplitPiecesFree(s, sep);
    if |parts| >= 2 {
      JoinLast(parts, sep);
    }
  }
}
