/** String operations the source takes from Python's `str` and JavaScript's
    `String`: prefix and substring tests, ASCII case mapping, and splitting
    on a one-character separator. */
module Strings {

  predicate StartsWith(s: string, prefix: string) {
    |prefix| <= |s| && s[..|prefix|] == prefix
  }

  /** `sub in s` in Python, `s.includes(sub)` in JavaScript. */
  predicate Contains(s: string, sub: string)
    decreases |s|
  {
    StartsWith(s, sub) || (|s| > 0 && Contains(s[1..], sub))
  }

  lemma {:induction false} ContainsPrefix(s: string, sub: string, rest: string)
    requires Contains(s, sub)
    ensures Contains(s + rest, sub)
    decreases |s|
  {
    if StartsWith(s, sub) {
      assert (s + rest)[..|sub|] == s[..|sub|];
    } else {
      assert (s + rest)[1..] == s[1..] + rest;
      ContainsPrefix(s[1..], sub, rest);
    }
  }

  lemma {:induction false} ContainsSuffix(front: string, s: string, sub: string)
    requires Contains(s, sub)
    ensures Contains(front + s, sub)
    decreases |front|
  {
    if |front| > 0 {
      assert (front + s)[1..] == front[1..] + s;
      ContainsSuffix(front[1..], s, sub);
    } else {
      assert front + s == s;
    }
  }

  /** `sub` occurs in `front + sub + back`. */
  lemma ContainsInfix(front: string, sub: string, back: string)
    ensures Contains(front + sub + back, sub)
  {
    assert StartsWith(sub + back, sub) by {
      assert (sub + back)[..|sub|] == sub;
    }
    ContainsSuffix(front, sub + back, sub);
    assert front + sub + back == front + (sub + back);
  }

  predicate IsAsciiUpper(c: char) { 'A' <= c <= 'Z' }
  predicate IsAsciiLower(c: char) { 'a' <= c <= 'z' }

  function LowerChar(c: char): char {
    if IsAsciiUpper(c) then (c as int + 32) as char else c
  }

  function UpperChar(c: char): char {
    if IsAsciiLower(c) then (c as int - 32) as char else c
  }

  /** `s.lower()` restricted to the ASCII letters. */
  function Lower(s: string): (r: string)
    ensures |r| == |s|
    ensures forall i :: 0 <= i < |s| ==> r[i] == LowerChar(s[i])
  {
    if |s| == 0 then "" else [LowerChar(s[0])] + Lower(s[1..])
  }

  /** Number of occurrences of `c` in `s`. */
  function CountChar(s: string, c: char): nat {
    if |s| == 0 then 0 else (if s[0] == c then 1 else 0) + CountChar(s[1..], c)
  }

  /** `s.split(sep)` for a one-character separator, as both Python and
      JavaScript define it: the text between consecutive separators,
      including empty pieces. */
  function Split(s: string, sep: char): (parts: seq<string>)
    ensures |parts| == CountChar(s, sep) + 1
    ensures forall k :: 0 <= k < |parts| ==> sep !in parts[k]
    ensures Join(parts, sep) == s
  {
    if |s| == 0 then [""]
    else
      var rest := Split(s[1..], sep);
      if s[0] == sep then [""] + rest
      else [[s[0]] + rest[0]] + rest[1..]
  }

  /** The inverse of `Split`: the pieces separated by `sep`. */
  function Join(parts: seq<string>, sep: char): string
    requires |parts| > 0
  {
    if |parts| == 1 then parts[0] else parts[0] + [sep] + Join(parts[1..], sep)
  }

  /** Splitting a joined list of separator-free pieces gives the pieces back. */
  lemma {:induction false} SplitJoin(parts: seq<string>, sep: char)
    requires |parts| > 0
    requires forall k :: 0 <= k < |parts| ==> sep !in parts[k]
    ensures Split(Join(parts, sep), sep) == parts
  {
    var j := Join(parts, sep);
    var a := Split(j, sep);
    SplitUnique(j, sep, a, parts);
  }

  /** Any separator-free decomposition of `s` is the one `Split` finds. */
  lemma {:induction false} SplitUnique(s: string, sep: char, a: seq<string>, b: seq<string>)
    requires |a| > 0 && |b| > 0
    requires forall k :: 0 <= k < |a| ==> sep !in a[k]
    requires forall k :: 0 <= k < |b| ==> sep !in b[k]
    requires Join(a, sep) == s && Join(b, sep) == s
    ensures a == b
    decreases |s|
  {
    if |a| == 1 || |b| == 1 {
      assert |a| == 1 && |b| == 1;
    } else {
      FirstPieceUnique(a[0], b[0], Join(a[1..], sep), Join(b[1..], sep), sep);
      assert Join(a[1..], sep) == Join(b[1..], sep);
      SplitUnique(Join(a[1..], sep), sep, a[1..], b[1..]);
      assert a == [a[0]] + a[1..];
      assert b == [b[0]] + b[1..];
    }
  }

  lemma FirstPieceUnique(x: string, y: string, xs: string, ys: string, sep: char)
    requires sep !in x && sep !in y
    requires x + [sep] + xs == y + [sep] + ys
    ensures x == y && xs == ys
  {
    var s := x + [sep] + xs;
    assert s[|x|] == sep && s[|y|] == sep;
    assert x == s[..|x|];
    assert y == s[..|y|];
    assert xs == s[|x| + 1..];
    assert ys == s[|y| + 1..];
  }
}
