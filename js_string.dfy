/**
 * The JavaScript string operations the application relies on (`trim`,
 * `toLowerCase`, `slice(0, n)`, `split` on one character, `includes`, and a
 * global one-character `replace`), over strings as sequences of characters.
 */
module JsString {

  /** A character matched by `\s` in a JavaScript regular expression; `trim` removes the same set. */
  predicate IsSpace(c: char) {
    || c == '\t' || c == '\n' || c == '\U{000B}' || c == '\U{000C}' || c == '\r' || c == ' '
    || c == '\U{00A0}' || c == '\U{1680}' || ('\U{2000}' <= c <= '\U{200A}')
    || c == '\U{2028}' || c == '\U{2029}' || c == '\U{202F}' || c == '\U{205F}'
    || c == '\U{3000}' || c == '\U{FEFF}'
  }

  predicate AllSpace(s: string) {
    forall k :: 0 <= k < |s| ==> IsSpace(s[k])
  }

  function TrimStart(s: string): (r: string)
    ensures |r| <= |s| && r == s[|s| - |r|..]
    ensures r == [] || !IsSpace(r[0])
    ensures AllSpace(s[..|s| - |r|])
  {
    if |s| > 0 && IsSpace(s[0]) then TrimStart(s[1..]) else s
  }

  function TrimEnd(s: string): (r: string)
    ensures |r| <= |s| && r == s[..|r|]
    ensures r == [] || !IsSpace(r[|r| - 1])
    ensures AllSpace(s[|r|..])
  {
    if |s| > 0 && IsSpace(s[|s| - 1]) then
      var r := TrimEnd(s[..|s| - 1]);
      assert s[|r|..] == s[..|s| - 1][|r|..] + [s[|s| - 1]];
      r
    else s
  }

  /** The number of whitespace characters `s` starts with. */
  function LeadingSpace(s: string): (n: nat)
    ensures n <= |s| && AllSpace(s[..n])
    ensures n == |s| || !IsSpace(s[n])
  {
    |s| - |TrimStart(s)|
  }

  /** `s.trim()`: the longest slice of `s` that neither starts nor ends with whitespace. */
  function Trim(s: string): (r: string)
    ensures |r| <= |s|
    ensures r == [] || (!IsSpace(r[0]) && !IsSpace(r[|r| - 1]))
    ensures r == [] <==> AllSpace(s)
  {
    var t := TrimStart(s);
    var r := TrimEnd(t);
    assert r != [] ==> r[0] == t[0];
    assert AllSpace(s) ==> t == [];
    assert r == [] ==> t == [];
    r
  }

  /** The trimmed text is the slice that follows the leading whitespace, and only whitespace follows it. */
  lemma TrimIsSlice(s: string)
    ensures LeadingSpace(s) + |Trim(s)| <= |s|
    ensures Trim(s) == s[LeadingSpace(s)..LeadingSpace(s) + |Trim(s)|]
    ensures AllSpace(s[LeadingSpace(s) + |Trim(s)|..])
  {
    var t := TrimStart(s);
    var r := TrimEnd(t);
    assert Trim(s) == r;
    SliceOfSuffix(s, |s| - |t|, t, r);
  }

  /** A prefix `r` of the suffix `t` of `s` is a slice of `s`, and what follows it in `s` is what follows it in `t`. */
  lemma SliceOfSuffix(s: string, a: nat, t: string, r: string)
    requires a <= |s| && t == s[a..] && |r| <= |t| && r == t[..|r|] && AllSpace(t[|r|..])
    ensures a + |r| <= |s| && r == s[a..a + |r|] && AllSpace(s[a + |r|..])
  {
    assert s[a + |r|..] == t[|r|..];
  }

  /** A string that does not start or end with whitespace is its own trim. */
  lemma {:induction false} TrimOfTrimmed(s: string)
    requires s == [] || (!IsSpace(s[0]) && !IsSpace(s[|s| - 1]))
    ensures Trim(s) == s
  {
    assert TrimStart(s) == s;
    assert TrimEnd(s) == s;
  }

  /** Trimming twice is trimming once. */
  lemma TrimIdempotent(s: string)
    ensures Trim(Trim(s)) == Trim(s)
  {
    TrimOfTrimmed(Trim(s));
  }

  function LowerChar(c: char): char {
    if 'A' <= c <= 'Z' then (c as int + 32) as char else c
  }

  /** `s.toLowerCase()` for the Latin capitals A to Z. */
  function ToLower(s: string): (r: string)
    ensures |r| == |s|
    ensures forall k :: 0 <= k < |s| ==> r[k] == LowerChar(s[k])
    ensures forall k :: 0 <= k < |r| ==> !('A' <= r[k] <= 'Z')
  {
    seq(|s|, k requires 0 <= k < |s| => LowerChar(s[k]))
  }

  /** `s.slice(0, n)` for a non-negative `n`. */
  function Take(s: string, n: nat): (r: string)
    ensures |r| == if n <= |s| then n else |s|
    ensures r == s[..|r|]
  {
    if n <= |s| then s[..n] else s
  }

  /** The position of the first occurrence of `c` in `s`. */
  function IndexOf(s: string, c: char): (i: nat)
    requires c in s
    ensures i < |s| && s[i] == c && c !in s[..i]
  {
    if s[0] == c then 0 else 1 + IndexOf(s[1..], c)
  }

  lemma IndexOfUnique(s: string, c: char, i: nat)
    requires i < |s| && s[i] == c && c !in s[..i]
    ensures IndexOf(s, c) == i
  {
  }

  /** The position of the last occurrence of `c` in `s`. */
  function LastIndexOf(s: string, c: char): (i: nat)
    requires c in s
    ensures i < |s| && s[i] == c && c !in s[i + 1..]
  {
    if s[|s| - 1] == c then |s| - 1 else LastIndexOf(s[..|s| - 1], c)
  }

  /** `s` cut around the last occurrence of `c`. */
  lemma LastIndexOfCut(s: string, c: char)
    requires c in s
    ensures var j := LastIndexOf(s, c); s == s[..j] + [c] + s[j + 1..]
  {
  }

  lemma LastIndexOfUnique(s: string, c: char, i: nat)
    requires i < |s| && s[i] == c && c !in s[i + 1..]
    ensures LastIndexOf(s, c) == i
  {
  }

  /** The pieces of a split, glued back together with the separator. */
  function Join(parts: seq<string>, sep: char): string
    requires |parts| >= 1
  {
    if |parts| == 1 then parts[0] else parts[0] + [sep] + Join(parts[1..], sep)
  }

  /** `s.split(sep)` for a one-character separator. */
  function Split(s: string, sep: char): (parts: seq<string>)
    ensures |parts| >= 1
    ensures forall k :: 0 <= k < |parts| ==> sep !in parts[k]
    decreases |s|
  {
    if sep !in s then [s]
    else
      var i := IndexOf(s, sep);
      [s[..i]] + Split(s[i + 1..], sep)
  }

  /** Joining the pieces of a split with the separator gives the text back. */
  lemma {:induction false} SplitJoin(s: string, sep: char)
    ensures Join(Split(s, sep), sep) == s
    decreases |s|
  {
    if sep in s {
      var i := IndexOf(s, sep);
      var head, tail := s[..i], s[i + 1..];
      var parts, rest := Split(s, sep), Split(tail, sep);
      assert parts == [head] + rest;
      assert parts[1..] == rest;
      SplitJoin(tail, sep);
      assert Join(parts, sep) == head + [sep] + tail;
      assert s == head + [sep] + tail;
    }
  }

  lemma SplitCons(a: string, sep: char, b: string)
    requires sep !in a
    ensures Split(a + [sep] + b, sep) == [a] + Split(b, sep)
  {
    var s := a + [sep] + b;
    assert s[..|a|] == a;
    IndexOfUnique(s, sep, |a|);
    assert s[|a| + 1..] == b;
  }

  /** A split at a separator that occurs has at least two pieces, the first one ending before it. */
  lemma SplitFirst(s: string, sep: char)
    requires sep in s
    ensures var parts := Split(s, sep); |parts| >= 2 && parts[0] == s[..IndexOf(s, sep)]
  {
  }

  /** The last piece of a split of `a + [sep] + b` is `b` when `b` holds no separator. */
  lemma {:induction false} SplitSnoc(s: string, a: string, sep: char, b: string)
    requires sep !in b && s == a + [sep] + b
    ensures var parts := Split(s, sep); parts[|parts| - 1] == b
    decreases |a|
  {
    if sep !in a {
      SplitCons(a, sep, b);
      assert Split(b, sep) == [b];
    } else {
      var i := IndexOf(a, sep);
      var a2 := a[i + 1..];
      var t := a2 + [sep] + b;
      SplitAround(s, a, sep, b, i);
      SplitSnoc(t, a2, sep, b);
      SplitLastOfCons(a[..i], sep, t);
    }
  }

  /** Cutting `a + [sep] + b` at the first separator of `a`. */
  lemma SplitAround(s: string, a: string, sep: char, b: string, i: nat)
    requires s == a + [sep] + b && sep in a && i == IndexOf(a, sep)
    ensures s == a[..i] + [sep] + (a[i + 1..] + [sep] + b)
    ensures sep !in a[..i] && |a[i + 1..]| < |a|
  {
    assert a == a[..i] + [sep] + a[i + 1..];
  }

  /** Prefixing a piece keeps the last piece of a split. */
  lemma SplitLastOfCons(a: string, sep: char, t: string)
    requires sep !in a
    ensures var parts := Split(a + [sep] + t, sep); var rest := Split(t, sep);
      parts[|parts| - 1] == rest[|rest| - 1]
  {
    SplitCons(a, sep, t);
    LastOfCons(a, Split(t, sep));
  }

  lemma LastOfCons<T>(x: T, r: seq<T>)
    requires |r| >= 1
    ensures ([x] + r)[|r|] == r[|r| - 1]
  {
  }

  /** The last piece of a split is what follows the last separator. */
  lemma SplitLast(s: string, sep: char)
    requires sep in s
    ensures var parts := Split(s, sep); parts[|parts| - 1] == s[LastIndexOf(s, sep) + 1..]
  {
    var j := LastIndexOf(s, sep);
    LastIndexOfCut(s, sep);
    SplitSnoc(s, s[..j], sep, s[j + 1..]);
  }

  /** `s.includes(sub)`. */
  predicate Contains(s: string, sub: string) {
    exists i :: 0 <= i <= |s| - |sub| && OccursAt(s, sub, i)
  }

  predicate OccursAt(s: string, sub: string, i: nat)
    requires i <= |s| - |sub|
  {
    s[i..i + |sub|] == sub
  }

  /** `s.replace(/c/g, rep)`: every occurrence of the character `c` becomes `rep`. */
  function ReplaceChar(s: string, c: char, rep: string): (r: string)
    ensures c !in rep ==> c !in r
  {
    if s == [] then [] else (if s[0] == c then rep else [s[0]]) + ReplaceChar(s[1..], c, rep)
  }

  lemma {:induction false} ReplaceCharConcat(a: string, b: string, c: char, rep: string)
    ensures ReplaceChar(a + b, c, rep) == ReplaceChar(a, c, rep) + ReplaceChar(b, c, rep)
  {
    if a != [] {
      var head := if a[0] == c then rep else [a[0]];
      assert (a + b)[0] == a[0] && (a + b)[1..] == a[1..] + b;
      ReplaceCharConcat(a[1..], b, c, rep);
      assert ReplaceChar(a + b, c, rep) == head + ReplaceChar(a[1..] + b, c, rep);
      assert ReplaceChar(a, c, rep) == head + ReplaceChar(a[1..], c, rep);
    } else {
      assert a + b == b;
    }
  }

  lemma ReplaceCharAbsent(s: string, c: char, rep: string)
    requires c !in s
    ensures ReplaceChar(s, c, rep) == s
  {
  }

  /** `a` keeps some of the characters of `b`, in their order. */
  predicate IsSubsequence(a: string, b: string) {
    if a == [] then true
    else if b == [] then false
    else if a[0] == b[0] then IsSubsequence(a[1..], b[1..])
    else IsSubsequence(a, b[1..])
  }

  lemma {:induction false} PrefixOfSubsequence(a: string, b: string, n: nat)
    requires IsSubsequence(a, b) && n <= |a|
    ensures IsSubsequence(a[..n], b)
    decreases |b|
  {
    if n == 0 || a == [] {
    } else if a[0] == b[0] {
      assert a[..n][1..] == a[1..][..n - 1];
      PrefixOfSubsequence(a[1..], b[1..], n - 1);
    } else {
      PrefixOfSubsequence(a, b[1..], n);
    }
  }
}
