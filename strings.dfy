/** The JavaScript string primitives the extension relies on: `trim`,
    `toLowerCase`, `includes`/`indexOf`, `replace` of a first occurrence,
    `split`/`join` on one separator character, and number formatting. */
module Strings {

  /** ECMAScript WhiteSpace and LineTerminator code points: what `trim`
      removes and what the regular-expression class `\s` matches. */
  predicate IsWhitespace(c: char) {
    || c == ' ' || c == '\t' || c == '\n' || c == '\r' || c == '\U{B}' || c == '\U{C}'
    || c == '\U{A0}' || c == '\U{1680}' || ('\U{2000}' <= c <= '\U{200A}')
    || c == '\U{2028}' || c == '\U{2029}' || c == '\U{202F}' || c == '\U{205F}'
    || c == '\U{3000}' || c == '\U{FEFF}'
  }

  predicate AllWhitespace(s: string) {
    forall i :: 0 <= i < |s| ==> IsWhitespace(s[i])
  }

  /** Leading whitespace removed: a suffix of `s` that does not start with
      whitespace. */
  function TrimStart(s: string): (r: string)
    ensures |r| <= |s| && r == s[|s| - |r|..]
    ensures r == [] || !IsWhitespace(r[0])
  {
    if s != [] && IsWhitespace(s[0]) then TrimStart(s[1..]) else s
  }

  /** What `TrimStart` removes is whitespace. */
  lemma {:induction false} TrimStartDropsWhitespace(s: string)
    ensures AllWhitespace(s[..|s| - |TrimStart(s)|])
  {
    if s != [] && IsWhitespace(s[0]) {
      var n := |s| - |TrimStart(s[1..])|;
      TrimStartDropsWhitespace(s[1..]);
      forall i | 0 <= i < n
        ensures IsWhitespace(s[..n][i])
      {
        if i > 0 {
          assert s[..n][i] == s[1..][..n - 1][i - 1];
        }
      }
    }
  }

  /** Trailing whitespace removed: a prefix of `s` that does not end with
      whitespace. */
  function TrimEnd(s: string): (r: string)
    ensures |r| <= |s| && r == s[..|r|]
    ensures r == [] || !IsWhitespace(r[|r| - 1])
  {
    if s != [] && IsWhitespace(s[|s| - 1]) then TrimEnd(s[..|s| - 1]) else s
  }

  /** What `TrimEnd` removes is whitespace. */
  lemma {:induction false} TrimEndDropsWhitespace(s: string)
    ensures AllWhitespace(s[|TrimEnd(s)|..])
  {
    if s != [] && IsWhitespace(s[|s| - 1]) {
      var n := |TrimEnd(s[..|s| - 1])|;
      TrimEndDropsWhitespace(s[..|s| - 1]);
      forall i | 0 <= i < |s| - n
        ensures IsWhitespace(s[n..][i])
      {
        if i < |s| - 1 - n {
          assert s[n..][i] == s[..|s| - 1][n..][i];
        }
      }
    }
  }

  /** The number of whitespace characters `s` starts with. */
  function LeadingSpace(s: string): (n: nat)
    ensures n <= |s|
    ensures n < |s| ==> !IsWhitespace(s[n])
  {
    |s| - |TrimStart(s)|
  }

  /** `s.trim()`: no whitespace at either end; `TrimIsSlice` states that it
      is what remains of `s` once the whitespace around it is removed. */
  function Trim(s: string): (r: string)
    ensures |r| <= |s|
    ensures r == [] || (!IsWhitespace(r[0]) && !IsWhitespace(r[|r| - 1]))
  {
    TrimEnd(TrimStart(s))
  }

  /** `Trim(s)` is a slice of `s` and everything around it is whitespace. */
  lemma TrimIsSlice(s: string)
    ensures LeadingSpace(s) + |Trim(s)| <= |s|
    ensures Trim(s) == s[LeadingSpace(s)..LeadingSpace(s) + |Trim(s)|]
    ensures AllWhitespace(s[..LeadingSpace(s)])
    ensures AllWhitespace(s[LeadingSpace(s) + |Trim(s)|..])
  {
    var t, k := TrimStart(s), LeadingSpace(s);
    TrimStartDropsWhitespace(s);
    TrimEndDropsWhitespace(t);
    SliceOfSuffix(s, k, |Trim(s)|);
    assert t == s[k..] && Trim(s) == t[..|Trim(s)|];
    assert t[|Trim(s)|..] == s[k + |Trim(s)|..];
  }

  /** Two strings of one length with whitespace at the same positions. */
  predicate SameWhitespace(s: string, u: string) {
    |s| == |u| && forall i :: 0 <= i < |s| ==> (IsWhitespace(s[i]) <==> IsWhitespace(u[i]))
  }

  /** A slice of two such strings, taken at the same place, is again such a
      pair. */
  lemma SameWhitespaceSlice(s: string, u: string, lo: nat, hi: nat)
    requires SameWhitespace(s, u) && lo <= hi <= |s|
    ensures SameWhitespace(s[lo..hi], u[lo..hi])
  {
    forall i | 0 <= i < hi - lo
      ensures IsWhitespace(s[lo..hi][i]) <==> IsWhitespace(u[lo..hi][i])
    {
      assert s[lo..hi][i] == s[lo + i] && u[lo..hi][i] == u[lo + i];
    }
  }

  lemma {:induction false} TrimStartSameShape(s: string, u: string)
    requires SameWhitespace(s, u)
    ensures |TrimStart(s)| == |TrimStart(u)|
    decreases |s|
  {
    if s != [] && IsWhitespace(s[0]) {
      SameWhitespaceSlice(s, u, 1, |s|);
      assert s[1..|s|] == s[1..] && u[1..|s|] == u[1..];
      TrimStartSameShape(s[1..], u[1..]);
    }
  }

  lemma {:induction false} TrimEndSameShape(s: string, u: string)
    requires SameWhitespace(s, u)
    ensures |TrimEnd(s)| == |TrimEnd(u)|
    decreases |s|
  {
    if s != [] && IsWhitespace(s[|s| - 1]) {
      var n := |s| - 1;
      SameWhitespaceSlice(s, u, 0, n);
      assert s[0..n] == s[..n] && u[0..n] == u[..n];
      TrimEndSameShape(s[..n], u[..n]);
    }
  }

  /** Strings with whitespace at the same positions are trimmed at the same
      positions. */
  lemma TrimSameShape(s: string, u: string)
    requires SameWhitespace(s, u)
    ensures LeadingSpace(s) == LeadingSpace(u) && |Trim(s)| == |Trim(u)|
  {
    TrimStartSameShape(s, u);
    var k := LeadingSpace(s);
    SameWhitespaceSlice(s, u, k, |s|);
    assert TrimStart(s) == s[k..|s|] && TrimStart(u) == u[k..|s|];
    TrimEndSameShape(TrimStart(s), TrimStart(u));
  }

  /** Replacing characters by others, none of them whitespace, and then
      trimming keeps the trimmed string's span, one character for one. */
  lemma TrimReplaceChars(s: string, from: char -> bool, to: char)
    requires !IsWhitespace(to)
    requires forall i :: 0 <= i < |s| && from(s[i]) ==> !IsWhitespace(s[i])
    ensures var r, k := Trim(ReplaceChars(s, from, to)), LeadingSpace(s);
            && |r| == |Trim(s)| && k + |r| <= |s|
            && forall i :: 0 <= i < |r| ==> r[i] == if from(s[k + i]) then to else s[k + i]
  {
    var replaced := ReplaceChars(s, from, to);
    assert SameWhitespace(replaced, s);
    TrimSameShape(replaced, s);
    TrimIsSlice(replaced);
    var r, k := Trim(replaced), LeadingSpace(s);
    forall i | 0 <= i < |r|
      ensures r[i] == if from(s[k + i]) then to else s[k + i]
    {
      assert r[i] == replaced[k + i];
    }
  }

  /** A prefix of the suffix from `n` is a slice of `s`; what follows it is
      the rest of that suffix. */
  lemma SliceOfSuffix(s: string, n: nat, m: nat)
    requires n + m <= |s|
    ensures s[n..][..m] == s[n..n + m]
    ensures s[n..][m..] == s[n + m..]
  {
  }

  /** Trimming twice is trimming once. */
  lemma {:induction false} TrimIdempotent(s: string)
    ensures Trim(Trim(s)) == Trim(s)
  {
    var r := Trim(s);
    assert TrimStart(r) == r;
    assert TrimEnd(r) == r;
  }

  /** A string trims to the empty string exactly when it is all whitespace. */
  lemma TrimEmptyIffWhitespace(s: string)
    ensures Trim(s) == [] <==> AllWhitespace(s)
  {
    var t := TrimStart(s);
    var k := |s| - |t|;
    if Trim(s) == [] {
      TrimStartDropsWhitespace(s);
      TrimEndDropsWhitespace(t);
      assert t[0..] == t;
      assert s[..k] == s;
    } else if AllWhitespace(s) {
      TrimIsSlice(s);
    }
  }

  /** ASCII case folding of one character (`A`-`Z` to `a`-`z`). */
  function LowerChar(c: char): (d: char)
    ensures 'A' <= c <= 'Z' ==> 'a' <= d <= 'z' && d as int - c as int == 32
    ensures !('A' <= c <= 'Z') ==> d == c
  {
    if 'A' <= c <= 'Z' then (c as int + 32) as char else c
  }

  /** `s.toLowerCase()`, restricted to ASCII letters. */
  function ToLower(s: string): (r: string)
    ensures |r| == |s|
    ensures forall i :: 0 <= i < |s| ==> r[i] == LowerChar(s[i])
  {
    seq(|s|, i requires 0 <= i < |s| => LowerChar(s[i]))
  }

  lemma ToLowerIdempotent(s: string)
    ensures ToLower(ToLower(s)) == ToLower(s)
  {
  }

  /** `t` occurs in `s` starting at position `i`. */
  predicate OccursAt(s: string, t: string, i: nat) {
    i + |t| <= |s| && s[i..i + |t|] == t
  }

  function IndexOfFrom(s: string, t: string, from: nat): (r: int)
    ensures r == -1 || (from <= r && OccursAt(s, t, r))
    ensures r == -1 ==> forall i :: from <= i ==> !OccursAt(s, t, i)
    ensures r != -1 ==> forall i :: from <= i < r ==> !OccursAt(s, t, i)
    decreases |s| - from
  {
    if from + |t| > |s| then -1
    else if OccursAt(s, t, from) then from
    else IndexOfFrom(s, t, from + 1)
  }

  /** `s.indexOf(t)`: the first position where `t` occurs in `s`, or -1. */
  function IndexOf(s: string, t: string): (r: int)
    ensures r == -1 <==> forall i :: !OccursAt(s, t, i)
    ensures r != -1 ==> 0 <= r && OccursAt(s, t, r) && forall i: nat :: i < r ==> !OccursAt(s, t, i)
  {
    IndexOfFrom(s, t, 0)
  }

  /** `s.includes(t)`. */
  predicate Contains(s: string, t: string) {
    IndexOf(s, t) != -1
  }

  lemma ContainsAt(s: string, t: string, i: nat)
    requires OccursAt(s, t, i)
    ensures Contains(s, t)
  {
  }

  lemma ContainsSelf(s: string)
    ensures Contains(s, s)
  {
    assert OccursAt(s, s, 0);
  }

  /** A string can only contain strings no longer than itself. */
  lemma ContainsShorter(s: string, t: string)
    requires Contains(s, t)
    ensures |t| <= |s|
  {
  }

  /** A string cannot contain a pattern holding a character it lacks. */
  lemma MissingCharNotContained(s: string, t: string, c: char)
    requires c in t && c !in s
    ensures !Contains(s, t)
  {
  }

  /** `s.replace(pat, rep)` with a string pattern: only the first occurrence
      is replaced, and a string without the pattern is returned unchanged. */
  function ReplaceFirst(s: string, pat: string, rep: string): (r: string)
    ensures !Contains(s, pat) ==> r == s
    ensures Contains(s, pat) ==>
      var i := IndexOf(s, pat);
      r == s[..i] + rep + s[i + |pat|..]
  {
    var i := IndexOf(s, pat);
    if i == -1 then s else s[..i] + rep + s[i + |pat|..]
  }

  /** Every character satisfying `from` replaced by `to`, as a global
      regular-expression `replace` on a character class does. */
  function ReplaceChars(s: string, from: char -> bool, to: char): (r: string)
    ensures |r| == |s|
    ensures forall i :: 0 <= i < |s| ==> r[i] == if from(s[i]) then to else s[i]
  {
    seq(|s|, i requires 0 <= i < |s| => if from(s[i]) then to else s[i])
  }

  /** The first position of `c` in `s`, or -1. */
  function IndexOfChar(s: string, c: char): (r: int)
    ensures r == -1 <==> c !in s
    ensures r != -1 ==> 0 <= r < |s| && s[r] == c && c !in s[..r]
  {
    if s == [] then -1
    else if s[0] == c then 0
    else
      var k := IndexOfChar(s[1..], c);
      if k == -1 then -1 else k + 1
  }

  /** The first `c` in `s` is at `k` when `s[k]` is `c` and no earlier
      character is. */
  lemma IndexOfCharAt(s: string, c: char, k: nat)
    requires k < |s| && s[k] == c && c !in s[..k]
    ensures IndexOfChar(s, c) == k
  {
  }

  /** `parts.join(c)`. */
  function Join(parts: seq<string>, c: char): string {
    if parts == [] then ""
    else if |parts| == 1 then parts[0]
    else parts[0] + [c] + Join(parts[1..], c)
  }

  /** `s.split(c)`: the part before the first `c`, then the parts of what
      follows it; `SplitJoinsBack` states what the parts are. */
  function Split(s: string, c: char): (parts: seq<string>)
    ensures |parts| >= 1
    decreases |s|
  {
    var i := IndexOfChar(s, c);
    if i == -1 then [s] else [s[..i]] + Split(s[i + 1..], c)
  }

  /** No part holds the separator, there is more than one part exactly when
      `s` holds it, and joining the parts back with it gives `s` again. */
  lemma {:induction false} SplitJoinsBack(s: string, c: char)
    ensures forall i :: 0 <= i < |Split(s, c)| ==> c !in Split(s, c)[i]
    ensures Join(Split(s, c), c) == s
    ensures |Split(s, c)| == 1 <==> c !in s
    decreases |s|
  {
    var i := IndexOfChar(s, c);
    if i != -1 {
      SplitJoinsBack(s[i + 1..], c);
      SplitStep(s, c, i, Split(s[i + 1..], c));
    }
  }

  /** One step of `Split`: the part before the first separator, followed by
      the parts of what comes after it. */
  lemma SplitStep(s: string, c: char, i: nat, rest: seq<string>)
    requires i < |s| && s[i] == c && c !in s[..i]
    requires |rest| >= 1 && Join(rest, c) == s[i + 1..]
    requires forall j :: 0 <= j < |rest| ==> c !in rest[j]
    ensures var parts := [s[..i]] + rest;
            |parts| >= 2 && Join(parts, c) == s && forall j :: 0 <= j < |parts| ==> c !in parts[j]
  {
    var parts := [s[..i]] + rest;
    assert parts[1..] == rest;
    assert s == s[..i] + [c] + s[i + 1..];
    forall j | 0 <= j < |parts|
      ensures c !in parts[j]
    {
      if j > 0 {
        assert parts[j] == rest[j - 1];
      }
    }
  }

  /** The other half of the round trip: splitting a join of separator-free
      parts gives the parts back. */
  lemma {:induction false} SplitJoin(parts: seq<string>, c: char)
    requires |parts| >= 1
    requires forall i :: 0 <= i < |parts| ==> c !in parts[i]
    ensures Split(Join(parts, c), c) == parts
    decreases |parts|
  {
    if |parts| > 1 {
      var s := Join(parts, c);
      var p := parts[0];
      assert s == p + [c] + Join(parts[1..], c);
      assert s[..|p|] == p;
      IndexOfCharAt(s, c, |p|);
      assert s[|p| + 1..] == Join(parts[1..], c);
      SplitJoin(parts[1..], c);
    }
  }

  /** `SplitJoin` for a string known to be such a join. */
  lemma SplitOfJoin(s: string, parts: seq<string>, c: char)
    requires |parts| >= 1 && s == Join(parts, c)
    requires forall i :: 0 <= i < |parts| ==> c !in parts[i]
    ensures Split(s, c) == parts
  {
    SplitJoin(parts, c);
  }

  /** The decimal digits of `n`, as `String(n)` prints a non-negative integer. */
  function NatToString(n: nat): (r: string)
    ensures |r| >= 1
    ensures forall i :: 0 <= i < |r| ==> '0' <= r[i] <= '9'
    ensures |r| > 1 ==> r[0] != '0'
  {
    var d := ['0' + (n % 10) as char];
    if n < 10 then d else NatToString(n / 10) + d
  }
}
