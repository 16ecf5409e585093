/**
 * String primitives shared by the Mermaid utilities and the auth service:
 * JavaScript's notion of whitespace (String.prototype.trim, regex \s),
 * ASCII case folding, substring search, and split/join on one separator.
 *
 * A `char` stands for one UTF-16 code unit of a JavaScript string, so
 * lengths and indices agree with `.length`, `.indexOf` and `match.index`.
 */
module Wrappers {
  datatype Option<+T> = None | Some(value: T)
}

module Text {
  import opened Wrappers

  /** ECMAScript WhiteSpace and LineTerminator code points: what `trim()` strips and `\s` matches. */
  predicate IsWhitespace(c: char) {
    c == '\t' || c == '\n' || c == '\U{B}' || c == '\U{C}' || c == '\r' || c == ' '
    || c == '\U{A0}' || c == '\U{1680}' || ('\U{2000}' <= c <= '\U{200A}')
    || c == '\U{2028}' || c == '\U{2029}' || c == '\U{202F}' || c == '\U{205F}'
    || c == '\U{3000}' || c == '\U{FEFF}'
  }

  /** The characters a regex `.` does not match (ECMAScript LineTerminator). */
  predicate IsLineTerminator(c: char) {
    c == '\n' || c == '\r' || c == '\U{2028}' || c == '\U{2029}'
  }

  predicate IsDigit(c: char) { '0' <= c <= '9' }

  /** `[A-Za-z0-9]` */
  predicate IsAlnum(c: char) { 'a' <= c <= 'z' || 'A' <= c <= 'Z' || IsDigit(c) }

  /** Regex `\w`: `[A-Za-z0-9_]` */
  predicate IsWordChar(c: char) { IsAlnum(c) || c == '_' }

  predicate NoWhitespace(s: string) {
    forall i :: 0 <= i < |s| ==> !IsWhitespace(s[i])
  }

  predicate AllWhitespace(s: string) {
    forall i :: 0 <= i < |s| ==> IsWhitespace(s[i])
  }

  /** ASCII lower-case letters are not whitespace. */
  lemma LowerLettersAreNotWhitespace(s: string)
    requires forall i :: 0 <= i < |s| ==> 'a' <= s[i] <= 'z'
    ensures NoWhitespace(s)
  {
  }

  /** ASCII part of `toLowerCase`. */
  function LowerChar(c: char): (r: char)
    ensures 'A' <= c <= 'Z' ==> 'a' <= r <= 'z'
    ensures !('A' <= c <= 'Z') ==> r == c
  {
    if 'A' <= c <= 'Z' then (c as int + 32) as char else c
  }

  function Lower(s: string): (r: string)
    ensures |r| == |s|
    ensures forall i :: 0 <= i < |s| ==> r[i] == LowerChar(s[i])
  {
    seq(|s|, i requires 0 <= i < |s| => LowerChar(s[i]))
  }

  /** `n` space characters, as `' '.repeat(n)`. */
  function Spaces(n: nat): (r: string)
    ensures |r| == n
    ensures forall i :: 0 <= i < n ==> r[i] == ' '
  {
    seq(n, _ => ' ')
  }

  // ---------------------------------------------------------------------
  // Trimming

  /** `trimStart()`: the longest suffix that does not start with whitespace. */
  function TrimStart(s: string): (r: string)
    ensures |r| <= |s| && r == s[|s| - |r|..]
    ensures AllWhitespace(s[..|s| - |r|])
    ensures |r| > 0 ==> !IsWhitespace(r[0])
    decreases |s|
  {
    if |s| > 0 && IsWhitespace(s[0]) then TrimStart(s[1..]) else s
  }

  /** `trimEnd()`: the longest prefix that does not end with whitespace. */
  function TrimEnd(s: string): (r: string)
    ensures |r| <= |s| && r == s[..|r|]
    ensures AllWhitespace(s[|r|..])
    ensures |r| > 0 ==> !IsWhitespace(r[|r| - 1])
    decreases |s|
  {
    if |s| > 0 && IsWhitespace(s[|s| - 1]) then TrimEnd(s[..|s| - 1]) else s
  }

  /** `trim()` */
  function Trim(s: string): (r: string)
    ensures |r| <= |s|
    ensures r == [] <==> AllWhitespace(s)
    ensures |r| > 0 ==> !IsWhitespace(r[0]) && !IsWhitespace(r[|r| - 1])
  {
    var t := TrimStart(s);
    assert AllWhitespace(s) ==> t == [];
    assert t == [] ==> s == s[..|s|];
    var r := TrimEnd(t);
    assert r == [] && t != [] ==> t[0] == t[|r|..][0];
    r
  }

  /** Every character of `Trim(s)` is a character of `s`. */
  lemma TrimChars(s: string, c: char)
    requires c in Trim(s)
    ensures c in s
  {
    var t := TrimStart(s);
    var r := TrimEnd(t);
    var i :| 0 <= i < |r| && r[i] == c;
    assert t[i] == c;
    assert s[|s| - |t| + i] == c;
  }

  /** Trimming a string that is already trimmed changes nothing. */
  lemma TrimTrimmed(s: string)
    requires |s| > 0 ==> !IsWhitespace(s[0]) && !IsWhitespace(s[|s| - 1])
    ensures Trim(s) == s
  {
  }

  /** Leading spaces are invisible to `trim()`. */
  lemma {:induction false} TrimAfterSpaces(n: nat, t: string)
    ensures Trim(Spaces(n) + t) == Trim(t)
  {
    if n > 0 {
      assert (Spaces(n) + t)[1..] == Spaces(n - 1) + t;
      TrimAfterSpaces(n - 1, t);
    } else {
      assert Spaces(n) + t == t;
    }
  }

  /** A trimmed text behind spaces trims back to itself. */
  lemma TrimIndented(n: nat, line: string)
    ensures Trim(Spaces(n) + Trim(line)) == Trim(line)
  {
    TrimAfterSpaces(n, Trim(line));
    TrimTrimmed(Trim(line));
  }

  /** `trimEnd()` of a concatenation: the second part absorbs the trimming unless it is all whitespace. */
  lemma {:induction false} TrimEndAppend(a: string, b: string)
    ensures AllWhitespace(b) ==> TrimEnd(a + b) == TrimEnd(a)
    ensures !AllWhitespace(b) ==> TrimEnd(a + b) == a + TrimEnd(b)
    decreases |b|
  {
    if |b| == 0 {
      assert a + b == a;
    } else {
      var b' := b[..|b| - 1];
      assert (a + b)[..|a + b| - 1] == a + b';
      TrimEndAppend(a, b');
      if !IsWhitespace(b[|b| - 1]) {
        assert !AllWhitespace(b);
      }
    }
  }

  lemma AllWhitespaceSuffix(s: string, n: nat)
    requires n <= |s| && AllWhitespace(s[n..])
    ensures forall m :: n <= m < |s| ==> IsWhitespace(s[m])
  {
    assert forall m :: n <= m < |s| ==> s[m] == s[n..][m - n];
  }

  /** An occurrence of a whitespace-free needle in `Lower(s)` ends before the trailing whitespace. */
  lemma OccurrenceBeforeTrailingWhitespace(s: string, p: string, i: int)
    requires NoWhitespace(p) && |p| > 0 && OccursAt(Lower(s), p, i)
    ensures i + |p| <= |TrimEnd(s)|
  {
    var t := TrimEnd(s);
    var k := i + |p| - 1;
    assert Lower(s)[k] == Lower(s)[i..i + |p|][|p| - 1];
    assert !IsWhitespace(s[k]);
    AllWhitespaceSuffix(s, |t|);
  }

  /** Whitespace at the end cannot be part of an occurrence of a whitespace-free needle. */
  lemma ContainsLowerTrimEnd(s: string, p: string)
    requires NoWhitespace(p)
    ensures Contains(Lower(s), p) <==> Contains(Lower(TrimEnd(s)), p)
  {
    var t := TrimEnd(s);
    var ls, lt := Lower(s), Lower(t);
    assert lt == ls[..|t|];
    if Contains(lt, p) {
      var i :| 0 <= i <= |lt| - |p| && OccursAt(lt, p, i);
      assert ls[i..i + |p|] == lt[i..i + |p|];
      assert OccursAt(ls, p, i);
    }
    if Contains(ls, p) && |p| > 0 {
      var i :| 0 <= i <= |ls| - |p| && OccursAt(ls, p, i);
      OccurrenceBeforeTrailingWhitespace(s, p, i);
      assert lt[i..i + |p|] == ls[i..i + |p|];
      assert OccursAt(lt, p, i);
    }
    if |p| == 0 {
      assert OccursAt(lt, p, 0);
    }
  }

  // ---------------------------------------------------------------------
  // Substring search

  /** `p` occurs in `s` starting at index `i`. */
  predicate OccursAt(s: string, p: string, i: int) {
    0 <= i && i + |p| <= |s| && s[i..i + |p|] == p
  }

  /** `s.includes(p)` */
  predicate Contains(s: string, p: string) {
    exists i | 0 <= i <= |s| - |p| :: OccursAt(s, p, i)
  }

  /** Leftmost occurrence of `p` in `s` at or after `k`: the search `indexOf` and
      an unanchored regex literal perform. */
  function FindFrom(s: string, p: string, k: nat): (r: Option<nat>)
    ensures r.Some? ==> k <= r.value && OccursAt(s, p, r.value)
    ensures r.Some? ==> forall j :: k <= j < r.value ==> !OccursAt(s, p, j)
    ensures r.None? ==> forall j :: k <= j ==> !OccursAt(s, p, j)
    decreases |s| - k
  {
    if k + |p| > |s| then None
    else if OccursAt(s, p, k) then Some(k)
    else FindFrom(s, p, k + 1)
  }

  /** `s.indexOf(p)`, with `None` for -1. */
  function IndexOf(s: string, p: string): (r: Option<nat>)
    ensures r.Some? <==> Contains(s, p)
    ensures r.Some? ==> OccursAt(s, p, r.value) && forall j :: 0 <= j < r.value ==> !OccursAt(s, p, j)
  {
    FindFrom(s, p, 0)
  }

  /** `p` (lower-case) occurs at `i` in `s` when case is ignored, as a regex with the `i` flag matches. */
  predicate OccursAtIgnoringCase(s: string, p: string, i: int) {
    0 <= i && i + |p| <= |s| && Lower(s[i..i + |p|]) == p
  }

  /** Leftmost case-insensitive occurrence of `p` at or after `k`. */
  function FindFromIgnoringCase(s: string, p: string, k: nat): (r: Option<nat>)
    ensures r.Some? ==> k <= r.value && OccursAtIgnoringCase(s, p, r.value)
    ensures r.Some? ==> forall j :: k <= j < r.value ==> !OccursAtIgnoringCase(s, p, j)
    ensures r.None? ==> forall j :: k <= j ==> !OccursAtIgnoringCase(s, p, j)
    decreases |s| - k
  {
    if k + |p| > |s| then None
    else if OccursAtIgnoringCase(s, p, k) then Some(k)
    else FindFromIgnoringCase(s, p, k + 1)
  }

  /** A string that lacks one of the characters of `p` does not contain `p`. */
  lemma NotContainsByChar(s: string, p: string, c: char)
    requires c in p && c !in s
    ensures !Contains(s, p)
  {
  }

  /** `p` does not occur at `i` when one of its characters differs from the text there. */
  lemma MismatchAt(s: string, p: string, i: int, j: nat)
    requires j < |p|
    requires 0 <= i && i + |p| <= |s| ==> s[i + j] != p[j]
    ensures !OccursAt(s, p, i)
  {
    if 0 <= i && i + |p| <= |s| {
      assert s[i..i + |p|][j] == s[i + j];
    }
  }

  /** A longer needle cannot occur where a shorter one it starts with does not. */
  lemma ContainsPrefixOf(s: string, p: string, q: string)
    requires q <= p && Contains(s, p)
    ensures Contains(s, q)
  {
    var i :| 0 <= i <= |s| - |p| && OccursAt(s, p, i);
    assert s[i..i + |q|] == p[..|q|];
    assert OccursAt(s, q, i);
  }

  /** `p` occurs inside `q`, so every string containing `q` contains `p`. */
  lemma ContainsInner(s: string, q: string, p: string, k: nat)
    requires OccursAt(q, p, k) && Contains(s, q)
    ensures Contains(s, p)
  {
    var i :| 0 <= i <= |s| - |q| && OccursAt(s, q, i);
    forall t | 0 <= t < |p|
      ensures s[i + k + t] == p[t]
    {
      assert q[k + t] == p[t];
      assert s[i + (k + t)] == q[k + t];
    }
    assert s[i + k..i + k + |p|] == p;
    assert OccursAt(s, p, i + k);
  }

  /** `s.split(d).length - 1` and the match counts of single-character regexes. */
  function Count(s: string, c: char): (n: nat)
    ensures n <= |s|
    ensures n == 0 <==> c !in s
  {
    if |s| == 0 then 0 else (if s[0] == c then 1 else 0) + Count(s[1..], c)
  }

  // ---------------------------------------------------------------------
  // split and join on one separator character

  /** `s.split(d)` for a one-character separator `d`. */
  function Split(s: string, d: char): (r: seq<string>)
    ensures |r| >= 1
    ensures forall i :: 0 <= i < |r| ==> d !in r[i]
    decreases |s|
  {
    if |s| == 0 then [[]]
    else
      var rest := Split(s[1..], d);
      if s[0] == d then [[]] + rest else [[s[0]] + rest[0]] + rest[1..]
  }

  /** `ls.join([d])` */
  function Join(ls: seq<string>, d: char): string
  {
    if |ls| == 0 then []
    else if |ls| == 1 then ls[0]
    else ls[0] + [d] + Join(ls[1..], d)
  }

  /** Joining the pieces of a split gives the original string back. */
  lemma {:induction false} JoinSplit(s: string, d: char)
    ensures Join(Split(s, d), d) == s
  {
    if |s| > 0 {
      var rest := Split(s[1..], d);
      JoinSplit(s[1..], d);
      if s[0] != d && |rest| > 1 {
        assert Join(rest, d) == rest[0] + [d] + Join(rest[1..], d);
      }
    }
  }

  /** A piece with no separator splits to itself. */
  lemma {:induction false} SplitSingle(a: string, d: char)
    requires d !in a
    ensures Split(a, d) == [a]
  {
    if |a| > 0 {
      SplitSingle(a[1..], d);
      assert [a[0]] + a[1..] == a;
    }
  }

  /** Splitting `a + [d] + t` gives `a` and then the pieces of `t`. */
  lemma {:induction false} SplitCons(a: string, t: string, d: char)
    requires d !in a
    ensures Split(a + [d] + t, d) == [a] + Split(t, d)
  {
    if |a| == 0 {
      assert a + [d] + t == [d] + t;
      assert ([d] + t)[1..] == t;
    } else {
      assert (a + [d] + t)[1..] == a[1..] + [d] + t;
      SplitCons(a[1..], t, d);
      assert [a[0]] + a[1..] == a;
    }
  }

  /** Splitting the join of separator-free pieces gives the pieces back. */
  lemma {:induction false} SplitJoin(ls: seq<string>, d: char)
    requires |ls| >= 1
    requires forall i :: 0 <= i < |ls| ==> d !in ls[i]
    ensures Split(Join(ls, d), d) == ls
  {
    if |ls| == 1 {
      SplitSingle(ls[0], d);
    } else {
      SplitJoin(ls[1..], d);
      SplitCons(ls[0], Join(ls[1..], d), d);
      assert [ls[0]] + ls[1..] == ls;
    }
  }

  // ---------------------------------------------------------------------
  // Adjacent characters

  /** Somewhere in `s`, an `x` is immediately followed by a `y`. */
  predicate HasPair(s: string, x: char, y: char) {
    exists i | 0 <= i < |s| - 1 :: s[i] == x && s[i + 1] == y
  }

  /** A pair inside a slice is a pair of the whole string. */
  lemma PairInSlice(s: string, a: nat, b: nat, x: char, y: char)
    requires a <= b <= |s|
    ensures HasPair(s[a..b], x, y) ==> HasPair(s, x, y)
  {
    if HasPair(s[a..b], x, y) {
      var i :| 0 <= i < b - a - 1 && s[a..b][i] == x && s[a..b][i + 1] == y;
      assert s[a + i] == x && s[a + i + 1] == y;
    }
  }

  /** `Trim(s)` is a slice of `s`. */
  lemma TrimSlice(s: string) returns (a: nat)
    ensures a + |Trim(s)| <= |s| && Trim(s) == s[a..a + |Trim(s)|]
  {
    var t := TrimStart(s);
    a := |s| - |t|;
    assert Trim(s) == TrimEnd(t);
    assert TrimEnd(t) == t[..|TrimEnd(t)|];
  }

  /** A pair inside one piece is a pair of the joined string. */
  lemma {:induction false} PairInPiece(ls: seq<string>, d: char, k: nat, x: char, y: char)
    requires k < |ls|
    ensures HasPair(ls[k], x, y) ==> HasPair(Join(ls, d), x, y)
  {
    if |ls| > 1 {
      var j := Join(ls, d);
      var rest := Join(ls[1..], d);
      assert j == ls[0] + [d] + rest;
      if k == 0 {
        assert j[..|ls[0]|] == ls[0];
        PairInSlice(j, 0, |ls[0]|, x, y);
      } else {
        assert ls[1..][k - 1] == ls[k];
        PairInPiece(ls[1..], d, k - 1, x, y);
        assert j[|ls[0]| + 1..] == rest;
        PairInSlice(j, |ls[0]| + 1, |j|, x, y);
      }
    }
  }

  /** Joining on a separator that is neither character of a pair creates no such pair. */
  lemma {:induction false} JoinAvoidsPair(ls: seq<string>, d: char, x: char, y: char)
    requires x != d && y != d
    requires forall k :: 0 <= k < |ls| ==> !HasPair(ls[k], x, y)
    ensures !HasPair(Join(ls, d), x, y)
  {
    if |ls| > 1 {
      var j := Join(ls, d);
      var rest := Join(ls[1..], d);
      var n := |ls[0]|;
      assert j == ls[0] + [d] + rest;
      assert forall k :: 0 <= k < |ls[1..]| ==> ls[1..][k] == ls[k + 1];
      JoinAvoidsPair(ls[1..], d, x, y);
      forall i | 0 <= i < |j| - 1
        ensures !(j[i] == x && j[i + 1] == y)
      {
        if i + 1 < n {
          assert j[i] == ls[0][i] && j[i + 1] == ls[0][i + 1];
        } else if i > n {
          assert j[i] == rest[i - n - 1] && j[i + 1] == rest[i - n];
        }
      }
    }
  }

  /** Joining pieces that end in no whitespace puts no whitespace other than `d` just before a `d`. */
  lemma {:induction false} JoinNoWhitespaceBefore(ls: seq<string>, d: char, x: char)
    requires IsWhitespace(x) && x != d
    requires forall k :: 0 <= k < |ls| ==> d !in ls[k] && (|ls[k]| > 0 ==> !IsWhitespace(ls[k][|ls[k]| - 1]))
    ensures !HasPair(Join(ls, d), x, d)
  {
    if |ls| == 1 {
      forall i | 0 <= i < |ls[0]| - 1
        ensures !(ls[0][i] == x && ls[0][i + 1] == d)
      {
        assert ls[0][i + 1] in ls[0];
      }
    } else if |ls| > 1 {
      var j := Join(ls, d);
      var rest := Join(ls[1..], d);
      var n := |ls[0]|;
      assert j == ls[0] + [d] + rest;
      assert forall k :: 0 <= k < |ls[1..]| ==> ls[1..][k] == ls[k + 1];
      JoinNoWhitespaceBefore(ls[1..], d, x);
      forall i | 0 <= i < |j| - 1
        ensures !(j[i] == x && j[i + 1] == d)
      {
        if i + 1 < n {
          assert j[i + 1] == ls[0][i + 1] && ls[0][i + 1] in ls[0];
        } else if i + 1 == n {
          assert j[i] == ls[0][n - 1];
        } else if i > n {
          assert j[i] == rest[i - n - 1] && j[i + 1] == rest[i - n];
        }
      }
    }
  }
}
