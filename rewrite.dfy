/**
 * The global regular-expression replacements of `beautifyCode`, as string
 * functions. A global `replace` scans left to right and resumes after each
 * match, so each function consumes a match whole and then recurses on the rest.
 */
module Rewrite {
  import opened Text

  /** `n` copies of `c`. */
  function Repeat(c: char, n: nat): (r: string)
    ensures |r| == n
    ensures forall i :: 0 <= i < n ==> r[i] == c
  {
    seq(n, _ => c)
  }

  function Min(a: nat, b: nat): nat {
    if a <= b then a else b
  }

  /** `s` with every `c` removed. */
  function Without(s: string, c: char): (r: string)
    ensures c !in r
  {
    if |s| == 0 then []
    else (if s[0] == c then [] else [s[0]]) + Without(s[1..], c)
  }

  lemma {:induction false} WithoutAppend(a: string, b: string, c: char)
    ensures Without(a + b, c) == Without(a, c) + Without(b, c)
  {
    if |a| == 0 {
      EmptyLeft(a, b);
    } else {
      AppendTail(a, b);
      WithoutAppend(a[1..], b, c);
      Regroup3(if a[0] == c then [] else [a[0]], Without(a[1..], c), Without(b, c));
    }
  }

  lemma WithoutNone(s: string, c: char)
    requires c !in s
    ensures Without(s, c) == s
  {
  }

  lemma {:induction false} WithoutRepeat(c: char, n: nat)
    ensures Without(Repeat(c, n), c) == []
  {
    if n > 0 {
      assert Repeat(c, n)[1..] == Repeat(c, n - 1);
      WithoutRepeat(c, n - 1);
    }
  }

  // ---------------------------------------------------------------------
  // Sequence facts, stated for any element type

  lemma HeadTail<T>(s: seq<T>)
    requires |s| > 0
    ensures s == [s[0]] + s[1..]
  {
  }

  lemma EmptyLeft<T>(a: seq<T>, b: seq<T>)
    requires a == []
    ensures a + b == b
  {
  }

  lemma AppendTail<T>(a: seq<T>, b: seq<T>)
    requires |a| > 0
    ensures (a + b)[0] == a[0] && (a + b)[1..] == a[1..] + b
  {
  }

  lemma ConsTail<T>(x: T, s: seq<T>)
    ensures ([x] + s)[0] == x && ([x] + s)[1..] == s
  {
  }

  lemma PairCons<T>(x: T, y: T, s: seq<T>)
    ensures [x, y] + s == [x] + ([y] + s)
  {
  }

  lemma Regroup3<T>(a: seq<T>, b: seq<T>, c: seq<T>)
    ensures a + b + c == a + (b + c)
  {
  }

  /** `s` around the element that follows its prefix `p`. */
  lemma SplitAround<T>(s: seq<T>, p: seq<T>)
    requires p <= s && |p| < |s|
    ensures s == p + ([s[|p|]] + s[|p| + 1..])
  {
    assert s == s[..|p|] + s[|p|..];
    assert s[|p|..] == [s[|p|]] + s[|p| + 1..];
  }

  /** A prefix of `[c] + rest` that is followed by one more element. */
  lemma ConsPrefix<T>(c: T, rest: seq<T>, p: seq<T>)
    requires |p| > 0 && p <= [c] + rest && |p| < |rest| + 1
    ensures p[0] == c && p[1..] + [([c] + rest)[|p|]] <= rest
  {
    var r := [c] + rest;
    assert r[1..] == rest;
    var q := p[1..] + [r[|p|]];
    assert forall j | 0 <= j < |q| :: q[j] == rest[j] by {
      forall j | 0 <= j < |q| ensures q[j] == rest[j] {
        if j < |p| - 1 {
          assert q[j] == p[j + 1] == r[j + 1];
        }
      }
    }
    assert q == rest[..|q|];
  }

  lemma PrefixCons<T>(c: T, t: seq<T>, p: seq<T>, x: T)
    requires |p| > 0
    ensures p[0] == c && p[1..] + [x] <= t ==>
      p <= [c] + t && |p| < |t| + 1 && ([c] + t)[|p|] == x
  {
    if p[0] == c && p[1..] + [x] <= t {
      var r := [c] + t;
      assert r[|p|] == t[|p| - 1] == (p[1..] + [x])[|p| - 1];
      forall j | 0 <= j < |p| ensures p[j] == r[j] {
        if j > 0 {
          assert p[j] == (p[1..] + [x])[j - 1];
        }
      }
      assert p == r[..|p|];
    }
  }

  // ---------------------------------------------------------------------
  // Spacing around an arrow

  /** The strings the arrow rules apply to: `-->` and `---` hold neither word
      characters nor spaces. */
  predicate Symbolic(p: string) {
    forall j :: 0 <= j < |p| ==> !IsWordChar(p[j]) && p[j] != ' '
  }

  /** A word character directly before an occurrence of `p`. */
  predicate WordBefore(s: string, p: string) {
    exists i | 0 <= i < |s| :: IsWordChar(s[i]) && OccursAt(s, p, i + 1)
  }

  /** An occurrence of `p` directly followed by a word character. */
  predicate WordAfter(s: string, p: string) {
    exists i | 0 <= i && i + |p| < |s| :: OccursAt(s, p, i) && IsWordChar(s[i + |p|])
  }

  /** `s.replace(/(\w)p/g, '$1 p')` */
  function SpaceBefore(s: string, p: string): string
    decreases |s|
  {
    if |s| == 0 then []
    else if IsWordChar(s[0]) && p <= s[1..] then [s[0], ' '] + p + SpaceBefore(s[1 + |p|..], p)
    else [s[0]] + SpaceBefore(s[1..], p)
  }

  /** `s.replace(/p(\w)/g, 'p $1')` */
  function SpaceAfter(s: string, p: string): string
    decreases |s|
  {
    if |s| == 0 then []
    else if p <= s && |p| < |s| && IsWordChar(s[|p|]) then p + [' ', s[|p|]] + SpaceAfter(s[|p| + 1..], p)
    else [s[0]] + SpaceAfter(s[1..], p)
  }

  lemma SymbolicTail(q: string)
    requires |q| > 0 && Symbolic(q)
    ensures Symbolic(q[1..])
  {
    forall j | 0 <= j < |q[1..]|
      ensures !IsWordChar(q[1..][j]) && q[1..][j] != ' '
    {
      assert q[1..][j] == q[j + 1];
    }
  }

  /** Output of `SpaceBefore` starts with a symbolic `q` only where the input does. */
  lemma {:induction false} SpaceBeforePrefix(t: string, q: string, p: string)
    requires Symbolic(q)
    ensures q <= SpaceBefore(t, p) ==> q <= t
    decreases |t|
  {
    if |t| > 0 && |q| > 0 {
      if IsWordChar(t[0]) && p <= t[1..] {
        assert SpaceBefore(t, p)[0] == t[0];
      } else {
        var rest := SpaceBefore(t[1..], p);
        assert SpaceBefore(t, p) == [t[0]] + rest;
        SymbolicTail(q);
        SpaceBeforePrefix(t[1..], q[1..], p);
        if q <= SpaceBefore(t, p) {
          assert q[1..] <= rest;
          assert q == [t[0]] + q[1..];
        }
      }
    }
  }

  lemma OccursShifted(r: string, k: nat, p: string, i: nat)
    requires k <= i
    requires k <= |r|
    ensures OccursAt(r, p, i) <==> OccursAt(r[k..], p, i - k)
  {
    if i + |p| <= |r| {
      assert r[i..i + |p|] == r[k..][i - k..i - k + |p|];
    }
  }

  /** A match rewritten as `c`, a space and `p`, in front of separated text, stays separated. */
  lemma InsertKeepsSeparated(c: char, p: string, rest: string)
    requires |p| > 0 && Symbolic(p) && !WordBefore(rest, p)
    ensures !WordBefore([c, ' '] + p + rest, p)
  {
    var r := [c, ' '] + p + rest;
    var k := 2 + |p|;
    assert r[k..] == rest;
    assert forall j :: 2 <= j < k ==> r[j] == p[j - 2];
    forall i | 0 <= i < |r| && IsWordChar(r[i])
      ensures !OccursAt(r, p, i + 1)
    {
      if i == 0 {
        MismatchAt(r, p, 1, 0);
      } else if i >= k {
        OccursShifted(r, k, p, i + 1);
        assert r[i] == rest[i - k];
      }
    }
  }

  /** A copied character in front of separated text keeps it separated, unless a
      word character lands in front of a `p`. */
  lemma CopyKeepsSeparated(c: char, p: string, rest: string)
    requires !WordBefore(rest, p)
    requires IsWordChar(c) ==> !(p <= rest)
    ensures !WordBefore([c] + rest, p)
  {
    var r := [c] + rest;
    assert r[1..] == rest;
    forall i | 0 <= i < |r| && IsWordChar(r[i])
      ensures !OccursAt(r, p, i + 1)
    {
      OccursShifted(r, 1, p, i + 1);
      if i == 0 {
        if |p| <= |rest| {
          assert rest[0..|p|] == rest[..|p|];
        }
      } else {
        assert r[i] == rest[i - 1];
      }
    }
  }

  /** After `SpaceBefore`, no word character touches the start of a `p`. */
  lemma {:induction false} SpaceBeforeSeparates(s: string, p: string)
    requires |p| > 0 && Symbolic(p)
    ensures !WordBefore(SpaceBefore(s, p), p)
    decreases |s|
  {
    if |s| > 0 {
      if IsWordChar(s[0]) && p <= s[1..] {
        SpaceBeforeSeparates(s[1 + |p|..], p);
        InsertKeepsSeparated(s[0], p, SpaceBefore(s[1 + |p|..], p));
      } else {
        SpaceBeforeSeparates(s[1..], p);
        SpaceBeforePrefix(s[1..], p, p);
        CopyKeepsSeparated(s[0], p, SpaceBefore(s[1..], p));
      }
    }
  }

  /** `SpaceBefore` only inserts spaces. */
  lemma {:induction false} SpaceBeforeOnlySpaces(s: string, p: string)
    requires ' ' !in p
    ensures Without(SpaceBefore(s, p), ' ') == Without(s, ' ')
    decreases |s|
  {
    if |s| > 0 {
      if IsWordChar(s[0]) && p <= s[1..] {
        var t := s[1 + |p|..];
        SpaceBeforeOnlySpaces(t, p);
        WithoutAppend([s[0], ' '] + p, SpaceBefore(t, p), ' ');
        WithoutAppend([s[0], ' '], p, ' ');
        WithoutAppend([s[0]], [' '], ' ');
        WithoutNone(p, ' ');
        assert s == [s[0]] + p + t;
        WithoutAppend([s[0]] + p, t, ' ');
        WithoutAppend([s[0]], p, ' ');
      } else {
        SpaceBeforeOnlySpaces(s[1..], p);
        WithoutAppend([s[0]], SpaceBefore(s[1..], p), ' ');
      }
    }
  }

  lemma WordBeforeShift(s: string, p: string)
    requires |s| > 0
    ensures WordBefore(s[1..], p) ==> WordBefore(s, p)
  {
    if WordBefore(s[1..], p) {
      var i :| 0 <= i < |s| - 1 && IsWordChar(s[1..][i]) && OccursAt(s[1..], p, i + 1);
      assert s[i + 2..i + 2 + |p|] == s[1..][i + 1..i + 1 + |p|];
      assert IsWordChar(s[i + 1]) && OccursAt(s, p, i + 2);
    }
  }

  /** Where no word character touches a `p`, `SpaceBefore` changes nothing. */
  lemma {:induction false} SpaceBeforeUnneeded(s: string, p: string)
    ensures !WordBefore(s, p) ==> SpaceBefore(s, p) == s
    decreases |s|
  {
    if |s| > 0 {
      if IsWordChar(s[0]) && p <= s[1..] {
        assert s[1..1 + |p|] == p;
        assert OccursAt(s, p, 1);
      } else {
        WordBeforeShift(s, p);
        SpaceBeforeUnneeded(s[1..], p);
      }
    }
  }

  /** Output of `SpaceAfter` has a symbolic `q` followed by a word character only where the input does. */
  lemma {:induction false} SpaceAfterPrefix(t: string, q: string, x: char, p: string)
    requires Symbolic(q) && Symbolic(p)
    ensures IsWordChar(x) && q + [x] <= SpaceAfter(t, p) ==> q + [x] <= t
    decreases |t|
  {
    if |t| > 0 {
      if p <= t && |p| < |t| && IsWordChar(t[|p|]) {
        var r := SpaceAfter(t, p);
        assert r == p + [' ', t[|p|]] + SpaceAfter(t[|p| + 1..], p);
        if |q| < |p| {
          assert r[|q|] == p[|q|];
        } else if |q| == |p| {
          assert r[|q|] == ' ';
        } else {
          assert r[|p|] == ' ';
        }
      } else if |q| == 0 {
        assert SpaceAfter(t, p)[0] == t[0];
      } else {
        var rest := SpaceAfter(t[1..], p);
        assert SpaceAfter(t, p) == [t[0]] + rest;
        SymbolicTail(q);
        assert (q + [x])[1..] == q[1..] + [x];
        SpaceAfterPrefix(t[1..], q[1..], x, p);
        if IsWordChar(x) && q + [x] <= SpaceAfter(t, p) {
          assert q + [x] == [t[0]] + (q[1..] + [x]);
        }
      }
    }
  }

  lemma InsertKeepsSeparatedAfter(p: string, w: char, rest: string)
    requires |p| > 0 && Symbolic(p) && IsWordChar(w) && !WordAfter(rest, p)
    ensures !WordAfter(p + [' ', w] + rest, p)
  {
    var r := p + [' ', w] + rest;
    var k := |p| + 2;
    assert r[k..] == rest;
    assert r[|p|] == ' ' && r[|p| + 1] == w;
    forall i | 0 <= i && i + |p| < |r|
      ensures OccursAt(r, p, i) ==> !IsWordChar(r[i + |p|])
    {
      if 0 < i <= |p| {
        MismatchAt(r, p, i, |p| - i);
      } else if i == |p| + 1 {
        MismatchAt(r, p, i, 0);
      } else if i >= k {
        OccursShifted(r, k, p, i);
        assert r[i + |p|] == rest[i - k + |p|];
      }
    }
  }

  lemma CopyKeepsSeparatedAfter(c: char, p: string, rest: string)
    requires !WordAfter(rest, p)
    requires p <= [c] + rest && |p| < |rest| + 1 ==> !IsWordChar(([c] + rest)[|p|])
    ensures !WordAfter([c] + rest, p)
  {
    var r := [c] + rest;
    assert r[1..] == rest;
    forall i | 0 <= i && i + |p| < |r|
      ensures OccursAt(r, p, i) ==> !IsWordChar(r[i + |p|])
    {
      if i == 0 {
        assert OccursAt(r, p, 0) ==> r[..|p|] == p;
      } else {
        OccursShifted(r, 1, p, i);
        assert r[i + |p|] == rest[i - 1 + |p|];
      }
    }
  }

  /** After `SpaceAfter`, no word character directly follows a `p`. */
  lemma {:induction false} SpaceAfterSeparates(s: string, p: string)
    requires |p| > 0 && Symbolic(p)
    ensures !WordAfter(SpaceAfter(s, p), p)
    decreases |s|
  {
    if |s| > 0 {
      if p <= s && |p| < |s| && IsWordChar(s[|p|]) {
        var t := s[|p| + 1..];
        SpaceAfterSeparates(t, p);
        InsertKeepsSeparatedAfter(p, s[|p|], SpaceAfter(t, p));
      } else {
        var t := s[1..];
        var rest := SpaceAfter(t, p);
        var r := [s[0]] + rest;
        SpaceAfterSeparates(t, p);
        if p <= r && |p| < |r| {
          var x := r[|p|];
          SymbolicTail(p);
          ConsPrefix(s[0], rest, p);
          SpaceAfterPrefix(t, p[1..], x, p);
          PrefixCons(s[0], t, p, x);
          HeadTail(s);
        }
        CopyKeepsSeparatedAfter(s[0], p, rest);
      }
    }
  }

  lemma WithoutCons(x: char, s: string, c: char)
    ensures x == c ==> Without([x] + s, c) == Without(s, c)
    ensures x != c ==> Without([x] + s, c) == [x] + Without(s, c)
  {
    ConsTail(x, s);
    EmptyLeft([], Without(s, c));
  }

  lemma WithoutInsertAfter(p: string, w: char, t: string, rest: string)
    requires ' ' !in p && w != ' ' && Without(rest, ' ') == Without(t, ' ')
    ensures Without(p + ([' ', w] + rest), ' ') == Without(p + ([w] + t), ' ')
  {
    PairCons(' ', w, rest);
    WithoutCons(' ', [w] + rest, ' ');
    WithoutCons(w, rest, ' ');
    WithoutCons(w, t, ' ');
    WithoutAppend(p, [' ', w] + rest, ' ');
    WithoutAppend(p, [w] + t, ' ');
  }

  /** `SpaceAfter` only inserts spaces. */
  lemma {:induction false} SpaceAfterOnlySpaces(s: string, p: string)
    requires ' ' !in p
    ensures Without(SpaceAfter(s, p), ' ') == Without(s, ' ')
    decreases |s|
  {
    if |s| > 0 {
      if p <= s && |p| < |s| && IsWordChar(s[|p|]) {
        var w := s[|p|];
        var t := s[|p| + 1..];
        SpaceAfterOnlySpaces(t, p);
        WithoutInsertAfter(p, w, t, SpaceAfter(t, p));
        SplitAround(s, p);
        Regroup3(p, [' ', w], SpaceAfter(t, p));
      } else {
        SpaceAfterOnlySpaces(s[1..], p);
        WithoutAppend([s[0]], SpaceAfter(s[1..], p), ' ');
      }
    }
  }

  lemma WordAfterShift(s: string, p: string)
    requires |s| > 0
    ensures WordAfter(s[1..], p) ==> WordAfter(s, p)
  {
    if WordAfter(s[1..], p) {
      var i :| 0 <= i && i + |p| < |s| - 1 && OccursAt(s[1..], p, i) && IsWordChar(s[1..][i + |p|]);
      OccursShifted(s, 1, p, i + 1);
      assert IsWordChar(s[i + 1 + |p|]);
    }
  }

  /** Where no word character follows a `p`, `SpaceAfter` changes nothing. */
  lemma {:induction false} SpaceAfterUnneeded(s: string, p: string)
    ensures !WordAfter(s, p) ==> SpaceAfter(s, p) == s
    decreases |s|
  {
    if |s| > 0 {
      if p <= s && |p| < |s| && IsWordChar(s[|p|]) {
        assert s[..|p|] == p;
        assert OccursAt(s, p, 0);
      } else {
        WordAfterShift(s, p);
        SpaceAfterUnneeded(s[1..], p);
      }
    }
  }

  // ---------------------------------------------------------------------
  // Collapsing runs of one character

  /** Length of the run of `c` at the start of `s`. */
  function RunLength(s: string, c: char): (n: nat)
    ensures n <= |s|
    ensures forall j :: 0 <= j < n ==> s[j] == c
    ensures n < |s| ==> s[n] != c
  {
    if |s| > 0 && s[0] == c then 1 + RunLength(s[1..], c) else 0
  }

  /** Every maximal run of `c` longer than `m` shortened to `m`: `s.replace(/ {2,}/g, ' ')`
      is `CapRuns(s, ' ', 1)` and `s.replace(/\n{3,}/g, '\n\n')` is `CapRuns(s, '\n', 2)`. */
  function CapRuns(s: string, c: char, m: nat): string
    decreases |s|
  {
    if |s| == 0 then []
    else if s[0] != c then [s[0]] + CapRuns(s[1..], c, m)
    else
      var n := RunLength(s, c);
      Repeat(c, Min(n, m)) + CapRuns(s[n..], c, m)
  }

  lemma CapFirst(s: string, c: char, m: nat)
    requires m >= 1
    ensures |CapRuns(s, c, m)| > 0 <==> |s| > 0
    ensures |s| > 0 ==> CapRuns(s, c, m)[0] == s[0]
  {
  }

  /** Capping runs of `c` creates no pair that starts with another character. */
  lemma {:induction false} CapPair(s: string, c: char, m: nat, x: char, y: char)
    requires m >= 1 && x != c
    ensures HasPair(CapRuns(s, c, m), x, y) ==> HasPair(s, x, y)
    decreases |s|
  {
    if |s| > 0 {
      var r := CapRuns(s, c, m);
      if s[0] != c {
        var rest := CapRuns(s[1..], c, m);
        assert r == [s[0]] + rest;
        CapPair(s[1..], c, m, x, y);
        CapFirst(s[1..], c, m);
        PairInSlice(s, 1, |s|, x, y);
        if HasPair(r, x, y) {
          var i :| 0 <= i < |r| - 1 && r[i] == x && r[i + 1] == y;
          if i == 0 {
            assert s[0] == x && s[1] == y;
          } else {
            assert rest[i - 1] == x && rest[i] == y;
          }
        }
      } else {
        var n := RunLength(s, c);
        var k := Min(n, m);
        var rest := CapRuns(s[n..], c, m);
        assert r == Repeat(c, k) + rest;
        CapPair(s[n..], c, m, x, y);
        PairInSlice(s, n, |s|, x, y);
        if HasPair(r, x, y) {
          var i :| 0 <= i < |r| - 1 && r[i] == x && r[i + 1] == y;
          assert i >= k;
          assert rest[i - k] == x && rest[i - k + 1] == y;
        }
      }
    }
  }

  /** After capping runs of `c` at one, no two `c` are adjacent. */
  lemma {:induction false} CapAtOne(s: string, c: char)
    ensures !HasPair(CapRuns(s, c, 1), c, c)
    decreases |s|
  {
    if |s| > 0 {
      var r := CapRuns(s, c, 1);
      if s[0] != c {
        var rest := CapRuns(s[1..], c, 1);
        assert r == [s[0]] + rest;
        CapAtOne(s[1..], c);
        forall i | 0 <= i < |r| - 1
          ensures !(r[i] == c && r[i + 1] == c)
        {
          if i > 0 {
            assert r[i] == rest[i - 1] && r[i + 1] == rest[i];
          }
        }
      } else {
        var n := RunLength(s, c);
        var rest := CapRuns(s[n..], c, 1);
        assert r == [c] + rest;
        CapAtOne(s[n..], c);
        CapFirst(s[n..], c, 1);
        forall i | 0 <= i < |r| - 1
          ensures !(r[i] == c && r[i + 1] == c)
        {
          if i > 0 {
            assert r[i] == rest[i - 1] && r[i + 1] == rest[i];
          } else {
            assert r[1] == rest[0] == s[n];
          }
        }
      }
    }
  }

  /** Three `c` in a row. */
  predicate HasTriple(s: string, c: char) {
    exists i | 0 <= i < |s| - 2 :: s[i] == c && s[i + 1] == c && s[i + 2] == c
  }

  lemma TripleInSlice(s: string, a: nat, b: nat, c: char)
    requires a <= b <= |s|
    ensures HasTriple(s[a..b], c) ==> HasTriple(s, c)
  {
    if HasTriple(s[a..b], c) {
      var i :| 0 <= i < b - a - 2 && s[a..b][i] == c && s[a..b][i + 1] == c && s[a..b][i + 2] == c;
      assert s[a + i] == c && s[a + i + 1] == c && s[a + i + 2] == c;
    }
  }

  /** After capping runs of `c` at two, no three `c` are adjacent. */
  lemma {:induction false} CapAtTwo(s: string, c: char)
    ensures !HasTriple(CapRuns(s, c, 2), c)
    decreases |s|
  {
    if |s| > 0 {
      var r := CapRuns(s, c, 2);
      if s[0] != c {
        var rest := CapRuns(s[1..], c, 2);
        assert r == [s[0]] + rest;
        CapAtTwo(s[1..], c);
        forall i | 0 <= i < |r| - 2
          ensures !(r[i] == c && r[i + 1] == c && r[i + 2] == c)
        {
          if i > 0 {
            assert r[i] == rest[i - 1] && r[i + 1] == rest[i] && r[i + 2] == rest[i + 1];
          }
        }
      } else {
        var n := RunLength(s, c);
        var k := Min(n, 2);
        var rest := CapRuns(s[n..], c, 2);
        assert r == Repeat(c, k) + rest;
        CapAtTwo(s[n..], c);
        CapFirst(s[n..], c, 2);
        forall i | 0 <= i < |r| - 2
          ensures !(r[i] == c && r[i + 1] == c && r[i + 2] == c)
        {
          if i >= k {
            assert r[i] == rest[i - k] && r[i + 1] == rest[i - k + 1] && r[i + 2] == rest[i - k + 2];
          } else {
            assert r[k] == rest[0] == s[n];
          }
        }
      }
    }
  }

  lemma WithoutRun(s: string, c: char)
    ensures Without(s, c) == Without(s[RunLength(s, c)..], c)
  {
    var n := RunLength(s, c);
    assert s == Repeat(c, n) + s[n..];
    WithoutAppend(Repeat(c, n), s[n..], c);
    WithoutRepeat(c, n);
  }

  /** Capping runs of `c` removes only `c`s. */
  lemma {:induction false} CapOnlyRemoves(s: string, c: char, m: nat)
    ensures Without(CapRuns(s, c, m), c) == Without(s, c)
    decreases |s|
  {
    if |s| > 0 {
      if s[0] != c {
        CapOnlyRemoves(s[1..], c, m);
        WithoutAppend([s[0]], CapRuns(s[1..], c, m), c);
      } else {
        var n := RunLength(s, c);
        CapOnlyRemoves(s[n..], c, m);
        WithoutAppend(Repeat(c, Min(n, m)), CapRuns(s[n..], c, m), c);
        WithoutRepeat(c, Min(n, m));
        WithoutRun(s, c);
      }
    }
  }
}
