/**
 * The java.lang.String operations the scanner relies on, over `seq<char>`,
 * and the insertion-ordered sets that stand for Java's (Linked)HashSets.
 */
module Strings {

  predicate StartsWith(s: string, prefix: string) {
    |prefix| <= |s| && s[..|prefix|] == prefix
  }

  predicate EndsWith(s: string, suffix: string) {
    |suffix| <= |s| && s[|s| - |suffix|..] == suffix
  }

  /** `p` occurs in `s` starting at position `i`. */
  predicate OccursAt(s: string, p: string, i: int) {
    0 <= i && i + |p| <= |s| && s[i..i + |p|] == p
  }

  /** String.contains: `p` occurs at some position of `s`. */
  predicate Contains(s: string, p: string) {
    exists i | 0 <= i <= |s| - |p| :: OccursAt(s, p, i)
  }

  /** String.indexOf(char): the first position of `c`, or -1. */
  function IndexOf(s: string, c: char): (r: int)
    ensures -1 <= r < |s|
    ensures r == -1 <==> c !in s
    ensures r >= 0 ==> s[r] == c && c !in s[..r]
  {
    if s == [] then -1
    else if s[0] == c then 0
    else
      var k := IndexOf(s[1..], c);
      assert s[1..] == s[1..][..] && (k >= 0 ==> s[..k + 1] == [s[0]] + s[1..][..k]);
      if k == -1 then -1 else k + 1
  }

  /**
   * String.replace(CharSequence, CharSequence): every occurrence of `pat`,
   * found left to right and without overlap, becomes `rep`.
   */
  function Replace(s: string, pat: string, rep: string): string
    requires |pat| > 0
    decreases |s|
  {
    if |s| < |pat| then s
    else if s[..|pat|] == pat then rep + Replace(s[|pat|..], pat, rep)
    else [s[0]] + Replace(s[1..], pat, rep)
  }

  /** A string with no occurrence of the pattern comes back unchanged. */
  lemma {:induction false} ReplaceAbsent(s: string, pat: string, rep: string)
    requires |pat| > 0 && !Contains(s, pat)
    ensures Replace(s, pat, rep) == s
    decreases |s|
  {
    if |s| >= |pat| {
      assert !OccursAt(s, pat, 0);
      assert s[..|pat|] != pat;
      assert !Contains(s[1..], pat) by {
        forall i | OccursAt(s[1..], pat, i) ensures OccursAt(s, pat, i + 1) {
          assert s[1..][i..i + |pat|] == s[i + 1..i + 1 + |pat|];
        }
      }
      ReplaceAbsent(s[1..], pat, rep);
    }
  }

  /** Replacing a single character works character by character. */
  lemma {:induction false} ReplaceCharAppend(a: string, b: string, c: char, rep: string)
    ensures Replace(a + b, [c], rep) == Replace(a, [c], rep) + Replace(b, [c], rep)
    decreases |a|
  {
    if a == [] {
      assert a + b == b;
    } else {
      assert (a + b)[1..] == a[1..] + b;
      assert (a + b)[..1] == a[..1];
      ReplaceCharAppend(a[1..], b, c, rep);
    }
  }

  /** Replacing a single character, one step: the head character is mapped, the rest follows. */
  lemma ReplaceCharUnfold(x: string, a: char, rep: string)
    requires x != []
    ensures Replace(x, [a], rep) == (if x[0] == a then rep else [x[0]]) + Replace(x[1..], [a], rep)
  {
    assert x[..1] == [x[0]];
  }

  /** After replacing `a` by a text without `a`, no `a` is left; other characters are kept or come from `rep`. */
  lemma {:induction false} ReplaceCharMembers(x: string, a: char, rep: string)
    ensures forall d :: d in Replace(x, [a], rep) <==> (d in x && d != a) || (a in x && d in rep)
    decreases |x|
  {
    if x != [] {
      ReplaceCharUnfold(x, a, rep);
      ReplaceCharMembers(x[1..], a, rep);
      assert x == [x[0]] + x[1..];
    }
  }

  /** Mapping `a` to `b` and back is the identity when `b` did not occur before. */
  lemma {:induction false} ReplaceCharInverse(x: string, a: char, b: char)
    requires b !in x
    ensures Replace(Replace(x, [a], [b]), [b], [a]) == x
    decreases |x|
  {
    if x != [] {
      ReplaceCharUnfold(x, a, [b]);
      ReplaceCharInverse(x[1..], a, b);
      var head := if x[0] == a then [b] else [x[0]];
      ReplaceCharAppend(head, Replace(x[1..], [a], [b]), b, [a]);
      ReplaceCharUnfold(head, b, [a]);
      assert head[1..] == [];
    }
  }

  /** A pattern whose first character occurs nowhere else in it cannot overlap itself. */
  predicate HeadUnique(pat: string) {
    |pat| > 0 && forall i :: 0 < i < |pat| ==> pat[i] != pat[0]
  }

  /** A string shorter than the pattern is left alone. */
  lemma ReplaceShort(s: string, pat: string, rep: string)
    requires 0 < |pat| && |s| < |pat|
    ensures Replace(s, pat, rep) == s
  {
  }

  /**
   * When the pattern cannot overlap itself, an occurrence at the very end is
   * always replaced.
   */
  lemma {:induction false} ReplaceAtEnd(x: string, pat: string, rep: string)
    requires HeadUnique(pat)
    ensures Replace(x + pat, pat, rep) == Replace(x, pat, rep) + rep
    decreases |x|
  {
    if x == [] {
      assert x + pat == pat;
      assert pat[..|pat|] == pat && pat[|pat|..] == [];
    } else if |x| < |pat| {
      ReplaceAtEndShort(x, pat, rep);
    } else if x[..|pat|] == pat {
      ReplaceAtEndMatch(x, pat, rep);
    } else {
      ReplaceAtEndMiss(x, pat, rep);
    }
  }

  lemma {:induction false} ReplaceAtEndShort(x: string, pat: string, rep: string)
    requires HeadUnique(pat) && 0 < |x| < |pat|
    ensures Replace(x + pat, pat, rep) == Replace(x, pat, rep) + rep
    decreases |x|, 0
  {
    var s := x + pat;
    assert s[..|pat|] != pat by {
      assert s[|x|] == pat[0];
      assert pat[|x|] != pat[0];
    }
    assert s[1..] == x[1..] + pat;
    assert Replace(s, pat, rep) == [x[0]] + Replace(x[1..] + pat, pat, rep);
    ReplaceAtEnd(x[1..], pat, rep);
    ReplaceShort(x, pat, rep);
    ReplaceShort(x[1..], pat, rep);
    assert [x[0]] + x[1..] == x;
  }

  lemma {:induction false} ReplaceAtEndMatch(x: string, pat: string, rep: string)
    requires HeadUnique(pat) && |pat| <= |x| && x[..|pat|] == pat
    ensures Replace(x + pat, pat, rep) == Replace(x, pat, rep) + rep
    decreases |x|, 0
  {
    var s := x + pat;
    assert s[..|pat|] == pat;
    assert s[|pat|..] == x[|pat|..] + pat;
    assert Replace(s, pat, rep) == rep + Replace(x[|pat|..] + pat, pat, rep);
    ReplaceAtEnd(x[|pat|..], pat, rep);
  }

  lemma {:induction false} ReplaceAtEndMiss(x: string, pat: string, rep: string)
    requires HeadUnique(pat) && |pat| <= |x| && x[..|pat|] != pat
    ensures Replace(x + pat, pat, rep) == Replace(x, pat, rep) + rep
    decreases |x|, 0
  {
    var s := x + pat;
    assert s[..|pat|] == x[..|pat|];
    assert s[1..] == x[1..] + pat;
    assert Replace(s, pat, rep) == [x[0]] + Replace(x[1..] + pat, pat, rep);
    ReplaceAtEnd(x[1..], pat, rep);
  }

  /** No element occurs twice: the content of a Java Set kept in insertion order. */
  predicate NoDup<T(==)>(xs: seq<T>) {
    forall i, j :: 0 <= i < j < |xs| ==> xs[i] != xs[j]
  }

  /** Set.add on an insertion-ordered set: a new element goes to the end, a present one changes nothing. */
  function Insert(xs: seq<string>, x: string): (r: seq<string>)
    ensures x in r && (forall y :: y in r <==> y in xs || y == x)
    ensures NoDup(xs) ==> NoDup(r)
    ensures xs <= r && |r| <= |xs| + 1
  {
    if x in xs then xs else xs + [x]
  }

  /** Set.addAll on an insertion-ordered set: Insert for each element in turn. */
  function InsertAll(xs: seq<string>, ys: seq<string>): (r: seq<string>)
    ensures forall y :: y in r <==> y in xs || y in ys
    ensures NoDup(xs) ==> NoDup(r)
    ensures xs <= r
    decreases |ys|
  {
    if ys == [] then xs else InsertAll(Insert(xs, ys[0]), ys[1..])
  }

  /** Adding a list and then one more element is adding the longer list. */
  lemma {:induction false} InsertAllSnoc(xs: seq<string>, ys: seq<string>, y: string)
    ensures InsertAll(xs, ys + [y]) == Insert(InsertAll(xs, ys), y)
    decreases |ys|
  {
    if ys == [] {
      assert ys + [y] == [y];
      assert [y][1..] == [];
    } else {
      assert (ys + [y])[0] == ys[0] && (ys + [y])[1..] == ys[1..] + [y];
      InsertAllSnoc(Insert(xs, ys[0]), ys[1..], y);
    }
  }

  /** The elements of `xs` that are not in `ks`, in their order (iterator removal). */
  function Strip(xs: seq<string>, ks: set<string>): (r: seq<string>)
    ensures forall y :: y in r <==> y in xs && y !in ks
    ensures |r| <= |xs|
    ensures NoDup(xs) ==> NoDup(r)
  {
    if xs == [] then []
    else if xs[0] in ks then Strip(xs[1..], ks)
    else
      var r := [xs[0]] + Strip(xs[1..], ks);
      assert NoDup(xs) ==> NoDup(r) by {
        if NoDup(xs) {
          assert NoDup(xs[1..]);
          assert xs[0] !in xs[1..];
        }
      }
      r
  }

  /** Removing two key sets one after the other removes their union. */
  lemma {:induction false} StripTwice(xs: seq<string>, a: set<string>, b: set<string>)
    ensures Strip(Strip(xs, a), b) == Strip(xs, a + b)
    decreases |xs|
  {
    if xs != [] {
      StripTwice(xs[1..], a, b);
    }
  }
}
