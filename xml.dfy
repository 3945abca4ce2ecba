/**
 * Component.makeXmlConform and the markup fragments every component writes.
 * The escape replaces the five XML special characters one after another,
 * `&` first, so that the entities it introduces are not escaped again.
 */
module Xml {
  import opened Strings

  /**
   * Component.makeXmlConform, character by character: each of `&`, `"`,
   * `'`, `>` and `<` becomes its entity and every other character stays.
   * EscapeChain shows that this is what the source's five replace calls,
   * `&` first, compute.
   */
  function MakeXmlConform(s: string): (r: string)
    ensures '"' !in r && '\'' !in r && '<' !in r && '>' !in r
    ensures |r| >= |s|
  {
    if s == [] then [] else Chunk(s[0], 5) + MakeXmlConform(s[1..])
  }

  /** The five replace calls of makeXmlConform, in the source's order, compute the escape. */
  lemma EscapeChain(s: string)
    ensures Replace(Replace(Replace(Replace(Replace(s, "&", "&amp;"), "\"", "&quot;"), "'", "&apos;"), ">", "&gt;"), "<", "&lt;")
         == MakeXmlConform(s)
  {
    EscapeIsChunks(s);
    EscapeIsChunksFive(s);
  }

  lemma {:induction false} EscapeIsChunksFive(s: string)
    ensures MakeXmlConform(s) == Chunks(s, 5)
  {
    if s != [] {
      EscapeIsChunksFive(s[1..]);
    }
  }

  /** Reading the entities back, `&amp;` last: the inverse of the escape. */
  function Unescape(s: string): string {
    Replace(Replace(Replace(Replace(Replace(s, "&lt;", "<"), "&gt;", ">"), "&apos;", "'"), "&quot;", "\""), "&amp;", "&")
  }

  /** Position of a character in the escape order, 0 for characters that are never escaped. */
  function Rank(c: char): nat {
    if c == '&' then 1 else if c == '"' then 2 else if c == '\'' then 3 else if c == '>' then 4 else if c == '<' then 5 else 0
  }

  function Sym(k: nat): char
    requires 1 <= k <= 5
  {
    if k == 1 then '&' else if k == 2 then '"' else if k == 3 then '\'' else if k == 4 then '>' else '<'
  }

  function Entity(c: char): string
    requires Rank(c) > 0
  {
    if c == '&' then "&amp;" else if c == '"' then "&quot;" else if c == '\'' then "&apos;" else if c == '>' then "&gt;" else "&lt;"
  }

  /** What `c` has become once the first `k` replacements have run. */
  function Chunk(c: char, k: nat): string {
    if 1 <= Rank(c) <= k then Entity(c) else [c]
  }

  function Chunks(s: string, k: nat): string {
    if s == [] then [] else Chunk(s[0], k) + Chunks(s[1..], k)
  }

  lemma {:induction false} ChunksZero(s: string)
    ensures Chunks(s, 0) == s
  {
    if s != [] {
      ChunksZero(s[1..]);
    }
  }

  lemma CharNotContained(s: string, d: char)
    requires d !in s
    ensures !Contains(s, [d])
  {
    forall i | 0 <= i <= |s| - 1 ensures !OccursAt(s, [d], i) {
      assert s[i..i + 1][0] == s[i];
    }
  }

  /** Step `k` of the escape turns stage `k - 1` into stage `k`. */
  lemma {:induction false} EscapeStep(s: string, k: nat)
    requires 1 <= k <= 5
    ensures Replace(Chunks(s, k - 1), [Sym(k)], Entity(Sym(k))) == Chunks(s, k)
  {
    if s != [] {
      var c, d := s[0], Sym(k);
      ReplaceCharAppend(Chunk(c, k - 1), Chunks(s[1..], k - 1), d, Entity(d));
      EscapeStep(s[1..], k);
      if 1 <= Rank(c) <= k - 1 {
        CharNotContained(Entity(c), d);
        ReplaceAbsent(Entity(c), [d], Entity(d));
      } else if c != d {
        assert Replace([c], [d], Entity(d)) == [c] + Replace([], [d], Entity(d));
      } else {
        assert [c][..1] == [d];
        assert Replace([c], [d], Entity(d)) == Entity(d) + Replace([], [d], Entity(d));
      }
    }
  }

  lemma EscapeIsChunks(s: string)
    ensures Replace(Replace(Replace(Replace(Replace(s, "&", "&amp;"), "\"", "&quot;"), "'", "&apos;"), ">", "&gt;"), "<", "&lt;")
         == Chunks(s, 5)
  {
    ChunksZero(s);
    EscapeStep(s, 1);
    EscapeStep(s, 2);
    EscapeStep(s, 3);
    EscapeStep(s, 4);
    EscapeStep(s, 5);
  }

  /** Two different entities disagree on a position both of them have. */
  predicate Mismatch(x: string, pat: string) {
    exists t :: 0 <= t < |x| && t < |pat| && x[t] != pat[t]
  }

  lemma {:induction false} ReplaceSkipsNoAmp(y: string, rest: string, pat: string, rep: string)
    requires |pat| > 0 && pat[0] == '&' && '&' !in y
    ensures Replace(y + rest, pat, rep) == y + Replace(rest, pat, rep)
    decreases |y|
  {
    if y == [] {
      assert y + rest == rest;
    } else {
      var s := y + rest;
      assert s[1..] == y[1..] + rest;
      ReplaceSkipsNoAmp(y[1..], rest, pat, rep);
      if |s| < |pat| {
        ReplaceShort(rest, pat, rep);
      } else {
        assert s[..|pat|][0] == y[0];
      }
    }
  }

  lemma ReplaceSkipsChunk(x: string, rest: string, pat: string, rep: string)
    requires |pat| > 0 && |x| > 0 && pat[0] == '&' && x[0] == '&' && '&' !in x[1..] && Mismatch(x, pat)
    ensures Replace(x + rest, pat, rep) == x + Replace(rest, pat, rep)
  {
    var s := x + rest;
    var t :| 0 <= t < |x| && t < |pat| && x[t] != pat[t];
    if |s| < |pat| {
      ReplaceShort(rest, pat, rep);
    } else {
      assert s[..|pat|][t] == x[t];
      assert s[1..] == x[1..] + rest;
      ReplaceSkipsNoAmp(x[1..], rest, pat, rep);
    }
  }

  lemma ReplaceTakesChunk(rest: string, pat: string, rep: string)
    requires |pat| > 0
    ensures Replace(pat + rest, pat, rep) == rep + Replace(rest, pat, rep)
  {
    assert (pat + rest)[..|pat|] == pat;
    assert (pat + rest)[|pat|..] == rest;
  }

  lemma EntitiesMismatch(c: char, d: char)
    requires Rank(c) > 0 && Rank(d) > 0 && c != d
    ensures Mismatch(Entity(c), Entity(d))
  {
    var x, y := Entity(c), Entity(d);
    if x[1] != y[1] {
      assert 1 < |x| && 1 < |y|;
    } else {
      assert x[2] != y[2] && 2 < |x| && 2 < |y|;
    }
  }

  /** Reading back entity `k` turns stage `k` into stage `k - 1`. */
  lemma {:induction false} UnescapeStep(s: string, k: nat)
    requires 1 <= k <= 5
    ensures Replace(Chunks(s, k), Entity(Sym(k)), [Sym(k)]) == Chunks(s, k - 1)
  {
    if s != [] {
      var c, d := s[0], Sym(k);
      var pat, rest := Entity(d), Chunks(s[1..], k);
      UnescapeStep(s[1..], k);
      if 1 <= Rank(c) <= k {
        if c == d {
          ReplaceTakesChunk(rest, pat, [d]);
        } else {
          EntitiesMismatch(c, d);
          ReplaceSkipsChunk(Entity(c), rest, pat, [d]);
        }
      } else {
        assert c != '&';
        ReplaceSkipsNoAmp([c], rest, pat, [d]);
      }
    }
  }

  /** Unescaping what makeXmlConform wrote gives back the original text. */
  lemma UnescapeInvertsEscape(s: string)
    ensures Unescape(MakeXmlConform(s)) == s
  {
    var e := MakeXmlConform(s);
    EscapeIsChunksFive(s);
    assert e == Chunks(s, 5);
    assert Entity(Sym(5)) == "&lt;" && [Sym(5)] == "<";
    assert Entity(Sym(4)) == "&gt;" && [Sym(4)] == ">";
    assert Entity(Sym(3)) == "&apos;" && [Sym(3)] == "'";
    assert Entity(Sym(2)) == "&quot;" && [Sym(2)] == "\"";
    assert Entity(Sym(1)) == "&amp;" && [Sym(1)] == "&";
    var u1 := Replace(e, "&lt;", "<");
    UnescapeStep(s, 5);
    var u2 := Replace(u1, "&gt;", ">");
    UnescapeStep(s, 4);
    var u3 := Replace(u2, "&apos;", "'");
    UnescapeStep(s, 3);
    var u4 := Replace(u3, "&quot;", "\"");
    UnescapeStep(s, 2);
    var u5 := Replace(u4, "&amp;", "&");
    UnescapeStep(s, 1);
    ChunksZero(s);
    assert u5 == s;
  }

  /** Escaping never merges two texts: different inputs give different outputs. */
  lemma EscapeInjective(s: string, t: string)
    requires MakeXmlConform(s) == MakeXmlConform(t)
    ensures s == t
  {
    UnescapeInvertsEscape(s);
    UnescapeInvertsEscape(t);
  }
}
