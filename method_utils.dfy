/** MethodUtils: method signatures and the search for a method by signature over all dex files. */
module MethodUtils {
  import opened Wrappers
  import opened Strings
  import opened Dex

  /** The text is one or more copies of `->` and nothing else. */
  predicate OnlyArrows(s: string)
    decreases |s|
  {
    |s| >= 2 && s[..2] == "->" && (|s| == 2 || OnlyArrows(s[2..]))
  }

  /** Everything before the first `->`, or the whole text when there is none. */
  function BeforeArrow(s: string): (r: string)
    ensures r <= s
    ensures !Contains(r, "->")
  {
    if |s| < 2 then
      s
    else if s[..2] == "->" then
      assert !OccursAt("", "->", 0);
      ""
    else
      var t := BeforeArrow(s[1..]);
      var r := [s[0]] + t;
      assert !Contains(r, "->") by {
        forall i | 0 <= i <= |r| - 2 ensures !OccursAt(r, "->", i) {
          if i == 0 {
            if |t| >= 1 {
              assert r[..2] == [s[0], t[0]] == s[..2];
            }
          } else {
            assert r[i..i + 2] == t[i - 1..i + 1];
            assert !OccursAt(t, "->", i - 1);
          }
        }
      }
      r
  }

  /**
   * `methodSignature.split("->")[0]`: the text before the first `->`. None
   * stands for the ArrayIndexOutOfBoundsException of a text that is nothing
   * but arrows, whose split is empty.
   */
  function SplitHead(s: string): (r: Option<string>)
    ensures r.None? <==> OnlyArrows(s)
    ensures r.Some? ==> r.value <= s && !Contains(r.value, "->")
  {
    if OnlyArrows(s) then None else Some(BeforeArrow(s))
  }

  lemma {:induction false} OnlyArrowsHasNoParen(s: string)
    requires OnlyArrows(s)
    ensures '(' !in s
    decreases |s|
  {
    assert s == s[..2] + s[2..];
    if |s| > 2 {
      OnlyArrowsHasNoParen(s[2..]);
    }
  }

  /** A prefix without `->` followed by `->` is exactly what the split keeps. */
  lemma {:induction false} BeforeArrowOf(cls: string, rest: string)
    requires !Contains(cls, "->")
    ensures BeforeArrow(cls + "->" + rest) == cls
    decreases |cls|
  {
    var s := cls + "->" + rest;
    if cls == [] {
      assert s[..2] == "->";
    } else {
      assert s[1..] == cls[1..] + "->" + rest;
      assert !Contains(cls[1..], "->") by {
        forall i | OccursAt(cls[1..], "->", i) ensures OccursAt(cls, "->", i + 1) {
          assert cls[1..][i..i + 2] == cls[i + 1..i + 3];
        }
      }
      if |cls| >= 2 {
        assert s[..2] == cls[..2];
        assert !OccursAt(cls, "->", 0);
      } else {
        assert s[..2] == [cls[0], '-'];
      }
      BeforeArrowOf(cls[1..], rest);
    }
  }

  /** A method reference's text holds a `(`, so its split always has a head. */
  lemma ReferenceTextSplits(m: MethodRef)
    ensures SplitHead(MethodRefText(m)).Some?
  {
    var s := MethodRefText(m);
    assert s[|m.definingClass| + 2 + |m.name|] == '(';
    if OnlyArrows(s) {
      OnlyArrowsHasNoParen(s);
    }
  }

  /** The class part of a method reference's text is its defining class. */
  lemma SplitHeadOfReference(m: MethodRef)
    requires !Contains(m.definingClass, "->")
    ensures SplitHead(MethodRefText(m)) == Some(m.definingClass)
  {
    var s := MethodRefText(m);
    var rest := m.name + "(" + Concat(m.parameterTypes) + ")" + m.returnType;
    assert s == m.definingClass + "->" + rest;
    assert '(' in s by {
      assert s[|m.definingClass| + 2 + |m.name|] == '(';
    }
    if OnlyArrows(s) {
      OnlyArrowsHasNoParen(s);
    }
    BeforeArrowOf(m.definingClass, rest);
  }

  /** MethodUtils.deriveMethodSignature: Method.toString, i.e. `Lcls;->name(params)ret`. */
  function DeriveMethodSignature(m: MethodDef): (r: string)
    ensures StartsWith(r, m.definingClass + "->")
    ensures !Contains(m.definingClass, "->") ==> SplitHead(r) == Some(m.definingClass)
  {
    var r := MethodRefText(RefOf(m));
    assert r[..|m.definingClass| + 2] == m.definingClass + "->";
    if !Contains(m.definingClass, "->") then
      SplitHeadOfReference(RefOf(m));
      r
    else r
  }

  /** The methods of every class named `className`, class after class in list order. */
  function Candidates(cs: seq<ClassDef>, className: string): seq<MethodDef> {
    if cs == [] then []
    else (if cs[0].descriptor == className then cs[0].methods else []) + Candidates(cs[1..], className)
  }

  lemma {:induction false} CandidatesAppend(a: seq<ClassDef>, b: seq<ClassDef>, className: string)
    ensures Candidates(a + b, className) == Candidates(a, className) + Candidates(b, className)
    decreases |a|
  {
    if a == [] {
      assert a + b == b;
    } else {
      assert (a + b)[1..] == a[1..] + b;
      CandidatesAppend(a[1..], b, className);
    }
  }

  /** The first method whose signature is `sig`. */
  function FirstWithSignature(ms: seq<MethodDef>, sig: string): (r: Option<MethodDef>)
    ensures r.None? <==> forall m :: m in ms ==> DeriveMethodSignature(m) != sig
    ensures r.Some? ==> exists i :: 0 <= i < |ms| && ms[i] == r.value && DeriveMethodSignature(r.value) == sig
                                   && forall j :: 0 <= j < i ==> DeriveMethodSignature(ms[j]) != sig
  {
    if ms == [] then None
    else if DeriveMethodSignature(ms[0]) == sig then Some(ms[0])
    else
      var r := FirstWithSignature(ms[1..], sig);
      assert r.Some? ==> exists i :: 0 <= i < |ms| && ms[i] == r.value && DeriveMethodSignature(r.value) == sig
                                   && forall j :: 0 <= j < i ==> DeriveMethodSignature(ms[j]) != sig by {
        if r.Some? {
          var i :| 0 <= i < |ms[1..]| && ms[1..][i] == r.value && DeriveMethodSignature(r.value) == sig
                   && forall j :: 0 <= j < i ==> DeriveMethodSignature(ms[1..][j]) != sig;
          assert ms[i + 1] == r.value;
          forall j | 0 <= j < i + 1 ensures DeriveMethodSignature(ms[j]) != sig {
            if j > 0 { assert ms[j] == ms[1..][j - 1]; }
          }
        }
      }
      r
  }

  lemma {:induction false} FirstWithSignatureAppend(a: seq<MethodDef>, b: seq<MethodDef>, sig: string)
    ensures FirstWithSignature(a + b, sig)
         == if FirstWithSignature(a, sig).Some? then FirstWithSignature(a, sig) else FirstWithSignature(b, sig)
    decreases |a|
  {
    if a == [] {
      assert a + b == b;
    } else {
      assert (a + b)[1..] == a[1..] + b;
      FirstWithSignatureAppend(a[1..], b, sig);
    }
  }

  /** The innermost loop of searchForTargetMethod: the methods of one class. */
  method SearchMethods(methods: seq<MethodDef>, methodSignature: string) returns (r: Option<MethodDef>)
    ensures r == FirstWithSignature(methods, methodSignature)
  {
    var mi := 0;
    while mi < |methods|
      invariant 0 <= mi <= |methods|
      invariant FirstWithSignature(methods[..mi], methodSignature).None?
    {
      var m := methods[mi];
      if DeriveMethodSignature(m) == methodSignature {
        assert methods == methods[..mi] + ([m] + methods[mi + 1..]);
        FirstWithSignatureAppend(methods[..mi], [m] + methods[mi + 1..], methodSignature);
        return Some(m);
      }
      FirstWithSignatureAppend(methods[..mi], [m], methodSignature);
      assert methods[..mi + 1] == methods[..mi] + [m];
      mi := mi + 1;
    }
    assert methods[..mi] == methods;
    return None;
  }

  /** The methods class `k` contributes, between those of the classes before and after it. */
  lemma CandidatesAt(classes: seq<ClassDef>, k: nat, className: string)
    requires k < |classes|
    ensures var own := if classes[k].descriptor == className then classes[k].methods else [];
      && Candidates(classes[..k + 1], className) == Candidates(classes[..k], className) + own
      && Candidates(classes, className) == Candidates(classes[..k], className) + own + Candidates(classes[k + 1..], className)
  {
    var single := [classes[k]];
    assert single[1..] == [];
    assert classes[..k + 1] == classes[..k] + single;
    CandidatesAppend(classes[..k], single, className);
    assert classes == classes[..k + 1] + classes[k + 1..];
    CandidatesAppend(classes[..k + 1], classes[k + 1..], className);
  }

  /** Once nothing matched in `a`, the first match of `a + b + c` is the first match of `b` if there is one. */
  lemma FirstAfterMiss(a: seq<MethodDef>, b: seq<MethodDef>, c: seq<MethodDef>, sig: string)
    requires FirstWithSignature(a, sig).None?
    ensures FirstWithSignature(a + b, sig) == FirstWithSignature(b, sig)
    ensures FirstWithSignature(b, sig).Some? ==> FirstWithSignature(a + b + c, sig) == FirstWithSignature(b, sig)
  {
    FirstWithSignatureAppend(a, b, sig);
    FirstWithSignatureAppend(a + b, c, sig);
  }

  /** The middle loop of searchForTargetMethod: the classes of one dex file. */
  method SearchClasses(classes: seq<ClassDef>, className: string, methodSignature: string) returns (r: Option<MethodDef>)
    ensures r == FirstWithSignature(Candidates(classes, className), methodSignature)
  {
    var ci := 0;
    while ci < |classes|
      invariant 0 <= ci <= |classes|
      invariant FirstWithSignature(Candidates(classes[..ci], className), methodSignature).None?
    {
      var classDef := classes[ci];
      CandidatesAt(classes, ci, className);
      var own := if classDef.descriptor == className then classDef.methods else [];
      FirstAfterMiss(Candidates(classes[..ci], className), own, Candidates(classes[ci + 1..], className), methodSignature);
      if classDef.descriptor == className {
        r := SearchMethods(classDef.methods, methodSignature);
        if r.Some? {
          return;
        }
      }
      ci := ci + 1;
    }
    assert classes[..ci] == classes;
    return None;
  }

  /**
   * MethodUtils.searchForTargetMethod: among the classes whose descriptor is
   * the text before `->`, over all dex files in order, the first method whose
   * signature equals `methodSignature`.
   */
  method SearchForTargetMethod(dexFiles: seq<DexFile>, methodSignature: string) returns (r: Option<MethodDef>)
    requires !OnlyArrows(methodSignature)
    ensures r == FirstWithSignature(Candidates(AllClasses(dexFiles), SplitHead(methodSignature).value), methodSignature)
    ensures r.Some? ==> DeriveMethodSignature(r.value) == methodSignature
  {
    var className := SplitHead(methodSignature).value;
    var fi := 0;
    while fi < |dexFiles|
      invariant 0 <= fi <= |dexFiles|
      invariant FirstWithSignature(Candidates(AllClasses(dexFiles[..fi]), className), methodSignature).None?
    {
      AllClassesAt(dexFiles, fi);
      var before := Candidates(AllClasses(dexFiles[..fi]), className);
      CandidatesAppend(AllClasses(dexFiles[..fi]), dexFiles[fi], className);
      r := SearchClasses(dexFiles[fi], className, methodSignature);
      FirstWithSignatureAppend(before, Candidates(dexFiles[fi], className), methodSignature);
      if r.Some? {
        CandidatesAppend(AllClasses(dexFiles[..fi]) + dexFiles[fi], AllClasses(dexFiles[fi + 1..]), className);
        FirstWithSignatureAppend(before + Candidates(dexFiles[fi], className), Candidates(AllClasses(dexFiles[fi + 1..]), className), methodSignature);
        return;
      }
      fi := fi + 1;
    }
    assert dexFiles[..fi] == dexFiles;
    return None;
  }
}
