/**
 * Main.mergeComponents: the components the manifest declares and the
 * components found in the code are merged into one set keyed by
 * Component.equals (same Java class, same name). The HashSet is a sequence
 * without two equal elements in insertion order; List.indexOf and
 * Set.contains use the same equality.
 */
module Merge {
  import opened Wrappers
  import opened ComponentUtils
  import opened Components

  /** No two elements are equal in the sense of Component.equals. */
  predicate NoEqualPair(cs: seq<Component>) {
    forall i, j :: 0 <= i < j < |cs| ==> !SameComponent(cs[i], cs[j])
  }

  /** Set.contains with Component.equals. */
  predicate Has(cs: seq<Component>, c: Component) {
    exists x :: x in cs && SameComponent(x, c)
  }

  /** Set.add: an element equal to one already present is not added. */
  function Add(cs: seq<Component>, c: Component): (r: seq<Component>)
    ensures Has(r, c)
    ensures Has(cs, c) ==> r == cs
    ensures !Has(cs, c) ==> r == cs + [c]
  {
    if Has(cs, c) then cs
    else
      var r := cs + [c];
      assert c in r;
      r
  }

  /** Adding keeps the set free of equal pairs. */
  lemma AddNoEqualPair(cs: seq<Component>, c: Component)
    requires NoEqualPair(cs)
    ensures NoEqualPair(Add(cs, c))
  {
    if !Has(cs, c) {
      var r := cs + [c];
      forall i, j | 0 <= i < j < |r| ensures !SameComponent(r[i], r[j]) {
        if j == |cs| {
          assert r[i] in cs;
        }
      }
    }
  }

  /** List.indexOf: the position of the first equal element, if any. */
  function IndexOf(cs: seq<Component>, c: Component): (r: Option<nat>)
    ensures r.Some? ==> r.value < |cs| && SameComponent(cs[r.value], c)
    ensures r.Some? ==> forall j :: 0 <= j < r.value ==> !SameComponent(cs[j], c)
    ensures r.None? <==> !Has(cs, c)
  {
    if cs == [] then None
    else if SameComponent(cs[0], c) then Some(0)
    else match IndexOf(cs[1..], c)
      case None => None
      case Some(i) => Some(i + 1)
  }

  /** The code component a manifest entry other than an alias stands for. */
  function CodeMatch(code: seq<Component>, m: Component): (r: Option<Component>)
    ensures r.Some? ==> r.value in code && SameComponent(r.value, m) && m.kind != ActivityAlias
    ensures r.None? <==> m.kind == ActivityAlias || !Has(code, m)
  {
    if m.kind == ActivityAlias then None
    else match IndexOf(code, m)
      case None => None
      case Some(i) => Some(code[i])
  }

  /** The first loop: aliases are added, every other entry contributes its code component or nothing. */
  function FromManifest(code: seq<Component>, manifest: seq<Component>): seq<Component>
    decreases |manifest|
  {
    if manifest == [] then []
    else
      var acc := FromManifest(code, manifest[..|manifest| - 1]);
      var m := manifest[|manifest| - 1];
      if m.kind == ActivityAlias then Add(acc, m)
      else match CodeMatch(code, m)
        case None => acc
        case Some(c) => Add(acc, c)
  }

  lemma FromManifestSnoc(code: seq<Component>, manifest: seq<Component>, m: Component)
    ensures var acc := FromManifest(code, manifest);
      FromManifest(code, manifest + [m])
        == if m.kind == ActivityAlias then Add(acc, m)
           else if CodeMatch(code, m).Some? then Add(acc, CodeMatch(code, m).value)
           else acc
  {
    assert (manifest + [m])[..|manifest|] == manifest;
  }

  /** The second loop: every code component not yet present is added. */
  function FromCode(acc: seq<Component>, code: seq<Component>): seq<Component>
    decreases |code|
  {
    if code == [] then acc
    else Add(FromCode(acc, code[..|code| - 1]), code[|code| - 1])
  }

  /** The filter's test: an alias, or a component whose class is not abstract. */
  predicate Kept(c: Component)
    requires c.kind == ActivityAlias || c.clazz.Some?
  {
    c.kind == ActivityAlias || !IsAbstractClass(c.clazz.value)
  }

  /** Every element that is not an alias has a class definition. */
  predicate Classed(cs: seq<Component>) {
    forall c :: c in cs ==> c.kind == ActivityAlias || c.clazz.Some?
  }

  /** The stream filter, in the set's order. */
  function Filter(cs: seq<Component>): (r: seq<Component>)
    requires Classed(cs)
    decreases |cs|
  {
    if cs == [] then []
    else
      var c := cs[|cs| - 1];
      Filter(cs[..|cs| - 1]) + if Kept(c) then [c] else []
  }

  /** The filter keeps exactly the elements that pass its test, in order. */
  lemma FilterSpec(cs: seq<Component>)
    requires Classed(cs)
    ensures forall x :: x in Filter(cs) <==> x in cs && Kept(x)
    ensures NoEqualPair(cs) ==> NoEqualPair(Filter(cs))
    ensures forall x :: x in Filter(cs) ==> exists i :: 0 <= i < |cs| && cs[i] == x
  {
    FilterMembers(cs);
    if NoEqualPair(cs) {
      FilterNoEqualPair(cs);
    }
  }

  lemma {:induction false} FilterMembers(cs: seq<Component>)
    requires Classed(cs)
    ensures forall x :: x in Filter(cs) ==> x in cs && Kept(x)
    ensures forall x :: x in cs && Kept(x) ==> x in Filter(cs)
    decreases |cs|
  {
    if cs != [] {
      var init := cs[..|cs| - 1];
      assert cs == init + [cs[|cs| - 1]];
      FilterMembers(init);
    }
  }

  lemma {:induction false} FilterNoEqualPair(cs: seq<Component>)
    requires Classed(cs) && NoEqualPair(cs)
    ensures NoEqualPair(Filter(cs))
    decreases |cs|
  {
    if cs != [] {
      var init := cs[..|cs| - 1];
      var c := cs[|cs| - 1];
      assert cs == init + [c];
      FilterNoEqualPair(init);
      if Kept(c) {
        FilterMembers(init);
        var r := Filter(cs);
        forall i, j | 0 <= i < j < |r| ensures !SameComponent(r[i], r[j]) {
          if j == |r| - 1 {
            var fi := Filter(init);
            assert r == fi + [c];
            assert r[i] == fi[i] && fi[i] in fi;
            assert r[i] in init;
            var k :| 0 <= k < |init| && init[k] == r[i];
            assert cs[k] == r[i] && cs[|cs| - 1] == c;
          }
        }
      }
    }
  }

  /** What mergeComponents returns. */
  function Merged(code: seq<Component>, manifest: seq<Component>): seq<Component>
    requires forall c :: c in code ==> c.clazz.Some?
  {
    var all := FromCode(FromManifest(code, manifest), code);
    FromCodeOrigin(FromManifest(code, manifest), code);
    FromManifestOrigin(code, manifest);
    Filter(all)
  }

  /** The first loop adds only manifest aliases and code components, and never two equal ones. */
  lemma {:induction false} FromManifestOrigin(code: seq<Component>, manifest: seq<Component>)
    ensures forall x :: x in FromManifest(code, manifest) ==>
      (x in manifest && x.kind == ActivityAlias) || x in code
    ensures NoEqualPair(FromManifest(code, manifest))
    decreases |manifest|
  {
    if manifest != [] {
      var init := manifest[..|manifest| - 1];
      var m := manifest[|manifest| - 1];
      FromManifestOrigin(code, init);
      var acc := FromManifest(code, init);
      AddNoEqualPair(acc, m);
      if CodeMatch(code, m).Some? {
        AddNoEqualPair(acc, CodeMatch(code, m).value);
      }
      forall x | x in FromManifest(code, manifest)
        ensures (x in manifest && x.kind == ActivityAlias) || x in code
      {
        if x in acc {
          assert x in init ==> x in manifest;
        }
      }
    }
  }

  /** The second loop adds only code components, and never two equal ones. */
  lemma {:induction false} FromCodeOrigin(acc: seq<Component>, code: seq<Component>)
    ensures forall x :: x in FromCode(acc, code) ==> x in acc || x in code
    ensures NoEqualPair(acc) ==> NoEqualPair(FromCode(acc, code))
    ensures forall c :: Has(acc, c) ==> Has(FromCode(acc, code), c)
    ensures forall c :: c in code ==> Has(FromCode(acc, code), c)
    decreases |code|
  {
    if code != [] {
      var init := code[..|code| - 1];
      FromCodeOrigin(acc, init);
      var before := FromCode(acc, init);
      if NoEqualPair(acc) {
        AddNoEqualPair(before, code[|code| - 1]);
      }
      forall c | Has(before, c) ensures Has(FromCode(acc, code), c) {
        var x :| x in before && SameComponent(x, c);
        assert x in FromCode(acc, code);
      }
      forall c | c in code ensures Has(FromCode(acc, code), c) {
        if c != code[|code| - 1] {
          assert c in init;
        }
      }
      forall x | x in FromCode(acc, code) ensures x in acc || x in code {
        if x in before {
          assert x in init ==> x in code;
        }
      }
    }
  }

  /** An element present after the first loop stays present. */
  lemma {:induction false} FromManifestKeeps(code: seq<Component>, manifest: seq<Component>, k: nat, c: Component)
    requires k <= |manifest| && Has(FromManifest(code, manifest[..k]), c)
    ensures Has(FromManifest(code, manifest), c)
    decreases |manifest| - k
  {
    if k < |manifest| {
      var next := manifest[..k + 1];
      assert next[..|next| - 1] == manifest[..k];
      var x :| x in FromManifest(code, manifest[..k]) && SameComponent(x, c);
      assert x in FromManifest(code, next);
      FromManifestKeeps(code, manifest, k + 1, c);
    } else {
      assert manifest[..k] == manifest;
    }
  }

  /** Every manifest alias is in the result (it, or an alias of the same name added before it). */
  lemma AliasesIncluded(code: seq<Component>, manifest: seq<Component>, m: Component)
    requires forall c :: c in code ==> c.clazz.Some?
    requires m in manifest && m.kind == ActivityAlias
    ensures Has(Merged(code, manifest), m)
  {
    var k :| 0 <= k < |manifest| && manifest[k] == m;
    var prefix := manifest[..k + 1];
    assert prefix[..|prefix| - 1] == manifest[..k];
    assert Has(FromManifest(code, prefix), m);
    FromManifestKeeps(code, manifest, k + 1, m);
    var first := FromManifest(code, manifest);
    FromManifestOrigin(code, manifest);
    FromCodeOrigin(first, code);
    var all := FromCode(first, code);
    var x :| x in all && SameComponent(x, m);
    FilterSpec(all);
    assert x in Merged(code, manifest);
  }

  /**
   * A code component not equal to any other code component and whose class
   * is not abstract is in the result, whether the manifest names it or not.
   */
  lemma CodeComponentIncluded(code: seq<Component>, manifest: seq<Component>, c: Component)
    requires forall c :: c in code ==> c.clazz.Some?
    requires NoEqualPair(code)
    requires c in code && c.kind != ActivityAlias && !IsAbstractClass(c.clazz.value)
    ensures c in Merged(code, manifest)
  {
    var first := FromManifest(code, manifest);
    FromManifestOrigin(code, manifest);
    FromCodeOrigin(first, code);
    var all := FromCode(first, code);
    var x :| x in all && SameComponent(x, c);
    assert x in code;
    var i :| 0 <= i < |code| && code[i] == x;
    var j :| 0 <= j < |code| && code[j] == c;
    assert i == j;
    FilterSpec(all);
  }

  /** A manifest entry other than an alias with no equal code component leaves no trace in the result. */
  lemma UnmatchedDropped(code: seq<Component>, manifest: seq<Component>, m: Component)
    requires forall c :: c in code ==> c.clazz.Some?
    requires m in manifest && m.kind != ActivityAlias && !Has(code, m)
    ensures !Has(Merged(code, manifest), m)
  {
    var first := FromManifest(code, manifest);
    FromManifestOrigin(code, manifest);
    FromCodeOrigin(first, code);
    var all := FromCode(first, code);
    FilterSpec(all);
    forall x | x in Merged(code, manifest) ensures !SameComponent(x, m) {
      assert x in all;
      if x in code {
        assert !SameComponent(x, m);
      }
    }
  }

  /**
   * The result holds only manifest aliases and code components whose class
   * is not abstract, and no two equal components.
   */
  lemma MergedMembers(code: seq<Component>, manifest: seq<Component>)
    requires forall c :: c in code ==> c.clazz.Some?
    ensures forall x :: x in Merged(code, manifest) ==>
      (x in manifest && x.kind == ActivityAlias) || (x in code && (x.kind == ActivityAlias || !IsAbstractClass(x.clazz.value)))
    ensures NoEqualPair(Merged(code, manifest))
  {
    var first := FromManifest(code, manifest);
    FromManifestOrigin(code, manifest);
    FromCodeOrigin(first, code);
    FilterSpec(FromCode(first, code));
  }

  /** The last manifest entry, other than an alias, whose code component is `c`. */
  function LastMatch(code: seq<Component>, manifest: seq<Component>, c: Component): (r: Option<Component>)
    ensures r.Some? ==> r.value in manifest && CodeMatch(code, r.value) == Some(c)
    decreases |manifest|
  {
    if manifest == [] then None
    else
      var m := manifest[|manifest| - 1];
      if CodeMatch(code, m) == Some(c) then Some(m)
      else LastMatch(code, manifest[..|manifest| - 1], c)
  }

  lemma LastMatchSnoc(code: seq<Component>, manifest: seq<Component>, m: Component, c: Component)
    ensures LastMatch(code, manifest + [m], c)
      == if CodeMatch(code, m) == Some(c) then Some(m) else LastMatch(code, manifest, c)
  {
    assert (manifest + [m])[..|manifest|] == manifest;
  }

  /**
   * A code component's state once the first loop copied the flags of the
   * manifest entries naming it: those of the last one, whose write wins.
   */
  predicate CopiedFrom(code: seq<Component>, manifest: seq<Component>, c: Component, before: State, after: State)
    reads set m | m in manifest
  {
    match LastMatch(code, manifest, c)
    case None => after == before
    case Some(m) => after == before.(enabled := m.enabled, exported := m.exported)
  }

  /** Every code component has gone from its state in `orig` to its present one by the flags of `manifest`. */
  ghost predicate CopiedSince(code: seq<Component>, manifest: seq<Component>, orig: map<Component, State>)
    reads set c | c in code, set m | m in manifest
  {
    forall c :: c in code ==> c in orig && CopiedFrom(code, manifest, c, orig[c], c.Abs())
  }

  /** One more manifest entry: its flags win for its code component, and the others keep theirs. */
  lemma CopiedStep(code: seq<Component>, manifest: seq<Component>, m: Component, c: Component,
                   before: State, mid: State, after: State)
    requires CopiedFrom(code, manifest, c, before, mid)
    requires CodeMatch(code, m) == Some(c) ==> after == mid.(enabled := m.enabled, exported := m.exported)
    requires CodeMatch(code, m) != Some(c) ==> after == mid
    ensures CopiedFrom(code, manifest + [m], c, before, after)
  {
    LastMatchSnoc(code, manifest, m, c);
  }

  /** The body of mergeComponents' first loop, for the manifest component at `i`. */
  method AddManifestComponent(allComponents: seq<Component>, manifestComponents: seq<Component>, i: nat,
                              components: seq<Component>, ghost orig: map<Component, State>)
      returns (next: seq<Component>)
    requires forall m :: m in manifestComponents ==> m !in allComponents
    requires i < |manifestComponents| && components == FromManifest(allComponents, manifestComponents[..i])
    requires CopiedSince(allComponents, manifestComponents[..i], orig)
    modifies set c | c in allComponents
    ensures next == FromManifest(allComponents, manifestComponents[..i + 1])
    ensures CopiedSince(allComponents, manifestComponents[..i + 1], orig)
  {
    var component := manifestComponents[i];
    assert manifestComponents[..i + 1] == manifestComponents[..i] + [component];
    FromManifestSnoc(allComponents, manifestComponents[..i], component);
    next := components;
    if component.kind == ActivityAlias {
      next := Add(components, component);
    } else {
      var index := IndexOf(allComponents, component);
      if index.Some? {
        var codeComponent := allComponents[index.value];
        codeComponent.SetEnabled(component.enabled);
        codeComponent.SetExported(component.exported);
        next := Add(components, codeComponent);
      }
    }
    forall c | c in allComponents
      ensures CopiedFrom(allComponents, manifestComponents[..i + 1], c, orig[c], c.Abs())
    {
      CopiedStep(allComponents, manifestComponents[..i], component, c, orig[c], old(c.Abs()), c.Abs());
    }
  }

  /**
   * mergeComponents. The manifest components are distinct objects from the
   * code components; the code components have class definitions.
   */
  method MergeComponents(allComponents: seq<Component>, manifestComponents: seq<Component>)
      returns (r: seq<Component>)
    requires forall c :: c in allComponents ==> c.clazz.Some?
    requires forall m :: m in manifestComponents ==> m !in allComponents
    modifies set c | c in allComponents
    ensures r == Merged(allComponents, manifestComponents)
    ensures forall c :: c in allComponents ==> CopiedFrom(allComponents, manifestComponents, c, old(c.Abs()), c.Abs())
  {
    var components := AddManifestComponents(allComponents, manifestComponents);
    ghost var first := components;
    components := AddCodeComponents(components, allComponents);
    FromManifestOrigin(allComponents, manifestComponents);
    FromCodeOrigin(first, allComponents);
    r := KeepRealComponents(components);
  }

  /** The first loop of mergeComponents, over the manifest components. */
  method AddManifestComponents(allComponents: seq<Component>, manifestComponents: seq<Component>)
      returns (components: seq<Component>)
    requires forall m :: m in manifestComponents ==> m !in allComponents
    modifies set c | c in allComponents
    ensures components == FromManifest(allComponents, manifestComponents)
    ensures forall c :: c in allComponents ==> CopiedFrom(allComponents, manifestComponents, c, old(c.Abs()), c.Abs())
  {
    components := [];
    ghost var orig := map c | c in allComponents :: c.Abs();
    var i := 0;
    while i < |manifestComponents|
      invariant 0 <= i <= |manifestComponents|
      invariant components == FromManifest(allComponents, manifestComponents[..i])
      invariant CopiedSince(allComponents, manifestComponents[..i], orig)
    {
      components := AddManifestComponent(allComponents, manifestComponents, i, components, orig);
      i := i + 1;
    }
    assert manifestComponents[..i] == manifestComponents;
  }

  /** The second loop of mergeComponents: the code components not yet present. */
  method AddCodeComponents(first: seq<Component>, allComponents: seq<Component>) returns (components: seq<Component>)
    ensures components == FromCode(first, allComponents)
  {
    components := first;
    var j := 0;
    while j < |allComponents|
      invariant 0 <= j <= |allComponents|
      invariant components == FromCode(first, allComponents[..j])
    {
      assert allComponents[..j + 1][..j] == allComponents[..j];
      if !Has(components, allComponents[j]) {
        components := components + [allComponents[j]];
      }
      j := j + 1;
    }
    assert allComponents[..j] == allComponents;
  }

  /** The final stream filter: aliases and components whose class is not abstract. */
  method KeepRealComponents(components: seq<Component>) returns (r: seq<Component>)
    requires Classed(components)
    ensures r == Filter(components)
  {
    r := [];
    var k := 0;
    while k < |components|
      invariant 0 <= k <= |components|
      invariant r == Filter(components[..k])
    {
      assert components[..k + 1][..k] == components[..k];
      var c := components[k];
      assert c in components;
      if c.kind == ActivityAlias || !IsAbstractClass(c.clazz.value) {
        r := r + [c];
      }
      k := k + 1;
    }
    assert components[..k] == components;
  }
}
