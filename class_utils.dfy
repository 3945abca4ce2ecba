/** ClassUtils: turning type descriptors into dotted class names, and finding a class by descriptor. */
module ClassUtils {
  import opened Wrappers
  import opened Strings
  import opened Dex

  /** The name denotes a class type: `Lpkg/Cls;`, or an array whose element type starts at an `L`. */
  predicate ClassLike(s: string) {
    StartsWith(s, "L") || (StartsWith(s, "[") && 'L' in s)
  }

  /**
   * ClassUtils.dottedClassName. A class type loses its leading `L` and everything
   * from the first `;` on, and its `/` become `.`; an array of classes keeps its
   * `[` prefix; primitive and primitive-array types come back unchanged. None
   * stands for the StringIndexOutOfBoundsException thrown when the first `;`
   * does not come after the first `L`.
   */
  function DottedClassName(className: string): (r: Option<string>)
    ensures r.None? <==> ClassLike(className) && !(';' in className && IndexOf(className, 'L') < IndexOf(className, ';'))
    ensures r.Some? && ClassLike(className) ==> '/' !in r.value
    ensures !ClassLike(className) ==> r == Some(className)
  {
    if StartsWith(className, "[") then
      var index := IndexOf(className, 'L');
      if index == -1 then Some(className)
      else
        var semicolon := IndexOf(className, ';');
        if semicolon < index + 1 then None
        else
          ReplaceCharMembers(className[..index] + className[index + 1..semicolon], '/', ".");
          Some(Replace(className[..index] + className[index + 1..semicolon], "/", "."))
    else if !StartsWith(className, "L") then Some(className)
    else
      var semicolon := IndexOf(className, ';');
      if semicolon < 1 then None
      else
        ReplaceCharMembers(className[1..semicolon], '/', ".");
        Some(Replace(className[1..semicolon], "/", "."))
  }

  /** The descriptor of a dotted class name: the inverse direction, `a.b.C` to `La/b/C;`. */
  function Descriptor(dotted: string): string {
    "L" + Replace(dotted, ".", "/") + ";"
  }

  lemma IndexOfAt(s: string, c: char, k: nat)
    requires k < |s| && s[k] == c && c !in s[..k]
    ensures IndexOf(s, c) == k
  {
  }

  /** Dotting the descriptor of a dotted name gives the name back. */
  lemma DottedDescriptorRoundTrip(dotted: string)
    requires '/' !in dotted && ';' !in dotted
    ensures DottedClassName(Descriptor(dotted)) == Some(dotted)
  {
    var body := Replace(dotted, ".", "/");
    var s := Descriptor(dotted);
    ReplaceCharMembers(dotted, '.', "/");
    assert ';' !in body;
    assert s[..|body| + 1] == "L" + body;
    IndexOfAt(s, ';', |body| + 1);
    assert s[1..|body| + 1] == body;
    ReplaceCharInverse(dotted, '.', '/');
  }

  /** An array of a class type keeps its brackets and gets the element class dotted. */
  lemma DottedArrayDescriptor(dotted: string)
    requires '/' !in dotted && ';' !in dotted
    ensures DottedClassName("[" + Descriptor(dotted)) == Some("[" + dotted)
  {
    var body := Replace(dotted, ".", "/");
    var s := "[" + Descriptor(dotted);
    ReplaceCharMembers(dotted, '.', "/");
    assert s[..1] == "[";
    IndexOfAt(s, 'L', 1);
    assert s[..|body| + 2] == "[L" + body;
    IndexOfAt(s, ';', |body| + 2);
    assert s[..1] + s[2..|body| + 2] == "[" + body;
    ReplaceCharAppend("[", body, '/', ".");
    ReplaceAbsent("[", "/", ".");
    ReplaceCharInverse(dotted, '.', '/');
  }

  /** The first class with the given descriptor, in list order. */
  function FirstClassNamed(cs: seq<ClassDef>, name: string): (r: Option<ClassDef>)
    ensures r.None? <==> forall c :: c in cs ==> c.descriptor != name
    ensures r.Some? ==> exists i :: 0 <= i < |cs| && cs[i] == r.value && r.value.descriptor == name
                                   && forall j :: 0 <= j < i ==> cs[j].descriptor != name
  {
    if cs == [] then None
    else if cs[0].descriptor == name then Some(cs[0])
    else
      var r := FirstClassNamed(cs[1..], name);
      assert r.Some? ==> exists i :: 0 <= i < |cs| && cs[i] == r.value && r.value.descriptor == name
                                   && forall j :: 0 <= j < i ==> cs[j].descriptor != name by {
        if r.Some? {
          var i :| 0 <= i < |cs[1..]| && cs[1..][i] == r.value && r.value.descriptor == name
                   && forall j :: 0 <= j < i ==> cs[1..][j].descriptor != name;
          assert cs[i + 1] == r.value;
          assert forall j :: 0 <= j < i + 1 ==> cs[j].descriptor != name by {
            forall j | 0 <= j < i + 1 ensures cs[j].descriptor != name {
              if j > 0 { assert cs[j] == cs[1..][j - 1]; }
            }
          }
        }
      }
      r
  }

  lemma {:induction false} FirstClassNamedAppend(a: seq<ClassDef>, b: seq<ClassDef>, name: string)
    ensures FirstClassNamed(a + b, name) == if FirstClassNamed(a, name).Some? then FirstClassNamed(a, name) else FirstClassNamed(b, name)
    decreases |a|
  {
    if a == [] {
      assert a + b == b;
    } else {
      assert (a + b)[1..] == a[1..] + b;
      FirstClassNamedAppend(a[1..], b, name);
    }
  }

  /** DexScanner.searchForTargetClass: the first class, over all dex files in order, whose descriptor is `className`. */
  method SearchForTargetClass(dexFiles: seq<DexFile>, className: string) returns (r: Option<ClassDef>)
    ensures r == FirstClassNamed(AllClasses(dexFiles), className)
  {
    var fi := 0;
    while fi < |dexFiles|
      invariant 0 <= fi <= |dexFiles|
      invariant FirstClassNamed(AllClasses(dexFiles[..fi]), className).None?
    {
      var before := AllClasses(dexFiles[..fi]);
      AllClassesAt(dexFiles, fi);
      var found := SearchDexFile(dexFiles[fi], className);
      FirstClassNamedAppend(before, dexFiles[fi], className);
      if found.Some? {
        FirstClassNamedAppend(before + dexFiles[fi], AllClasses(dexFiles[fi + 1..]), className);
        return found;
      }
      fi := fi + 1;
    }
    assert dexFiles[..fi] == dexFiles;
    return None;
  }

  /** The inner loop of searchForTargetClass: the first class of one dex file whose descriptor is `className`. */
  method SearchDexFile(classes: seq<ClassDef>, className: string) returns (r: Option<ClassDef>)
    ensures r == FirstClassNamed(classes, className)
  {
    var ci := 0;
    while ci < |classes|
      invariant 0 <= ci <= |classes|
      invariant FirstClassNamed(classes[..ci], className).None?
    {
      if classes[ci].descriptor == className {
        assert classes == classes[..ci] + classes[ci..];
        FirstClassNamedAppend(classes[..ci], classes[ci..], className);
        assert classes[ci..][0] == classes[ci];
        return Some(classes[ci]);
      }
      FirstClassNamedAppend(classes[..ci], [classes[ci]], className);
      assert classes[..ci + 1] == classes[..ci] + [classes[ci]];
      ci := ci + 1;
    }
    assert classes[..ci] == classes;
    return None;
  }
}
