/**
 * What scanComponentMethod collects from one method body: the extras its
 * Intent and Bundle accessor calls read and the string constants that are
 * not used for the component's own intents. A call that takes an Intent is
 * followed into the called method when the dex files define it; `fuel`
 * bounds that descent, which the scanner itself does not bound.
 */
module LifecycleScan {
  import opened Wrappers
  import opened Strings
  import opened Dex
  import opened Extras
  import opened Slicer
  import opened ClassUtils
  import opened MethodUtils
  import opened Components

  /** Every class of the dex files has initialisers lookupConstructor can read. */
  predicate FilesWellFormed(files: seq<DexFile>) {
    forall c :: c in AllClasses(files) ==> BodiesWellFormed(c.methods)
  }

  /** A found class is one of the classes searched. */
  lemma FoundClassWellFormed(files: seq<DexFile>, className: string)
    requires FilesWellFormed(files) && FirstClassNamed(AllClasses(files), className).Some?
    ensures BodiesWellFormed(FirstClassNamed(AllClasses(files), className).value.methods)
  {
    var cs := AllClasses(files);
    var i :| 0 <= i < |cs| && cs[i] == FirstClassNamed(cs, className).value && cs[i].descriptor == className;
    assert cs[i] in cs;
  }

  /** `methodSignature.split("->")[0]` for the text of a called method. */
  function TargetClassName(m: MethodRef): string {
    ReferenceTextSplits(m);
    SplitHead(MethodRefText(m)).value
  }

  /** An extra is recorded only when getExtraKey resolved a key. */
  function AddExtra(acc: Bag, key: Option<string>, extraType: string): (r: Bag)
    ensures r.strings == acc.strings
    ensures key.None? ==> r == acc
    ensures key.Some? ==> r.extras == acc.extras + [Extra(key.value, extraType)]
  {
    match key
    case None => acc
    case Some(k) => acc.(extras := acc.extras + [Extra(k, extraType)])
  }

  /** The accessor half of the invoke branch: an Intent getter, or a Bundle getter on the intent's extras. */
  function AccessorStep(instrs: seq<Instr>, i: nat, table: map<string, string>, acc: Bag): Bag
    requires i < |instrs| && instrs[i].Invoke?
  {
    var ins := instrs[i];
    var m := ins.target;
    if IsIntentAccessor(m) then
      IntentAccessorLength(m);
      AddExtra(acc, GetExtraKey(instrs, i, ins.d, table), ConvertExtraType(IntentExtraType(m.name)))
    else if IsBundleAccessor(m) && IsIntentBundle(instrs, i, ins.c) then
      BundleAccessorLength(m);
      AddExtra(acc, GetExtraKey(instrs, i, ins.d, table), ConvertExtraType(BundleExtraType(m.name)))
    else acc
  }

  /** scanComponentMethod on `m` with the class-variable table `table`, adding to `acc`. */
  function ScanMethod(files: seq<DexFile>, fuel: nat, m: MethodDef, table: map<string, string>, acc: Bag): Bag
    requires FilesWellFormed(files)
    decreases fuel, 1, 0, 0
  {
    match m.implementation
    case None => acc
    case Some(instrs) => ScanFrom(files, fuel, instrs, 0, table, acc)
  }

  /** The loop of scanComponentMethod from position `i` on. */
  function ScanFrom(files: seq<DexFile>, fuel: nat, instrs: seq<Instr>, i: nat, table: map<string, string>, acc: Bag): Bag
    requires FilesWellFormed(files) && i <= |instrs|
    decreases fuel, 0, |instrs| - i, 1
  {
    if i == |instrs| then acc
    else ScanFrom(files, fuel, instrs, i + 1, table, Step(files, fuel, instrs, i, table, acc))
  }

  /**
   * The method and class a call that takes an Intent leads to, when the
   * dex files define both.
   */
  function CallTarget(files: seq<DexFile>, target: MethodRef): (r: Option<(MethodDef, ClassDef)>)
    ensures r.Some? ==> INTENT in target.parameterTypes
    ensures r.Some? && FilesWellFormed(files) ==> BodiesWellFormed(r.value.1.methods)
  {
    if INTENT !in target.parameterTypes then None
    else
      var className := TargetClassName(target);
      var targetMethod := FirstWithSignature(Candidates(AllClasses(files), className), MethodRefText(target));
      var targetClass := FirstClassNamed(AllClasses(files), className);
      if targetMethod.Some? && targetClass.Some? then
        if FilesWellFormed(files) then
          FoundClassWellFormed(files, className);
          Some((targetMethod.value, targetClass.value))
        else Some((targetMethod.value, targetClass.value))
      else None
  }

  /**
   * The first half of the invoke branch: a call that takes an Intent is
   * followed into the method it names, when the dex files define both that
   * method and its class, and scanned with the class's own variable table.
   */
  function CallStep(files: seq<DexFile>, fuel: nat, target: MethodRef, acc: Bag): Bag
    requires FilesWellFormed(files)
    decreases fuel, 0, 0, 0
  {
    if fuel == 0 then acc
    else match CallTarget(files, target)
      case None => acc
      case Some((tm, tc)) => ScanMethod(files, fuel - 1, tm, ClassTable(tc.methods), acc)
  }

  /**
   * One instruction of the loop. An invoke is first followed (CallStep) and
   * then tested as an accessor; a non-empty string constant is collected
   * unless it feeds an Intent or Bundle call.
   */
  function Step(files: seq<DexFile>, fuel: nat, instrs: seq<Instr>, i: nat, table: map<string, string>, acc: Bag): Bag
    requires FilesWellFormed(files) && i < |instrs|
    decreases fuel, 0, |instrs| - i, 0
  {
    var ins := instrs[i];
    if ins.Invoke? then AccessorStep(instrs, i, table, CallStep(files, fuel, ins.target, acc))
    else if ins.ConstString? && ins.literal != "" && !StringUsedForOwnIntents(instrs, i, ins.a) then
      acc.(strings := Insert(acc.strings, ins.literal))
    else acc
  }

  /**
   * The scan only adds: both lists keep what they held as a prefix, the
   * strings stay a set, and the empty string is never collected.
   */
  predicate Grows(a: Bag, b: Bag) {
    a.extras <= b.extras && a.strings <= b.strings
    && (NoDup(a.strings) ==> NoDup(b.strings))
    && ("" !in a.strings ==> "" !in b.strings)
  }

  lemma GrowsTrans(a: Bag, b: Bag, c: Bag)
    requires Grows(a, b) && Grows(b, c)
    ensures Grows(a, c)
  {
  }

  lemma {:induction false} ScanMethodGrows(files: seq<DexFile>, fuel: nat, m: MethodDef, table: map<string, string>, acc: Bag)
    requires FilesWellFormed(files)
    ensures Grows(acc, ScanMethod(files, fuel, m, table, acc))
    decreases fuel, 1, 0, 0
  {
    match m.implementation
    case None =>
    case Some(instrs) => ScanFromGrows(files, fuel, instrs, 0, table, acc);
  }

  lemma {:induction false} ScanFromGrows(files: seq<DexFile>, fuel: nat, instrs: seq<Instr>, i: nat, table: map<string, string>, acc: Bag)
    requires FilesWellFormed(files) && i <= |instrs|
    ensures Grows(acc, ScanFrom(files, fuel, instrs, i, table, acc))
    decreases fuel, 0, |instrs| - i, 1
  {
    if i < |instrs| {
      var next := Step(files, fuel, instrs, i, table, acc);
      StepGrows(files, fuel, instrs, i, table, acc);
      ScanFromGrows(files, fuel, instrs, i + 1, table, next);
      GrowsTrans(acc, next, ScanFrom(files, fuel, instrs, i + 1, table, next));
    }
  }

  lemma {:induction false} CallStepGrows(files: seq<DexFile>, fuel: nat, target: MethodRef, acc: Bag)
    requires FilesWellFormed(files)
    ensures Grows(acc, CallStep(files, fuel, target, acc))
    decreases fuel, 0, 0, 0
  {
    if fuel > 0 && CallTarget(files, target).Some? {
      var (tm, tc) := CallTarget(files, target).value;
      ScanMethodGrows(files, fuel - 1, tm, ClassTable(tc.methods), acc);
    }
  }

  lemma AccessorStepGrows(instrs: seq<Instr>, i: nat, table: map<string, string>, acc: Bag)
    requires i < |instrs| && instrs[i].Invoke?
    ensures Grows(acc, AccessorStep(instrs, i, table, acc))
  {
  }

  lemma {:induction false} StepGrows(files: seq<DexFile>, fuel: nat, instrs: seq<Instr>, i: nat, table: map<string, string>, acc: Bag)
    requires FilesWellFormed(files) && i < |instrs|
    ensures Grows(acc, Step(files, fuel, instrs, i, table, acc))
    decreases fuel, 0, |instrs| - i, 0
  {
    var ins := instrs[i];
    if ins.Invoke? {
      var afterCall := CallStep(files, fuel, ins.target, acc);
      CallStepGrows(files, fuel, ins.target, acc);
      AccessorStepGrows(instrs, i, table, afterCall);
      GrowsTrans(acc, afterCall, AccessorStep(instrs, i, table, afterCall));
    }
  }

  /**
   * `const-string v0, "user"` then `invoke-virtual {v1, v0}, Intent.getStringExtra`:
   * the extra ("user", "String") is recorded, and "user" is not collected
   * as a string because it feeds an Intent call.
   */
  lemma GetStringExtraExample(files: seq<DexFile>, fuel: nat)
    requires FilesWellFormed(files)
    ensures var get := MethodRef(INTENT, "getStringExtra", ["Ljava/lang/String;"], "Ljava/lang/String;");
      ScanFrom(files, fuel, [ConstString(false, 0, "user"), Invoke(Virtual, 1, 0, 0, 0, 0, get)], 0, map[], EMPTY_BAG)
        == Bag([Extra("user", "String")], [])
  {
    var get := MethodRef(INTENT, "getStringExtra", ["Ljava/lang/String;"], "Ljava/lang/String;");
    var instrs := [ConstString(false, 0, "user"), Invoke(Virtual, 1, 0, 0, 0, 0, get)];
    var r := Bag([Extra("user", "String")], []);
    GetStringExtraSteps(files, fuel, get, instrs);
    assert ScanFrom(files, fuel, instrs, 1, map[], EMPTY_BAG) == ScanFrom(files, fuel, instrs, 2, map[], r);
  }

  /** The two steps of the example: the constant is kept back for the Intent call, which records the extra. */
  lemma GetStringExtraSteps(files: seq<DexFile>, fuel: nat, get: MethodRef, instrs: seq<Instr>)
    requires FilesWellFormed(files)
    requires get == MethodRef(INTENT, "getStringExtra", ["Ljava/lang/String;"], "Ljava/lang/String;")
    requires instrs == [ConstString(false, 0, "user"), Invoke(Virtual, 1, 0, 0, 0, 0, get)]
    ensures Step(files, fuel, instrs, 0, map[], EMPTY_BAG) == EMPTY_BAG
    ensures Step(files, fuel, instrs, 1, map[], EMPTY_BAG) == Bag([Extra("user", "String")], [])
  {
    assert StringUsedForOwnIntents(instrs, 0, 0);
    GetStringExtraAccessor(get);
    assert GetExtraKey(instrs, 1, 0, map[]) == Some("user");
    assert CallStep(files, fuel, get, EMPTY_BAG) == EMPTY_BAG;
    assert AccessorStep(instrs, 1, map[], EMPTY_BAG) == Bag([Extra("user", "String")], []);
  }

  /** Intent.getStringExtra is an Intent accessor whose extra type is String. */
  lemma GetStringExtraAccessor(get: MethodRef)
    requires get == MethodRef(INTENT, "getStringExtra", ["Ljava/lang/String;"], "Ljava/lang/String;")
    ensures IsIntentAccessor(get) && INTENT !in get.parameterTypes
    ensures IntentExtraType(get.name) == "String" && ConvertExtraType("String") == "String"
  {
    var n := get.name;
    assert OccursAt(n, "get", 0) && OccursAt(n, "Extra", 9);
    NoGetExtras(n);
    IntentExtraTypeOf("String");
    assert n == "get" + "String" + "Extra";
    StringConverts();
  }

  lemma NoGetExtras(n: string)
    requires n == "getStringExtra"
    ensures !Contains(n, "getExtras")
  {
    forall k | 0 <= k <= |n| - 9 ensures !OccursAt(n, "getExtras", k) {
      assert n[k + 3] != 'E';
      assert n[k..k + 9][3] == n[k + 3];
    }
  }

  lemma StringConverts()
    ensures ConvertExtraType("String") == "String"
  {
    assert !EndsWith("String", "Array") by {
      assert "String"[1..] != "Array";
    }
  }
}
