/**
 * DexScanner of the current tree: finds the components among the classes
 * of the dex files, collects their string constants and the intent extras
 * their lifecycle methods read, and marks the receivers registered at run
 * time. The scanner keeps a cache of class-variable tables and the set of
 * all string constants it has seen.
 */
module Scanner {
  import opened Wrappers
  import opened Strings
  import opened Dex
  import opened Extras
  import opened Slicer
  import opened ClassUtils
  import opened MethodUtils
  import opened ComponentUtils
  import opened Markup
  import opened Components
  import opened LifecycleScan
  import opened DynamicReceivers

  /** Every class descriptor has the `L...;` shape dottedClassName cuts the name out of. */
  predicate DescriptorsWellFormed(files: seq<DexFile>) {
    forall c :: c in AllClasses(files) ==> DottedClassName(c.descriptor).Some?
  }

  /** The roster's names, in roster order. */
  function Names(components: seq<Component>): (r: seq<string>)
    ensures |r| == |components| && forall k :: 0 <= k < |r| ==> r[k] == components[k].name
  {
    seq(|components|, k requires 0 <= k < |components| => components[k].name)
  }

  /** The roster's kinds, in roster order. */
  function Kinds(components: seq<Component>): (r: seq<Kind>)
    ensures |r| == |components| && forall k :: 0 <= k < |r| ==> r[k] == components[k].kind
  {
    seq(|components|, k requires 0 <= k < |components| => components[k].kind)
  }

  /** No component object occurs twice in the list. */
  predicate Distinct(components: seq<Component>) {
    forall i, j :: 0 <= i < j < |components| ==> components[i] != components[j]
  }

  /** The non-empty string initial values of the fields, in field order. */
  function FieldStrings(fields: seq<Field>): (r: seq<string>)
    ensures "" !in r
    decreases |fields|
  {
    if fields == [] then []
    else FieldStrings(fields[..|fields| - 1]) + FieldString(fields[|fields| - 1])
  }

  /** The string a field contributes: its initial value when that is a non-empty string. */
  function FieldString(field: Field): (r: seq<string>)
    ensures |r| <= 1 && "" !in r
    ensures r != [] <==> field.initialValue.Some? && field.initialValue.value.StringValue? && field.initialValue.value.value != ""
  {
    var v := field.initialValue;
    if v.Some? && v.value.StringValue? && v.value.value != "" then [v.value.value] else []
  }

  lemma FieldStringsStep(fields: seq<Field>, i: nat)
    requires i < |fields|
    ensures FieldStrings(fields[..i + 1]) == FieldStrings(fields[..i]) + FieldString(fields[i])
  {
    assert fields[..i + 1][..i] == fields[..i];
  }

  /** scanActivity, scanService, scanReceiver: the lifecycle method a method of that name is. */
  function SlotFor(kind: Kind, methodName: string): (r: Option<Slot>)
    ensures r.Some? ==> kind in {Activity, Service, Receiver}
  {
    match kind
    case Activity =>
      if methodName == "onCreate" then Some(OnCreate) else if methodName == "onNewIntent" then Some(OnNewIntent) else None
    case Service =>
      if methodName == "onStartCommand" then Some(OnStartCommand)
      else if methodName == "onHandleIntent" then Some(OnHandleIntent) else None
    case Receiver => if methodName == "onReceive" then Some(OnReceive) else None
    case _ => None
  }

  /** scanMethod for one method: the scan of a lifecycle method goes into its bag. */
  function LifecycleScanned(files: seq<DexFile>, fuel: nat, kind: Kind, m: MethodDef, table: map<string, string>, s: State): State
    requires FilesWellFormed(files)
  {
    match SlotFor(kind, m.name)
    case None => s
    case Some(slot) => WithBag(s, slot, ScanMethod(files, fuel, m, table, BagAt(s, slot)))
  }

  /** The intent-information loop of extractInfo over the methods, in order. */
  function IntentInfo(files: seq<DexFile>, fuel: nat, kind: Kind, ms: seq<MethodDef>, table: map<string, string>, s: State): State
    requires FilesWellFormed(files)
    decreases |ms|
  {
    if ms == [] then s
    else LifecycleScanned(files, fuel, kind, ms[|ms| - 1], table, IntentInfo(files, fuel, kind, ms[..|ms| - 1], table, s))
  }

  /** The string-constant scan of one method: into the method strings and the onCreate extras. */
  function MethodStringsScanned(files: seq<DexFile>, fuel: nat, m: MethodDef, table: map<string, string>, s: State): State
    requires FilesWellFormed(files)
  {
    var r := ScanMethod(files, fuel, m, table, Bag(s.onCreate.extras, s.methodStrings));
    s.(methodStrings := r.strings, onCreate := s.onCreate.(extras := r.extras))
  }

  /** The string-constant loop of extractInfo over the methods, in order. */
  function StringInfo(files: seq<DexFile>, fuel: nat, ms: seq<MethodDef>, table: map<string, string>, s: State): State
    requires FilesWellFormed(files)
    decreases |ms|
  {
    if ms == [] then s
    else MethodStringsScanned(files, fuel, ms[|ms| - 1], table, StringInfo(files, fuel, ms[..|ms| - 1], table, s))
  }

  /** Whether extractInfo works on a component of this kind: fragments have no intent information, and only activities and fragments have string constants worth collecting. */
  predicate Processed(kind: Kind, intentInfo: bool) {
    if intentInfo then kind != Fragment else kind != Service && kind != Receiver
  }

  /** What extractInfo does to one component whose class definition is `c`. */
  function Extracted(files: seq<DexFile>, fuel: nat, intentInfo: bool, kind: Kind, c: ClassDef, s: State): State
    requires FilesWellFormed(files) && BodiesWellFormed(c.methods)
  {
    if !Processed(kind, intentInfo) then s
    else
      var table := ClassTable(c.methods);
      var withConstants := s.(globals := InsertAll(s.globals, FieldStrings(c.fields)));
      if intentInfo then IntentInfo(files, fuel, kind, c.methods, table, withConstants)
      else if kind == Activity || kind == Fragment then StringInfo(files, fuel, c.methods, table, withConstants)
      else withConstants
  }

  /** extractInfo after `i` components: those before `i` extracted from their original state, the rest untouched. */
  ghost predicate ExtractedUpTo(components: seq<Component>, orig: seq<State>, files: seq<DexFile>, fuel: nat, intentInfo: bool, i: nat)
    reads set c | c in components
  {
    FilesWellFormed(files) && |orig| == |components| && i <= |components|
    && forall k :: 0 <= k < |components| ==>
         components[k].Valid() && components[k].clazz.Some? && BodiesWellFormed(components[k].clazz.value.methods)
         && components[k].Abs() == if k < i then Extracted(files, fuel, intentInfo, components[k].kind, components[k].clazz.value, orig[k])
                                   else orig[k]
  }

  /** The scanner's string set after extractInfo went over `cs`. */
  function StringsAfter(xs: seq<string>, cs: seq<Component>, intentInfo: bool): seq<string>
    decreases |cs|
  {
    if cs == [] then xs
    else
      var c := cs[|cs| - 1];
      var before := StringsAfter(xs, cs[..|cs| - 1], intentInfo);
      if Processed(c.kind, intentInfo) && c.clazz.Some? then InsertAll(before, FieldStrings(c.clazz.value.fields)) else before
  }

  /** extractStringConstants after extractInfo: an activity or fragment adds its method strings, then its global strings, to its static strings. */
  function StaticsAdded(kind: Kind, s: State): State {
    if kind == Activity || kind == Fragment then s.(statics := InsertAll(InsertAll(s.statics, s.methodStrings), s.globals))
    else s
  }

  /** Which component, if any, findComponent makes of a class: activity, service, receiver, fragment, in that order. */
  ghost function KindOf(classes: seq<ClassDef>, c: ClassDef, rank: string -> nat): Option<Kind>
    requires Acyclic(classes, rank)
  {
    if Walk(classes, ACTIVITY_CLASSES, c.superclass, rank) then Some(Activity)
    else if Walk(classes, SERVICE_CLASSES, c.superclass, rank) then Some(Service)
    else if Walk(classes, BROADCAST_RECEIVER_CLASSES, c.superclass, rank) then Some(Receiver)
    else if Walk(classes, FRAGMENT_CLASSES, c.superclass, rank) then Some(Fragment)
    else None
  }

  /** lookUpComponents skips a class whose name is excluded or, unless all classes are resolved, outside the package. */
  predicate Skipped(c: ClassDef, packageName: string, resolveAllClasses: bool, excluded: string -> bool)
    requires DottedClassName(c.descriptor).Some?
  {
    var className := DottedClassName(c.descriptor).value;
    excluded(className) || (!resolveAllClasses && !StartsWith(className, packageName))
  }

  predicate DescriptorsOk(cs: seq<ClassDef>) {
    forall c :: c in cs ==> DottedClassName(c.descriptor).Some?
  }

  /** What lookUpComponents keeps of one class of the dex file `classes`: its kind and the class, or nothing. */
  ghost function Entry(classes: seq<ClassDef>, c: ClassDef, packageName: string, resolveAllClasses: bool,
                       excluded: string -> bool, rank: string -> nat): seq<(Kind, ClassDef)>
    requires Acyclic(classes, rank)
  {
    if DottedClassName(c.descriptor).None? || Skipped(c, packageName, resolveAllClasses, excluded) then []
    else match KindOf(classes, c, rank)
      case None => []
      case Some(kind) => [(kind, c)]
  }

  /** The kind and class of every component lookUpComponents finds among `cs`, the classes of the dex file `classes`. */
  ghost function FoundIn(classes: seq<ClassDef>, cs: seq<ClassDef>, packageName: string, resolveAllClasses: bool,
                         excluded: string -> bool, rank: string -> nat): seq<(Kind, ClassDef)>
    requires Acyclic(classes, rank)
    decreases |cs|
  {
    if cs == [] then []
    else
      FoundIn(classes, cs[..|cs| - 1], packageName, resolveAllClasses, excluded, rank)
      + Entry(classes, cs[|cs| - 1], packageName, resolveAllClasses, excluded, rank)
  }

  /** Each dex file's classes are classified against that file alone. */
  predicate FilesAcyclic(files: seq<DexFile>, rank: string -> nat) {
    forall f :: f in files ==> Acyclic(f, rank) && DescriptorsOk(f)
  }

  ghost function Found(files: seq<DexFile>, packageName: string, resolveAllClasses: bool,
                       excluded: string -> bool, rank: string -> nat): seq<(Kind, ClassDef)>
    requires FilesAcyclic(files, rank)
    decreases |files|
  {
    if files == [] then []
    else
      var f := files[|files| - 1];
      Found(files[..|files| - 1], packageName, resolveAllClasses, excluded, rank) + FoundIn(f, f, packageName, resolveAllClasses, excluded, rank)
  }

  /** A string is collected from the fields exactly when it is non-empty and some field starts out with it. */
  lemma {:induction false} FieldStringsSpec(fields: seq<Field>, x: string)
    ensures x in FieldStrings(fields) <==>
      x != "" && exists i :: 0 <= i < |fields| && fields[i].initialValue == Some(StringValue(x))
    decreases |fields|
  {
    if fields != [] {
      var init := fields[..|fields| - 1];
      FieldStringsSpec(init, x);
      if exists i :: 0 <= i < |init| && init[i].initialValue == Some(StringValue(x)) {
        var i :| 0 <= i < |init| && init[i].initialValue == Some(StringValue(x));
        assert fields[i] == init[i];
      }
      if exists i :: 0 <= i < |fields| && fields[i].initialValue == Some(StringValue(x)) {
        var i :| 0 <= i < |fields| && fields[i].initialValue == Some(StringValue(x));
        if i < |init| {
          assert init[i] == fields[i];
        }
      }
    }
  }

  /** The parts of a component the extraction passes never touch. */
  predicate KeepsFlags(s: State, r: State) {
    r.exported == s.exported && r.enabled == s.enabled && r.filters == s.filters
    && r.statics == s.statics && r.dynamic == s.dynamic
  }

  /** Scanning a lifecycle method changes at most that method's bag, which only grows. */
  lemma LifecycleScannedSpec(files: seq<DexFile>, fuel: nat, kind: Kind, m: MethodDef, table: map<string, string>, s: State)
    requires FilesWellFormed(files)
    ensures var r := LifecycleScanned(files, fuel, kind, m, table, s);
      KeepsFlags(s, r) && r.globals == s.globals && r.methodStrings == s.methodStrings
      && (WellFormed(s) ==> WellFormed(r))
      && (SlotFor(kind, m.name).None? ==> r == s)
      && (SlotFor(kind, m.name).Some? ==> var slot := SlotFor(kind, m.name).value;
            Grows(BagAt(s, slot), BagAt(r, slot)) && forall other :: other != slot ==> BagAt(r, other) == BagAt(s, other))
  {
    if SlotFor(kind, m.name).Some? {
      var slot := SlotFor(kind, m.name).value;
      var b := ScanMethod(files, fuel, m, table, BagAt(s, slot));
      ScanMethodGrows(files, fuel, m, table, BagAt(s, slot));
      WithGrownBag(s, slot, b);
    }
  }

  /** Putting a grown bag into its slot keeps the flags, the other collections, and well-formedness. */
  lemma WithGrownBag(s: State, slot: Slot, b: Bag)
    requires Grows(BagAt(s, slot), b)
    ensures var r := WithBag(s, slot, b);
      KeepsFlags(s, r) && r.globals == s.globals && r.methodStrings == s.methodStrings
      && (WellFormed(s) ==> WellFormed(r))
  {
    var r := WithBag(s, slot, b);
    if WellFormed(s) {
      assert BagValid(BagAt(s, slot));
      forall other ensures BagValid(BagAt(r, other)) {
        match other
        case OnCreate => assert BagValid(s.onCreate);
        case OnNewIntent => assert BagValid(s.onNewIntent);
        case OnStartCommand => assert BagValid(s.onStartCommand);
        case OnHandleIntent => assert BagValid(s.onHandleIntent);
        case OnReceive => assert BagValid(s.onReceive);
      }
      assert BagValid(BagAt(r, OnCreate)) && BagValid(BagAt(r, OnNewIntent)) && BagValid(BagAt(r, OnStartCommand))
        && BagValid(BagAt(r, OnHandleIntent)) && BagValid(BagAt(r, OnReceive));
    }
  }

  /** The intent pass keeps the flags, the global and the method strings, and keeps the sets sets. */
  lemma {:induction false} IntentInfoSpec(files: seq<DexFile>, fuel: nat, kind: Kind, ms: seq<MethodDef>, table: map<string, string>, s: State)
    requires FilesWellFormed(files)
    ensures var r := IntentInfo(files, fuel, kind, ms, table, s);
      KeepsFlags(s, r) && r.globals == s.globals && r.methodStrings == s.methodStrings
      && (WellFormed(s) ==> WellFormed(r))
    decreases |ms|
  {
    if ms != [] {
      var before := IntentInfo(files, fuel, kind, ms[..|ms| - 1], table, s);
      IntentInfoSpec(files, fuel, kind, ms[..|ms| - 1], table, s);
      LifecycleScannedSpec(files, fuel, kind, ms[|ms| - 1], table, before);
    }
  }

  /**
   * The string pass only adds: to the method strings and to the onCreate
   * extras, leaving every other part of the component as it was.
   */
  lemma {:induction false} StringInfoSpec(files: seq<DexFile>, fuel: nat, ms: seq<MethodDef>, table: map<string, string>, s: State)
    requires FilesWellFormed(files)
    ensures var r := StringInfo(files, fuel, ms, table, s);
      KeepsFlags(s, r) && r.globals == s.globals
      && s.methodStrings <= r.methodStrings && s.onCreate.extras <= r.onCreate.extras
      && r == s.(methodStrings := r.methodStrings, onCreate := s.onCreate.(extras := r.onCreate.extras))
      && (WellFormed(s) ==> WellFormed(r))
    decreases |ms|
  {
    if ms != [] {
      var before := StringInfo(files, fuel, ms[..|ms| - 1], table, s);
      StringInfoSpec(files, fuel, ms[..|ms| - 1], table, s);
      ScanMethodGrows(files, fuel, ms[|ms| - 1], table, Bag(before.onCreate.extras, before.methodStrings));
    }
  }

  /**
   * extractInfo on one component: a skipped kind is left alone; otherwise
   * the field strings join the global strings and the flags stay.
   */
  lemma ExtractedSpec(files: seq<DexFile>, fuel: nat, intentInfo: bool, kind: Kind, c: ClassDef, s: State)
    requires FilesWellFormed(files) && BodiesWellFormed(c.methods)
    ensures var r := Extracted(files, fuel, intentInfo, kind, c, s);
      KeepsFlags(s, r) && (WellFormed(s) ==> WellFormed(r))
      && (!Processed(kind, intentInfo) ==> r == s)
      && (Processed(kind, intentInfo) ==> r.globals == InsertAll(s.globals, FieldStrings(c.fields)))
  {
    if Processed(kind, intentInfo) {
      var table := ClassTable(c.methods);
      var withConstants := s.(globals := InsertAll(s.globals, FieldStrings(c.fields)));
      IntentInfoSpec(files, fuel, kind, c.methods, table, withConstants);
      StringInfoSpec(files, fuel, c.methods, table, withConstants);
    }
  }

  /** After extractStringConstants an activity's static strings hold every non-empty string a field of its class starts out with. */
  lemma StaticStringsHoldFieldStrings(files: seq<DexFile>, fuel: nat, c: ClassDef, s: State, x: string, i: nat)
    requires FilesWellFormed(files) && BodiesWellFormed(c.methods)
    requires i < |c.fields| && c.fields[i].initialValue == Some(StringValue(x)) && x != ""
    ensures x in StaticsAdded(Activity, Extracted(files, fuel, false, Activity, c, s)).statics
  {
    FieldStringsSpec(c.fields, x);
    ExtractedSpec(files, fuel, false, Activity, c, s);
  }

  /** The components lookUpComponents finds among `cs`: exactly the classes kept and classified, in order. */
  lemma {:induction false} FoundInSpec(classes: seq<ClassDef>, cs: seq<ClassDef>, packageName: string, resolveAllClasses: bool,
                                       excluded: string -> bool, rank: string -> nat, kind: Kind, c: ClassDef)
    requires Acyclic(classes, rank) && DescriptorsOk(cs)
    ensures (kind, c) in FoundIn(classes, cs, packageName, resolveAllClasses, excluded, rank) <==>
      c in cs && !Skipped(c, packageName, resolveAllClasses, excluded) && KindOf(classes, c, rank) == Some(kind)
    decreases |cs|
  {
    if cs != [] {
      var init := cs[..|cs| - 1];
      assert DescriptorsOk(init) by {
        forall d | d in init ensures d in cs { }
      }
      var last := cs[|cs| - 1];
      assert last in cs;
      FoundInSpec(classes, init, packageName, resolveAllClasses, excluded, rank, kind, c);
      EntrySpec(classes, last, packageName, resolveAllClasses, excluded, rank, kind, c);
      assert cs == init + [last];
    }
  }

  /** The one entry a kept, classified class contributes. */
  lemma EntrySpec(classes: seq<ClassDef>, last: ClassDef, packageName: string, resolveAllClasses: bool,
                  excluded: string -> bool, rank: string -> nat, kind: Kind, c: ClassDef)
    requires Acyclic(classes, rank) && DottedClassName(last.descriptor).Some?
    ensures (kind, c) in Entry(classes, last, packageName, resolveAllClasses, excluded, rank) <==>
      c == last && !Skipped(last, packageName, resolveAllClasses, excluded) && KindOf(classes, last, rank) == Some(kind)
  {
  }

  /** The roster describes `found`, holds no component twice, and every component is as it was made. */
  ghost predicate Listed(components: seq<Component>, found: seq<(Kind, ClassDef)>)
    reads set c | c in components
  {
    Describes(components, found) && Distinct(components)
    && forall k :: 0 <= k < |components| ==> components[k].Abs() == INITIAL && components[k].Valid()
  }

  predicate Describes(components: seq<Component>, found: seq<(Kind, ClassDef)>) {
    |components| == |found|
    && forall k :: 0 <= k < |components| ==>
         components[k].kind == found[k].0 && components[k].clazz == Some(found[k].1)
         && Some(components[k].name) == DottedClassName(found[k].1.descriptor)
  }

  /** FoundIn over one more class: that class's entry, if it is kept and classified, comes last. */
  lemma {:induction false} FoundInStep(classes: seq<ClassDef>, ci: nat, packageName: string, resolveAllClasses: bool,
                                       excluded: string -> bool, rank: string -> nat)
    requires Acyclic(classes, rank) && ci < |classes|
    ensures FoundIn(classes, classes[..ci + 1], packageName, resolveAllClasses, excluded, rank)
         == FoundIn(classes, classes[..ci], packageName, resolveAllClasses, excluded, rank)
            + Entry(classes, classes[ci], packageName, resolveAllClasses, excluded, rank)
  {
    assert classes[..ci + 1][..ci] == classes[..ci];
  }

  /** One class further: the accumulated roster still describes what lookUpComponents has found so far. */
  lemma {:induction false} DescribesStep(classes: seq<ClassDef>, ci: nat, packageName: string, resolveAllClasses: bool,
                                         excluded: string -> bool, rank: string -> nat,
                                         components: seq<Component>, soFar: seq<(Kind, ClassDef)>, added: seq<Component>)
    requires Acyclic(classes, rank) && ci < |classes|
    requires soFar == FoundIn(classes, classes[..ci], packageName, resolveAllClasses, excluded, rank) && Describes(components, soFar)
    requires |added| <= 1
    requires Entry(classes, classes[ci], packageName, resolveAllClasses, excluded, rank)
             == if added == [] then [] else [(added[0].kind, classes[ci])]
    requires added != [] ==> added[0].clazz == Some(classes[ci]) && Some(added[0].name) == DottedClassName(classes[ci].descriptor)
    ensures soFar + Entry(classes, classes[ci], packageName, resolveAllClasses, excluded, rank)
            == FoundIn(classes, classes[..ci + 1], packageName, resolveAllClasses, excluded, rank)
    ensures Describes(components + added, soFar + Entry(classes, classes[ci], packageName, resolveAllClasses, excluded, rank))
  {
    FoundInStep(classes, ci, packageName, resolveAllClasses, excluded, rank);
    if added == [] {
      assert components + added == components;
    } else {
      DescribesSnoc(components, added[0], soFar, (added[0].kind, classes[ci]));
      assert added == [added[0]];
    }
  }

  lemma DescribesSnoc(components: seq<Component>, c: Component, found: seq<(Kind, ClassDef)>, entry: (Kind, ClassDef))
    requires Describes(components, found)
    requires c.kind == entry.0 && c.clazz == Some(entry.1) && Some(c.name) == DottedClassName(entry.1.descriptor)
    ensures Describes(components + [c], found + [entry])
  {
  }

  lemma DescribesAppend(a: seq<Component>, b: seq<Component>, fa: seq<(Kind, ClassDef)>, fb: seq<(Kind, ClassDef)>)
    requires Describes(a, fa) && Describes(b, fb)
    ensures Describes(a + b, fa + fb)
  {
    forall k | 0 <= k < |a + b|
      ensures (a + b)[k].kind == (fa + fb)[k].0
    {
      if k >= |a| {
        assert (a + b)[k] == b[k - |a|] && (fa + fb)[k] == fb[k - |a|];
      }
    }
  }

  /** Found over one more dex file: that file's entries come last. */
  lemma FoundStep(files: seq<DexFile>, fi: nat, packageName: string, resolveAllClasses: bool,
                  excluded: string -> bool, rank: string -> nat)
    requires FilesAcyclic(files, rank) && fi < |files|
    ensures FilesAcyclic(files[..fi], rank) && FilesAcyclic(files[..fi + 1], rank) && Acyclic(files[fi], rank) && DescriptorsOk(files[fi])
    ensures Found(files[..fi + 1], packageName, resolveAllClasses, excluded, rank)
            == Found(files[..fi], packageName, resolveAllClasses, excluded, rank) + FoundIn(files[fi], files[fi], packageName, resolveAllClasses, excluded, rank)
  {
    assert files[..fi + 1][..fi] == files[..fi];
    assert files[fi] in files;
    assert forall f :: f in files[..fi + 1] ==> f in files;
  }

  /** Two rosters with no component in common, one after the other. */
  lemma ListedAppend(a: seq<Component>, b: seq<Component>, fa: seq<(Kind, ClassDef)>, fb: seq<(Kind, ClassDef)>)
    requires Listed(a, fa) && Listed(b, fb)
    requires forall i, j :: 0 <= i < |a| && 0 <= j < |b| ==> a[i] != b[j]
    ensures Listed(a + b, fa + fb)
  {
    DescribesAppend(a, b, fa, fb);
    var ab := a + b;
    forall i, j | 0 <= i < j < |ab| ensures ab[i] != ab[j] {
      if j >= |a| && i >= |a| {
        assert ab[i] == b[i - |a|] && ab[j] == b[j - |a|];
      } else if j >= |a| {
        assert ab[i] == a[i] && ab[j] == b[j - |a|];
      }
    }
    forall k | 0 <= k < |ab| ensures ab[k].Abs() == INITIAL && ab[k].Valid() {
      if k >= |a| {
        assert ab[k] == b[k - |a|];
      }
    }
  }

  class DexScanner {
    const dexFiles: seq<DexFile>
    /** The cache of class-variable tables, by class. */
    var variables: map<ClassDef, map<string, string>>
    /** Every string constant of the fields of the classes looked at. */
    var strings: seq<string>

    /** Every cached table is the one lookupConstructorsForVariables computes for its class. */
    ghost predicate Valid()
      reads this
    {
      FilesWellFormed(dexFiles) && NoDup(strings)
      && forall c :: c in variables ==> BodiesWellFormed(c.methods) && variables[c] == ClassTable(c.methods)
    }

    constructor(dexFiles: seq<DexFile>)
      requires FilesWellFormed(dexFiles)
      ensures this.dexFiles == dexFiles && variables == map[] && strings == [] && Valid()
    {
      this.dexFiles := dexFiles;
      variables := map[];
      strings := [];
    }

    /**
     * scanComponentMethod: `collected` holds the extras list and the
     * string set handed in; the result is what they hold afterwards.
     */
    method ScanComponentMethod(fuel: nat, m: MethodDef, classVariables: map<string, string>, collected: Bag)
      returns (r: Bag)
      requires Valid()
      modifies this`variables
      ensures Valid()
      ensures r == ScanMethod(dexFiles, fuel, m, classVariables, collected)
      decreases fuel, 1
    {
      r := collected;
      if m.implementation.Some? {
        var instructions := m.implementation.value;
        var i := 0;
        while i < |instructions|
          invariant 0 <= i <= |instructions|
          invariant Valid()
          invariant ScanFrom(dexFiles, fuel, instructions, i, classVariables, r) == ScanMethod(dexFiles, fuel, m, classVariables, collected)
        {
          var instruction := instructions[i];
          if instruction.Invoke? {
            r := FollowCall(fuel, instruction.target, r);
            r := ReadAccessor(instructions, i, classVariables, r);
          } else if instruction.ConstString? {
            if instruction.literal != "" && !StringUsedForOwnIntents(instructions, i, instruction.a) {
              r := r.(strings := Insert(r.strings, instruction.literal));
            }
          }
          i := i + 1;
        }
      }
    }

    /**
     * The recursive half of the invoke branch: a call that takes an Intent
     * is scanned in the called method with its class's variable table,
     * which is looked up once per class and cached.
     */
    method FollowCall(fuel: nat, methodReference: MethodRef, collected: Bag) returns (r: Bag)
      requires Valid()
      modifies this`variables
      ensures Valid()
      ensures r == CallStep(dexFiles, fuel, methodReference, collected)
      decreases fuel, 0
    {
      r := collected;
      if fuel > 0 {
        var target := ResolveCall(methodReference);
        if target.Some? {
          var (targetMethod, targetClass) := target.value;
          if targetClass !in variables {
            var table := LookupConstructorsForVariables(targetClass);
            variables := variables[targetClass := table];
          }
          r := ScanComponentMethod(fuel - 1, targetMethod, variables[targetClass], r);
        }
      }
    }

    /** The called method and its class, for a call that takes an Intent, searched by the call's signature. */
    method ResolveCall(methodReference: MethodRef) returns (r: Option<(MethodDef, ClassDef)>)
      ensures r == CallTarget(dexFiles, methodReference)
    {
      r := None;
      if INTENT in methodReference.parameterTypes {
        var methodSignature := MethodRefText(methodReference);
        ReferenceTextSplits(methodReference);
        var className := SplitHead(methodSignature).value;
        var targetMethod := SearchForTargetMethod(dexFiles, methodSignature);
        var targetClass := SearchForTargetClass(dexFiles, className);
        if targetMethod.Some? && targetClass.Some? {
          r := Some((targetMethod.value, targetClass.value));
        }
      }
    }

    /** The accessor half of the invoke branch: an Intent getter, or a Bundle getter on the intent's extras, records the extra it reads. */
    method ReadAccessor(instructions: seq<Instr>, i: nat, classVariables: map<string, string>, collected: Bag) returns (r: Bag)
      requires i < |instructions| && instructions[i].Invoke?
      ensures r == AccessorStep(instructions, i, classVariables, collected)
    {
      r := collected;
      var instruction := instructions[i];
      var methodReference := instruction.target;
      if IsIntentAccessor(methodReference) {
        IntentAccessorLength(methodReference);
        var extraType := methodReference.name[3..|methodReference.name| - 5];
        var extraKey := GetExtraKey(instructions, i, instruction.d, classVariables);
        if extraKey.Some? {
          r := r.(extras := r.extras + [Extra(extraKey.value, ConvertExtraType(extraType))]);
        }
      } else if IsBundleAccessor(methodReference) && IsIntentBundle(instructions, i, instruction.c) {
        BundleAccessorLength(methodReference);
        var extraType := methodReference.name[3..];
        if Contains(methodReference.name, "containsKey") {
          extraType := "";
        }
        var extraKey := GetExtraKey(instructions, i, instruction.d, classVariables);
        if extraKey.Some? {
          r := r.(extras := r.extras + [Extra(extraKey.value, ConvertExtraType(extraType))]);
        }
      }
    }

    /**
     * backtrackIntentFilter: rebuilds the filter from the calls before the
     * registerReceiver call and appends it to the receiver's filters. The
     * addCategory and data tests compare a reference with a String
     * (ReferenceEqualsString) and never hold, so they are not spelled out.
     */
    method BacktrackIntentFilterInto(receiver: Component, instructions: seq<Instr>, currentInstructionIndex: int, registerID: int)
      requires currentInstructionIndex < |instructions|
      modifies receiver`intentFilters
      ensures receiver.Abs() == old(receiver.Abs()).(filters := old(receiver.intentFilters)
        + [BacktrackIntentFilter(instructions, currentInstructionIndex, registerID)])
    {
      var intentFilter := EMPTY_FILTER;
      var index := currentInstructionIndex;
      while index >= 0
        invariant index < |instructions|
        invariant FilterFrom(instructions, index, registerID, intentFilter) == BacktrackIntentFilter(instructions, currentInstructionIndex, registerID)
        decreases index + 1
      {
        var instruction := instructions[index];
        if instruction.Invoke? && instruction.kind == Virtual {
          if MethodRefText(instruction.target) == ADD_ACTION && instruction.c == registerID {
            var action := BacktrackStringConstant(instructions, index - 1, instruction.d);
            if action.Some? {
              intentFilter := AddAction(intentFilter, action.value);
            }
          }
        } else if instruction.Invoke? && instruction.kind == Direct {
          if MethodRefText(instruction.target) == INIT_WITH_ACTION && instruction.c == registerID {
            var action := BacktrackStringConstant(instructions, index - 1, instruction.d);
            if action.Some? {
              intentFilter := AddAction(intentFilter, action.value);
            }
          }
        }
        index := index - 1;
      }
      receiver.AddIntentFilter(intentFilter);
    }

    /** scanMethodForDynamicBroadcastReceiver: every registerReceiver call marks its receiver and gives it a filter. */
    method ScanMethodForDynamicBroadcastReceiver(components: seq<Component>, m: MethodDef)
      requires Distinct(components)
      modifies set c | c in components
      ensures forall k :: 0 <= k < |components| ==>
        components[k].Abs() == Registered(old(components[k].Abs()), MethodHits(Names(components), Kinds(components), m), k)
    {
      if m.implementation.Some? {
        var instructions := m.implementation.value;
        var names := Names(components);
        var kinds := Kinds(components);
        ghost var orig := seq(|components|, k requires 0 <= k < |components| reads set c | c in components => components[k].Abs());
        assert forall k :: 0 <= k < |components| ==> orig[k] == old(components[k].Abs());
        var i := 0;
        while i < |instructions|
          invariant 0 <= i <= |instructions|
          invariant forall k :: 0 <= k < |components| ==>
            components[k].Abs() == Registered(orig[k], Hits(names, kinds, instructions, i), k)
        {
          ScanInstruction(components, names, kinds, instructions, i, orig);
          i := i + 1;
        }
        assert Hits(names, kinds, instructions, |instructions|) == MethodHits(Names(components), Kinds(components), m);
      }
    }

    /** The body of scanMethodForDynamicBroadcastReceiver's loop for one instruction: a registerReceiver call whose receiver is found adds one hit. */
    method ScanInstruction(components: seq<Component>, names: seq<string>, kinds: seq<Kind>, instructions: seq<Instr>, i: nat, ghost orig: seq<State>)
      requires Distinct(components) && |names| == |components| && kinds == Kinds(components) && |orig| == |components| && i < |instructions|
      requires forall k :: 0 <= k < |components| ==>
        components[k].Abs() == Registered(orig[k], Hits(names, kinds, instructions, i), k)
      modifies set c | c in components
      ensures forall k :: 0 <= k < |components| ==>
        components[k].Abs() == Registered(orig[k], Hits(names, kinds, instructions, i + 1), k)
    {
      var instruction := instructions[i];
      if IsRegisterReceiver(instruction) {
        var index := i - 1;
        var receiver := BacktrackReceiver(names, instructions, index, instruction.d);
        if receiver.Some? && components[receiver.value].kind == Receiver {
          ghost var hits := Hits(names, kinds, instructions, i);
          ghost var h := Hit(receiver.value, BacktrackIntentFilter(instructions, index, instruction.e));
          label before:
          MarkReceiver(components, receiver.value, instructions, index, instruction.e);
          forall j | 0 <= j < |components|
            ensures components[j].Abs() == Registered(orig[j], hits + [h], j)
          {
            RegisteredSnoc(orig[j], hits, h, j);
            assert old@before(components[j].Abs()) == Registered(orig[j], hits, j);
          }
        }
      }
    }

    /** The body of a match: the receiver is marked dynamic and gets the filter built from the calls before. */
    method MarkReceiver(components: seq<Component>, k: nat, instructions: seq<Instr>, index: int, register: int)
      requires Distinct(components) && k < |components| && components[k].kind == Receiver && index < |instructions|
      modifies components[k]
      ensures forall j :: 0 <= j < |components| && j != k ==> components[j].Abs() == old(components[j].Abs())
      ensures components[k].Abs() == old(components[k].Abs()).(dynamic := true,
        filters := old(components[k].intentFilters) + [BacktrackIntentFilter(instructions, index, register)])
    {
      var receiver := components[k];
      receiver.MarkAsDynamicReceiver();
      BacktrackIntentFilterInto(receiver, instructions, index, register);
    }

    /** lookUpDynamicBroadcastReceivers: every method of every class of every dex file, unless the class name is excluded. */
    method LookUpDynamicBroadcastReceivers(components: seq<Component>, excluded: string -> bool)
      requires Distinct(components)
      modifies set c | c in components
      ensures forall k :: 0 <= k < |components| ==>
        components[k].Abs() == Registered(old(components[k].Abs()), ClassesHits(Names(components), Kinds(components), AllClasses(dexFiles), excluded), k)
    {
      ghost var names := Names(components);
      ghost var kinds := Kinds(components);
      ghost var hitsOf := c => ClassHits(names, kinds, c, excluded);
      var fi := 0;
      assert dexFiles[..0] == [];
      while fi < |dexFiles|
        invariant 0 <= fi <= |dexFiles|
        invariant forall k :: 0 <= k < |components| ==>
          components[k].Abs() == Registered(old(components[k].Abs()), Flatten(AllClasses(dexFiles[..fi]), hitsOf), k)
      {
        ghost var done := Flatten(AllClasses(dexFiles[..fi]), hitsOf);
        ghost var added := Flatten(dexFiles[fi], hitsOf);
        AllClassesAt(dexFiles, fi);
        FlattenAppend(AllClasses(dexFiles[..fi]), dexFiles[fi], hitsOf);
        ScanClassesForDynamicBroadcastReceivers(components, dexFiles[fi], excluded);
        forall k | 0 <= k < |components|
          ensures components[k].Abs() == Registered(old(components[k].Abs()), done + added, k)
        {
          RegisteredAppend(old(components[k].Abs()), done, added, k);
        }
        fi := fi + 1;
      }
      assert dexFiles[..fi] == dexFiles;
    }

    /** The classes of one dex file, in order. */
    method ScanClassesForDynamicBroadcastReceivers(components: seq<Component>, classes: seq<ClassDef>, excluded: string -> bool)
      requires Distinct(components)
      modifies set c | c in components
      ensures forall k :: 0 <= k < |components| ==>
        components[k].Abs() == Registered(old(components[k].Abs()), ClassesHits(Names(components), Kinds(components), classes, excluded), k)
    {
      ghost var names := Names(components);
      ghost var kinds := Kinds(components);
      ghost var hitsOf := c => ClassHits(names, kinds, c, excluded);
      var ci := 0;
      assert classes[..0] == [];
      while ci < |classes|
        invariant 0 <= ci <= |classes|
        invariant forall k :: 0 <= k < |components| ==>
          components[k].Abs() == Registered(old(components[k].Abs()), Flatten(classes[..ci], hitsOf), k)
      {
        ghost var done := Flatten(classes[..ci], hitsOf);
        ghost var added := ClassHits(names, kinds, classes[ci], excluded);
        assert classes[..ci + 1] == classes[..ci] + [classes[ci]];
        FlattenAppend(classes[..ci], [classes[ci]], hitsOf);
        assert Flatten([classes[ci]], hitsOf) == added by {
          assert [classes[ci]][..0] == [];
        }
        ScanClassForDynamicBroadcastReceivers(components, classes[ci], excluded);
        forall k | 0 <= k < |components|
          ensures components[k].Abs() == Registered(old(components[k].Abs()), done + added, k)
        {
          RegisteredAppend(old(components[k].Abs()), done, added, k);
        }
        ci := ci + 1;
      }
      assert classes[..ci] == classes;
    }

    /** One class: nothing when its dotted name is excluded, else each of its methods in order. */
    method ScanClassForDynamicBroadcastReceivers(components: seq<Component>, classDef: ClassDef, excluded: string -> bool)
      requires Distinct(components)
      modifies set c | c in components
      ensures forall k :: 0 <= k < |components| ==>
        components[k].Abs() == Registered(old(components[k].Abs()), ClassHits(Names(components), Kinds(components), classDef, excluded), k)
    {
      var className := DottedClassName(classDef.descriptor);
      if className.Some? && excluded(className.value) {
        return;
      }
      ghost var names := Names(components);
      ghost var kinds := Kinds(components);
      var methods := classDef.methods;
      var mi := 0;
      assert methods[..0] == [];
      while mi < |methods|
        invariant 0 <= mi <= |methods|
        invariant forall k :: 0 <= k < |components| ==>
          components[k].Abs() == Registered(old(components[k].Abs()), MethodsHits(names, kinds, methods[..mi]), k)
      {
        ghost var done := MethodsHits(names, kinds, methods[..mi]);
        ghost var added := MethodHits(names, kinds, methods[mi]);
        assert methods[..mi + 1][..mi] == methods[..mi];
        ScanMethodForDynamicBroadcastReceiver(components, methods[mi]);
        forall k | 0 <= k < |components|
          ensures components[k].Abs() == Registered(old(components[k].Abs()), done + added, k)
        {
          RegisteredAppend(old(components[k].Abs()), done, added, k);
        }
        mi := mi + 1;
      }
      assert methods[..mi] == methods;
    }

    /** lookupStringConstants: every non-empty string field value goes to the component's globals and to the scanner's set. */
    method LookupStringConstants(component: Component, classDef: ClassDef)
      requires Valid() && component.Valid()
      modifies this`strings, component`globalStrings
      ensures Valid() && component.Valid()
      ensures strings == InsertAll(old(strings), FieldStrings(classDef.fields))
      ensures component.Abs() == old(component.Abs()).(globals := InsertAll(old(component.globalStrings), FieldStrings(classDef.fields)))
    {
      ghost var strings0, globals0 := strings, component.globalStrings;
      ghost var added: seq<string> := [];
      var fields := classDef.fields;
      var i := 0;
      while i < |fields|
        invariant 0 <= i <= |fields|
        invariant added == FieldStrings(fields[..i])
        invariant strings == InsertAll(strings0, added)
        invariant component.globalStrings == InsertAll(globals0, added)
      {
        FieldStringsStep(fields, i);
        AddFieldString(component, fields[i], strings0, globals0, added);
        added := added + FieldString(fields[i]);
        i := i + 1;
      }
      assert fields[..i] == fields;
    }

    /** The body of lookupStringConstants for one field: a non-empty string value goes to the component's globals and to the scanner's set. */
    method AddFieldString(component: Component, field: Field, ghost strings0: seq<string>, ghost globals0: seq<string>, ghost added: seq<string>)
      requires strings == InsertAll(strings0, added) && component.globalStrings == InsertAll(globals0, added)
      modifies this`strings, component`globalStrings
      ensures strings == InsertAll(strings0, added + FieldString(field))
      ensures component.globalStrings == InsertAll(globals0, added + FieldString(field))
      ensures component.Abs() == old(component.Abs()).(globals := component.globalStrings)
    {
      var encodedValue := field.initialValue;
      if encodedValue.Some? && encodedValue.value.StringValue? && encodedValue.value.value != "" {
        var value := encodedValue.value.value;
        InsertAllSnoc(strings0, added, value);
        InsertAllSnoc(globals0, added, value);
        component.AddStringConstant(value);
        strings := Insert(strings, value);
      } else {
        assert added + FieldString(field) == added;
      }
    }

    /** findComponent: an activity, service, receiver or fragment, tested in that order, or none. */
    method FindComponent(classes: seq<ClassDef>, currentClass: ClassDef, ghost rank: string -> nat) returns (r: Option<Component>)
      requires Acyclic(classes, rank) && DottedClassName(currentClass.descriptor).Some?
      ensures r.None? <==> KindOf(classes, currentClass, rank).None?
      ensures r.Some? ==>
        fresh(r.value) && r.value.kind == KindOf(classes, currentClass, rank).value && r.value.clazz == Some(currentClass)
        && r.value.name == DottedClassName(currentClass.descriptor).value && r.value.Abs() == INITIAL && r.value.Valid()
    {
      var isActivity := IsActivity(classes, currentClass, rank);
      if isActivity {
        var c := new Component.FromClass(Activity, currentClass);
        return Some(c);
      }
      var isService := IsService(classes, currentClass, rank);
      if isService {
        var c := new Component.FromClass(Service, currentClass);
        return Some(c);
      }
      var isReceiver := IsBroadcastReceiver(classes, currentClass, rank);
      if isReceiver {
        var c := new Component.FromClass(Receiver, currentClass);
        return Some(c);
      }
      var isFragment := IsFragment(classes, currentClass, rank);
      if isFragment {
        var c := new Component.FromClass(Fragment, currentClass);
        return Some(c);
      }
      return None;
    }

    /** One pass of lookUpComponents' loop: a skipped class yields nothing, any other class what findComponent makes of it. */
    method LookUpClass(classes: seq<ClassDef>, classDef: ClassDef, packageName: string, resolveAllClasses: bool,
                       excluded: string -> bool, ghost rank: string -> nat) returns (r: Option<Component>)
      requires Acyclic(classes, rank) && DottedClassName(classDef.descriptor).Some?
      ensures Entry(classes, classDef, packageName, resolveAllClasses, excluded, rank) == if r.Some? then [(r.value.kind, classDef)] else []
      ensures r.Some? ==>
        fresh(r.value) && r.value.clazz == Some(classDef) && Some(r.value.name) == DottedClassName(classDef.descriptor)
        && r.value.Abs() == INITIAL && r.value.Valid()
    {
      var className := DottedClassName(classDef.descriptor).value;
      if excluded(className) || (!resolveAllClasses && !StartsWith(className, packageName)) {
        return None;
      }
      r := FindComponent(classes, classDef, rank);
    }

    /** The pass of lookUpComponents' loop over the class at `ci`: the component it makes of that class, if any, joins the roster. */
    method AddClass(classes: seq<ClassDef>, ci: nat, packageName: string, resolveAllClasses: bool, excluded: string -> bool,
                    ghost rank: string -> nat, components: seq<Component>, ghost soFar: seq<(Kind, ClassDef)>)
      returns (next: seq<Component>, ghost nextFound: seq<(Kind, ClassDef)>)
      requires Acyclic(classes, rank) && DescriptorsOk(classes) && ci < |classes|
      requires soFar == FoundIn(classes, classes[..ci], packageName, resolveAllClasses, excluded, rank)
      requires Listed(components, soFar)
      ensures nextFound == FoundIn(classes, classes[..ci + 1], packageName, resolveAllClasses, excluded, rank)
      ensures Listed(next, nextFound) && components <= next
      ensures forall k :: |components| <= k < |next| ==> fresh(next[k])
    {
      var classDef := classes[ci];
      assert classDef in classes;
      var component := LookUpClass(classes, classDef, packageName, resolveAllClasses, excluded, rank);
      ghost var added := if component.Some? then [component.value] else [];
      DescribesStep(classes, ci, packageName, resolveAllClasses, excluded, rank, components, soFar, added);
      nextFound := soFar + Entry(classes, classDef, packageName, resolveAllClasses, excluded, rank);
      if component.Some? {
        assert component.value !in components;
        next := components + [component.value];
      } else {
        next := components;
        assert components + added == components;
      }
    }

    /**
     * lookUpComponents: the components among the classes of every dex file,
     * skipping excluded classes and, unless all classes are resolved, the
     * classes outside the package.
     */
    method LookUpComponents(packageName: string, resolveAllClasses: bool, excluded: string -> bool, ghost rank: string -> nat)
      returns (components: seq<Component>)
      requires FilesAcyclic(dexFiles, rank)
      ensures Describes(components, Found(dexFiles, packageName, resolveAllClasses, excluded, rank))
      ensures Distinct(components)
      ensures forall k :: 0 <= k < |components| ==> fresh(components[k]) && components[k].Abs() == INITIAL && components[k].Valid()
    {
      components := [];
      var fi := 0;
      assert dexFiles[..0] == [];
      while fi < |dexFiles|
        invariant 0 <= fi <= |dexFiles| && FilesAcyclic(dexFiles[..fi], rank)
        invariant Listed(components, Found(dexFiles[..fi], packageName, resolveAllClasses, excluded, rank))
        invariant forall k :: 0 <= k < |components| ==> fresh(components[k])
      {
        ghost var previous := components;
        components := AddDexFile(fi, packageName, resolveAllClasses, excluded, rank, components);
        assert forall k :: 0 <= k < |previous| ==> components[k] == previous[k];
        fi := fi + 1;
      }
      assert dexFiles[..fi] == dexFiles;
    }

    /** The pass of lookUpComponents' loop over the dex file at `fi`: its components join the roster. */
    method AddDexFile(fi: nat, packageName: string, resolveAllClasses: bool, excluded: string -> bool, ghost rank: string -> nat,
                      components: seq<Component>)
      returns (next: seq<Component>)
      requires FilesAcyclic(dexFiles, rank) && fi < |dexFiles| && FilesAcyclic(dexFiles[..fi], rank)
      requires Listed(components, Found(dexFiles[..fi], packageName, resolveAllClasses, excluded, rank))
      ensures FilesAcyclic(dexFiles[..fi + 1], rank)
      ensures Listed(next, Found(dexFiles[..fi + 1], packageName, resolveAllClasses, excluded, rank)) && components <= next
      ensures forall k :: |components| <= k < |next| ==> fresh(next[k])
    {
      var classes := dexFiles[fi];
      FoundStep(dexFiles, fi, packageName, resolveAllClasses, excluded, rank);
      var found := LookUpComponentsIn(classes, packageName, resolveAllClasses, excluded, rank);
      assert forall i, j :: 0 <= i < |components| && 0 <= j < |found| ==> components[i] != found[j];
      ListedAppend(components, found, Found(dexFiles[..fi], packageName, resolveAllClasses, excluded, rank),
                   FoundIn(classes, classes, packageName, resolveAllClasses, excluded, rank));
      next := components + found;
    }

    /** The classes of one dex file, classified against that file. */
    method LookUpComponentsIn(classes: seq<ClassDef>, packageName: string, resolveAllClasses: bool, excluded: string -> bool, ghost rank: string -> nat)
      returns (components: seq<Component>)
      requires Acyclic(classes, rank) && DescriptorsOk(classes)
      ensures Describes(components, FoundIn(classes, classes, packageName, resolveAllClasses, excluded, rank))
      ensures Distinct(components)
      ensures forall k :: 0 <= k < |components| ==> fresh(components[k]) && components[k].Abs() == INITIAL && components[k].Valid()
    {
      components := [];
      var ci := 0;
      ghost var soFar: seq<(Kind, ClassDef)> := [];
      assert classes[..0] == [];
      while ci < |classes|
        invariant 0 <= ci <= |classes| && soFar == FoundIn(classes, classes[..ci], packageName, resolveAllClasses, excluded, rank)
        invariant Listed(components, soFar)
        invariant forall k :: 0 <= k < |components| ==> fresh(components[k])
      {
        ghost var previous := components;
        components, soFar := AddClass(classes, ci, packageName, resolveAllClasses, excluded, rank, components, soFar);
        assert forall k :: 0 <= k < |previous| ==> components[k] == previous[k];
        ci := ci + 1;
      }
      assert classes[..ci] == classes;
    }

    /** scanMethod: a lifecycle method of the component's kind is scanned into its bag; any other method changes nothing. */
    method ScanLifecycleMethod(component: Component, m: MethodDef, classVariables: map<string, string>, fuel: nat)
      requires Valid()
      modifies this`variables, component`onCreate, component`onNewIntent, component`onStartCommand, component`onHandleIntent, component`onReceive
      ensures Valid()
      ensures component.Abs() == LifecycleScanned(dexFiles, fuel, component.kind, m, classVariables, old(component.Abs()))
    {
      var slot := SlotFor(component.kind, m.name);
      if slot.Some? {
        var collected := ScanComponentMethod(fuel, m, classVariables, BagAt(component.Abs(), slot.value));
        component.PutBag(slot.value, collected);
      }
    }

    /** The string-constant scan of one method of an activity or fragment: into its method strings and its onCreate extras. */
    method ScanMethodStrings(component: Component, m: MethodDef, classVariables: map<string, string>, fuel: nat)
      requires Valid()
      modifies this`variables, component`methodStrings,
        component`onCreate, component`onNewIntent, component`onStartCommand, component`onHandleIntent, component`onReceive
      ensures Valid()
      ensures component.Abs() == MethodStringsScanned(dexFiles, fuel, m, classVariables, old(component.Abs()))
    {
      var collected := ScanComponentMethod(fuel, m, classVariables, Bag(component.onCreate.extras, component.methodStrings));
      component.PutMethodStrings(collected.strings);
      component.PutBag(OnCreate, Bag(collected.extras, component.onCreate.strings));
    }

    /** The body of extractInfo's loop for one component. */
    method ExtractComponent(component: Component, intentInfo: bool, fuel: nat)
      requires Valid() && component.Valid()
      requires component.clazz.Some? && BodiesWellFormed(component.clazz.value.methods)
      modifies this`variables, this`strings, component
      ensures Valid() && component.Valid()
      ensures component.Abs() == Extracted(dexFiles, fuel, intentInfo, component.kind, component.clazz.value, old(component.Abs()))
      ensures strings == if Processed(component.kind, intentInfo)
        then InsertAll(old(strings), FieldStrings(component.clazz.value.fields)) else old(strings)
    {
      ExtractedSpec(dexFiles, fuel, intentInfo, component.kind, component.clazz.value, component.Abs());
      if intentInfo {
        if component.kind == Fragment {
          return;
        }
      } else {
        if component.kind == Service || component.kind == Receiver {
          return;
        }
      }
      var classDef := component.clazz.value;
      var classVariables := LookupConstructorsForVariables(classDef);
      variables := variables[classDef := classVariables];
      LookupStringConstants(component, classDef);
      if intentInfo {
        ScanIntentInfo(component, classDef.methods, classVariables, fuel);
      } else if component.kind == Activity || component.kind == Fragment {
        ScanStringInfo(component, classDef.methods, classVariables, fuel);
      }
    }

    /** The intent pass over the methods of a component's class. */
    method ScanIntentInfo(component: Component, methods: seq<MethodDef>, classVariables: map<string, string>, fuel: nat)
      requires Valid()
      modifies this`variables,
        component`onCreate, component`onNewIntent, component`onStartCommand, component`onHandleIntent, component`onReceive
      ensures Valid()
      ensures component.Abs() == IntentInfo(dexFiles, fuel, component.kind, methods, classVariables, old(component.Abs()))
    {
      var mi := 0;
      assert methods[..0] == [];
      while mi < |methods|
        invariant 0 <= mi <= |methods|
        invariant Valid()
        invariant component.Abs() == IntentInfo(dexFiles, fuel, component.kind, methods[..mi], classVariables, old(component.Abs()))
      {
        assert methods[..mi + 1][..mi] == methods[..mi];
        ScanLifecycleMethod(component, methods[mi], classVariables, fuel);
        mi := mi + 1;
      }
      assert methods[..mi] == methods;
    }

    /** The string-constant pass over the methods of an activity's or fragment's class. */
    method ScanStringInfo(component: Component, methods: seq<MethodDef>, classVariables: map<string, string>, fuel: nat)
      requires Valid()
      modifies this`variables, component`methodStrings,
        component`onCreate, component`onNewIntent, component`onStartCommand, component`onHandleIntent, component`onReceive
      ensures Valid()
      ensures component.Abs() == StringInfo(dexFiles, fuel, methods, classVariables, old(component.Abs()))
    {
      var mi := 0;
      assert methods[..0] == [];
      while mi < |methods|
        invariant 0 <= mi <= |methods|
        invariant Valid()
        invariant component.Abs() == StringInfo(dexFiles, fuel, methods[..mi], classVariables, old(component.Abs()))
      {
        assert methods[..mi + 1][..mi] == methods[..mi];
        ScanMethodStrings(component, methods[mi], classVariables, fuel);
        mi := mi + 1;
      }
      assert methods[..mi] == methods;
    }

    /**
     * extractInfo: every component whose kind the pass is about gets the
     * string constants of its class's fields and then, method by method,
     * the intent information or the string constants its code holds.
     */
    method ExtractInfo(components: seq<Component>, intentInfo: bool, fuel: nat)
      requires Valid() && Distinct(components)
      requires forall k :: 0 <= k < |components| ==>
        components[k].Valid() && components[k].clazz.Some? && BodiesWellFormed(components[k].clazz.value.methods)
      modifies this`variables, this`strings, set c | c in components
      ensures Valid()
      ensures strings == StringsAfter(old(strings), components, intentInfo)
      ensures forall k :: 0 <= k < |components| ==>
        components[k].Valid() && components[k].Abs() == Extracted(dexFiles, fuel, intentInfo, components[k].kind, components[k].clazz.value, old(components[k].Abs()))
    {
      ghost var orig := seq(|components|, k requires 0 <= k < |components| reads set c | c in components => components[k].Abs());
      assert forall k :: 0 <= k < |components| ==> orig[k] == old(components[k].Abs());
      var i := 0;
      assert components[..0] == [];
      while i < |components|
        invariant 0 <= i <= |components| && Valid()
        invariant strings == StringsAfter(old(strings), components[..i], intentInfo)
        invariant ExtractedUpTo(components, orig, dexFiles, fuel, intentInfo, i)
      {
        ExtractAt(components, intentInfo, fuel, i, orig, old(strings));
        i := i + 1;
      }
      assert components[..i] == components;
    }

    /** One pass of extractInfo's loop: component `i` is extracted, the others keep their state. */
    method ExtractAt(components: seq<Component>, intentInfo: bool, fuel: nat, i: nat, ghost orig: seq<State>, ghost strings0: seq<string>)
      requires Valid() && Distinct(components) && i < |components|
      requires ExtractedUpTo(components, orig, dexFiles, fuel, intentInfo, i)
      requires strings == StringsAfter(strings0, components[..i], intentInfo)
      modifies this`variables, this`strings, components[i]
      ensures Valid() && ExtractedUpTo(components, orig, dexFiles, fuel, intentInfo, i + 1)
      ensures strings == StringsAfter(strings0, components[..i + 1], intentInfo)
    {
      var component := components[i];
      assert components[..i + 1][..i] == components[..i];
      assert forall k :: 0 <= k < |components| && k != i ==> components[k] != component;
      ExtractComponent(component, intentInfo, fuel);
    }

    /** extractIntentInfo: extractInfo for the intent information. */
    method ExtractIntentInfo(components: seq<Component>, fuel: nat)
      requires Valid() && Distinct(components)
      requires forall k :: 0 <= k < |components| ==>
        components[k].Valid() && components[k].clazz.Some? && BodiesWellFormed(components[k].clazz.value.methods)
      modifies this`variables, this`strings, set c | c in components
      ensures Valid()
      ensures forall k :: 0 <= k < |components| ==>
        components[k].Valid() && components[k].Abs() == Extracted(dexFiles, fuel, true, components[k].kind, components[k].clazz.value, old(components[k].Abs()))
    {
      ExtractInfo(components, true, fuel);
    }

    /** extractStringConstants: extractInfo for the string constants, then each activity and fragment adds its method and global strings to its static strings. */
    method ExtractStringConstants(components: seq<Component>, fuel: nat)
      requires Valid() && Distinct(components)
      requires forall k :: 0 <= k < |components| ==>
        components[k].Valid() && components[k].clazz.Some? && BodiesWellFormed(components[k].clazz.value.methods)
      modifies this`variables, this`strings, set c | c in components
      ensures Valid()
      ensures forall k :: 0 <= k < |components| ==>
        components[k].Valid() && components[k].Abs() == StaticsAdded(components[k].kind,
          Extracted(dexFiles, fuel, false, components[k].kind, components[k].clazz.value, old(components[k].Abs())))
    {
      ExtractInfo(components, false, fuel);
      AddStaticStringsAll(components);
    }

    /** The loop of extractStringConstants over the components. */
    method AddStaticStringsAll(components: seq<Component>)
      requires Distinct(components)
      requires forall k :: 0 <= k < |components| ==> components[k].Valid()
      modifies set c | c in components
      ensures forall k :: 0 <= k < |components| ==>
        components[k].Valid() && components[k].Abs() == StaticsAdded(components[k].kind, old(components[k].Abs()))
    {
      var i := 0;
      while i < |components|
        invariant 0 <= i <= |components|
        invariant forall k :: 0 <= k < |components| ==> components[k].Valid()
        invariant forall k :: 0 <= k < i ==> components[k].Abs() == StaticsAdded(components[k].kind, old(components[k].Abs()))
        invariant forall k :: i <= k < |components| ==> components[k].Abs() == old(components[k].Abs())
      {
        label before:
        AddStaticStringsOf(components[i]);
        forall k | 0 <= k < |components| && k != i
          ensures components[k].Abs() == old@before(components[k].Abs())
        {
          assert components[k] != components[i];
        }
        i := i + 1;
      }
    }

    /** The loop body of extractStringConstants: an activity or fragment adds its method strings, then its global strings, to its static strings. */
    method AddStaticStringsOf(component: Component)
      requires component.Valid()
      modifies component`staticStrings
      ensures component.Valid()
      ensures component.Abs() == StaticsAdded(component.kind, old(component.Abs()))
    {
      if component.kind == Activity || component.kind == Fragment {
        component.AddStaticStrings(component.methodStrings);
        component.AddStaticStrings(component.globalStrings);
      }
    }
  }
}
