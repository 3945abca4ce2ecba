/**
 * The dynamic broadcast receiver pass of the current scanner: every
 * `Context.registerReceiver` call names, through the new-instance that
 * created its first argument, a receiver of the roster, which is marked
 * dynamic and given the intent filter rebuilt from the calls on its second
 * argument. The roster is given by its names (Component.getName); a
 * receiver is identified by its position in the roster.
 */
module DynamicReceivers {
  import opened Wrappers
  import opened Strings
  import opened Dex
  import opened Slicer
  import opened Markup
  import opened ClassUtils
  import opened Components

  /** The four registerReceiver overloads, matched as suffixes of the call's text. */
  const REGISTER_PLAIN := "registerReceiver(Landroid/content/BroadcastReceiver;Landroid/content/IntentFilter;)Landroid/content/Intent;"
  const REGISTER_PERMISSION_FLAGS :=
    "registerReceiver(Landroid/content/BroadcastReceiver;Landroid/content/IntentFilter;Ljava/lang/String;Landroid/os/Handler;I)Landroid/content/Intent;"
  const REGISTER_PERMISSION :=
    "registerReceiver(Landroid/content/BroadcastReceiver;Landroid/content/IntentFilter;Ljava/lang/String;Landroid/os/Handler;)Landroid/content/Intent;"
  const REGISTER_FLAGS := "registerReceiver(Landroid/content/BroadcastReceiver;Landroid/content/IntentFilter;I)Landroid/content/Intent;"

  /** An invoke-virtual of one of the registerReceiver overloads, on any class. */
  predicate IsRegisterReceiver(ins: Instr) {
    ins.Invoke? && ins.kind == Virtual
    && var text := MethodRefText(ins.target);
    (EndsWith(text, REGISTER_PLAIN) || EndsWith(text, REGISTER_PERMISSION_FLAGS)
     || EndsWith(text, REGISTER_PERMISSION) || EndsWith(text, REGISTER_FLAGS))
  }

  /** The position of the first roster entry called `name`. */
  function IndexOfName(names: seq<string>, name: string): (r: Option<nat>)
    ensures r.None? <==> name !in names
    ensures r.Some? ==> r.value < |names| && names[r.value] == name && name !in names[..r.value]
  {
    if |names| == 0 then None
    else if names[0] == name then Some(0)
    else
      match IndexOfName(names[1..], name)
      case None => None
      case Some(k) =>
        assert names[..k + 1] == [names[0]] + names[1..][..k];
        Some(k + 1)
  }

  /**
   * backtrackReceiver: walks back from `index` to a new-instance into the
   * register whose dotted type is the name of a roster entry, and answers
   * the first such entry. A new-instance of a type the roster does not
   * hold is passed over.
   */
  function BacktrackReceiver(names: seq<string>, instrs: seq<Instr>, index: int, register: int): (r: Option<nat>)
    requires index < |instrs|
    ensures r.Some? ==> r.value < |names|
    decreases index + 1
  {
    if index < 0 then None
    else
      var ins := instrs[index];
      var found :=
        if ins.NewInstance? && ins.a == register && DottedClassName(ins.classType).Some?
        then IndexOfName(names, DottedClassName(ins.classType).value)
        else None;
      if found.Some? then found else BacktrackReceiver(names, instrs, index - 1, register)
  }

  /**
   * An answered entry is the first of its name in the roster, and some
   * new-instance into the register at or before `index` has its name.
   */
  lemma {:induction false} BacktrackReceiverSpec(names: seq<string>, instrs: seq<Instr>, index: int, register: int)
    requires index < |instrs|
    ensures var r := BacktrackReceiver(names, instrs, index, register);
      r.Some? ==>
        names[r.value] !in names[..r.value]
        && exists j :: 0 <= j <= index && instrs[j].NewInstance? && instrs[j].a == register
             && DottedClassName(instrs[j].classType) == Some(names[r.value])
    decreases index + 1
  {
    if index >= 0 {
      var ins := instrs[index];
      if !(ins.NewInstance? && ins.a == register && DottedClassName(ins.classType).Some?
           && IndexOfName(names, DottedClassName(ins.classType).value).Some?) {
        BacktrackReceiverSpec(names, instrs, index - 1, register);
      }
    }
  }

  /** A roster entry that no new-instance before `index` names is never answered. */
  lemma {:induction false} BacktrackReceiverNamed(names: seq<string>, instrs: seq<Instr>, index: int, register: int, k: nat)
    requires index < |instrs| && k < |names|
    requires forall j :: 0 <= j <= index && instrs[j].NewInstance? ==> DottedClassName(instrs[j].classType) != Some(names[k])
    ensures BacktrackReceiver(names, instrs, index, register) != Some(k)
    decreases index + 1
  {
    if index >= 0 {
      BacktrackReceiverNamed(names, instrs, index - 1, register, k);
    }
  }

  const ADD_ACTION := "Landroid/content/IntentFilter;->addAction(Ljava/lang/String;)V"
  const ADD_CATEGORY := "Landroid/content/IntentFilter;->addCategory(Ljava/lang/String;)V"
  const INIT_WITH_ACTION := "Landroid/content/IntentFilter;-><init>(Ljava/lang/String;)V"

  /**
   * `Reference.equals(String)`: a dexlib2 method reference only ever
   * equals another method reference, so comparing one with a String is
   * false whatever the text. The addCategory and data tests use it.
   */
  predicate ReferenceEqualsString(m: MethodRef, s: string) {
    false
  }

  function WithAction(f: IntentFilter, action: Option<string>): IntentFilter {
    if action.Some? then AddAction(f, action.value) else f
  }

  function WithCategory(f: IntentFilter, category: Option<string>): IntentFilter {
    if category.Some? then AddCategory(f, category.value) else f
  }

  /**
   * One step of backtrackIntentFilter at `index`. An addAction call (by its
   * text) or an `IntentFilter(String)` constructor call on the filter
   * register adds the string constant its argument register was last set
   * to; the addCategory test compares the reference with a String and so
   * never holds; the data tests add nothing.
   */
  function FilterStep(instrs: seq<Instr>, index: nat, register: int, f: IntentFilter): IntentFilter
    requires index < |instrs|
  {
    var ins := instrs[index];
    if ins.Invoke? && ins.kind == Virtual then
      if MethodRefText(ins.target) == ADD_ACTION then
        if ins.c == register then WithAction(f, BacktrackStringConstant(instrs, index - 1, ins.d)) else f
      else if ReferenceEqualsString(ins.target, ADD_CATEGORY) then
        if ins.c == register then WithCategory(f, BacktrackStringConstant(instrs, index - 1, ins.d)) else f
      else f
    else if ins.Invoke? && ins.kind == Direct && MethodRefText(ins.target) == INIT_WITH_ACTION then
      if ins.c == register then WithAction(f, BacktrackStringConstant(instrs, index - 1, ins.d)) else f
    else f
  }

  /** backtrackIntentFilter's loop from `index` down to the first instruction. */
  function FilterFrom(instrs: seq<Instr>, index: int, register: int, f: IntentFilter): IntentFilter
    requires index < |instrs|
    decreases index + 1
  {
    if index < 0 then f else FilterFrom(instrs, index - 1, register, FilterStep(instrs, index, register, f))
  }

  /** The filter backtrackIntentFilter builds for a registerReceiver call at `index + 1`. */
  function BacktrackIntentFilter(instrs: seq<Instr>, index: int, register: int): IntentFilter
    requires index < |instrs|
  {
    FilterFrom(instrs, index, register, EMPTY_FILTER)
  }

  /** Where an action comes from: a plain const-string at or before `index`. */
  predicate ActionSourced(instrs: seq<Instr>, index: int, a: string)
    requires index < |instrs|
  {
    exists j :: 0 <= j <= index && instrs[j].ConstString? && !instrs[j].jumbo && instrs[j].literal == a
  }

  lemma BacktrackStringConstantSourced(instrs: seq<Instr>, index: int, register: int)
    requires index < |instrs| && BacktrackStringConstant(instrs, index, register).Some?
    ensures ActionSourced(instrs, index, BacktrackStringConstant(instrs, index, register).value)
    decreases index + 1
  {
    if !IsConstInto(instrs[index], register) {
      BacktrackStringConstantSourced(instrs, index - 1, register);
    }
  }

  /**
   * The rebuilt filter never gains a category, and each action it gains is
   * the literal of a plain const-string before the registerReceiver call.
   */
  lemma {:induction false} FilterFromSpec(instrs: seq<Instr>, index: int, register: int, f: IntentFilter)
    requires index < |instrs|
    ensures var r := FilterFrom(instrs, index, register, f);
      r.categories == f.categories
      && forall a :: a in r.actions ==> a in f.actions || ActionSourced(instrs, index, a)
    decreases index + 1
  {
    if index >= 0 {
      var ins := instrs[index];
      var g := FilterStep(instrs, index, register, f);
      assert g.categories == f.categories;
      if ins.Invoke? && index >= 1 && BacktrackStringConstant(instrs, index - 1, ins.d).Some? {
        BacktrackStringConstantSourced(instrs, index - 1, ins.d);
      }
      assert forall a :: a in g.actions ==> a in f.actions || ActionSourced(instrs, index, a);
      FilterFromSpec(instrs, index - 1, register, g);
    }
  }

  /** A registerReceiver call answered by roster entry `receiver`, with the filter it registers. */
  datatype Hit = Hit(receiver: nat, filter: IntentFilter)

  /**
   * Roster entry `k` is a BroadcastReceiver, so the cast
   * `(BroadcastReceiver) receiver` on it succeeds. `kinds` lists the
   * roster's kinds in roster order.
   */
  predicate IsReceiverAt(kinds: seq<Kind>, k: nat) {
    k < |kinds| && kinds[k] == Receiver
  }

  /**
   * The hits of the registerReceiver calls among the first `n`
   * instructions, in order. A call whose backtracked component is not a
   * receiver is a call site where the source's cast throws; it yields no hit.
   */
  function Hits(names: seq<string>, kinds: seq<Kind>, instrs: seq<Instr>, n: nat): (r: seq<Hit>)
    requires n <= |instrs|
    ensures forall h :: h in r ==> h.receiver < |names| && IsReceiverAt(kinds, h.receiver)
  {
    if n == 0 then []
    else
      var i := n - 1;
      var ins := instrs[i];
      if IsRegisterReceiver(ins) then
        match BacktrackReceiver(names, instrs, i - 1, ins.d)
        case Some(k) =>
          if IsReceiverAt(kinds, k) then Hits(names, kinds, instrs, i) + [Hit(k, BacktrackIntentFilter(instrs, i - 1, ins.e))]
          else Hits(names, kinds, instrs, i)
        case None => Hits(names, kinds, instrs, i)
      else Hits(names, kinds, instrs, i)
  }

  /** scanMethodForDynamicBroadcastReceiver: the hits of one method, none for a method without a body. */
  function MethodHits(names: seq<string>, kinds: seq<Kind>, m: MethodDef): (r: seq<Hit>)
    ensures forall h :: h in r ==> IsReceiverAt(kinds, h.receiver)
  {
    match m.implementation
    case None => []
    case Some(instrs) => Hits(names, kinds, instrs, |instrs|)
  }

  function MethodsHits(names: seq<string>, kinds: seq<Kind>, ms: seq<MethodDef>): (r: seq<Hit>)
    ensures forall h :: h in r ==> IsReceiverAt(kinds, h.receiver)
    decreases |ms|
  {
    if ms == [] then [] else MethodsHits(names, kinds, ms[..|ms| - 1]) + MethodHits(names, kinds, ms[|ms| - 1])
  }

  /** The dotted name of a class, which the exclusion patterns are matched against. */
  predicate Excluded(c: ClassDef, excluded: string -> bool) {
    var dotted := DottedClassName(c.descriptor);
    dotted.Some? && excluded(dotted.value)
  }

  /** The hits of one class: none when its name is excluded. */
  function ClassHits(names: seq<string>, kinds: seq<Kind>, c: ClassDef, excluded: string -> bool): (r: seq<Hit>)
    ensures forall h :: h in r ==> IsReceiverAt(kinds, h.receiver)
  {
    if Excluded(c, excluded) then [] else MethodsHits(names, kinds, c.methods)
  }

  /** The hits of every class of a list, class after class. */
  function Flatten<H>(cs: seq<ClassDef>, hitsOf: ClassDef -> seq<H>): seq<H>
    decreases |cs|
  {
    if cs == [] then [] else Flatten(cs[..|cs| - 1], hitsOf) + hitsOf(cs[|cs| - 1])
  }

  lemma {:induction false} FlattenAppend<H>(a: seq<ClassDef>, b: seq<ClassDef>, hitsOf: ClassDef -> seq<H>)
    ensures Flatten(a + b, hitsOf) == Flatten(a, hitsOf) + Flatten(b, hitsOf)
    decreases |b|
  {
    if b == [] {
      assert a + b == a;
    } else {
      var ab := a + b;
      assert ab[..|ab| - 1] == a + b[..|b| - 1];
      FlattenAppend(a, b[..|b| - 1], hitsOf);
    }
  }

  /** lookUpDynamicBroadcastReceivers over a list of classes. */
  function ClassesHits(names: seq<string>, kinds: seq<Kind>, cs: seq<ClassDef>, excluded: string -> bool): seq<Hit> {
    Flatten(cs, c => ClassHits(names, kinds, c, excluded))
  }

  /**
   * What the pass does to roster entry `k`: each hit on it, in order,
   * marks it dynamic and appends the hit's filter.
   */
  function Registered(s: State, hits: seq<Hit>, k: nat): State
    decreases |hits|
  {
    if hits == [] then s
    else
      var before := Registered(s, hits[..|hits| - 1], k);
      var h := hits[|hits| - 1];
      if h.receiver == k then before.(dynamic := true, filters := before.filters + [h.filter]) else before
  }

  /** The hits on entry `k`'s filters, in order. */
  function FiltersFor(hits: seq<Hit>, k: nat): seq<IntentFilter>
    decreases |hits|
  {
    if hits == [] then []
    else FiltersFor(hits[..|hits| - 1], k) + (if hits[|hits| - 1].receiver == k then [hits[|hits| - 1].filter] else [])
  }

  /**
   * A roster entry gains exactly the filters of its hits, one per hit, and
   * is dynamic afterwards exactly when it was before or some hit names it;
   * nothing else about it changes.
   */
  lemma {:induction false} RegisteredSpec(s: State, hits: seq<Hit>, k: nat)
    ensures var r := Registered(s, hits, k);
      r.filters == s.filters + FiltersFor(hits, k)
      && (r.dynamic <==> s.dynamic || exists h :: h in hits && h.receiver == k)
      && r == s.(filters := r.filters, dynamic := r.dynamic)
    decreases |hits|
  {
    if hits != [] {
      var init := hits[..|hits| - 1];
      RegisteredSpec(s, init, k);
      var h := hits[|hits| - 1];
      assert forall x :: x in hits <==> x in init || x == h;
    }
  }

  /** A roster entry that no hit names is left as it was. */
  lemma {:induction false} RegisteredUnnamed(s: State, hits: seq<Hit>, k: nat)
    requires forall h :: h in hits ==> h.receiver != k
    ensures Registered(s, hits, k) == s
    decreases |hits|
  {
    if hits != [] {
      RegisteredUnnamed(s, hits[..|hits| - 1], k);
    }
  }

  lemma {:induction false} ClassesHitsReceivers(names: seq<string>, kinds: seq<Kind>, cs: seq<ClassDef>, excluded: string -> bool)
    ensures forall h :: h in ClassesHits(names, kinds, cs, excluded) ==> IsReceiverAt(kinds, h.receiver)
    decreases |cs|
  {
    if cs != [] {
      ClassesHitsReceivers(names, kinds, cs[..|cs| - 1], excluded);
    }
  }

  /**
   * The pass only ever reaches receivers: an activity, a service, a
   * fragment or an alias of the roster is left as it was, whatever
   * registerReceiver calls name it.
   */
  lemma NonReceiverUntouched(s: State, names: seq<string>, kinds: seq<Kind>, cs: seq<ClassDef>, excluded: string -> bool, k: nat)
    requires !IsReceiverAt(kinds, k)
    ensures Registered(s, ClassesHits(names, kinds, cs, excluded), k) == s
  {
    ClassesHitsReceivers(names, kinds, cs, excluded);
    RegisteredUnnamed(s, ClassesHits(names, kinds, cs, excluded), k);
  }

  /** One more hit changes only the entry it names. */
  lemma RegisteredSnoc(s: State, hits: seq<Hit>, h: Hit, k: nat)
    ensures var before := Registered(s, hits, k);
      Registered(s, hits + [h], k)
        == if h.receiver == k then before.(dynamic := true, filters := before.filters + [h.filter]) else before
  {
    assert (hits + [h])[..|hits|] == hits;
  }

  lemma {:induction false} RegisteredAppend(s: State, a: seq<Hit>, b: seq<Hit>, k: nat)
    ensures Registered(s, a + b, k) == Registered(Registered(s, a, k), b, k)
    decreases |b|
  {
    if b == [] {
      assert a + b == a;
    } else {
      var ab := a + b;
      assert ab[..|ab| - 1] == a + b[..|b| - 1];
      RegisteredAppend(s, a, b[..|b| - 1], k);
    }
  }
}
