/**
 * The scanner of the older tree. Its state is the current scanner's (the dex
 * files, the cache of class-variable tables and the set of field strings),
 * so its operations are methods on a Scanner.DexScanner; scanComponentMethod
 * and the slicing functions under it are the same code in both trees and
 * are shared. What differs is modelled here: the StringBuilder
 * deriveMethodSignature, the dynamic receiver pass (one registerReceiver
 * overload, a receiver fabricated from the nearest new-instance, a null
 * action kept in the filter) and lookUpComponents (no package filter, three
 * kinds, each class's methods scanned as soon as it is found).
 */
module LegacyScanner {
  import opened Wrappers
  import opened Strings
  import opened Dex
  import opened Slicer
  import opened ComponentUtils
  import opened Components
  import opened LifecycleScan
  import opened LegacyComponents
  import ClassUtils
  import MethodUtils
  import LegacyUtility
  import DynamicReceivers
  import Scanner

  // ----- deriveMethodSignature -----

  lemma {:induction false} ConcatSnoc(parts: seq<string>, x: string)
    ensures Concat(parts + [x]) == Concat(parts) + x
    decreases |parts|
  {
    if parts == [] {
      assert [x][1..] == [];
    } else {
      assert (parts + [x])[1..] == parts[1..] + [x];
      ConcatSnoc(parts[1..], x);
    }
  }

  /**
   * deriveMethodSignature of the older scanner: the StringBuilder writes
   * exactly the text of Method.toString, which the current tree uses, so
   * both trees search for the same signatures.
   */
  method DeriveMethodSignature(m: MethodDef) returns (r: string)
    ensures r == MethodUtils.DeriveMethodSignature(m)
  {
    var parameters := m.parameterTypes;
    var builder := m.definingClass + "->" + m.name + "(";
    var i := 0;
    while i < |parameters|
      invariant 0 <= i <= |parameters|
      invariant builder == m.definingClass + "->" + m.name + "(" + Concat(parameters[..i])
    {
      assert parameters[..i + 1] == parameters[..i] + [parameters[i]];
      ConcatSnoc(parameters[..i], parameters[i]);
      builder := builder + parameters[i];
      i := i + 1;
    }
    assert parameters[..i] == parameters;
    r := builder + ")" + m.returnType;
  }

  // ----- the registerReceiver call -----

  /** The one overload the older scanner recognises, by the full text of the call. */
  const REGISTER_RECEIVER := "Landroid/content/Context;->" + DynamicReceivers.REGISTER_PLAIN

  predicate IsRegisterReceiverCall(ins: Instr) {
    ins.Invoke? && ins.kind == Virtual && MethodRefText(ins.target) == REGISTER_RECEIVER
  }

  /** Every call the older scanner follows, the current one follows too. */
  lemma TriggerNarrower(ins: Instr)
    requires IsRegisterReceiverCall(ins)
    ensures DynamicReceivers.IsRegisterReceiver(ins)
  {
    var text := MethodRefText(ins.target);
    var prefix := "Landroid/content/Context;->";
    assert text == prefix + DynamicReceivers.REGISTER_PLAIN;
    assert text[|text| - |DynamicReceivers.REGISTER_PLAIN|..] == DynamicReceivers.REGISTER_PLAIN;
  }

  /** Context.registerReceiver with flags is followed by the current scanner only. */
  lemma FlagsOverloadMissed(ins: Instr)
    requires ins.Invoke? && ins.kind == Virtual
    requires MethodRefText(ins.target) == "Landroid/content/Context;->" + DynamicReceivers.REGISTER_FLAGS
    ensures DynamicReceivers.IsRegisterReceiver(ins) && !IsRegisterReceiverCall(ins)
  {
    var text := MethodRefText(ins.target);
    assert text[|text| - |DynamicReceivers.REGISTER_FLAGS|..] == DynamicReceivers.REGISTER_FLAGS;
    assert |DynamicReceivers.REGISTER_FLAGS| == |DynamicReceivers.REGISTER_PLAIN| + 1;
  }

  // ----- backtrackReceiver -----

  predicate IsNewInstanceInto(ins: Instr, register: int) {
    ins.NewInstance? && ins.a == register
  }

  /**
   * backtrackReceiver of the older scanner: the name of the class of the
   * nearest new-instance into the register, at or before `index`, whatever
   * that class is. None when there is none, or when that class's
   * descriptor has no `;`, where the source's dottedClassName throws.
   */
  function BacktrackReceiver(instrs: seq<Instr>, index: int, register: int): Option<string>
    requires index < |instrs|
    decreases index + 1
  {
    if index < 0 then None
    else if IsNewInstanceInto(instrs[index], register) then LegacyUtility.DottedClassName(instrs[index].classType)
    else BacktrackReceiver(instrs, index - 1, register)
  }

  /** A found name comes from the nearest new-instance into the register. */
  lemma {:induction false} BacktrackReceiverFinds(instrs: seq<Instr>, index: int, register: int)
    requires index < |instrs| && BacktrackReceiver(instrs, index, register).Some?
    ensures exists j :: (0 <= j <= index && IsNewInstanceInto(instrs[j], register)
      && LegacyUtility.DottedClassName(instrs[j].classType) == BacktrackReceiver(instrs, index, register)
      && forall l :: j < l <= index ==> !IsNewInstanceInto(instrs[l], register))
    decreases index + 1
  {
    if !IsNewInstanceInto(instrs[index], register) {
      BacktrackReceiverFinds(instrs, index - 1, register);
      var j :| 0 <= j <= index - 1 && IsNewInstanceInto(instrs[j], register)
        && LegacyUtility.DottedClassName(instrs[j].classType) == BacktrackReceiver(instrs, index - 1, register)
        && forall l :: j < l <= index - 1 ==> !IsNewInstanceInto(instrs[l], register);
      assert forall l :: j < l <= index ==> !IsNewInstanceInto(instrs[l], register);
    }
  }

  /** And the nearest new-instance into the register is the one answered. */
  lemma {:induction false} BacktrackReceiverNearest(instrs: seq<Instr>, j: nat, index: int, register: int)
    requires j <= index < |instrs| && IsNewInstanceInto(instrs[j], register)
    requires forall l :: j < l <= index ==> !IsNewInstanceInto(instrs[l], register)
    ensures BacktrackReceiver(instrs, index, register) == LegacyUtility.DottedClassName(instrs[j].classType)
    decreases index
  {
    if j < index {
      BacktrackReceiverNearest(instrs, j, index - 1, register);
    }
  }

  /**
   * When the nearest new-instance into the register creates a class of the
   * roster, the current scanner answers the roster entry of the name the
   * older one fabricates. (Where the class is not in the roster, the
   * current scanner goes on looking further back.)
   */
  lemma {:induction false} SameReceiverAsCurrent(names: seq<string>, instrs: seq<Instr>, j: nat, index: int, register: int)
    requires j <= index < |instrs| && IsNewInstanceInto(instrs[j], register)
    requires forall l :: j < l <= index ==> !IsNewInstanceInto(instrs[l], register)
    requires StartsWith(instrs[j].classType, "L") && ClassUtils.DottedClassName(instrs[j].classType).Some?
    requires ClassUtils.DottedClassName(instrs[j].classType).value in names
    ensures BacktrackReceiver(instrs, index, register) == ClassUtils.DottedClassName(instrs[j].classType)
    ensures DynamicReceivers.BacktrackReceiver(names, instrs, index, register)
         == DynamicReceivers.IndexOfName(names, ClassUtils.DottedClassName(instrs[j].classType).value)
    decreases index
  {
    if j < index {
      assert !IsNewInstanceInto(instrs[index], register);
      SameReceiverAsCurrent(names, instrs, j, index - 1, register);
    } else {
      var t := instrs[j].classType;
      LegacyUtility.AgreesOnClassDescriptors(t);
      assert DynamicReceivers.IndexOfName(names, ClassUtils.DottedClassName(t).value).Some?;
    }
  }

  // ----- backtrackIntentFilter and backtrackAction -----

  /**
   * One step of the older backtrackIntentFilter at `index`: an addAction
   * call (by its text) on the filter register adds what backtrackAction
   * finds for its argument register, null included. backtrackAction is
   * Slicer.BacktrackStringConstant: plain const-strings only, no moves.
   */
  function FilterStep(instrs: seq<Instr>, index: nat, register: int, f: ActionFilter): ActionFilter
    requires index < |instrs|
  {
    var ins := instrs[index];
    if ins.Invoke? && ins.kind == Virtual && MethodRefText(ins.target) == DynamicReceivers.ADD_ACTION && ins.c == register
    then AddMaybeAction(f, BacktrackStringConstant(instrs, index - 1, ins.d))
    else f
  }

  function FilterFrom(instrs: seq<Instr>, index: int, register: int, f: ActionFilter): ActionFilter
    requires index < |instrs|
    decreases index + 1
  {
    if index < 0 then f else FilterFrom(instrs, index - 1, register, FilterStep(instrs, index, register, f))
  }

  /** The filter the older backtrackIntentFilter builds for a registerReceiver call at `index + 1`. */
  function BacktrackIntentFilter(instrs: seq<Instr>, index: int, register: int): ActionFilter
    requires index < |instrs|
  {
    FilterFrom(instrs, index, register, NO_ACTIONS)
  }

  /** The current scanner's other source of actions: the IntentFilter(String) constructor on the filter register. */
  predicate IsActionConstructorCall(ins: Instr, register: int) {
    ins.Invoke? && ins.kind == Direct && MethodRefText(ins.target) == DynamicReceivers.INIT_WITH_ACTION && ins.c == register
  }

  /**
   * The older filter, with its null actions dropped, has the actions of
   * the current one, in the same order, wherever the filter is not built
   * by the IntentFilter(String) constructor; the current filter has no
   * categories either. The older filter never holds an action twice.
   */
  lemma {:induction false} FilterFromAsCurrent(instrs: seq<Instr>, index: int, register: int, f: ActionFilter, g: Markup.IntentFilter)
    requires index < |instrs| && Present(f.actions) == g.actions && NoDup(f.actions)
    requires forall l :: 0 <= l <= index ==> !IsActionConstructorCall(instrs[l], register)
    ensures var r := FilterFrom(instrs, index, register, f);
      var c := DynamicReceivers.FilterFrom(instrs, index, register, g);
      Present(r.actions) == c.actions && c.categories == g.categories && NoDup(r.actions)
    decreases index + 1
  {
    if index >= 0 {
      var ins := instrs[index];
      var f2 := FilterStep(instrs, index, register, f);
      var g2 := DynamicReceivers.FilterStep(instrs, index, register, g);
      if ins.Invoke? && ins.kind == Virtual && MethodRefText(ins.target) == DynamicReceivers.ADD_ACTION && ins.c == register {
        PresentAdd(f, BacktrackStringConstant(instrs, index - 1, ins.d));
      }
      assert Present(f2.actions) == g2.actions && g2.categories == g.categories;
      FilterFromAsCurrent(instrs, index - 1, register, f2, g2);
    }
  }

  lemma FilterAsCurrent(instrs: seq<Instr>, index: int, register: int)
    requires index < |instrs|
    requires forall l :: 0 <= l <= index ==> !IsActionConstructorCall(instrs[l], register)
    ensures var c := DynamicReceivers.BacktrackIntentFilter(instrs, index, register);
      Present(BacktrackIntentFilter(instrs, index, register).actions) == c.actions && c.categories == []
      && NoDup(BacktrackIntentFilter(instrs, index, register).actions)
  {
    FilterFromAsCurrent(instrs, index, register, NO_ACTIONS, Markup.EMPTY_FILTER);
  }

  /** Backtracking only ever adds actions to the filter it starts from. */
  lemma {:induction false} FilterFromKeeps(instrs: seq<Instr>, index: int, register: int, f: ActionFilter)
    requires index < |instrs|
    ensures f.actions <= FilterFrom(instrs, index, register, f).actions
    decreases index + 1
  {
    if index >= 0 {
      var g := FilterStep(instrs, index, register, f);
      FilterFromKeeps(instrs, index - 1, register, g);
    }
  }

  /**
   * An addAction on the filter register whose string is not a constant
   * found by backtracking leaves a null action in the older filter.
   */
  lemma NullActionKept(instrs: seq<Instr>, index: nat, register: int)
    requires index < |instrs| && instrs[index].Invoke? && instrs[index].kind == Virtual && instrs[index].c == register
    requires MethodRefText(instrs[index].target) == DynamicReceivers.ADD_ACTION
    requires BacktrackStringConstant(instrs, index - 1, instrs[index].d).None?
    ensures None in BacktrackIntentFilter(instrs, index, register).actions
  {
    FilterFromKeeps(instrs, index - 1, register, FilterStep(instrs, index, register, NO_ACTIONS));
  }

  // ----- the dynamic receiver pass -----

  function Names(components: seq<LegacyComponent>): (r: seq<string>)
    ensures |r| == |components| && forall k :: 0 <= k < |r| ==> r[k] == components[k].name
  {
    seq(|components|, k requires 0 <= k < |components| => components[k].name)
  }

  /** No component object occurs twice in the list. */
  predicate Distinct(components: seq<LegacyComponent>) {
    forall i, j :: 0 <= i < j < |components| ==> components[i] != components[j]
  }

  /**
   * The roster entry a fabricated receiver called `name` is replaced by:
   * the first component of that name, if it is a receiver. (If it is not,
   * the source's cast to BroadcastReceiver throws.)
   */
  function RosterReceiver(components: seq<LegacyComponent>, name: string): (r: Option<nat>)
    ensures r.Some? ==> (r.value < |components| && components[r.value].kind == Receiver
      && components[r.value].name == name && name !in Names(components)[..r.value])
    ensures name !in Names(components) ==> r.None?
  {
    match DynamicReceivers.IndexOfName(Names(components), name)
    case None => None
    case Some(k) => if components[k].kind == Receiver then Some(k) else None
  }

  /** A registerReceiver call that reaches roster entry `receiver`, with the filter it registers. */
  datatype Hit = Hit(receiver: nat, filter: ActionFilter)

  /** What the instruction at `i` contributes: a hit for a registerReceiver call whose receiver is in the roster. */
  function StepHits(components: seq<LegacyComponent>, instrs: seq<Instr>, i: nat): (r: seq<Hit>)
    requires i < |instrs|
    ensures |r| <= 1 && forall h :: h in r ==> h.receiver < |components|
  {
    var ins := instrs[i];
    if !IsRegisterReceiverCall(ins) then []
    else match BacktrackReceiver(instrs, i - 1, ins.d)
      case None => []
      case Some(name) =>
        match RosterReceiver(components, name)
        case None => []
        case Some(k) => [Hit(k, BacktrackIntentFilter(instrs, i - 1, ins.e))]
  }

  /** The hits of the first `n` instructions, in order. */
  function Hits(components: seq<LegacyComponent>, instrs: seq<Instr>, n: nat): (r: seq<Hit>)
    requires n <= |instrs|
    ensures forall h :: h in r ==> h.receiver < |components|
  {
    if n == 0 then [] else Hits(components, instrs, n - 1) + StepHits(components, instrs, n - 1)
  }

  function MethodHits(components: seq<LegacyComponent>, m: MethodDef): seq<Hit> {
    match m.implementation
    case None => []
    case Some(instrs) => Hits(components, instrs, |instrs|)
  }

  function MethodsHits(components: seq<LegacyComponent>, ms: seq<MethodDef>): seq<Hit>
    decreases |ms|
  {
    if ms == [] then [] else MethodsHits(components, ms[..|ms| - 1]) + MethodHits(components, ms[|ms| - 1])
  }

  /** The older scanner matches the exclusion patterns against its own dotted name of the class. */
  predicate Excluded(c: ClassDef, excluded: string -> bool) {
    var dotted := LegacyUtility.DottedClassName(c.descriptor);
    dotted.Some? && excluded(dotted.value)
  }

  function ClassHits(components: seq<LegacyComponent>, c: ClassDef, excluded: string -> bool): seq<Hit> {
    if Excluded(c, excluded) then [] else MethodsHits(components, c.methods)
  }

  function ClassesHits(components: seq<LegacyComponent>, cs: seq<ClassDef>, excluded: string -> bool): seq<Hit> {
    DynamicReceivers.Flatten(cs, c => ClassHits(components, c, excluded))
  }

  /** Whether some hit reaches entry `k`. */
  function Marked(hits: seq<Hit>, k: nat): bool
    decreases |hits|
  {
    hits != [] && (Marked(hits[..|hits| - 1], k) || hits[|hits| - 1].receiver == k)
  }

  /** The filters the hits on entry `k` register, in order. */
  function FiltersFor(hits: seq<Hit>, k: nat): seq<ActionFilter>
    decreases |hits|
  {
    if hits == [] then []
    else FiltersFor(hits[..|hits| - 1], k) + (if hits[|hits| - 1].receiver == k then [hits[|hits| - 1].filter] else [])
  }

  lemma {:induction false} MarkedSpec(hits: seq<Hit>, k: nat)
    ensures Marked(hits, k) <==> exists h :: h in hits && h.receiver == k
    decreases |hits|
  {
    if hits != [] {
      var init := hits[..|hits| - 1];
      MarkedSpec(init, k);
      assert forall h :: h in hits <==> h in init || h == hits[|hits| - 1];
    }
  }

  lemma {:induction false} HitsAppend(a: seq<Hit>, b: seq<Hit>, k: nat)
    ensures Marked(a + b, k) == (Marked(a, k) || Marked(b, k))
    ensures FiltersFor(a + b, k) == FiltersFor(a, k) + FiltersFor(b, k)
    decreases |b|
  {
    if b == [] {
      assert a + b == a;
    } else {
      var ab := a + b;
      assert ab[..|ab| - 1] == a + b[..|b| - 1];
      HitsAppend(a, b[..|b| - 1], k);
    }
  }

  /**
   * What the pass does to roster entry `k`, from (before, beforeFilters) to
   * (after, afterFilters): marked dynamic if some hit reaches it, the
   * filters of its hits appended in order, nothing else changed.
   */
  predicate Registered(before: State, beforeFilters: seq<ActionFilter>, after: State, afterFilters: seq<ActionFilter>,
                       hits: seq<Hit>, k: nat) {
    after == before.(dynamic := before.dynamic || Marked(hits, k))
    && afterFilters == beforeFilters + FiltersFor(hits, k)
  }

  lemma RegisteredNone(s: State, filters: seq<ActionFilter>, k: nat)
    ensures Registered(s, filters, s, filters, [], k)
  {
    assert filters + [] == filters;
  }

  lemma RegisteredTrans(s0: State, f0: seq<ActionFilter>, s1: State, f1: seq<ActionFilter>, s2: State, f2: seq<ActionFilter>,
                        a: seq<Hit>, b: seq<Hit>, k: nat)
    requires Registered(s0, f0, s1, f1, a, k) && Registered(s1, f1, s2, f2, b, k)
    ensures Registered(s0, f0, s2, f2, a + b, k)
  {
    HitsAppend(a, b, k);
  }

  /** One hit: its entry is marked and gets its filter; any other entry is untouched. */
  lemma RegisteredOne(s: State, filters: seq<ActionFilter>, h: Hit, k: nat)
    ensures h.receiver == k ==> Registered(s, filters, s.(dynamic := true), filters + [h.filter], [h], k)
    ensures h.receiver != k ==> Registered(s, filters, s, filters, [h], k)
  {
    assert [h][..0] == [];
  }

  /** backtrackIntentFilter: the filter rebuilt from the calls before the registerReceiver call, appended to the receiver. */
  method BacktrackIntentFilterInto(receiver: LegacyComponent, instructions: seq<Instr>, currentInstructionIndex: int, registerID: int)
    requires currentInstructionIndex < |instructions|
    modifies receiver`intentFilters
    ensures receiver.intentFilters == old(receiver.intentFilters) + [BacktrackIntentFilter(instructions, currentInstructionIndex, registerID)]
  {
    var intentFilter := NO_ACTIONS;
    var index := currentInstructionIndex;
    while index >= 0
      invariant index < |instructions|
      invariant FilterFrom(instructions, index, registerID, intentFilter) == BacktrackIntentFilter(instructions, currentInstructionIndex, registerID)
      decreases index + 1
    {
      var instruction := instructions[index];
      if instruction.Invoke? && instruction.kind == Virtual {
        if MethodRefText(instruction.target) == DynamicReceivers.ADD_ACTION && instruction.c == registerID {
          var action := BacktrackStringConstant(instructions, index - 1, instruction.d);
          intentFilter := AddMaybeAction(intentFilter, action);
        }
      }
      index := index - 1;
    }
    receiver.AddIntentFilter(intentFilter);
  }

  /** The body of a match: the receiver is marked dynamic and gets the filter. */
  method MarkReceiver(receiver: LegacyComponent, instructions: seq<Instr>, index: int, register: int)
    requires receiver.kind == Receiver && index < |instructions|
    modifies receiver`isDynamicReceiver, receiver`intentFilters
    ensures receiver.Abs() == old(receiver.Abs()).(dynamic := true)
    ensures receiver.intentFilters == old(receiver.intentFilters) + [BacktrackIntentFilter(instructions, index, register)]
  {
    receiver.MarkAsDynamicReceiver();
    BacktrackIntentFilterInto(receiver, instructions, index, register);
  }

  /** The loop over the roster: the first component with the receiver's name. */
  method FindByName(components: seq<LegacyComponent>, name: string) returns (r: Option<nat>)
    ensures r == DynamicReceivers.IndexOfName(Names(components), name)
  {
    var names := Names(components);
    var k := 0;
    while k < |components|
      invariant 0 <= k <= |components|
      invariant name !in names[..k]
    {
      if components[k].name == name {
        assert names == names[..k] + names[k..];
        return Some(k);
      }
      assert names[..k + 1] == names[..k] + [names[k]];
      k := k + 1;
    }
    assert names[..k] == names;
    return None;
  }

  /**
   * The registerReceiver call at `i`: its receiver, fabricated from the
   * nearest new-instance, is replaced by the roster component of the same
   * name; the one marked and given the filter is that component, or else
   * the fabricated receiver, which nothing refers to afterwards.
   */
  method HandleRegisterReceiver(components: seq<LegacyComponent>, instructions: seq<Instr>, i: nat)
    requires Distinct(components) && i < |instructions| && IsRegisterReceiverCall(instructions[i])
    modifies set c | c in components
    ensures RegisteredAll(components, old(States(components)), old(FilterLists(components)), StepHits(components, instructions, i))
  {
    var instruction := instructions[i];
    var index := i - 1;
    var receiver := BacktrackReceiver(instructions, index, instruction.d);
    if receiver.None? {
      forall k | 0 <= k < |components|
        ensures Registered(old(components[k].Abs()), old(components[k].intentFilters), components[k].Abs(), components[k].intentFilters, [], k)
      {
        RegisteredNone(components[k].Abs(), components[k].intentFilters, k);
      }
      return;
    }
    var found := FindByName(components, receiver.value);
    if found.Some? && components[found.value].kind == Receiver {
      var target := found.value;
      ghost var h := Hit(target, BacktrackIntentFilter(instructions, index, instruction.e));
      assert StepHits(components, instructions, i) == [h];
      MarkReceiver(components[target], instructions, index, instruction.e);
      forall k | 0 <= k < |components|
        ensures Registered(old(components[k].Abs()), old(components[k].intentFilters), components[k].Abs(), components[k].intentFilters, [h], k)
      {
        RegisteredOne(old(components[k].Abs()), old(components[k].intentFilters), h, k);
      }
    } else {
      assert StepHits(components, instructions, i) == [];
      if found.None? {
        var fabricated := new LegacyComponent(Receiver, receiver.value);
        MarkReceiver(fabricated, instructions, index, instruction.e);
      }
      forall k | 0 <= k < |components|
        ensures Registered(old(components[k].Abs()), old(components[k].intentFilters), components[k].Abs(), components[k].intentFilters, [], k)
      {
        RegisteredNone(components[k].Abs(), components[k].intentFilters, k);
      }
    }
  }

  /** The abstract states of the roster entries, in roster order. */
  ghost function States(components: seq<LegacyComponent>): (r: seq<State>)
    reads set c | c in components
    ensures |r| == |components| && forall k :: 0 <= k < |components| ==> r[k] == components[k].Abs()
  {
    seq(|components|, k requires 0 <= k < |components| reads set c | c in components => components[k].Abs())
  }

  /** The intent filters of the roster entries, in roster order. */
  ghost function FilterLists(components: seq<LegacyComponent>): (r: seq<seq<ActionFilter>>)
    reads set c | c in components
    ensures |r| == |components| && forall k :: 0 <= k < |components| ==> r[k] == components[k].intentFilters
  {
    seq(|components|, k requires 0 <= k < |components| reads set c | c in components => components[k].intentFilters)
  }

  /** Entry by entry, `states`/`filters` become `states'`/`filters'` by the registrations `hits`. */
  ghost predicate RegisteredSeq(states: seq<State>, filters: seq<seq<ActionFilter>>,
                                states': seq<State>, filters': seq<seq<ActionFilter>>, hits: seq<Hit>)
  {
    |filters| == |states| && |states'| == |states| && |filters'| == |states|
    && forall k :: 0 <= k < |states| ==> Registered(states[k], filters[k], states'[k], filters'[k], hits, k)
  }

  /** Every roster entry has gone from `states`/`filters` to its present state by the registrations `hits`. */
  ghost predicate RegisteredAll(components: seq<LegacyComponent>, states: seq<State>, filters: seq<seq<ActionFilter>>, hits: seq<Hit>)
    reads set c | c in components
  {
    RegisteredSeq(states, filters, States(components), FilterLists(components), hits)
  }

  /** No registration leaves every roster entry as it is. */
  lemma RegisteredAllNone(components: seq<LegacyComponent>)
    ensures RegisteredAll(components, States(components), FilterLists(components), [])
  {
    var states, filters := States(components), FilterLists(components);
    forall k | 0 <= k < |states|
      ensures Registered(states[k], filters[k], states[k], filters[k], [], k)
    {
      RegisteredNone(states[k], filters[k], k);
    }
  }

  /** Registrations `a` and then `b` make `a + b` in all. */
  lemma RegisteredSeqTrans(s0: seq<State>, f0: seq<seq<ActionFilter>>, s1: seq<State>, f1: seq<seq<ActionFilter>>,
                           s2: seq<State>, f2: seq<seq<ActionFilter>>, a: seq<Hit>, b: seq<Hit>)
    requires RegisteredSeq(s0, f0, s1, f1, a) && RegisteredSeq(s1, f1, s2, f2, b)
    ensures RegisteredSeq(s0, f0, s2, f2, a + b)
  {
    forall k | 0 <= k < |s0|
      ensures Registered(s0[k], f0[k], s2[k], f2[k], a + b, k)
    {
      RegisteredTrans(s0[k], f0[k], s1[k], f1[k], s2[k], f2[k], a, b, k);
    }
  }

  /** scanMethodForDynamicBroadcastReceiver of the older scanner. */
  method ScanMethodForDynamicBroadcastReceiver(components: seq<LegacyComponent>, m: MethodDef)
    requires Distinct(components)
    modifies set c | c in components
    ensures RegisteredAll(components, old(States(components)), old(FilterLists(components)), MethodHits(components, m))
  {
    ghost var states, filters := States(components), FilterLists(components);
    RegisteredAllNone(components);
    if m.implementation.None? {
      return;
    }
    var instructions := m.implementation.value;
    var i := 0;
    while i < |instructions|
      invariant 0 <= i <= |instructions|
      invariant RegisteredAll(components, states, filters, Hits(components, instructions, i))
    {
      ScanInstruction(components, instructions, i, states, filters);
      i := i + 1;
    }
    assert Hits(components, instructions, |instructions|) == MethodHits(components, m);
  }

  /** The body of scanMethodForDynamicBroadcastReceiver's loop for one instruction. */
  method ScanInstruction(components: seq<LegacyComponent>, instructions: seq<Instr>, i: nat,
                         ghost states: seq<State>, ghost filters: seq<seq<ActionFilter>>)
    requires Distinct(components) && i < |instructions|
    requires RegisteredAll(components, states, filters, Hits(components, instructions, i))
    modifies set c | c in components
    ensures RegisteredAll(components, states, filters, Hits(components, instructions, i + 1))
  {
    ghost var mid, midFilters := States(components), FilterLists(components);
    if IsRegisterReceiverCall(instructions[i]) {
      HandleRegisterReceiver(components, instructions, i);
    } else {
      RegisteredAllNone(components);
    }
    RegisteredSeqTrans(states, filters, mid, midFilters, States(components), FilterLists(components),
                       Hits(components, instructions, i), StepHits(components, instructions, i));
  }

  /** One class: nothing when its dotted name is excluded, else each of its methods in order. */
  method ScanClassForDynamicBroadcastReceivers(components: seq<LegacyComponent>, classDef: ClassDef, excluded: string -> bool)
    requires Distinct(components)
    modifies set c | c in components
    ensures RegisteredAll(components, old(States(components)), old(FilterLists(components)), ClassHits(components, classDef, excluded))
  {
    ghost var states, filters := States(components), FilterLists(components);
    RegisteredAllNone(components);
    var className := LegacyUtility.DottedClassName(classDef.descriptor);
    if className.Some? && excluded(className.value) {
      return;
    }
    var methods := classDef.methods;
    var mi := 0;
    assert methods[..0] == [];
    while mi < |methods|
      invariant 0 <= mi <= |methods|
      invariant RegisteredAll(components, states, filters, MethodsHits(components, methods[..mi]))
    {
      ScanMethodAt(components, methods, mi, states, filters);
      mi := mi + 1;
    }
    assert methods[..mi] == methods;
  }

  /** The body of the loop over a class's methods, for the method at `mi`. */
  method ScanMethodAt(components: seq<LegacyComponent>, methods: seq<MethodDef>, mi: nat,
                      ghost states: seq<State>, ghost filters: seq<seq<ActionFilter>>)
    requires Distinct(components) && mi < |methods|
    requires RegisteredAll(components, states, filters, MethodsHits(components, methods[..mi]))
    modifies set c | c in components
    ensures RegisteredAll(components, states, filters, MethodsHits(components, methods[..mi + 1]))
  {
    assert methods[..mi + 1][..mi] == methods[..mi];
    ghost var mid, midFilters := States(components), FilterLists(components);
    ScanMethodForDynamicBroadcastReceiver(components, methods[mi]);
    RegisteredSeqTrans(states, filters, mid, midFilters, States(components), FilterLists(components),
                       MethodsHits(components, methods[..mi]), MethodHits(components, methods[mi]));
  }

  /** The classes of one dex file, in order. */
  method ScanClassesForDynamicBroadcastReceivers(components: seq<LegacyComponent>, classes: seq<ClassDef>, excluded: string -> bool)
    requires Distinct(components)
    modifies set c | c in components
    ensures RegisteredAll(components, old(States(components)), old(FilterLists(components)), ClassesHits(components, classes, excluded))
  {
    ghost var states, filters := States(components), FilterLists(components);
    ghost var hitsOf := c => ClassHits(components, c, excluded);
    var ci := 0;
    assert classes[..0] == [];
    RegisteredAllNone(components);
    while ci < |classes|
      invariant 0 <= ci <= |classes|
      invariant RegisteredAll(components, states, filters, DynamicReceivers.Flatten(classes[..ci], hitsOf))
    {
      ghost var done := DynamicReceivers.Flatten(classes[..ci], hitsOf);
      ghost var added := ClassHits(components, classes[ci], excluded);
      assert classes[..ci + 1] == classes[..ci] + [classes[ci]];
      DynamicReceivers.FlattenAppend(classes[..ci], [classes[ci]], hitsOf);
      assert DynamicReceivers.Flatten([classes[ci]], hitsOf) == added by {
        assert [classes[ci]][..0] == [];
      }
      ghost var mid, midFilters := States(components), FilterLists(components);
      ScanClassForDynamicBroadcastReceivers(components, classes[ci], excluded);
      RegisteredSeqTrans(states, filters, mid, midFilters, States(components), FilterLists(components),
                         done, added);
      ci := ci + 1;
    }
    assert classes[..ci] == classes;
  }

  /** lookUpDynamicBroadcastReceivers of the older scanner: every method of every class of every dex file, unless excluded. */
  method LookUpDynamicBroadcastReceivers(scanner: Scanner.DexScanner, components: seq<LegacyComponent>, excluded: string -> bool)
    requires Distinct(components)
    modifies set c | c in components
    ensures RegisteredAll(components, old(States(components)), old(FilterLists(components)),
                          ClassesHits(components, AllClasses(scanner.dexFiles), excluded))
  {
    var dexFiles := scanner.dexFiles;
    ghost var states, filters := States(components), FilterLists(components);
    ghost var hitsOf := c => ClassHits(components, c, excluded);
    var fi := 0;
    assert dexFiles[..0] == [];
    RegisteredAllNone(components);
    while fi < |dexFiles|
      invariant 0 <= fi <= |dexFiles|
      invariant RegisteredAll(components, states, filters, DynamicReceivers.Flatten(AllClasses(dexFiles[..fi]), hitsOf))
    {
      ghost var done := DynamicReceivers.Flatten(AllClasses(dexFiles[..fi]), hitsOf);
      ghost var added := DynamicReceivers.Flatten(dexFiles[fi], hitsOf);
      AllClassesAt(dexFiles, fi);
      DynamicReceivers.FlattenAppend(AllClasses(dexFiles[..fi]), dexFiles[fi], hitsOf);
      ghost var mid, midFilters := States(components), FilterLists(components);
      ScanClassesForDynamicBroadcastReceivers(components, dexFiles[fi], excluded);
      RegisteredSeqTrans(states, filters, mid, midFilters, States(components), FilterLists(components),
                         done, added);
      fi := fi + 1;
    }
    assert dexFiles[..fi] == dexFiles;
  }

  /**
   * After the pass a roster entry is dynamic exactly when it was before or
   * a registerReceiver call reached it, and it has gained one filter per
   * such call.
   */
  lemma RegisteredSpec(before: State, beforeFilters: seq<ActionFilter>, after: State, afterFilters: seq<ActionFilter>,
                       hits: seq<Hit>, k: nat)
    requires Registered(before, beforeFilters, after, afterFilters, hits, k)
    ensures after.dynamic <==> before.dynamic || exists h :: h in hits && h.receiver == k
    ensures |afterFilters| == |beforeFilters| + |FiltersFor(hits, k)|
    ensures after.globals == before.globals && BagAt(after, OnReceive) == BagAt(before, OnReceive)
  {
    MarkedSpec(hits, k);
  }

  /**
   * A registerReceiver call whose new-instance names no roster entry, or a
   * roster entry that is no receiver, changes no roster entry: the
   * fabricated receiver takes the mark and the filter.
   */
  lemma {:induction false} UnknownReceiverLeavesRoster(components: seq<LegacyComponent>, instrs: seq<Instr>, i: nat)
    requires i < |instrs| && IsRegisterReceiverCall(instrs[i])
    requires var name := BacktrackReceiver(instrs, i - 1, instrs[i].d);
      name.None? || name.value !in Names(components)
    ensures StepHits(components, instrs, i) == []
  {
  }

  // ----- lookUpComponents -----

  predicate DescriptorsDotted(cs: seq<ClassDef>) {
    forall c :: c in cs ==> LegacyUtility.DottedClassName(c.descriptor).Some?
  }

  /** Each dex file's classes are classified against that file alone; every descriptor has a `;`. */
  predicate FilesOk(files: seq<DexFile>, rank: string -> nat) {
    forall f :: f in files ==> Acyclic(f, rank) && DescriptorsDotted(f)
  }

  /** findComponent of the older scanner: an activity, service or receiver by the older descriptor sets, in that order. */
  ghost function KindOf(classes: seq<ClassDef>, c: ClassDef, rank: string -> nat): Option<Kind>
    requires Acyclic(classes, rank)
  {
    if Walk(classes, LegacyUtility.LEGACY_ACTIVITY_CLASSES, c.superclass, rank) then Some(Activity)
    else if Walk(classes, LegacyUtility.LEGACY_SERVICE_CLASSES, c.superclass, rank) then Some(Service)
    else if Walk(classes, LegacyUtility.LEGACY_BROADCAST_RECEIVER_CLASSES, c.superclass, rank) then Some(Receiver)
    else None
  }

  /**
   * What lookUpComponents finds in class `c` of the dex file `classes`: its
   * kind, unless its name is excluded or it is no component. (A descriptor
   * without a dotted name, where the source throws, is ruled out by FilesOk
   * wherever lookUpComponents runs.)
   */
  ghost function Entry(classes: seq<ClassDef>, c: ClassDef, excluded: string -> bool, rank: string -> nat): seq<(Kind, ClassDef)>
    requires Acyclic(classes, rank)
  {
    var name := LegacyUtility.DottedClassName(c.descriptor);
    if name.None? || excluded(name.value) then []
    else match KindOf(classes, c, rank)
      case None => []
      case Some(kind) => [(kind, c)]
  }

  /** The kind and class of every component lookUpComponents finds among `cs`, the classes of the dex file `classes`. */
  ghost function FoundIn(classes: seq<ClassDef>, cs: seq<ClassDef>, excluded: string -> bool, rank: string -> nat)
    : seq<(Kind, ClassDef)>
    requires Acyclic(classes, rank)
    decreases |cs|
  {
    if cs == [] then [] else FoundIn(classes, cs[..|cs| - 1], excluded, rank) + Entry(classes, cs[|cs| - 1], excluded, rank)
  }

  ghost function Found(files: seq<DexFile>, excluded: string -> bool, rank: string -> nat): seq<(Kind, ClassDef)>
    requires FilesOk(files, rank)
    decreases |files|
  {
    if files == [] then []
    else
      var f := files[|files| - 1];
      Found(files[..|files| - 1], excluded, rank) + FoundIn(f, f, excluded, rank)
  }

  /** The field strings of the found classes, class after class: what lookUpComponents adds to the scanner's set. */
  function FoundStrings(found: seq<(Kind, ClassDef)>): seq<string>
    decreases |found|
  {
    if found == [] then [] else FoundStrings(found[..|found| - 1]) + Scanner.FieldStrings(found[|found| - 1].1.fields)
  }

  /**
   * What lookUpComponents leaves in the component of kind `kind` for class
   * `c`: the field strings as global strings, then each method scanned
   * into the bag of the lifecycle method it is, with the class's table.
   */
  function Scanned(files: seq<DexFile>, fuel: nat, kind: Kind, c: ClassDef): State
    requires FilesWellFormed(files) && BodiesWellFormed(c.methods)
  {
    Scanner.IntentInfo(files, fuel, kind, c.methods, ClassTable(c.methods), INITIAL.(globals := InsertAll([], Scanner.FieldStrings(c.fields))))
  }

  /** A component of the kind of `entry`, named after its class, with no intent filter yet. */
  predicate Labelled(component: LegacyComponent, entry: (Kind, ClassDef))
    reads component
  {
    component.kind == entry.0
    && Some(component.name) == LegacyUtility.DottedClassName(entry.1.descriptor)
    && component.intentFilters == []
  }

  /** The component lookUpComponents makes of the class of `entry`: of its kind, named after it, scanned, with no filter. */
  predicate Built(component: LegacyComponent, entry: (Kind, ClassDef), files: seq<DexFile>, fuel: nat)
    reads component
  {
    FilesWellFormed(files) && BodiesWellFormed(entry.1.methods)
    && Labelled(component, entry)
    && component.Abs() == Scanned(files, fuel, entry.0, entry.1)
  }

  predicate BodiesOk(found: seq<(Kind, ClassDef)>) {
    forall k :: 0 <= k < |found| ==> BodiesWellFormed(found[k].1.methods)
  }

  /** The state each found class is scanned into, in the order found. */
  function ScannedAll(files: seq<DexFile>, fuel: nat, found: seq<(Kind, ClassDef)>): (r: seq<State>)
    requires FilesWellFormed(files) && BodiesOk(found)
    ensures |r| == |found|
    decreases |found|
  {
    if found == [] then []
    else
      var last := found[|found| - 1];
      ScannedAll(files, fuel, found[..|found| - 1]) + [Scanned(files, fuel, last.0, last.1)]
  }

  /** The roster lookUpComponents returns: one component per found class, in the order found. */
  predicate Builds(components: seq<LegacyComponent>, found: seq<(Kind, ClassDef)>, files: seq<DexFile>, fuel: nat)
    reads set c | c in components
  {
    |components| == |found| && FilesWellFormed(files) && BodiesOk(found)
    && (forall k :: 0 <= k < |components| ==> Labelled(components[k], found[k]))
    && forall k :: 0 <= k < |components| ==> components[k].Abs() == ScannedAll(files, fuel, found)[k]
  }

  /** The k-th state of ScannedAll is the k-th found class scanned. */
  lemma {:induction false} ScannedAllAt(files: seq<DexFile>, fuel: nat, found: seq<(Kind, ClassDef)>, k: nat)
    requires FilesWellFormed(files) && BodiesOk(found) && k < |found|
    ensures ScannedAll(files, fuel, found)[k] == Scanned(files, fuel, found[k].0, found[k].1)
    decreases |found|
  {
    if k < |found| - 1 {
      ScannedAllAt(files, fuel, found[..|found| - 1], k);
    }
  }

  /** Each component of the roster is built from the class found at the same place. */
  lemma BuildsAt(components: seq<LegacyComponent>, found: seq<(Kind, ClassDef)>, files: seq<DexFile>, fuel: nat, k: nat)
    requires Builds(components, found, files, fuel) && k < |components|
    ensures Built(components[k], found[k], files, fuel)
  {
    ScannedAllAt(files, fuel, found, k);
  }

  lemma {:induction false} InsertAllAppend(xs: seq<string>, a: seq<string>, b: seq<string>)
    ensures InsertAll(xs, a + b) == InsertAll(InsertAll(xs, a), b)
    decreases |a|
  {
    if a == [] {
      assert a + b == b;
    } else {
      assert (a + b)[0] == a[0] && (a + b)[1..] == a[1..] + b;
      InsertAllAppend(Insert(xs, a[0]), a[1..], b);
    }
  }

  lemma {:induction false} FoundStringsAppend(a: seq<(Kind, ClassDef)>, b: seq<(Kind, ClassDef)>)
    ensures FoundStrings(a + b) == FoundStrings(a) + FoundStrings(b)
    decreases |b|
  {
    if b == [] {
      assert a + b == a;
    } else {
      var ab, init, last := a + b, b[..|b| - 1], b[|b| - 1].1.fields;
      assert ab[..|ab| - 1] == a + init && ab[|ab| - 1].1.fields == last;
      FoundStringsAppend(a, init);
      AppendAssoc(FoundStrings(a), FoundStrings(init), Scanner.FieldStrings(last));
    }
  }

  /**
   * The older lookUpComponents leaves a component as the current
   * extractInfo's intent pass leaves a fresh component of the same class.
   */
  lemma ScannedAsCurrent(files: seq<DexFile>, fuel: nat, kind: Kind, c: ClassDef)
    requires FilesWellFormed(files) && BodiesWellFormed(c.methods)
    requires kind == Activity || kind == Service || kind == Receiver
    ensures Scanned(files, fuel, kind, c) == Scanner.Extracted(files, fuel, true, kind, c, INITIAL)
    ensures WellFormed(Scanned(files, fuel, kind, c))
  {
    assert INITIAL.globals == [];
    assert WellFormed(INITIAL.(globals := InsertAll([], Scanner.FieldStrings(c.fields))));
    Scanner.IntentInfoSpec(files, fuel, kind, c.methods, ClassTable(c.methods), INITIAL.(globals := InsertAll([], Scanner.FieldStrings(c.fields))));
  }

  /** findComponent of the older scanner. */
  method FindComponent(classes: seq<ClassDef>, currentClass: ClassDef, ghost rank: string -> nat) returns (r: Option<LegacyComponent>)
    requires Acyclic(classes, rank) && LegacyUtility.DottedClassName(currentClass.descriptor).Some?
    ensures r.None? <==> KindOf(classes, currentClass, rank).None?
    ensures r.Some? ==>
      fresh(r.value) && r.value.kind == KindOf(classes, currentClass, rank).value
      && r.value.name == LegacyUtility.DottedClassName(currentClass.descriptor).value
      && r.value.Abs() == INITIAL && r.value.intentFilters == []
  {
    var className := LegacyUtility.DottedClassName(currentClass.descriptor).value;
    var isActivity := LegacyUtility.IsActivity(classes, currentClass, rank);
    if isActivity {
      var c := new LegacyComponent(Activity, className);
      return Some(c);
    }
    var isService := LegacyUtility.IsService(classes, currentClass, rank);
    if isService {
      var c := new LegacyComponent(Service, className);
      return Some(c);
    }
    var isReceiver := LegacyUtility.IsBroadcastReceiver(classes, currentClass, rank);
    if isReceiver {
      var c := new LegacyComponent(Receiver, className);
      return Some(c);
    }
    return None;
  }

  /** lookupStringConstants(component, classDef): the non-empty string field values, into the component's globals and the scanner's set. */
  method LookupStringConstants(scanner: Scanner.DexScanner, component: LegacyComponent, classDef: ClassDef)
    requires scanner.Valid()
    modifies scanner`strings, component`globalStrings
    ensures scanner.Valid()
    ensures scanner.strings == InsertAll(old(scanner.strings), Scanner.FieldStrings(classDef.fields))
    ensures component.Abs() == old(component.Abs()).(globals := InsertAll(old(component.globalStrings), Scanner.FieldStrings(classDef.fields)))
  {
    ghost var strings0, globals0 := scanner.strings, component.globalStrings;
    ghost var added: seq<string> := [];
    var fields := classDef.fields;
    var i := 0;
    assert fields[..0] == [];
    while i < |fields|
      invariant 0 <= i <= |fields|
      invariant added == Scanner.FieldStrings(fields[..i])
      invariant scanner.strings == InsertAll(strings0, added)
      invariant component.globalStrings == InsertAll(globals0, added)
    {
      Scanner.FieldStringsStep(fields, i);
      AddFieldString(scanner, component, fields[i], strings0, globals0, added);
      added := added + Scanner.FieldString(fields[i]);
      i := i + 1;
    }
    assert fields[..i] == fields;
    assert NoDup(scanner.strings);
  }

  /** The body of lookupStringConstants for one field: a non-empty string value goes into the component's globals and the scanner's set. */
  method AddFieldString(scanner: Scanner.DexScanner, component: LegacyComponent, field: Field,
                        ghost strings0: seq<string>, ghost globals0: seq<string>, ghost added: seq<string>)
    requires scanner.strings == InsertAll(strings0, added) && component.globalStrings == InsertAll(globals0, added)
    modifies scanner`strings, component`globalStrings
    ensures scanner.strings == InsertAll(strings0, added + Scanner.FieldString(field))
    ensures component.globalStrings == InsertAll(globals0, added + Scanner.FieldString(field))
    ensures component.Abs() == old(component.Abs()).(globals := component.globalStrings)
  {
    var encodedValue := field.initialValue;
    if encodedValue.Some? && encodedValue.value.StringValue? && encodedValue.value.value != "" {
      var value := encodedValue.value.value;
      InsertAllSnoc(strings0, added, value);
      InsertAllSnoc(globals0, added, value);
      component.AddStringConstant(value);
      scanner.strings := Insert(scanner.strings, value);
    } else {
      assert added + Scanner.FieldString(field) == added;
    }
  }

  /** scanMethod with scanActivity, scanService and scanReceiver: a lifecycle method is scanned into its bag. */
  method ScanMethod(scanner: Scanner.DexScanner, component: LegacyComponent, m: MethodDef, classVariables: map<string, string>, fuel: nat)
    requires scanner.Valid()
    modifies scanner`variables, component`onCreate, component`onNewIntent, component`onStartCommand, component`onHandleIntent,
             component`onReceive
    ensures scanner.Valid()
    ensures component.Abs() == Scanner.LifecycleScanned(scanner.dexFiles, fuel, component.kind, m, classVariables, old(component.Abs()))
  {
    var slot := Scanner.SlotFor(component.kind, m.name);
    if slot.Some? {
      var collected := scanner.ScanComponentMethod(fuel, m, classVariables, BagAt(component.Abs(), slot.value));
      component.PutBag(slot.value, collected);
    }
  }

  /** The body of lookUpComponents for a found component: its class's table is cached, its field strings read, its methods scanned. */
  method ScanComponentClass(scanner: Scanner.DexScanner, component: LegacyComponent, classDef: ClassDef, fuel: nat)
    requires scanner.Valid() && BodiesWellFormed(classDef.methods) && component.Abs() == INITIAL
    modifies scanner`variables, scanner`strings, component`globalStrings,
             component`onCreate, component`onNewIntent, component`onStartCommand, component`onHandleIntent, component`onReceive
    ensures scanner.Valid()
    ensures component.Abs() == Scanned(scanner.dexFiles, fuel, component.kind, classDef)
    ensures scanner.strings == InsertAll(old(scanner.strings), Scanner.FieldStrings(classDef.fields))
  {
    var classVariables := LookupConstructorsForVariables(classDef);
    scanner.variables := scanner.variables[classDef := classVariables];
    LookupStringConstants(scanner, component, classDef);
    ghost var start := component.Abs();
    var methods := classDef.methods;
    var i := 0;
    assert methods[..0] == [];
    while i < |methods|
      invariant 0 <= i <= |methods|
      invariant scanner.Valid()
      invariant scanner.strings == InsertAll(old(scanner.strings), Scanner.FieldStrings(classDef.fields))
      invariant component.Abs() == Scanner.IntentInfo(scanner.dexFiles, fuel, component.kind, methods[..i], classVariables, start)
    {
      assert methods[..i + 1][..i] == methods[..i];
      ScanMethod(scanner, component, methods[i], classVariables, fuel);
      i := i + 1;
    }
    assert methods[..i] == methods;
  }

  /** One class of a dex file: skipped when its name is excluded, else classified and, if a component, scanned. */
  method LookUpClass(scanner: Scanner.DexScanner, classes: seq<ClassDef>, classDef: ClassDef, excluded: string -> bool, fuel: nat,
                     ghost rank: string -> nat)
    returns (r: Option<LegacyComponent>)
    requires scanner.Valid() && Acyclic(classes, rank) && LegacyUtility.DottedClassName(classDef.descriptor).Some?
    requires BodiesWellFormed(classDef.methods)
    modifies scanner`variables, scanner`strings
    ensures scanner.Valid()
    ensures Entry(classes, classDef, excluded, rank) == if r.Some? then [(r.value.kind, classDef)] else []
    ensures r.Some? ==> fresh(r.value) && Built(r.value, (r.value.kind, classDef), scanner.dexFiles, fuel)
    ensures scanner.strings == if r.Some? then InsertAll(old(scanner.strings), Scanner.FieldStrings(classDef.fields)) else old(scanner.strings)
  {
    var className := LegacyUtility.DottedClassName(classDef.descriptor).value;
    if excluded(className) {
      return None;
    }
    r := FindComponent(classes, classDef, rank);
    if r.Some? {
      ScanComponentClass(scanner, r.value, classDef, fuel);
    }
  }

  /** The pass of lookUpComponents' loop over one class: the component built of that class, if any, joins the roster. */
  method AddClass(scanner: Scanner.DexScanner, classes: seq<ClassDef>, classDef: ClassDef, excluded: string -> bool, fuel: nat,
                  ghost rank: string -> nat, components: seq<LegacyComponent>, ghost found: seq<(Kind, ClassDef)>)
    returns (next: seq<LegacyComponent>, ghost entry: seq<(Kind, ClassDef)>)
    requires scanner.Valid() && Acyclic(classes, rank) && LegacyUtility.DottedClassName(classDef.descriptor).Some?
    requires BodiesWellFormed(classDef.methods) && Roster(components, found, scanner.dexFiles, fuel)
    modifies scanner`variables, scanner`strings
    ensures scanner.Valid() && entry == Entry(classes, classDef, excluded, rank)
    ensures Roster(next, found + entry, scanner.dexFiles, fuel) && components <= next
    ensures scanner.strings == InsertAll(old(scanner.strings), FoundStrings(entry))
  {
    var r := LookUpClass(scanner, classes, classDef, excluded, fuel, rank);
    entry := Entry(classes, classDef, excluded, rank);
    FoundStringsAtMostOne(entry);
    if r.Some? {
      RosterSnoc(components, r.value, found, (r.value.kind, classDef), scanner.dexFiles, fuel);
      next := components + [r.value];
    } else {
      assert found + entry == found;
      next := components;
    }
  }

  /**
   * The classes of one dex file, classified against that file; the
   * components found are appended to those of the files before.
   */
  method LookUpComponentsIn(scanner: Scanner.DexScanner, classes: seq<ClassDef>, excluded: string -> bool, fuel: nat,
                            ghost rank: string -> nat, components0: seq<LegacyComponent>, ghost found0: seq<(Kind, ClassDef)>)
    returns (components: seq<LegacyComponent>)
    requires scanner.Valid() && Acyclic(classes, rank) && DescriptorsDotted(classes)
    requires forall c :: c in classes ==> BodiesWellFormed(c.methods)
    requires Roster(components0, found0, scanner.dexFiles, fuel)
    modifies scanner`variables, scanner`strings
    ensures scanner.Valid()
    ensures Roster(components, found0 + FoundIn(classes, classes, excluded, rank), scanner.dexFiles, fuel)
    ensures components0 <= components
    ensures scanner.strings == InsertAll(old(scanner.strings), FoundStrings(FoundIn(classes, classes, excluded, rank)))
  {
    components := components0;
    var ci := 0;
    ghost var soFar: seq<(Kind, ClassDef)> := [];
    assert classes[..0] == [];
    assert found0 + soFar == found0;
    while ci < |classes|
      invariant 0 <= ci <= |classes|
      invariant scanner.Valid()
      invariant soFar == FoundIn(classes, classes[..ci], excluded, rank)
      invariant Roster(components, found0 + soFar, scanner.dexFiles, fuel) && components0 <= components
      invariant scanner.strings == InsertAll(old(scanner.strings), FoundStrings(soFar))
    {
      var classDef := classes[ci];
      assert classDef in classes;
      FoundInStep(classes, ci, excluded, rank);
      StringsStep(old(scanner.strings), soFar, Entry(classes, classDef, excluded, rank));
      ghost var entry;
      components, entry := AddClass(scanner, classes, classDef, excluded, fuel, rank, components, found0 + soFar);
      AppendAssoc(found0, soFar, entry);
      soFar := soFar + entry;
      ci := ci + 1;
    }
    assert classes[..ci] == classes;
  }

  /**
   * lookUpComponents of the older scanner: the components among the
   * classes of every dex file, skipping only excluded classes, each
   * scanned as soon as it is found.
   */
  method LookUpComponents(scanner: Scanner.DexScanner, excluded: string -> bool, fuel: nat, ghost rank: string -> nat)
    returns (components: seq<LegacyComponent>)
    requires scanner.Valid() && FilesOk(scanner.dexFiles, rank)
    modifies scanner`variables, scanner`strings
    ensures scanner.Valid()
    ensures Builds(components, Found(scanner.dexFiles, excluded, rank), scanner.dexFiles, fuel)
    ensures Distinct(components)
    ensures scanner.strings == InsertAll(old(scanner.strings), FoundStrings(Found(scanner.dexFiles, excluded, rank)))
  {
    var dexFiles := scanner.dexFiles;
    components := [];
    var fi := 0;
    ghost var before: seq<(Kind, ClassDef)> := [];
    assert dexFiles[..0] == [];
    assert FilesOk(dexFiles[..0], rank) && before == Found(dexFiles[..0], excluded, rank);
    while fi < |dexFiles|
      invariant 0 <= fi <= |dexFiles|
      invariant scanner.Valid()
      invariant FilesOk(dexFiles[..fi], rank) && before == Found(dexFiles[..fi], excluded, rank)
      invariant Roster(components, before, dexFiles, fuel)
      invariant scanner.strings == InsertAll(old(scanner.strings), FoundStrings(before))
    {
      var classes := dexFiles[fi];
      ghost var here := FoundIn(classes, classes, excluded, rank);
      FoundStep(dexFiles, fi, excluded, rank);
      FileWellFormed(dexFiles, fi);
      StringsStep(old(scanner.strings), before, here);
      components := LookUpComponentsIn(scanner, classes, excluded, fuel, rank, components, before);
      before := before + here;
      fi := fi + 1;
    }
    assert dexFiles[..fi] == dexFiles;
  }

  lemma FileWellFormed(files: seq<DexFile>, k: nat)
    requires FilesWellFormed(files) && k < |files|
    ensures forall c :: c in files[k] ==> BodiesWellFormed(c.methods)
  {
    AllClassesAt(files, k);
    assert forall c :: c in files[k] ==> c in AllClasses(files);
  }

  /** Builds and Distinct together: the roster lookUpComponents keeps while it runs. */
  ghost predicate Roster(components: seq<LegacyComponent>, found: seq<(Kind, ClassDef)>, files: seq<DexFile>, fuel: nat)
    reads set c | c in components
  {
    Builds(components, found, files, fuel) && Distinct(components)
  }

  lemma RosterSnoc(components: seq<LegacyComponent>, c: LegacyComponent, found: seq<(Kind, ClassDef)>, entry: (Kind, ClassDef),
                   files: seq<DexFile>, fuel: nat)
    requires Roster(components, found, files, fuel) && Built(c, entry, files, fuel) && c !in components
    ensures Roster(components + [c], found + [entry], files, fuel)
  {
    BuildsSnoc(components, c, found, entry, files, fuel);
    DistinctSnoc(components, c);
  }

  lemma FoundStringsAtMostOne(entry: seq<(Kind, ClassDef)>)
    requires |entry| <= 1
    ensures FoundStrings(entry) == if entry == [] then [] else Scanner.FieldStrings(entry[0].1.fields)
  {
    if entry != [] {
      assert entry[..0] == [];
    }
  }

  lemma DistinctSnoc(components: seq<LegacyComponent>, c: LegacyComponent)
    requires Distinct(components) && c !in components
    ensures Distinct(components + [c])
  {
  }

  lemma StringsSnoc(strings: seq<string>, before: seq<(Kind, ClassDef)>, entry: (Kind, ClassDef))
    ensures InsertAll(strings, FoundStrings(before + [entry]))
         == InsertAll(InsertAll(strings, FoundStrings(before)), Scanner.FieldStrings(entry.1.fields))
  {
    FoundStringsSnoc(before, entry);
    InsertAllAppend(strings, FoundStrings(before), Scanner.FieldStrings(entry.1.fields));
  }

  lemma AppendAssoc<T>(a: seq<T>, b: seq<T>, c: seq<T>)
    ensures a + b + c == a + (b + c)
  {
  }

  lemma StringsStep(strings: seq<string>, before: seq<(Kind, ClassDef)>, here: seq<(Kind, ClassDef)>)
    ensures InsertAll(strings, FoundStrings(before + here)) == InsertAll(InsertAll(strings, FoundStrings(before)), FoundStrings(here))
  {
    FoundStringsAppend(before, here);
    InsertAllAppend(strings, FoundStrings(before), FoundStrings(here));
  }

  /** FoundIn over one more class: that class's entry, if any, comes last. */
  lemma {:induction false} FoundInStep(classes: seq<ClassDef>, ci: nat, excluded: string -> bool, rank: string -> nat)
    requires Acyclic(classes, rank) && ci < |classes|
    ensures FoundIn(classes, classes[..ci + 1], excluded, rank)
         == FoundIn(classes, classes[..ci], excluded, rank) + Entry(classes, classes[ci], excluded, rank)
  {
    assert classes[..ci + 1][..ci] == classes[..ci];
  }

  lemma {:induction false} FoundStringsSnoc(found: seq<(Kind, ClassDef)>, entry: (Kind, ClassDef))
    ensures FoundStrings(found + [entry]) == FoundStrings(found) + Scanner.FieldStrings(entry.1.fields)
  {
    assert (found + [entry])[..|found|] == found;
  }

  /** Found over one more dex file: the components of that file come after the others. */
  lemma {:induction false} FoundStep(files: seq<DexFile>, k: nat, excluded: string -> bool, rank: string -> nat)
    requires FilesOk(files, rank) && k < |files|
    ensures FilesOk(files[..k], rank) && FilesOk(files[..k + 1], rank)
    ensures Acyclic(files[k], rank) && DescriptorsDotted(files[k])
    ensures Found(files[..k + 1], excluded, rank) == Found(files[..k], excluded, rank) + FoundIn(files[k], files[k], excluded, rank)
  {
    assert files[k] in files;
    assert forall f :: f in files[..k] ==> f in files;
    assert forall f :: f in files[..k + 1] ==> f in files;
    assert files[..k + 1][..k] == files[..k];
  }

  lemma {:induction false} BuildsSnoc(components: seq<LegacyComponent>, c: LegacyComponent, found: seq<(Kind, ClassDef)>, entry: (Kind, ClassDef),
                   files: seq<DexFile>, fuel: nat)
    requires Builds(components, found, files, fuel) && Built(c, entry, files, fuel)
    ensures Builds(components + [c], found + [entry], files, fuel)
  {
    var cs := components + [c];
    var fs := found + [entry];
    ScannedAllSnoc(files, fuel, found, entry);
    StatesSnoc(components, c, ScannedAll(files, fuel, found), Scanned(files, fuel, entry.0, entry.1));
    forall k | 0 <= k < |cs|
      ensures Labelled(cs[k], fs[k])
    {
      if k < |components| {
        assert cs[k] == components[k] && fs[k] == found[k];
      }
    }
  }

  /** Components in the given states, and one more in state `s`. */
  lemma StatesSnoc(components: seq<LegacyComponent>, c: LegacyComponent, states: seq<State>, s: State)
    requires |components| == |states| && forall k :: 0 <= k < |components| ==> components[k].Abs() == states[k]
    requires c.Abs() == s
    ensures forall k :: 0 <= k < |components| + 1 ==> (components + [c])[k].Abs() == (states + [s])[k]
  {
    forall k | 0 <= k < |components| + 1
      ensures (components + [c])[k].Abs() == (states + [s])[k]
    {
      if k < |components| {
        assert (components + [c])[k] == components[k] && (states + [s])[k] == states[k];
      }
    }
  }

  lemma ScannedAllSnoc(files: seq<DexFile>, fuel: nat, found: seq<(Kind, ClassDef)>, entry: (Kind, ClassDef))
    requires FilesWellFormed(files) && BodiesOk(found) && BodiesWellFormed(entry.1.methods)
    ensures BodiesOk(found + [entry])
    ensures ScannedAll(files, fuel, found + [entry]) == ScannedAll(files, fuel, found) + [Scanned(files, fuel, entry.0, entry.1)]
  {
    assert (found + [entry])[..|found|] == found;
  }
}
