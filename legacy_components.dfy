/**
 * The component records of the older tree (Component, Activity,
 * BroadcastReceiver). They hold the global strings, the lifecycle bags and,
 * for a receiver, the dynamic flag; there are no enabled or exported flags
 * and no static or method strings. The finalizers are the same as in the
 * current tree, so a component's mutable part is read off as a
 * Components.State whose other parts stay at their initial values, and the
 * finalizer functions and lemmas of Components are reused. The XML differs:
 * the global strings sit inside a `<component>` element, and there are no
 * intent filters in it.
 */
module LegacyComponents {
  import opened Wrappers
  import opened Strings
  import opened Xml
  import opened Extras
  import opened Markup
  import opened Components

  /**
   * The intent filter the older scanner builds: a set of actions, one of
   * which may be null (an addAction whose string was not found).
   */
  datatype ActionFilter = ActionFilter(actions: seq<Option<string>>)

  const NO_ACTIONS := ActionFilter([])

  /** IntentFilter.addAction: a set insert, null included. */
  function AddMaybeAction(f: ActionFilter, action: Option<string>): (r: ActionFilter)
    ensures action in r.actions && forall a :: a in r.actions <==> a in f.actions || a == action
    ensures NoDup(f.actions) ==> NoDup(r.actions)
    ensures f.actions <= r.actions
  {
    if action in f.actions then f else ActionFilter(f.actions + [action])
  }

  /** The actions that are not null, in order. */
  function Present(actions: seq<Option<string>>): (r: seq<string>)
    ensures forall a :: a in r <==> Some(a) in actions
    decreases |actions|
  {
    if actions == [] then []
    else
      var init := actions[..|actions| - 1];
      var last := actions[|actions| - 1];
      assert forall x :: x in actions <==> x in init || x == last;
      Present(init) + (if last.Some? then [last.value] else [])
  }

  /** Adding an action to the older filter adds it to its non-null part as the current filter's addAction would. */
  lemma PresentAdd(f: ActionFilter, action: Option<string>)
    ensures Present(AddMaybeAction(f, action).actions)
      == if action.Some? then Insert(Present(f.actions), action.value) else Present(f.actions)
  {
    if action !in f.actions {
      assert (f.actions + [action])[..|f.actions|] == f.actions;
    }
  }

  /** Component.toXml of the older tree: the global strings inside a `component` element. */
  function ComponentXml(name: string, globals: seq<string>): string {
    "<component name='" + MakeXmlConform(name) + "'>\n" + GlobalBlock(globals) + "</component>\n"
  }

  /**
   * What toXml returns for a component of the older tree in state `s`. The
   * component element shows the globals before any finalizer of this call
   * runs; each lifecycle block shows its bag after its own finalizer. A
   * service, whose class is not part of this model, writes the base
   * element.
   */
  function LegacyXmlOf(kind: Kind, name: string, s: State): string {
    match kind
    case Activity =>
      Opening(kind, name) + ComponentXml(name, s.globals)
      + BagXml(OnCreate, Finalized(s.onCreate)) + BagXml(OnNewIntent, Finalized(s.onNewIntent)) + Closing(kind)
    case Receiver =>
      Opening(kind, name) + DynamicLine(s.dynamic) + ComponentXml(name, s.globals)
      + BagXml(OnReceive, Finalized(s.onReceive)) + Closing(kind)
    case _ => ComponentXml(name, s.globals)
  }

  /**
   * finalizeMethods of the older tree. The older Service class is not part
   * of this model; a service is given the base class's finalizeMethods,
   * which does nothing.
   */
  function LegacyFinalizeKind(kind: Kind, s: State): State {
    if kind == Service then s else FinalizeKind(kind, s)
  }

  /** The older finalizeMethods is idempotent too. */
  lemma LegacyFinalizeIdempotent(kind: Kind, s: State)
    ensures LegacyFinalizeKind(kind, LegacyFinalizeKind(kind, s)) == LegacyFinalizeKind(kind, s)
  {
    if kind != Service {
      FinalizeMethodsIdempotent(kind, s);
    }
  }

  /**
   * The older activity and receiver XML is the current one with the
   * component element in place of the global block, for a component
   * without intent filters; the lifecycle blocks are the same text.
   */
  lemma SameBlocksAsCurrent(kind: Kind, name: string, s: State) returns (head: string, tail: string)
    requires kind == Activity || kind == Receiver
    requires s.filters == []
    ensures head == Opening(kind, name) + (if kind == Receiver then DynamicLine(s.dynamic) else "")
    ensures XmlOf(kind, name, s) == head + GlobalBlock(s.globals) + tail
    ensures LegacyXmlOf(kind, name, s) == head + ComponentXml(name, s.globals) + tail
  {
    assert BaseXml(s) == GlobalBlock(s.globals) by {
      assert FiltersXml([]) == "";
    }
    var open, globals, component := Opening(kind, name), GlobalBlock(s.globals), ComponentXml(name, s.globals);
    if kind == Activity {
      head := open;
      var b1, b2 := BagXml(OnCreate, Finalized(s.onCreate)), BagXml(OnNewIntent, Finalized(s.onNewIntent));
      tail := b1 + b2 + Closing(kind);
      Regroup(open, globals, b1, b2, Closing(kind));
      Regroup(open, component, b1, b2, Closing(kind));
    } else {
      var dynamic := DynamicLine(s.dynamic);
      head := open + dynamic;
      var b1 := BagXml(OnReceive, Finalized(s.onReceive));
      tail := b1 + Closing(kind);
      Regroup(open, dynamic, globals, b1, Closing(kind));
      Regroup(open, dynamic, component, b1, Closing(kind));
    }
  }

  lemma Regroup(a: string, b: string, c: string, d: string, e: string)
    ensures a + b + c + d + e == a + b + (c + d + e) == (a + b) + c + (d + e) == a + b + c + (d + e)
  {
  }

  /**
   * A second toXml after the first shows the same lifecycle blocks; only
   * the component element differs, since the first call's finalizers
   * removed the keys from the globals after it was written.
   */
  lemma LegacySecondToXml(kind: Kind, name: string, s: State)
    ensures var t := LegacyFinalizeKind(kind, s);
      LegacyXmlOf(kind, name, t) == LegacyXmlOf(kind, name, s.(globals := t.globals))
  {
    match kind
    case Activity =>
      var t := FinalizeSlot(FinalizeSlot(s, OnCreate), OnNewIntent);
      assert t.onCreate == Finalized(s.onCreate);
      assert t.onNewIntent == Finalized(s.onNewIntent);
      FinalizedIdempotent(s.onCreate);
      FinalizedIdempotent(s.onNewIntent);
    case Receiver =>
      var t := FinalizeSlot(s, OnReceive);
      assert t.onReceive == Finalized(s.onReceive);
      FinalizedIdempotent(s.onReceive);
    case _ =>
  }

  /**
   * The component element of an activity's first toXml still lists a
   * string that is an extra key, although the same call removes it from
   * the globals.
   */
  lemma LegacyGlobalsShownBeforeFinalize()
    ensures var s := INITIAL.(globals := ["k"], onCreate := Bag([Extra("k", "")], []));
      ComponentXml("a", s.globals) != ComponentXml("a", []) && LegacyFinalizeKind(Activity, s).globals == []
  {
    var s := INITIAL.(globals := ["k"], onCreate := Bag([Extra("k", "")], []));
    GlobalsShownBeforeFinalize();
    var open := "<component name='" + MakeXmlConform("a") + "'>\n";
    assert ComponentXml("a", s.globals) == open + GlobalBlock(s.globals) + "</component>\n";
    assert ComponentXml("a", []) == open + "</component>\n";
    assert |ComponentXml("a", s.globals)| > |ComponentXml("a", [])|;
  }

  class LegacyComponent {
    const kind: Kind
    const name: string

    var globalStrings: seq<string>
    var intentFilters: seq<ActionFilter>
    var onCreate: Bag
    var onNewIntent: Bag
    var onStartCommand: Bag
    var onHandleIntent: Bag
    var onReceive: Bag
    var isDynamicReceiver: bool

    /** The strings, bags and dynamic flag as a value; the parts the older tree lacks stay initial. */
    function Abs(): State
      reads this
    {
      State(false, true, globalStrings, [], [], [], onCreate, onNewIntent, onStartCommand, onHandleIntent, onReceive,
            isDynamicReceiver)
    }

    ghost predicate Valid()
      reads this
    {
      WellFormed(Abs())
    }

    /** Activity(String), Service(String), BroadcastReceiver(String). */
    constructor(kind: Kind, name: string)
      requires kind == Activity || kind == Service || kind == Receiver
      ensures this.kind == kind && this.name == name
      ensures Abs() == INITIAL && intentFilters == [] && Valid()
    {
      this.kind := kind;
      this.name := name;
      globalStrings, intentFilters := [], [];
      onCreate, onNewIntent, onStartCommand, onHandleIntent, onReceive := EMPTY_BAG, EMPTY_BAG, EMPTY_BAG, EMPTY_BAG, EMPTY_BAG;
      isDynamicReceiver := false;
    }

    method AddStringConstant(constant: string)
      modifies this`globalStrings
      ensures Abs() == old(Abs()).(globals := Insert(old(globalStrings), constant))
      ensures globalStrings == Insert(old(globalStrings), constant)
    {
      globalStrings := Insert(globalStrings, constant);
    }

    /** addIntentFilter, which the older scanner calls on every component it marks. */
    method AddIntentFilter(f: ActionFilter)
      modifies this`intentFilters
      ensures intentFilters == old(intentFilters) + [f]
    {
      intentFilters := intentFilters + [f];
    }

    method MarkAsDynamicReceiver()
      requires kind == Receiver
      modifies this`isDynamicReceiver
      ensures Abs() == old(Abs()).(dynamic := true)
    {
      isDynamicReceiver := true;
    }

    /** Stores what a scan collected for a lifecycle method (the lists the getters hand out). */
    method PutBag(slot: Slot, b: Bag)
      modifies this`onCreate, this`onNewIntent, this`onStartCommand, this`onHandleIntent, this`onReceive
      ensures Abs() == WithBag(old(Abs()), slot, b)
    {
      match slot
      case OnCreate => onCreate := b;
      case OnNewIntent => onNewIntent := b;
      case OnStartCommand => onStartCommand := b;
      case OnHandleIntent => onHandleIntent := b;
      case OnReceive => onReceive := b;
    }

    /** finalizeOnCreate, finalizeOnNewIntent, finalizeOnReceive. */
    method Finalize(slot: Slot)
      modifies this`onCreate, this`onNewIntent, this`onStartCommand, this`onHandleIntent, this`onReceive,
               this`globalStrings
      ensures Abs() == FinalizeSlot(old(Abs()), slot)
    {
      var b := BagAt(Abs(), slot);
      var extras, strings, globals := FinalizeBag(b.extras, b.strings, globalStrings);
      PutBag(slot, Bag(extras, strings));
      globalStrings := globals;
    }

    method FinalizeMethods()
      modifies this`onCreate, this`onNewIntent, this`onStartCommand, this`onHandleIntent, this`onReceive,
               this`globalStrings
      ensures Abs() == LegacyFinalizeKind(kind, old(Abs()))
    {
      match kind
      case Activity =>
        Finalize(OnCreate);
        Finalize(OnNewIntent);
      case Receiver =>
        Finalize(OnReceive);
      case _ =>
    }

    /** Component.toXml and its globalToXml. */
    method ComponentToXml() returns (r: string)
      ensures r == ComponentXml(name, globalStrings)
    {
      var globals := GlobalStringsToXml(globalStrings);
      r := "<component name='" + MakeXmlConform(name) + "'>\n" + globals + "</component>\n";
    }

    /** A lifecycle block: the finalizer of that method runs first (onCreateToXml and the others). */
    method SlotToXml(slot: Slot) returns (r: string)
      modifies this`onCreate, this`onNewIntent, this`onStartCommand, this`onHandleIntent, this`onReceive,
               this`globalStrings
      ensures Abs() == FinalizeSlot(old(Abs()), slot)
      ensures r == BagXml(slot, Finalized(BagAt(old(Abs()), slot)))
    {
      Finalize(slot);
      var b := BagAt(Abs(), slot);
      r := LifecycleToXml(Tag(slot), b.strings, b.extras);
    }

    /** toXml of Activity, BroadcastReceiver and the base class. */
    method ToXml() returns (r: string)
      modifies this`onCreate, this`onNewIntent, this`onStartCommand, this`onHandleIntent, this`onReceive,
               this`globalStrings
      ensures r == LegacyXmlOf(kind, name, old(Abs()))
      ensures Abs() == LegacyFinalizeKind(kind, old(Abs()))
    {
      match kind {
        case Activity => r := ActivityToXml();
        case Receiver => r := ReceiverToXml();
        case _ => r := ComponentToXml();
      }
    }

    /** Activity.toXml: the base part, then onCreate and onNewIntent, each finalized first. */
    method ActivityToXml() returns (r: string)
      requires kind == Activity
      modifies this`onCreate, this`onNewIntent, this`onStartCommand, this`onHandleIntent, this`onReceive,
               this`globalStrings
      ensures r == LegacyXmlOf(kind, name, old(Abs()))
      ensures Abs() == LegacyFinalizeKind(kind, old(Abs()))
    {
      var base := ComponentToXml();
      var b1 := SlotToXml(OnCreate);
      var b2 := SlotToXml(OnNewIntent);
      r := Opening(kind, name) + base + b1 + b2 + Closing(kind);
    }

    /** BroadcastReceiver.toXml: the dynamic flag, the base part and onReceive. */
    method ReceiverToXml() returns (r: string)
      requires kind == Receiver
      modifies this`onCreate, this`onNewIntent, this`onStartCommand, this`onHandleIntent, this`onReceive,
               this`globalStrings
      ensures r == LegacyXmlOf(kind, name, old(Abs()))
      ensures Abs() == LegacyFinalizeKind(kind, old(Abs()))
    {
      var dynamic := DynamicLine(isDynamicReceiver);
      var base := ComponentToXml();
      var b1 := SlotToXml(OnReceive);
      r := Opening(kind, name) + dynamic + base + b1 + Closing(kind);
    }
  }
}
