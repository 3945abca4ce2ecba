/**
 * The component records of the current tree (Component, Activity, Service,
 * BroadcastReceiver, Fragment, ActivityAlias): one class whose `kind` is the
 * Java runtime class, with the fields the subclasses add. The mutable part
 * of a component is read off as a `State` value, and every operation is
 * specified by a function on that value.
 */
module Components {
  import opened Wrappers
  import opened Strings
  import opened Xml
  import opened Dex
  import opened Extras
  import opened Markup
  import ClassUtils

  /** The Java class of a component. */
  datatype Kind = Activity | Service | Receiver | Fragment | ActivityAlias

  /** getType: the element name written for a component. */
  function TypeName(kind: Kind): string {
    match kind
    case Activity => "activity"
    case Service => "service"
    case Receiver => "receiver"
    case Fragment => "fragment"
    case ActivityAlias => "activity-alias"
  }

  /** A lifecycle method's collected extras (a list) and strings (an insertion-ordered set). */
  datatype Bag = Bag(extras: seq<Extra>, strings: seq<string>)

  const EMPTY_BAG := Bag([], [])

  /** The lifecycle methods whose extras and strings a component keeps. */
  datatype Slot = OnCreate | OnNewIntent | OnStartCommand | OnHandleIntent | OnReceive

  /** The XML element of a lifecycle block. */
  function Tag(slot: Slot): string {
    match slot
    case OnCreate => "on_create"
    case OnNewIntent => "on_new_intent"
    case OnStartCommand => "on_start_command"
    case OnHandleIntent => "on_handle_intent"
    case OnReceive => "on_receive"
  }

  /** Everything about a component that its methods change. */
  datatype State = State(
    exported: bool, enabled: bool,
    globals: seq<string>, filters: seq<IntentFilter>, statics: seq<string>, methodStrings: seq<string>,
    onCreate: Bag, onNewIntent: Bag, onStartCommand: Bag, onHandleIntent: Bag, onReceive: Bag,
    dynamic: bool)

  /** A freshly constructed component: not exported, enabled, nothing collected, not dynamic. */
  const INITIAL := State(false, true, [], [], [], [], EMPTY_BAG, EMPTY_BAG, EMPTY_BAG, EMPTY_BAG, EMPTY_BAG, false)

  predicate BagValid(b: Bag) {
    NoDup(b.strings)
  }

  /** The string collections are sets: no element twice. */
  predicate WellFormed(s: State) {
    NoDup(s.globals) && NoDup(s.statics) && NoDup(s.methodStrings)
    && BagValid(s.onCreate) && BagValid(s.onNewIntent) && BagValid(s.onStartCommand)
    && BagValid(s.onHandleIntent) && BagValid(s.onReceive)
  }

  function BagAt(s: State, slot: Slot): Bag {
    match slot
    case OnCreate => s.onCreate
    case OnNewIntent => s.onNewIntent
    case OnStartCommand => s.onStartCommand
    case OnHandleIntent => s.onHandleIntent
    case OnReceive => s.onReceive
  }

  function WithBag(s: State, slot: Slot, b: Bag): (r: State)
    ensures BagAt(r, slot) == b
    ensures forall other :: other != slot ==> BagAt(r, other) == BagAt(s, other)
    ensures r.globals == s.globals && r.filters == s.filters && r.statics == s.statics
    ensures r.methodStrings == s.methodStrings && r.exported == s.exported && r.enabled == s.enabled
    ensures r.dynamic == s.dynamic
  {
    match slot
    case OnCreate => s.(onCreate := b)
    case OnNewIntent => s.(onNewIntent := b)
    case OnStartCommand => s.(onStartCommand := b)
    case OnHandleIntent => s.(onHandleIntent := b)
    case OnReceive => s.(onReceive := b)
  }

  /** What a finalizer leaves of a bag (the extras merged by key, the strings without the keys). */
  function Finalized(b: Bag): Bag {
    Bag(Dedup(b.extras), Strip(b.strings, Keys(b.extras)))
  }

  /** One extra per key, the same keys as before, and no string that is one of the keys. */
  lemma FinalizedSpec(b: Bag)
    ensures var r := Finalized(b);
      UniqueKeys(r.extras) && Keys(r.extras) == Keys(b.extras)
      && (forall x :: x in r.strings <==> x in b.strings && x !in Keys(b.extras))
      && (BagValid(b) ==> BagValid(r))
  {
    DedupUniqueKeys(b.extras);
    DedupKeys(b.extras);
  }

  /**
   * finalizeOnCreate and its copies: the bag of `slot` is finalized and its
   * keys are removed from the global strings.
   */
  function FinalizeSlot(s: State, slot: Slot): (r: State)
    ensures r.filters == s.filters && r.methodStrings == s.methodStrings && r.statics == s.statics
    ensures r.exported == s.exported && r.enabled == s.enabled && r.dynamic == s.dynamic
  {
    WithBag(s, slot, Finalized(BagAt(s, slot))).(globals := Strip(s.globals, Keys(BagAt(s, slot).extras)))
  }

  /**
   * After a finalizer the bag has one extra per key, no key is left among
   * its strings or the global strings, the other bags are untouched and the
   * collections stay free of duplicates.
   */
  lemma FinalizeSlotSpec(s: State, slot: Slot)
    ensures var r := FinalizeSlot(s, slot);
      UniqueKeys(BagAt(r, slot).extras)
      && (forall e :: e in BagAt(r, slot).extras ==> e.key !in BagAt(r, slot).strings && e.key !in r.globals)
      && (forall other :: other != slot ==> BagAt(r, other) == BagAt(s, other))
      && (WellFormed(s) ==> WellFormed(r))
  {
    var b := BagAt(s, slot);
    FinalizedSpec(b);
    assert forall e :: e in Finalized(b).extras ==> e.key in Keys(Finalized(b).extras);
  }

  /** finalizeMethods of each kind: its lifecycle finalizers in the order the source runs them. */
  function FinalizeKind(kind: Kind, s: State): State {
    match kind
    case Activity => FinalizeSlot(FinalizeSlot(s, OnCreate), OnNewIntent)
    case Service => FinalizeSlot(FinalizeSlot(s, OnStartCommand), OnHandleIntent)
    case Receiver => FinalizeSlot(s, OnReceive)
    case _ => s
  }

  // ----- properties of the finalizers -----

  lemma FinalizedIdempotent(b: Bag)
    ensures Finalized(Finalized(b)) == Finalized(b)
  {
    DedupIdempotent(b.extras);
    DedupKeys(b.extras);
    StripTwice(b.strings, Keys(b.extras), Keys(b.extras));
    assert Keys(b.extras) + Keys(b.extras) == Keys(b.extras);
  }

  /** A second finalizeOnCreate (or any other) changes nothing. */
  lemma FinalizeSlotIdempotent(s: State, slot: Slot)
    ensures FinalizeSlot(FinalizeSlot(s, slot), slot) == FinalizeSlot(s, slot)
  {
    var b := BagAt(s, slot);
    FinalizedIdempotent(b);
    DedupKeys(b.extras);
    StripTwice(s.globals, Keys(b.extras), Keys(b.extras));
    assert Keys(b.extras) + Keys(b.extras) == Keys(b.extras);
  }

  /** Finalizing two different lifecycle methods in either order gives the same state. */
  lemma FinalizeSlotsCommute(s: State, a: Slot, b: Slot)
    requires a != b
    ensures FinalizeSlot(FinalizeSlot(s, a), b) == FinalizeSlot(FinalizeSlot(s, b), a)
  {
    var ka, kb := Keys(BagAt(s, a).extras), Keys(BagAt(s, b).extras);
    StripTwice(s.globals, ka, kb);
    StripTwice(s.globals, kb, ka);
    assert ka + kb == kb + ka;
  }

  /** finalizeMethods is idempotent: a second call changes nothing. */
  lemma FinalizeMethodsIdempotent(kind: Kind, s: State)
    ensures FinalizeKind(kind, FinalizeKind(kind, s)) == FinalizeKind(kind, s)
  {
    match kind
    case Activity => TwoSlotsIdempotent(s, OnCreate, OnNewIntent);
    case Service => TwoSlotsIdempotent(s, OnStartCommand, OnHandleIntent);
    case Receiver => FinalizeSlotIdempotent(s, OnReceive);
    case _ =>
  }

  lemma TwoSlotsIdempotent(s: State, a: Slot, b: Slot)
    requires a != b
    ensures var t := FinalizeSlot(FinalizeSlot(s, a), b);
      FinalizeSlot(FinalizeSlot(t, a), b) == t
  {
    FinalizeSlotsCommute(FinalizeSlot(s, a), a, b);
    FinalizeSlotIdempotent(s, a);
    FinalizeSlotIdempotent(FinalizeSlot(s, a), b);
  }

  // ----- the XML text of a component -----

  function BagXml(slot: Slot, b: Bag): string {
    LifecycleBlock(Tag(slot), b.strings, b.extras)
  }

  /** Component.toXml: the intent filters, then the global strings. */
  function BaseXml(s: State): string {
    FiltersXml(s.filters) + GlobalBlock(s.globals)
  }

  function Opening(kind: Kind, name: string): string {
    "<" + TypeName(kind) + " name=\"" + MakeXmlConform(name) + "\">\n"
  }

  /** The line a receiver writes before the shared part. */
  function DynamicLine(dynamic: bool): string {
    "    <dynamic value=\"" + MakeXmlConform(BoolText(dynamic)) + "\"/>\n"
  }

  function Closing(kind: Kind): string {
    "</" + TypeName(kind) + ">\n"
  }

  /**
   * What toXml returns for a component in state `s`. The global block shows
   * the globals before any finalizer of this call runs; each lifecycle block
   * shows its bag after the finalizer its toXml method calls, which for a
   * service's onHandleIntent block is finalizeOnStartCommand, so that block
   * shows the onHandleIntent lists as collected.
   */
  function XmlOf(kind: Kind, name: string, s: State): string {
    match kind
    case Activity =>
      Opening(kind, name) + BaseXml(s)
      + BagXml(OnCreate, Finalized(s.onCreate)) + BagXml(OnNewIntent, Finalized(s.onNewIntent)) + Closing(kind)
    case Service => ServiceXmlAsWritten(name, s)
    case Receiver =>
      Opening(kind, name) + DynamicLine(s.dynamic) + BaseXml(s)
      + BagXml(OnReceive, Finalized(s.onReceive)) + Closing(kind)
    case _ => BaseXml(s)
  }

  /** Service.toXml as written: onHandleIntentToXml runs the onStartCommand finalizer again. */
  function ServiceXmlAsWritten(name: string, s: State): string {
    Opening(Service, name) + BaseXml(s)
    + BagXml(OnStartCommand, Finalized(s.onStartCommand)) + BagXml(OnHandleIntent, s.onHandleIntent)
    + Closing(Service)
  }

  /** Service.toXml with onHandleIntentToXml calling finalizeOnHandleIntent. */
  function CorrectedServiceXml(name: string, s: State): string {
    Opening(Service, name) + BaseXml(s)
    + BagXml(OnStartCommand, Finalized(s.onStartCommand)) + BagXml(OnHandleIntent, Finalized(s.onHandleIntent))
    + Closing(Service)
  }

  /**
   * The state toXml leaves behind: the finalizers its lifecycle blocks call.
   * A service's two blocks both call finalizeOnStartCommand.
   */
  function ToXmlEffect(kind: Kind, s: State): State {
    if kind == Service then FinalizeSlot(FinalizeSlot(s, OnStartCommand), OnStartCommand)
    else FinalizeKind(kind, s)
  }

  /**
   * Service.toXml finalizes onStartCommand alone: the onHandleIntent lists
   * are left as collected, so their keys also stay among the globals.
   */
  lemma ServiceToXmlEffect(s: State)
    ensures ToXmlEffect(Service, s) == FinalizeSlot(s, OnStartCommand)
    ensures ToXmlEffect(Service, s).onHandleIntent == s.onHandleIntent
  {
    FinalizeSlotIdempotent(s, OnStartCommand);
  }

  /** One attribute of toXmlSimple's element: ` name="value"`. */
  function Attribute(attr: string, value: string): string {
    " " + attr + "=\"" + value + "\""
  }

  /** toXmlSimple: the name and the two flags, and for a receiver the dynamic flag. */
  function SimpleXml(kind: Kind, name: string, s: State): string {
    "<" + TypeName(kind) + Attribute("name", MakeXmlConform(name))
    + Attribute("enabled", BoolText(s.enabled)) + Attribute("exported", BoolText(s.exported))
    + (if kind == Receiver then Attribute("dynamic", BoolText(s.dynamic)) else "")
    + "></" + TypeName(kind) + ">"
  }

  lemma CountChar(ch: char, c: char)
    ensures Count([ch], c) == if ch == c then 1 else 0
  {
    assert [ch][1..] == [];
  }

  lemma TypeNamePlain(kind: Kind, c: char)
    requires Special(c)
    ensures Count(TypeName(kind), c) == 0
  {
    CountAbsent(TypeName(kind), c);
  }

  /** An attribute holds two quotes and no bracket when its name and value hold none. */
  lemma AttributeCount(attr: string, value: string, c: char)
    requires Special(c) && c !in attr && c !in value
    ensures Count(Attribute(attr, value), c) == if c == '"' then 2 else 0
  {
    var q := if c == '"' then 1 else 0;
    assert " " == [' '] && "=\"" == ['='] + ['"'] && "\"" == ['"'];
    CountChar(' ', c);
    CountChar('=', c);
    CountChar('"', c);
    CountAppend(['='], ['"'], c);
    CountAbsent(attr, c);
    CountAbsent(value, c);
    var a := " " + attr;
    CountAppend(" ", attr, c);
    assert Count(a, c) == 0;
    var b := a + "=\"";
    CountAppend(a, "=\"", c);
    assert Count(b, c) == q;
    var v := b + value;
    CountAppend(b, value, c);
    CountAppend(v, "\"", c);
  }

  /**
   * The escaped name cannot leave its attribute: toXmlSimple's element has
   * exactly the quotes of its name, enabled and exported attributes, and of
   * the dynamic attribute a receiver adds, and one opening and one closing
   * tag.
   */
  lemma SimpleXmlAttributes(kind: Kind, name: string, s: State)
    ensures Count(SimpleXml(kind, name, s), '"') == if kind == Receiver then 8 else 6
    ensures Count(SimpleXml(kind, name, s), '<') == 2 && Count(SimpleXml(kind, name, s), '>') == 2
  {
    forall c | c == '"' || c == '<' || c == '>'
      ensures Count(SimpleXml(kind, name, s), c)
        == if c == '"' then (if kind == Receiver then 8 else 6) else 2
    {
      SimpleXmlCount(kind, name, s, c);
    }
  }

  lemma SimpleXmlCount(kind: Kind, name: string, s: State, c: char)
    requires c == '"' || c == '<' || c == '>'
    ensures Count(SimpleXml(kind, name, s), c) == if c == '"' then (if kind == Receiver then 8 else 6) else 2
  {
    var t := TypeName(kind);
    var n := Attribute("name", MakeXmlConform(name));
    var e := Attribute("enabled", BoolText(s.enabled));
    var x := Attribute("exported", BoolText(s.exported));
    var d := if kind == Receiver then Attribute("dynamic", BoolText(s.dynamic)) else "";
    var q := if c == '"' then 2 else 0;
    var lt := if c == '<' then 1 else 0;
    var gt := if c == '>' then 1 else 0;
    TypeNamePlain(kind, c);
    AttributeCount("name", MakeXmlConform(name), c);
    AttributeCount("enabled", BoolText(s.enabled), c);
    AttributeCount("exported", BoolText(s.exported), c);
    if kind == Receiver {
      AttributeCount("dynamic", BoolText(s.dynamic), c);
    } else {
      CountAbsent(d, c);
    }
    assert Count(d, c) == if kind == Receiver then q else 0;
    var head := OpenTagCount(t, c);
    var attrs := "<" + t + n + e + x + d;
    AttributesCount(head, n, e, x, d, c);
    CloseCount(attrs, t, c);
  }

  lemma OpenTagCount(t: string, c: char) returns (head: string)
    requires Special(c) && Count(t, c) == 0
    ensures head == "<" + t && Count(head, c) == if c == '<' then 1 else 0
  {
    head := "<" + t;
    assert "<" == ['<'];
    CountChar('<', c);
    CountAppend("<", t, c);
  }

  lemma AttributesCount(head: string, n: string, e: string, x: string, d: string, c: char)
    ensures Count(head + n + e + x + d, c) == Count(head, c) + Count(n, c) + Count(e, c) + Count(x, c) + Count(d, c)
  {
    CountAppend(head, n, c);
    CountAppend(head + n, e, c);
    CountAppend(head + n + e, x, c);
    CountAppend(head + n + e + x, d, c);
  }

  lemma CloseCount(attrs: string, t: string, c: char)
    requires Special(c) && Count(t, c) == 0
    ensures Count(attrs + "></" + t + ">", c) == Count(attrs, c) + (if c == '<' then 1 else 0) + (if c == '>' then 2 else 0)
  {
    assert "></" == ['>'] + ['<'] + ['/'] && ">" == ['>'];
    CountChar('>', c);
    CountChar('<', c);
    CountChar('/', c);
    CountAppend(['>'], ['<'], c);
    CountAppend(['>'] + ['<'], ['/'], c);
    CountAppend(attrs, "></", c);
    CountAppend(attrs + "></", t, c);
    CountAppend(attrs + "></" + t, ">", c);
  }

  /**
   * A second toXml after the first shows the same lifecycle blocks; only the
   * global block differs, since the first call's finalizers removed the keys
   * from the globals after that block was written.
   */
  lemma SecondToXml(kind: Kind, name: string, s: State)
    ensures var t := ToXmlEffect(kind, s);
      XmlOf(kind, name, t) == XmlOf(kind, name, s.(globals := t.globals))
  {
    match kind
    case Activity => SecondToXmlOf(kind, name, s, OnCreate, OnNewIntent);
    case Service =>
      ServiceToXmlEffect(s);
      var t := FinalizeSlot(s, OnStartCommand);
      assert t.onStartCommand == Finalized(s.onStartCommand);
      FinalizedIdempotent(s.onStartCommand);
      assert BaseXml(t) == BaseXml(s.(globals := t.globals));
    case Receiver =>
      var t := FinalizeSlot(s, OnReceive);
      assert t.onReceive == Finalized(s.onReceive);
      FinalizedIdempotent(s.onReceive);
      assert BaseXml(t) == BaseXml(s.(globals := t.globals));
    case _ =>
  }

  lemma SecondToXmlOf(kind: Kind, name: string, s: State, a: Slot, b: Slot)
    requires kind == Activity && a == OnCreate && b == OnNewIntent
    ensures var t := FinalizeKind(kind, s);
      XmlOf(kind, name, t) == XmlOf(kind, name, s.(globals := t.globals))
  {
    var t := FinalizeSlot(FinalizeSlot(s, a), b);
    assert BagAt(t, a) == Finalized(BagAt(s, a));
    assert BagAt(t, b) == Finalized(BagAt(s, b));
    FinalizedIdempotent(BagAt(s, a));
    FinalizedIdempotent(BagAt(s, b));
    assert BaseXml(t) == BaseXml(s.(globals := t.globals));
  }

  /**
   * The global block of an activity's first toXml still lists a string that
   * is an extra key, although the same call removes it from the globals.
   */
  lemma GlobalsShownBeforeFinalize()
    ensures var s := INITIAL.(globals := ["k"], onCreate := Bag([Extra("k", "")], []));
      GlobalBlock(s.globals) != "" && FinalizeKind(Activity, s).globals == []
  {
    var s := INITIAL.(globals := ["k"], onCreate := Bag([Extra("k", "")], []));
    var s1 := FinalizeSlot(s, OnCreate);
    assert Keys([Extra("k", "")]) == {"k"};
    assert s1.globals == Strip(["k"], {"k"}) == [];
    assert FinalizeKind(Activity, s) == FinalizeSlot(s1, OnNewIntent);
    assert Keys(s1.onNewIntent.extras) == {};
  }

  /**
   * As written, Service.toXml prints the onHandleIntent extras without
   * finalizing them: a key read twice is listed twice.
   */
  lemma ServiceAsWrittenListsDuplicates()
    ensures var h := Bag([Extra("k", "String"), Extra("k", "")], []);
      BagXml(OnHandleIntent, h) != BagXml(OnHandleIntent, Finalized(h))
  {
    var h := Bag([Extra("k", "String"), Extra("k", "")], []);
    var first := Extra("k", "String");
    assert WithoutKey([Extra("k", "")], "k") == [];
    assert MergedType("String", [Extra("k", "")], "k") == "String";
    assert Dedup(h.extras) == [first];
    var once := EscapedExtras([first]);
    var twice := EscapedExtras(h.extras);
    assert twice == once + [Extra(MakeXmlConform("k"), MakeXmlConform(""))] by {
      assert h.extras[..1] == [first];
    }
    ExtraLinesSnoc(EXTRA_OPEN, EXTRA_MID, EXTRA_CLOSE, once, Extra(MakeXmlConform("k"), MakeXmlConform("")));
    var extra := Row(EXTRA_OPEN, MakeXmlConform("k"), EXTRA_MID, MakeXmlConform(""), EXTRA_CLOSE);
    assert |extra| > 0;
    var lines1 := ExtraLines(EXTRA_OPEN, EXTRA_MID, EXTRA_CLOSE, once);
    var lines2 := ExtraLines(EXTRA_OPEN, EXTRA_MID, EXTRA_CLOSE, twice);
    assert lines2 == lines1 + extra;
    assert |lines2| > |lines1|;
  }

  /**
   * Once finalizeMethods has run, the as-written Service.toXml and the
   * corrected one agree: the missing finalizer only matters before.
   */
  lemma ServiceAsWrittenAfterFinalize(name: string, s: State)
    ensures var t := FinalizeKind(Service, s);
      ServiceXmlAsWritten(name, t) == CorrectedServiceXml(name, t)
  {
    var mid := FinalizeSlot(s, OnStartCommand);
    var t := FinalizeSlot(mid, OnHandleIntent);
    assert BagAt(mid, OnHandleIntent) == s.onHandleIntent;
    assert t.onHandleIntent == BagAt(t, OnHandleIntent) == Finalized(s.onHandleIntent);
    FinalizedIdempotent(s.onHandleIntent);
    assert Finalized(t.onHandleIntent) == t.onHandleIntent;
  }

  /** Java's String.hashCode, with 32-bit wrap-around. */
  function Wrap32(x: int): (r: int)
    ensures -0x8000_0000 <= r < 0x8000_0000
    ensures (r - x) % 0x1_0000_0000 == 0
  {
    (x + 0x8000_0000) % 0x1_0000_0000 - 0x8000_0000
  }

  function StringHash(s: string): int
    decreases |s|
  {
    if s == [] then 0 else Wrap32(31 * StringHash(s[..|s| - 1]) + (s[|s| - 1] as int))
  }

  class Component {
    const kind: Kind
    const name: string
    const clazz: Option<ClassDef>

    var exported: bool
    var enabled: bool
    var globalStrings: seq<string>
    var intentFilters: seq<IntentFilter>
    var staticStrings: seq<string>
    var methodStrings: seq<string>
    var onCreate: Bag
    var onNewIntent: Bag
    var onStartCommand: Bag
    var onHandleIntent: Bag
    var onReceive: Bag
    var isDynamicReceiver: bool

    /** The mutable part of the component as a value. */
    function Abs(): State
      reads this
    {
      State(exported, enabled, globalStrings, intentFilters, staticStrings, methodStrings,
            onCreate, onNewIntent, onStartCommand, onHandleIntent, onReceive, isDynamicReceiver)
    }

    ghost predicate Valid()
      reads this
    {
      WellFormed(Abs())
    }

    /** Component(ClassDef): the name is the dotted form of the class descriptor. */
    constructor FromClass(kind: Kind, c: ClassDef)
      requires ClassUtils.DottedClassName(c.descriptor).Some?
      ensures this.kind == kind && clazz == Some(c) && name == ClassUtils.DottedClassName(c.descriptor).value
      ensures Abs() == INITIAL && Valid()
    {
      this.kind := kind;
      clazz := Some(c);
      name := ClassUtils.DottedClassName(c.descriptor).value;
      exported, enabled := false, true;
      globalStrings, intentFilters, staticStrings, methodStrings := [], [], [], [];
      onCreate, onNewIntent, onStartCommand, onHandleIntent, onReceive := EMPTY_BAG, EMPTY_BAG, EMPTY_BAG, EMPTY_BAG, EMPTY_BAG;
      isDynamicReceiver := false;
    }

    /** Component(String), used for the components of the manifest: no class definition. */
    constructor Named(kind: Kind, className: string)
      ensures this.kind == kind && clazz == None && name == className
      ensures Abs() == INITIAL && Valid()
    {
      this.kind := kind;
      clazz := None;
      name := className;
      exported, enabled := false, true;
      globalStrings, intentFilters, staticStrings, methodStrings := [], [], [], [];
      onCreate, onNewIntent, onStartCommand, onHandleIntent, onReceive := EMPTY_BAG, EMPTY_BAG, EMPTY_BAG, EMPTY_BAG, EMPTY_BAG;
      isDynamicReceiver := false;
    }

    method AddIntentFilter(f: IntentFilter)
      modifies this`intentFilters
      ensures Abs() == old(Abs()).(filters := old(intentFilters) + [f])
    {
      intentFilters := intentFilters + [f];
    }

    method AddStringConstant(constant: string)
      modifies this`globalStrings
      ensures Abs() == old(Abs()).(globals := Insert(old(globalStrings), constant))
      ensures globalStrings == Insert(old(globalStrings), constant)
    {
      globalStrings := Insert(globalStrings, constant);
    }

    method SetExported(exported: bool)
      modifies this`exported
      ensures Abs() == old(Abs()).(exported := exported)
    {
      this.exported := exported;
    }

    method SetEnabled(enabled: bool)
      modifies this`enabled
      ensures Abs() == old(Abs()).(enabled := enabled)
    {
      this.enabled := enabled;
    }

    /** addStaticStrings: Set.addAll. */
    method AddStaticStrings(strings: seq<string>)
      requires Valid()
      modifies this`staticStrings
      ensures Abs() == old(Abs()).(statics := InsertAll(old(staticStrings), strings))
      ensures Valid()
    {
      staticStrings := InsertAll(staticStrings, strings);
    }

    method MarkAsDynamicReceiver()
      requires kind == Receiver
      modifies this`isDynamicReceiver
      ensures Abs() == old(Abs()).(dynamic := true)
    {
      isDynamicReceiver := true;
    }

    /** Stores what a scan collected for a lifecycle method (the lists the getters hand out). */
    method PutBag(slot: Slot, b: Bag)
      modifies this`onCreate, this`onNewIntent, this`onStartCommand, this`onHandleIntent, this`onReceive
      ensures Abs() == WithBag(old(Abs()), slot, b)
    {
      match slot
      case OnCreate => onCreate := b;
      case OnNewIntent => onNewIntent := b;
      case OnStartCommand => onStartCommand := b;
      case OnHandleIntent => onHandleIntent := b;
      case OnReceive => onReceive := b;
    }

    /** Stores the strings an all-methods scan collected (Activity.getMethodStrings). */
    method PutMethodStrings(strings: seq<string>)
      modifies this`methodStrings
      ensures Abs() == old(Abs()).(methodStrings := strings)
    {
      methodStrings := strings;
    }

    /** finalizeOnCreate, finalizeOnNewIntent, finalizeOnStartCommand, finalizeOnHandleIntent, finalizeOnReceive. */
    method Finalize(slot: Slot)
      modifies this`onCreate, this`onNewIntent, this`onStartCommand, this`onHandleIntent, this`onReceive,
               this`globalStrings
      ensures Abs() == FinalizeSlot(old(Abs()), slot)
    {
      var b := BagAt(Abs(), slot);
      var extras, strings, globals := FinalizeBag(b.extras, b.strings, globalStrings);
      PutBag(slot, Bag(extras, strings));
      globalStrings := globals;
    }

    method FinalizeMethods()
      modifies this`onCreate, this`onNewIntent, this`onStartCommand, this`onHandleIntent, this`onReceive,
               this`globalStrings
      ensures Abs() == FinalizeKind(kind, old(Abs()))
    {
      ghost var s := Abs();
      match kind
      case Activity =>
        Finalize(OnCreate);
        Finalize(OnNewIntent);
      case Service =>
        Finalize(OnStartCommand);
        Finalize(OnHandleIntent);
      case Receiver =>
        Finalize(OnReceive);
      case _ =>
    }

    /** toXmlSimple: one element with the name, enabled and exported attributes, and dynamic for a receiver. */
    function ToXmlSimple(): (r: string)
      reads this
      ensures StartsWith(r, "<" + TypeName(kind) + Attribute("name", MakeXmlConform(name)))
      ensures Count(r, '"') == (if kind == Receiver then 8 else 6) && Count(r, '<') == 2 && Count(r, '>') == 2
    {
      SimpleXmlAttributes(kind, name, Abs());
      SimpleXml(kind, name, Abs())
    }

    method StaticStringsToXml() returns (r: string)
      ensures r == StaticBlock(name, TypeName(kind), staticStrings)
    {
      if staticStrings != [] {
        r := "<strings class='" + name + "' type='" + TypeName(kind) + "'>\n";
        r := AppendLines(r, "    <string value='", "'/>\n", staticStrings);
        r := r + "</strings>\n";
      } else {
        r := "";
      }
    }

    /** Component.toXml, the part every kind shares. */
    method BaseToXml() returns (r: string)
      ensures r == BaseXml(Abs())
    {
      var filters := FiltersToXml(intentFilters);
      var globals := GlobalStringsToXml(globalStrings);
      r := filters + globals;
    }

    /** A lifecycle block: the finalizer of that method runs first (onCreateToXml and the others). */
    method SlotToXml(slot: Slot) returns (r: string)
      modifies this`onCreate, this`onNewIntent, this`onStartCommand, this`onHandleIntent, this`onReceive,
               this`globalStrings
      ensures Abs() == FinalizeSlot(old(Abs()), slot)
      ensures r == BagXml(slot, Finalized(BagAt(old(Abs()), slot)))
    {
      Finalize(slot);
      var b := BagAt(Abs(), slot);
      r := LifecycleToXml(Tag(slot), b.strings, b.extras);
    }

    /** toXml of each kind: Activity, Service, BroadcastReceiver, or the base class. */
    method ToXml() returns (r: string)
      modifies this`onCreate, this`onNewIntent, this`onStartCommand, this`onHandleIntent, this`onReceive,
               this`globalStrings
      ensures r == XmlOf(kind, name, old(Abs()))
      ensures Abs() == ToXmlEffect(kind, old(Abs()))
    {
      match kind {
        case Activity => r := ActivityToXml();
        case Service => r := ServiceToXmlAsWritten();
        case Receiver => r := ReceiverToXml();
        case _ => r := BaseToXml();
      }
    }

    /** Activity.toXml: the base part, then onCreate and onNewIntent, each finalized first. */
    method ActivityToXml() returns (r: string)
      requires kind == Activity
      modifies this`onCreate, this`onNewIntent, this`onStartCommand, this`onHandleIntent, this`onReceive,
               this`globalStrings
      ensures r == XmlOf(kind, name, old(Abs()))
      ensures Abs() == FinalizeKind(kind, old(Abs()))
    {
      var base := BaseToXml();
      var b1 := SlotToXml(OnCreate);
      var b2 := SlotToXml(OnNewIntent);
      r := Opening(kind, name) + base + b1 + b2 + Closing(kind);
    }

    /** Service.toXml with the onHandleIntent block finalized by its own finalizer. */
    method ServiceToXml() returns (r: string)
      requires kind == Service
      modifies this`onCreate, this`onNewIntent, this`onStartCommand, this`onHandleIntent, this`onReceive,
               this`globalStrings
      ensures r == CorrectedServiceXml(name, old(Abs()))
      ensures Abs() == FinalizeKind(kind, old(Abs()))
    {
      var base := BaseToXml();
      var b1 := SlotToXml(OnStartCommand);
      var b2 := SlotToXml(OnHandleIntent);
      r := Opening(kind, name) + base + b1 + b2 + Closing(kind);
    }

    /** BroadcastReceiver.toXml: the dynamic flag, the base part and onReceive. */
    method ReceiverToXml() returns (r: string)
      requires kind == Receiver
      modifies this`onCreate, this`onNewIntent, this`onStartCommand, this`onHandleIntent, this`onReceive,
               this`globalStrings
      ensures r == XmlOf(kind, name, old(Abs()))
      ensures Abs() == FinalizeKind(kind, old(Abs()))
    {
      var dynamic := DynamicLine(isDynamicReceiver);
      var base := BaseToXml();
      var b1 := SlotToXml(OnReceive);
      r := Opening(kind, name) + dynamic + base + b1 + Closing(kind);
    }

    /** Service.toXml as written: onHandleIntentToXml calls finalizeOnStartCommand. */
    method ServiceToXmlAsWritten() returns (r: string)
      requires kind == Service
      modifies this`onCreate, this`onNewIntent, this`onStartCommand, this`onHandleIntent, this`onReceive,
               this`globalStrings
      ensures r == XmlOf(kind, name, old(Abs()))
      ensures Abs() == ToXmlEffect(kind, old(Abs()))
    {
      var base := BaseToXml();
      var b1 := SlotToXml(OnStartCommand);
      Finalize(OnStartCommand);
      var h := onHandleIntent;
      var b2 := LifecycleToXml(Tag(OnHandleIntent), h.strings, h.extras);
      r := Opening(kind, name) + base + b1 + b2 + Closing(kind);
    }
  }

  /** Component.equals: the same Java class and the same name. */
  predicate SameComponent(a: Component, b: Component) {
    a.kind == b.kind && a.name == b.name
  }

  /** Component.hashCode: Objects.hash(name), which depends on the name alone. */
  function HashCode(c: Component): int {
    NameHash(c.name)
  }

  /** Objects.hash of one string: 31 * 1 plus the string's hash, wrapped to 32 bits. */
  function NameHash(name: string): (r: int)
    ensures -0x8000_0000 <= r < 0x8000_0000
  {
    Wrap32(31 + StringHash(name))
  }

  /**
   * Two names worked out: "a" hashes to 31 + 97, and "ab" to
   * 31 + 31 * 97 + 98.
   */
  lemma NameHashExample()
    ensures NameHash("a") == 128 && NameHash("ab") == 3136
  {
    assert "a"[..0] == [] && "a"[0] == 'a';
    assert StringHash("a") == 97;
    assert "ab"[..1] == "a" && "ab"[1] == 'b';
    assert StringHash("ab") == 3105;
  }
}
