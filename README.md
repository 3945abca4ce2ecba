# dexanalyzer — a Dafny model of the component scanner

dexanalyzer reads the dex files of an Android app and finds its components:
activities, services, broadcast receivers and fragments. For each one it
collects the string constants it uses and the intent extras its lifecycle
methods read (`onCreate`, `onNewIntent`, `onStartCommand`,
`onHandleIntent`, `onReceive`). It marks the broadcast receivers that are
registered at run time with `Context.registerReceiver`. It rebuilds their
intent filters from the calls that fill them. Finally it merges what it
found in the code with the components the manifest declares, and writes
everything as XML.

The repository holds two versions of this code:
- the current tree, `de.uni_passau.fim.auermich.android_analysis`;
- the older tree, `de.uni_passau.fim`.

Both are modelled here. Where the two trees share code, the model
defines it once; where they differ, each has its own module.

Modules, in the order the program builds on them:

| module | file | what it models |
|---|---|---|
| `Wrappers` | wrappers.dfy | `Option`, the value a lookup may come back without (Java's `null`) |
| `Strings` | strings.dfy | the `java.lang.String` operations used (`indexOf`, `replace`, `split`), and insertion-ordered sets for Java's `HashSet`/`LinkedHashSet` |
| `Dex` | dex.dfy | the part of a dex file the scanner reads: classes, fields, methods, instructions |
| `ClassUtils` | class_utils.dfy | `dottedClassName`, and finding a class by its descriptor |
| `MethodUtils` | method_utils.dfy | `deriveMethodSignature` and `searchForTargetMethod` |
| `ComponentUtils` | component_utils.dfy | `isActivity`, `isFragment`, `isService`, `isBroadcastReceiver` (the superclass walk) and `isAbstractClass` |
| `LegacyUtility` | legacy_utility.dfy | the older `Utility`: its own `dottedClassName` and its superclass walks |
| `Xml` | xml.dfy | `makeXmlConform` and the common markup |
| `Extras` | extras.dfy | `Extra`, and the finalizers that merge extras by key and drop strings that are only keys |
| `Markup` | markup.dfy | the XML each component writes, and the `StringBuilder` loops that produce it |
| `Components` | components.dfy | the current tree's `Component` and its subclasses, as one class with a `kind` |
| `LegacyComponents` | legacy_components.dfy | the older tree's component classes |
| `Slicer` | slicer.dfy | the backward slices and lookaheads over one method's instructions (`lookupVariableName`, `getExtraKey`, `isIntentBundle`, `stringUsedForOwnIntents`, …) |
| `LifecycleScan` | lifecycle_scan.dfy | `scanComponentMethod`: what one lifecycle method yields, following calls that take an `Intent` |
| `DynamicReceivers` | dynamic_receivers.dfy | the current tree's dynamic receiver pass and `backtrackIntentFilter` |
| `Scanner` | scanner.dfy | the current tree's `DexScanner` as a class: `lookUpComponents`, `scanActivity`/`scanService`/`scanReceiver`, the string collection |
| `LegacyScanner` | legacy_scanner.dfy | the older `DexScanner`: its `deriveMethodSignature`, its receiver pass and its `lookUpComponents` |
| `Merge` | merge.dfy | `Main.mergeComponents` |

Source paths below are relative to the repository root.

The current tree's code is in `src/main/java/de/uni_passau/fim/auermich/android_analysis/`.
Its `utility/ClassUtils.java` has no `searchForTargetClass`. The search the
older scanner defines, in `src/main/java/de/uni_passau/fim/scanner/DexScanner.java:381-395`,
is the one its callers need, so it is modelled once in `ClassUtils` and
used by both scanners.

## Model

| member | source | states |
|---|---|---|
| Strings.IndexOf | src/main/java/de/uni_passau/fim/auermich/android_analysis/utility/ClassUtils.java:24-31 | the result is -1 exactly when the character is absent, and otherwise it is the first position that holds it |
| Strings.ReplaceCharInverse | src/main/java/de/uni_passau/fim/auermich/android_analysis/utility/ClassUtils.java:33 | turning `/` into `.` can be undone by turning `.` back into `/`, provided the name had no `.` to begin with; this is what makes dotted class names a faithful encoding of descriptors |
| Strings.ReplaceCharMembers | src/main/java/de/uni_passau/fim/auermich/android_analysis/utility/ClassUtils.java:33 | after `replace('/', '.')` no `/` is left, and every other character was either kept or put there by the replacement |
| Strings.ReplaceAtEnd | src/main/java/de/uni_passau/fim/auermich/android_analysis/scanner/DexScanner.java:683-694 | when the pattern cannot overlap itself, an occurrence at the very end of the text is always replaced; this is what turns a type name ending in `ArrayList` or `Array` into its converted suffix |
| Strings.Insert | src/main/java/de/uni_passau/fim/auermich/android_analysis/component/Component.java:45-48 | adding to an insertion-ordered set keeps it duplicate-free: a new element goes to the end and an element that is already there changes nothing |
| Strings.InsertAll | src/main/java/de/uni_passau/fim/auermich/android_analysis/scanner/DexScanner.java:481-492 | adding a whole list keeps the set duplicate-free and yields exactly the old elements together with the list's elements |
| Strings.InsertAllSnoc | src/main/java/de/uni_passau/fim/auermich/android_analysis/scanner/DexScanner.java:951-968 | adding a list and then one more string is the same as adding the longer list |
| Strings.Strip | src/main/java/de/uni_passau/fim/auermich/android_analysis/component/Activity.java:150-161 | removing keys through the iterator keeps exactly the elements that are not keys, in their order |
| Strings.StripTwice | src/main/java/de/uni_passau/fim/auermich/android_analysis/component/Activity.java:108-111 | two successive removals (one per lifecycle finaliser) remove the union of their key sets |
| Dex.AllClassesAt | src/main/java/de/uni_passau/fim/auermich/android_analysis/utility/MethodUtils.java:43-48 | the scan of dex file `k` sees the classes of the files before it, then those of file `k`, then those after it |
| ClassUtils.DottedClassName | src/main/java/de/uni_passau/fim/auermich/android_analysis/utility/ClassUtils.java:20-44 | an array or class type fails (a `substring` exception) exactly when its first `;` does not come after its first `L`; a dotted class name has no `/` left; a primitive type or primitive array comes back unchanged |
| ClassUtils.DottedDescriptorRoundTrip | src/main/java/de/uni_passau/fim/auermich/android_analysis/utility/ClassUtils.java:38-41 | dotting the descriptor `La/b/C;` of a dotted name `a.b.C` gives the name back |
| ClassUtils.DottedArrayDescriptor | src/main/java/de/uni_passau/fim/auermich/android_analysis/utility/ClassUtils.java:22-34 | an array of a class type keeps its leading `[` and gets its element class dotted |
| ClassUtils.FirstClassNamed | src/main/java/de/uni_passau/fim/scanner/DexScanner.java:381-395 | None exactly when no class carries the descriptor; otherwise the chosen class carries it and no earlier class does |
| ClassUtils.FirstClassNamedAppend | src/main/java/de/uni_passau/fim/scanner/DexScanner.java:383-392 | searching two lists one after the other finds the first list's match if there is one and otherwise the second list's |
| ClassUtils.SearchForTargetClass | src/main/java/de/uni_passau/fim/scanner/DexScanner.java:381-395 | the loop over all dex files returns the first class in file order whose descriptor is `className` |
| ClassUtils.SearchDexFile | src/main/java/de/uni_passau/fim/scanner/DexScanner.java:387-392 | the loop over one dex file returns its first class whose descriptor is `className` |
| MethodUtils.SplitHead | src/main/java/de/uni_passau/fim/auermich/android_analysis/utility/MethodUtils.java:41 | `split("->")[0]` fails exactly when the text is nothing but arrows; the head is a prefix of the text and holds no `->` |
| MethodUtils.BeforeArrowOf | src/main/java/de/uni_passau/fim/auermich/android_analysis/utility/MethodUtils.java:41 | for a signature `cls->rest` whose class part has no arrow, the split keeps exactly `cls` |
| MethodUtils.ReferenceTextSplits | src/main/java/de/uni_passau/fim/auermich/android_analysis/utility/MethodUtils.java:27-29 | a method's signature text always has a head, so the split in searchForTargetMethod never fails on a derived signature |
| MethodUtils.SplitHeadOfReference | src/main/java/de/uni_passau/fim/auermich/android_analysis/utility/MethodUtils.java:27-29 | the head of a method's signature is its defining class |
| MethodUtils.DeriveMethodSignature | src/main/java/de/uni_passau/fim/auermich/android_analysis/utility/MethodUtils.java:27-29 | the signature starts with the defining class followed by `->`, and splitting it at `->` gives that class back |
| MethodUtils.FirstWithSignature | src/main/java/de/uni_passau/fim/auermich/android_analysis/utility/MethodUtils.java:50-55 | None exactly when no method has the signature; otherwise the chosen method has it and no earlier one does |
| MethodUtils.FirstWithSignatureAppend | src/main/java/de/uni_passau/fim/auermich/android_analysis/utility/MethodUtils.java:46-56 | searching two method lists one after the other finds the first list's match if there is one |
| MethodUtils.CandidatesAt | src/main/java/de/uni_passau/fim/auermich/android_analysis/utility/MethodUtils.java:49-50 | class `k` contributes its methods, and only when its descriptor is the class name, between those of the classes before and after it |
| MethodUtils.FirstAfterMiss | src/main/java/de/uni_passau/fim/auermich/android_analysis/utility/MethodUtils.java:46-56 | once nothing in `a` matched, the first match of `a + b + c` is the first match of `b` whenever `b` has one |
| MethodUtils.SearchMethods | src/main/java/de/uni_passau/fim/auermich/android_analysis/utility/MethodUtils.java:50-55 | the loop over one class's methods returns its first method with the signature |
| MethodUtils.SearchClasses | src/main/java/de/uni_passau/fim/auermich/android_analysis/utility/MethodUtils.java:46-57 | the loop over one dex file returns the first method with the signature among the methods of its classes named `className` |
| MethodUtils.SearchForTargetMethod | src/main/java/de/uni_passau/fim/auermich/android_analysis/utility/MethodUtils.java:38-59 | the first method, over the classes named by the text before `->` in file order, whose signature is the requested one; a method found has that signature |
| Xml.MakeXmlConform | src/main/java/de/uni_passau/fim/auermich/android_analysis/component/Component.java:175-182 | the escaped text holds no `"`, `'`, `<` or `>` and is never shorter than the input |
| Xml.EscapeChain | src/main/java/de/uni_passau/fim/auermich/android_analysis/component/Component.java:176-180 | the five `replace` calls, in the order the source makes them (`&` first), compute exactly the character-by-character escape |
| Xml.EscapeStep | src/main/java/de/uni_passau/fim/auermich/android_analysis/component/Component.java:176-180 | each single `replace` call of the chain takes the text from one stage of the escape to the next |
| Xml.UnescapeStep | src/main/java/de/uni_passau/fim/auermich/android_analysis/component/Component.java:176-180 | reading one entity back takes the text from a stage of the escape to the stage before it |
| Xml.UnescapeInvertsEscape | src/main/java/de/uni_passau/fim/auermich/android_analysis/component/Component.java:175-182 | reading the entities back from what makeXmlConform wrote gives the original text: no information is lost |
| Xml.EscapeInjective | src/main/java/de/uni_passau/fim/component/Component.java:49-56 | escaping never merges two different texts into the same output |
| Markup.AddAction | src/main/java/de/uni_passau/fim/auermich/android_analysis/component/Component.java:207-209 | adding an action leaves the categories alone, and afterwards the actions are the old ones plus the new one |
| Markup.AddCategory | src/main/java/de/uni_passau/fim/auermich/android_analysis/component/Component.java:211-213 | adding a category leaves the actions alone, and afterwards the categories are the old ones plus the new one |
| Markup.GlobalBlock | src/main/java/de/uni_passau/fim/auermich/android_analysis/component/Component.java:117-129 | the global block is empty exactly when there are no global strings |
| Markup.StaticBlock | src/main/java/de/uni_passau/fim/auermich/android_analysis/component/Component.java:136-153 | the static-strings block is empty exactly when there are no static strings |
| Markup.LifecycleBlock | src/main/java/de/uni_passau/fim/auermich/android_analysis/component/Activity.java:90-106 | a lifecycle block is empty exactly when its method has neither strings nor extras |
| Markup.FiltersXmlSnoc | src/main/java/de/uni_passau/fim/auermich/android_analysis/component/Component.java:41-43 | adding an intent filter shows in the markup as one more filter block after the existing ones |
| Markup.EscapedPlain | src/main/java/de/uni_passau/fim/auermich/android_analysis/component/Component.java:122-123 | no escaped value holds a quote or angle bracket |
| Markup.LinesSpecialCount | src/main/java/de/uni_passau/fim/auermich/android_analysis/component/Component.java:117-129 | every quote and angle bracket in a block of escaped values comes from the fixed text around the values, so no value can break out of its attribute |
| Markup.AppendLines | src/main/java/de/uni_passau/fim/auermich/android_analysis/component/Component.java:121-124 | the StringBuilder loop over a string set appends one line per element, escaped, in set order |
| Markup.AppendExtras | src/main/java/de/uni_passau/fim/auermich/android_analysis/component/Activity.java:98-101 | the loop over an extras list appends one line per extra, key and type escaped, in list order |
| Markup.FilterToXml | src/main/java/de/uni_passau/fim/auermich/android_analysis/component/Component.java:224-242 | one intent filter becomes its opening tag, all actions, all categories and its closing tag |
| Markup.FiltersToXml | src/main/java/de/uni_passau/fim/auermich/android_analysis/component/Component.java:160-169 | the filters' markup is each filter's markup in list order |
| Markup.GlobalStringsToXml | src/main/java/de/uni_passau/fim/auermich/android_analysis/component/Component.java:117-129 | the global-strings markup is the global block of the component's strings |
| Markup.LifecycleToXml | src/main/java/de/uni_passau/fim/auermich/android_analysis/component/Activity.java:90-106 | the part of onCreateToXml after the finaliser: empty for a method with neither strings nor extras, otherwise its tag around the string lines and then the extra lines |
| Extras.WithValueType | src/main/java/de/uni_passau/fim/auermich/android_analysis/component/bundle/Extra.java:21-23 | setting the type of an extra keeps its key and replaces its type |
| Extras.WithoutKeyMembers | src/main/java/de/uni_passau/fim/auermich/android_analysis/component/Activity.java:140-148 | removing the later duplicates of a key keeps exactly the extras with another key |
| Extras.WithoutKeyKeys | src/main/java/de/uni_passau/fim/auermich/android_analysis/component/Activity.java:140-148 | after the removal the key set is the old one minus the removed key |
| Extras.MergedTypeIsTypeOf | src/main/java/de/uni_passau/fim/auermich/android_analysis/component/Activity.java:143-144 | an extra keeps its own type unless it is empty, in which case it takes the first non-empty type recorded later for its key |
| Extras.DedupKeys | src/main/java/de/uni_passau/fim/auermich/android_analysis/component/Activity.java:139-163 | finalising loses no key and invents none |
| Extras.DedupUniqueKeys | src/main/java/de/uni_passau/fim/auermich/android_analysis/component/Activity.java:139-163 | after finalising no two extras share a key |
| Extras.DedupTypes | src/main/java/de/uni_passau/fim/auermich/android_analysis/component/Activity.java:139-163 | each extra that is kept carries the first non-empty type ever recorded for its key |
| Extras.DedupOrder | src/main/java/de/uni_passau/fim/auermich/android_analysis/component/Activity.java:139-163 | the kept extras come in the order in which their keys first occurred |
| Extras.DedupOfUnique | src/main/java/de/uni_passau/fim/auermich/android_analysis/component/Activity.java:139-163 | a list whose keys are already unique is left exactly as it is |
| Extras.DedupIdempotent | src/main/java/de/uni_passau/fim/auermich/android_analysis/component/Activity.java:90-91 | finalising twice (toXml calls the finaliser again after finalizeMethods) is the same as finalising once |
| Extras.RemoveKey | src/main/java/de/uni_passau/fim/auermich/android_analysis/component/Activity.java:150-155 | the iterator loop removes every occurrence of the key and keeps the other strings in their order |
| Extras.RemovingStep | src/main/java/de/uni_passau/fim/auermich/android_analysis/component/Activity.java:151-154 | one iterator step drops the current string when it is the key and keeps it otherwise |
| Extras.StripSnoc | src/main/java/de/uni_passau/fim/auermich/android_analysis/component/Activity.java:150-161 | removing keys from a list with one more element removes them from the shorter list and then keeps or drops that element |
| Extras.MergeLaterDuplicates | src/main/java/de/uni_passau/fim/auermich/android_analysis/component/Activity.java:141-148 | the inner loop leaves extras before `i` alone, gives extra `i` its merged type and removes every later extra with its key, keeping the others in order |
| Extras.MergeStepMatch | src/main/java/de/uni_passau/fim/auermich/android_analysis/component/Activity.java:142-146 | meeting a later extra with the same key: the type fills in an empty one, the extra is removed and `n` stays in place |
| Extras.MergeStepMiss | src/main/java/de/uni_passau/fim/auermich/android_analysis/component/Activity.java:142 | meeting a later extra with another key: it is kept and `n` moves on |
| Extras.FinalizeRoundExtras | src/main/java/de/uni_passau/fim/auermich/android_analysis/component/Activity.java:140-148 | one round of the outer loop keeps the invariant that the final extras list is the deduplicated original |
| Extras.FinalizeRoundKeys | src/main/java/de/uni_passau/fim/auermich/android_analysis/component/Activity.java:140-161 | one round of the outer loop keeps the set of keys and adds the current key to those already handled |
| Extras.FinalizeBag | src/main/java/de/uni_passau/fim/auermich/android_analysis/component/Activity.java:139-163 | finalising one lifecycle method deduplicates its extras by key, and removes every extra key from that method's strings and from the component's global strings, keeping the rest in order |
| Extras.FinalizeRound | src/main/java/de/uni_passau/fim/auermich/android_analysis/component/Activity.java:140-162 | one round of the outer loop: extra `i` absorbs its later duplicates and its key leaves both string lists |
| Components.WithBag | src/main/java/de/uni_passau/fim/auermich/android_analysis/component/Activity.java:42-48 | storing the lists of one lifecycle method changes that method's lists and nothing else of the component |
| Components.FinalizedSpec | src/main/java/de/uni_passau/fim/auermich/android_analysis/component/Activity.java:139-163 | after a finaliser the method has one extra per key, the same keys as before, and exactly the strings that are not keys |
| Components.FinalizeSlot | src/main/java/de/uni_passau/fim/auermich/android_analysis/component/Service.java:88-138 | a finaliser touches only the lifecycle lists and the global strings; filters, static strings, flags and the all-methods strings stay |
| Components.FinalizeSlotSpec | src/main/java/de/uni_passau/fim/auermich/android_analysis/component/Service.java:88-112 | after a finaliser no extra key is left among that method's strings or the global strings, the other lifecycle methods are untouched and the string collections stay duplicate-free |
| Components.FinalizedIdempotent | src/main/java/de/uni_passau/fim/auermich/android_analysis/component/Activity.java:139-163 | finalising one method's lists twice gives what finalising once gives |
| Components.FinalizeSlotIdempotent | src/main/java/de/uni_passau/fim/auermich/android_analysis/component/Activity.java:90-91 | a second call of a lifecycle finaliser on the component changes nothing |
| Components.FinalizeSlotsCommute | src/main/java/de/uni_passau/fim/auermich/android_analysis/component/Activity.java:108-111 | the two finalisers of an activity (or of a service) give the same state in either order |
| Components.FinalizeMethodsIdempotent | src/main/java/de/uni_passau/fim/auermich/android_analysis/component/Activity.java:108-111 | finalizeMethods of every kind is idempotent |
| Components.TwoSlotsIdempotent | src/main/java/de/uni_passau/fim/auermich/android_analysis/component/Service.java:83-86 | running both finalisers of a service again after running them once changes nothing |
| Components.SecondToXml | src/main/java/de/uni_passau/fim/auermich/android_analysis/component/Activity.java:54-62 | a second toXml shows the same lifecycle blocks as the first; only the global block can differ, because the first call's finalisers removed the extra keys from the global strings |
| Components.GlobalsShownBeforeFinalize | src/main/java/de/uni_passau/fim/auermich/android_analysis/component/Activity.java:54-62 | the global block of an activity's first toXml still lists a string that is also an extra key, although the same call then removes it from the global strings |
| Components.Wrap32 | src/main/java/de/uni_passau/fim/auermich/android_analysis/component/Component.java:198-200 | the hash is a 32-bit signed value congruent to the unbounded one, as Java's int arithmetic wraps |
| Components.NameHashExample | src/main/java/de/uni_passau/fim/auermich/android_analysis/component/Component.java:197-200 | hashCode is Objects.hash(name): 31 plus the name's String.hashCode, wrapped to 32 bits, so "a" hashes to 128 and "ab" to 3136 |
| Components.SimpleXmlAttributes | src/main/java/de/uni_passau/fim/auermich/android_analysis/component/Component.java:84-91 | the escaped name cannot leave its attribute: toXmlSimple's element holds exactly six double quotes (eight for a receiver, whose dynamic attribute is the fourth) and one opening and one closing tag |
| Components.Component.ToXmlSimple | src/main/java/de/uni_passau/fim/auermich/android_analysis/component/BroadcastReceiver.java:54-61 | the element opens with the kind's tag and the escaped name attribute, and has the enabled and exported attributes, plus dynamic for a receiver, and nothing else quoted |
| Components.Component.FromClass | src/main/java/de/uni_passau/fim/auermich/android_analysis/component/Component.java:22-27 | a component built from a class definition is named by the dotted form of its descriptor and starts with empty collections and both flags at their defaults |
| Components.Component.AddIntentFilter | src/main/java/de/uni_passau/fim/auermich/android_analysis/component/Component.java:41-43 | the filter is appended and nothing else changes |
| Components.Component.AddStringConstant | src/main/java/de/uni_passau/fim/auermich/android_analysis/component/Component.java:45-48 | the constant is added to the global strings as to a set and nothing else changes |
| Components.Component.SetExported | src/main/java/de/uni_passau/fim/auermich/android_analysis/component/Component.java:54-56 | only the exported flag changes |
| Components.Component.SetEnabled | src/main/java/de/uni_passau/fim/auermich/android_analysis/component/Component.java:62-64 | only the enabled flag changes |
| Components.Component.AddStaticStrings | src/main/java/de/uni_passau/fim/auermich/android_analysis/component/Component.java:254-256 | the static strings become the old ones together with the new ones, still duplicate-free, and nothing else changes |
| Components.Component.MarkAsDynamicReceiver | src/main/java/de/uni_passau/fim/auermich/android_analysis/component/BroadcastReceiver.java:30-32 | only the dynamic-receiver flag changes, to true |
| Components.Component.PutBag | src/main/java/de/uni_passau/fim/auermich/android_analysis/component/Activity.java:42-48 | the lists a scan collected for one lifecycle method replace that method's lists and nothing else changes |
| Components.Component.PutMethodStrings | src/main/java/de/uni_passau/fim/auermich/android_analysis/component/Activity.java:50-52 | the strings of an all-methods scan replace the component's method strings and nothing else changes |
| Components.Component.Finalize | src/main/java/de/uni_passau/fim/auermich/android_analysis/component/Activity.java:139-163 | the component's new state is the old one with that lifecycle method finalised |
| Components.Component.FinalizeMethods | src/main/java/de/uni_passau/fim/auermich/android_analysis/component/Activity.java:108-111 | the component's new state is the old one with every finaliser of its kind run in the source's order |
| Components.Component.StaticStringsToXml | src/main/java/de/uni_passau/fim/auermich/android_analysis/component/Component.java:136-153 | the static-strings markup of the component's name, kind and static strings |
| Components.Component.BaseToXml | src/main/java/de/uni_passau/fim/auermich/android_analysis/component/Component.java:98-103 | the shared part of the markup: the intent filters, then the global strings |
| Components.Component.SlotToXml | src/main/java/de/uni_passau/fim/auermich/android_analysis/component/Activity.java:90-106 | the method's finaliser runs first and the block shows the finalised lists |
| Components.Component.ToXml | src/main/java/de/uni_passau/fim/auermich/android_analysis/component/Service.java:39-81 | the markup of the component's kind for its state before the call, as the source writes it: a service's onHandleIntent block shows its lists as collected; afterwards each finaliser the blocks called has run, which for a service is finalizeOnStartCommand alone |
| Components.Component.ActivityToXml | src/main/java/de/uni_passau/fim/auermich/android_analysis/component/Activity.java:54-62 | the activity markup of the state before the call; afterwards both activity finalisers have run |
| Components.Component.ServiceToXml | src/main/java/de/uni_passau/fim/auermich/android_analysis/component/Service.java:39-47 | the corrected service markup, with the onHandleIntent block finalised by its own finaliser; afterwards both service finalisers have run |
| Components.Component.ReceiverToXml | src/main/java/de/uni_passau/fim/auermich/android_analysis/component/BroadcastReceiver.java:42-50 | the receiver markup: its dynamic flag, the shared part and the onReceive block; afterwards onReceive is finalised |
| Components.Component.ServiceToXmlAsWritten | src/main/java/de/uni_passau/fim/auermich/android_analysis/component/Service.java:66-81 | the service case of toXml: the onHandleIntent block runs the onStartCommand finaliser a second time, so the onHandleIntent lists are printed as collected and are never finalised by this call |
| Components.ServiceToXmlEffect | src/main/java/de/uni_passau/fim/auermich/android_analysis/component/Service.java:62-81 | a service's toXml leaves the state as finalizeOnStartCommand alone would: the onHandleIntent lists, and the keys among the globals, stay as collected |
| Components.ServiceAsWrittenListsDuplicates | src/main/java/de/uni_passau/fim/auermich/android_analysis/component/Service.java:66-81 | as written, an onHandleIntent key read twice is printed twice, where the finalised block prints it once |
| Components.ServiceAsWrittenAfterFinalize | src/main/java/de/uni_passau/fim/auermich/android_analysis/component/Service.java:83-86 | once finalizeMethods has run, the as-written and the corrected Service.toXml print the same markup |
| Components.Component.Named | src/main/java/de/uni_passau/fim/auermich/android_analysis/component/Component.java:34-39 | a component built from a manifest name keeps that name, has no class definition, and starts with empty collections |
| LegacyComponents.AddMaybeAction | src/main/java/de/uni_passau/fim/scanner/DexScanner.java:186-191 | the older filter stores every action the backtracking returns, an unresolved (null) one included, as a set: the action is present afterwards, nothing else is added and nothing is lost |
| LegacyComponents.Present | src/main/java/de/uni_passau/fim/scanner/DexScanner.java:186-191 | the non-null actions are exactly the strings whose `Some` the filter holds |
| LegacyComponents.PresentAdd | src/main/java/de/uni_passau/fim/auermich/android_analysis/component/Component.java:207-209 | on its non-null part, the older filter's add behaves as the current filter's addAction, and a null action adds nothing there |
| LegacyComponents.LegacyFinalizeIdempotent | src/main/java/de/uni_passau/fim/component/Activity.java:83-86 | the older finalizeMethods of an activity and a receiver is idempotent |
| LegacyComponents.SameBlocksAsCurrent | src/main/java/de/uni_passau/fim/component/Activity.java:39-47 | for an activity or receiver without intent filters, the older markup is the current one with a `component` element in place of the global block |
| LegacyComponents.LegacySecondToXml | src/main/java/de/uni_passau/fim/component/Activity.java:39-47 | a second toXml shows the same lifecycle blocks; only the component element can differ, because the first call's finalisers removed the extra keys from the global strings |
| LegacyComponents.LegacyGlobalsShownBeforeFinalize | src/main/java/de/uni_passau/fim/component/Component.java:24-30 | the component element of an activity's first toXml still lists a global string that is also an extra key, although the same call removes it from the global strings |
| LegacyComponents.LegacyComponent.constructor | src/main/java/de/uni_passau/fim/component/Activity.java:15-21 | a component of the older tree keeps its kind and name and starts with empty collections and no intent filter |
| LegacyComponents.LegacyComponent.AddStringConstant | src/main/java/de/uni_passau/fim/component/Component.java:15-18 | the constant is added to the global strings as to a set and nothing else changes |
| LegacyComponents.LegacyComponent.AddIntentFilter | src/main/java/de/uni_passau/fim/scanner/DexScanner.java:198 | the filter is appended to the receiver's filters |
| LegacyComponents.LegacyComponent.MarkAsDynamicReceiver | src/main/java/de/uni_passau/fim/component/BroadcastReceiver.java:24-26 | only the dynamic-receiver flag changes, to true |
| LegacyComponents.LegacyComponent.PutBag | src/main/java/de/uni_passau/fim/component/Activity.java:23-37 | the lists a scan collected for one lifecycle method replace that method's lists and nothing else changes |
| LegacyComponents.LegacyComponent.Finalize | src/main/java/de/uni_passau/fim/component/Activity.java:88-138 | the component's new state is the old one with that lifecycle method finalised |
| LegacyComponents.LegacyComponent.FinalizeMethods | src/main/java/de/uni_passau/fim/component/BroadcastReceiver.java:63-65 | the component's new state is the old one with every finaliser of its kind run |
| LegacyComponents.LegacyComponent.ComponentToXml | src/main/java/de/uni_passau/fim/component/Component.java:24-43 | the `component` element of the name around the global block |
| LegacyComponents.LegacyComponent.SlotToXml | src/main/java/de/uni_passau/fim/component/Activity.java:49-81 | the method's finaliser runs first and the block shows the finalised lists |
| LegacyComponents.LegacyComponent.ToXml | src/main/java/de/uni_passau/fim/component/Component.java:24-30 | the markup of the component's kind for its state before the call: an activity or receiver writes its tag, the component element and its lifecycle blocks; afterwards the component is finalised as finalizeMethods would leave it |
| LegacyComponents.LegacyComponent.ActivityToXml | src/main/java/de/uni_passau/fim/component/Activity.java:39-47 | the older activity markup of the state before the call; afterwards both activity finalisers have run |
| LegacyComponents.LegacyComponent.ReceiverToXml | src/main/java/de/uni_passau/fim/component/BroadcastReceiver.java:36-44 | the older receiver markup with its dynamic flag; afterwards onReceive is finalised |
| ComponentUtils.PassClimbs | src/main/java/de/uni_passau/fim/auermich/android_analysis/utility/ComponentUtils.java:90-95 | when the superclass chains have no cycle, a pass of the inner loop either leaves the superclass unchanged (and the walk stops) or climbs to a strictly higher ancestor or to the end of the chain, so the while loop terminates |
| ComponentUtils.ExtendsOneOf | src/main/java/de/uni_passau/fim/auermich/android_analysis/utility/ComponentUtils.java:75-99 | the while loop computes the walk up the superclass chain; a direct superclass in the target set always answers true, and a class with no superclass or with `Ljava/lang/Object;` as its superclass answers false |
| ComponentUtils.IsActivity | src/main/java/de/uni_passau/fim/auermich/android_analysis/utility/ComponentUtils.java:75-99 | true exactly when the walk from the class's superclass meets one of the activity base classes |
| ComponentUtils.IsFragment | src/main/java/de/uni_passau/fim/auermich/android_analysis/utility/ComponentUtils.java:109-133 | true exactly when the walk from the class's superclass meets one of the fragment base classes |
| ComponentUtils.IsService | src/main/java/de/uni_passau/fim/auermich/android_analysis/utility/ComponentUtils.java:143-167 | true exactly when the walk from the class's superclass meets one of the service base classes |
| ComponentUtils.IsBroadcastReceiver | src/main/java/de/uni_passau/fim/auermich/android_analysis/utility/ComponentUtils.java:177-201 | true exactly when the walk from the class's superclass meets one of the broadcast receiver base classes |
| ComponentUtils.IsAbstractClass | src/main/java/de/uni_passau/fim/auermich/android_analysis/utility/ComponentUtils.java:209-212 | true exactly when the ABSTRACT bit is set among the class's access flags |
| ComponentUtils.OnePassClimbsTwoLevels | src/main/java/de/uni_passau/fim/auermich/android_analysis/utility/ComponentUtils.java:90-95 | with a subclass listed before its superclass, a single pass of the inner loop climbs two levels at once |
| ComponentUtils.SkippedAncestorNotTested | src/main/java/de/uni_passau/fim/auermich/android_analysis/utility/ComponentUtils.java:82-96 | only the superclass at the top of an iteration is tested against the base classes, so a base class that one pass climbs over is never seen: the walk answers false for a fragment whose chain passes through `Landroidx/fragment/app/Fragment;` |
| LegacyUtility.DottedClassName | src/main/java/de/uni_passau/fim/utility/Utility.java:64-68 | fails (a `substring` exception) exactly when there is no `;` or the first `;` comes before the character after the first `L`; a result has no `/` and no `;` |
| LegacyUtility.AgreesOnClassDescriptors | src/main/java/de/uni_passau/fim/utility/Utility.java:64-68 | on a descriptor starting with `L` the older and the current dottedClassName give the same result |
| LegacyUtility.DropsArrayBrackets | src/main/java/de/uni_passau/fim/utility/Utility.java:64-68 | on an array of a class type the older tree returns the element's class name without the `[` that the current tree keeps |
| LegacyUtility.IsActivity | src/main/java/de/uni_passau/fim/utility/Utility.java:79-106 | true exactly when the walk from the class's superclass meets one of the four activity classes the older tree knows |
| LegacyUtility.IsService | src/main/java/de/uni_passau/fim/utility/Utility.java:116-141 | true exactly when the walk from the class's superclass meets one of the service classes the older tree knows |
| LegacyUtility.IsBroadcastReceiver | src/main/java/de/uni_passau/fim/utility/Utility.java:151-178 | true exactly when the walk from the class's superclass meets one of the receiver classes the older tree knows |
| LegacyUtility.WalkMonotone | src/main/java/de/uni_passau/fim/utility/Utility.java:86-104 | a walk that succeeds against some base classes succeeds against any larger set of them |
| LegacyUtility.CurrentTreeAcceptsLegacyKinds | src/main/java/de/uni_passau/fim/auermich/android_analysis/utility/ComponentUtils.java:23-61 | every class the older tree takes for an activity or service the current tree takes for one too, and both trees agree on broadcast receivers |
| DynamicReceivers.IndexOfName | src/main/java/de/uni_passau/fim/auermich/android_analysis/scanner/DexScanner.java:389-395 | None exactly when no component has the name; otherwise the first component with that name |
| DynamicReceivers.BacktrackReceiver | src/main/java/de/uni_passau/fim/auermich/android_analysis/scanner/DexScanner.java:366-401 | an answer is always a position in the component list |
| DynamicReceivers.BacktrackReceiverSpec | src/main/java/de/uni_passau/fim/auermich/android_analysis/scanner/DexScanner.java:366-401 | an answered component is the first with its name, and some new-instance into the register at or before the start index has that dotted type |
| DynamicReceivers.BacktrackReceiverNamed | src/main/java/de/uni_passau/fim/auermich/android_analysis/scanner/DexScanner.java:377-396 | a component whose name no new-instance before the start index carries is never answered |
| DynamicReceivers.BacktrackStringConstantSourced | src/main/java/de/uni_passau/fim/auermich/android_analysis/scanner/DexScanner.java:334-355 | a string the backtracking finds is the literal of some const-string at or before the start index |
| DynamicReceivers.FilterFromSpec | src/main/java/de/uni_passau/fim/auermich/android_analysis/scanner/DexScanner.java:166-323 | the rebuilt filter never gains a category (an addCategory reference is compared with a String and never matches), and each action it gains is the literal of a const-string before the registerReceiver call |
| DynamicReceivers.Hits | src/main/java/de/uni_passau/fim/auermich/android_analysis/scanner/DexScanner.java:95-154 | every hit of a method's registerReceiver calls names a listed component that is a BroadcastReceiver; a call whose backtracked component is of another kind yields none |
| DynamicReceivers.FlattenAppend | src/main/java/de/uni_passau/fim/auermich/android_analysis/scanner/DexScanner.java:63-78 | the hits of two class lists scanned one after the other are the first list's hits followed by the second's |
| DynamicReceivers.RegisteredSpec | src/main/java/de/uni_passau/fim/auermich/android_analysis/scanner/DexScanner.java:144-151 | a component gains exactly the filters of the hits on it, one per hit and in order, and is dynamic afterwards exactly when it was before or some hit names it; nothing else of it changes |
| DynamicReceivers.RegisteredUnnamed | src/main/java/de/uni_passau/fim/auermich/android_analysis/scanner/DexScanner.java:144-151 | a component that no hit names is left as it was |
| DynamicReceivers.NonReceiverUntouched | src/main/java/de/uni_passau/fim/auermich/android_analysis/scanner/DexScanner.java:141-151 | the dynamic receiver pass leaves every activity, service, fragment and alias of the roster as it was; only receivers are marked and given filters |
| DynamicReceivers.RegisteredSnoc | src/main/java/de/uni_passau/fim/auermich/android_analysis/scanner/DexScanner.java:144-151 | one more hit changes only the component it names: that one becomes dynamic and gains the hit's filter |
| DynamicReceivers.RegisteredAppend | src/main/java/de/uni_passau/fim/auermich/android_analysis/scanner/DexScanner.java:59-79 | applying two runs of hits one after the other is applying their concatenation |
| Slicer.GetExtraKeySkip | src/main/java/de/uni_passau/fim/auermich/android_analysis/scanner/DexScanner.java:849-886 | instructions that do not write the tracked register are stepped over without changing the answer |
| Slicer.GetExtraKeyOrigin | src/main/java/de/uni_passau/fim/auermich/android_analysis/scanner/DexScanner.java:849-886 | a key that is found is either the literal of a string constant or the class-variable table's entry for a field that is read, at some position before the accessor call |
| Slicer.GetExtraKeyPrefix | src/main/java/de/uni_passau/fim/auermich/android_analysis/scanner/DexScanner.java:849-886 | the walk reads only the instructions before the accessor call |
| Slicer.GetExtraKeyNearestWrite | src/main/java/de/uni_passau/fim/auermich/android_analysis/scanner/DexScanner.java:849-886 | the nearest write to the register decides: a string constant gives its literal, a field read gives the table's entry or nothing, a move continues from its source register |
| Slicer.IsIntentBundleSkip | src/main/java/de/uni_passau/fim/auermich/android_analysis/scanner/DexScanner.java:794-835 | instructions that do not write the register are stepped over without changing the answer |
| Slicer.IsIntentBundleWitness | src/main/java/de/uni_passau/fim/auermich/android_analysis/scanner/DexScanner.java:794-835 | a bundle is recognised only behind a call of Intent.getExtras whose result was moved into a register |
| Slicer.IsIntentBundleAtResult | src/main/java/de/uni_passau/fim/auermich/android_analysis/scanner/DexScanner.java:794-835 | the nearest move-result into the register settles the answer: true behind getExtras, false when no invoke-virtual precedes it, and otherwise the walk goes on before the call |
| Slicer.BacktrackStringConstantFinds | src/main/java/de/uni_passau/fim/auermich/android_analysis/scanner/DexScanner.java:334-355 | something is found exactly when some non-jumbo const-string at or before the start index writes the register |
| Slicer.BacktrackStringConstantNearest | src/main/java/de/uni_passau/fim/auermich/android_analysis/scanner/DexScanner.java:334-355 | what is found is the literal of the nearest such const-string |
| Slicer.StringUsedForOwnIntentsIff | src/main/java/de/uni_passau/fim/auermich/android_analysis/scanner/DexScanner.java:741-783 | the lookahead answers true exactly when, after the constant, an invoke-virtual on Intent or Bundle passes the register and every instruction before it is a constant load or a getter that does not pass it |
| Slicer.LookaheadDecides | src/main/java/de/uni_passau/fim/auermich/android_analysis/scanner/DexScanner.java:748-757 | an invoke-virtual passing the register decides the lookahead by its defining class |
| Slicer.LookaheadStops | src/main/java/de/uni_passau/fim/auermich/android_analysis/scanner/DexScanner.java:758-764 | an instruction that neither decides nor is a constant load or getter ends the lookahead with false |
| Slicer.LookaheadPasses | src/main/java/de/uni_passau/fim/auermich/android_analysis/scanner/DexScanner.java:758-764 | a constant load or getter that does not decide is stepped over |
| Slicer.ConstAndGetPass | src/main/java/de/uni_passau/fim/auermich/android_analysis/scanner/DexScanner.java:758-764 | string constants and field reads never end the lookahead, whatever register they use |
| Slicer.ArrayListSuffix | src/main/java/de/uni_passau/fim/auermich/android_analysis/scanner/DexScanner.java:683-694 | a type ending in `ArrayList` has every `ArrayList` replaced by `<>` and so ends in `<>` |
| Slicer.ArraySuffix | src/main/java/de/uni_passau/fim/auermich/android_analysis/scanner/DexScanner.java:683-694 | a type ending in `Array` but not `ArrayList` has every `Array` replaced by `[]` and so ends in `[]` |
| Slicer.ConvertElementType | src/main/java/de/uni_passau/fim/auermich/android_analysis/scanner/DexScanner.java:683-694 | the element type in front of the suffix is kept when it does not mention `Array` |
| Slicer.ConvertExtraTypeIdempotent | src/main/java/de/uni_passau/fim/auermich/android_analysis/scanner/DexScanner.java:683-694 | a converted type no longer ends in `Array` or `ArrayList`, so converting it again changes nothing |
| Slicer.IntentAccessorLength | src/main/java/de/uni_passau/fim/auermich/android_analysis/scanner/DexScanner.java:623-631 | an Intent accessor's name holds `get` and `Extra` apart (or is `hasExtra`), so the `substring(3, length - 5)` of the source never fails |
| Slicer.GetExtraApart | src/main/java/de/uni_passau/fim/auermich/android_analysis/scanner/DexScanner.java:625-626 | occurrences of `get` and `Extra` in one name never overlap |
| Slicer.IntentExtraTypeOf | src/main/java/de/uni_passau/fim/auermich/android_analysis/scanner/DexScanner.java:631 | the type of `get<T>Extra` is `T`; `hasExtra` gives the empty type |
| Slicer.BundleAccessorLength | src/main/java/de/uni_passau/fim/auermich/android_analysis/scanner/DexScanner.java:639-646 | a Bundle accessor's name is at least three characters long, so `substring(3)` never fails |
| Slicer.StoresKeys | src/main/java/de/uni_passau/fim/auermich/android_analysis/scanner/DexScanner.java:913-943 | a field has an entry in a constructor's table exactly when some non-empty string constant is stored straight into it |
| Slicer.StoresLast | src/main/java/de/uni_passau/fim/auermich/android_analysis/scanner/DexScanner.java:913-943 | a field's entry is the last string constant stored into it: a later put overwrites |
| Slicer.ClassTableKeys | src/main/java/de/uni_passau/fim/auermich/android_analysis/scanner/DexScanner.java:558-569 | only fields that some constructor or static initialiser stores a string constant into get an entry in the class table |
| Slicer.LookupConstructor | src/main/java/de/uni_passau/fim/auermich/android_analysis/scanner/DexScanner.java:913-943 | the loop builds the constructor's table of fields and the string constants stored into them |
| Slicer.LookupConstructorsForVariables | src/main/java/de/uni_passau/fim/auermich/android_analysis/scanner/DexScanner.java:558-569 | the loop merges the tables of all initialisers in method order, a later entry for a field winning |
| LifecycleScan.FoundClassWellFormed | src/main/java/de/uni_passau/fim/auermich/android_analysis/scanner/DexScanner.java:606-614 | a class the call-following finds is one of the dex files' classes, so its initialisers can be read |
| LifecycleScan.AddExtra | src/main/java/de/uni_passau/fim/auermich/android_analysis/scanner/DexScanner.java:633-636 | an extra is recorded, at the end of the list, only when a key was resolved; the strings are untouched |
| LifecycleScan.CallTarget | src/main/java/de/uni_passau/fim/auermich/android_analysis/scanner/DexScanner.java:600-608 | a call is followed only when it takes an Intent, and what it leads to is one of the dex files' classes |
| LifecycleScan.ScanMethodGrows | src/main/java/de/uni_passau/fim/auermich/android_analysis/scanner/DexScanner.java:580-673 | scanning a method keeps the lists it was given as prefixes, keeps the strings a set and never collects the empty string |
| LifecycleScan.ScanFromGrows | src/main/java/de/uni_passau/fim/auermich/android_analysis/scanner/DexScanner.java:589-671 | the instruction loop from any position only adds |
| LifecycleScan.CallStepGrows | src/main/java/de/uni_passau/fim/auermich/android_analysis/scanner/DexScanner.java:600-620 | following a call into another method only adds |
| LifecycleScan.AccessorStepGrows | src/main/java/de/uni_passau/fim/auermich/android_analysis/scanner/DexScanner.java:622-656 | an Intent or Bundle accessor adds at most one extra and no string |
| LifecycleScan.StepGrows | src/main/java/de/uni_passau/fim/auermich/android_analysis/scanner/DexScanner.java:591-670 | one instruction of the loop only adds |
| LifecycleScan.GetStringExtraExample | src/main/java/de/uni_passau/fim/auermich/android_analysis/scanner/DexScanner.java:580-673 | `const-string v0, "user"` followed by `Intent.getStringExtra(v0)` records the extra (`user`, `String`) and does not collect `user` as a string |
| LifecycleScan.GetStringExtraSteps | src/main/java/de/uni_passau/fim/auermich/android_analysis/scanner/DexScanner.java:657-667 | the constant is kept back because an Intent call uses it next, and the call then records the extra |
| LifecycleScan.GetStringExtraAccessor | src/main/java/de/uni_passau/fim/auermich/android_analysis/scanner/DexScanner.java:623-636 | Intent.getStringExtra is an Intent accessor that takes no Intent and whose extra type is `String` |
| Scanner.Names | src/main/java/de/uni_passau/fim/auermich/android_analysis/scanner/DexScanner.java:389-391 | the names the receiver lookup compares against are the components' names, one per component and in list order |
| Scanner.FieldStrings | src/main/java/de/uni_passau/fim/auermich/android_analysis/scanner/DexScanner.java:975-994 | the strings collected from a class's fields never include the empty string |
| Scanner.FieldString | src/main/java/de/uni_passau/fim/auermich/android_analysis/scanner/DexScanner.java:954-966 | a field contributes at most one string, and one exactly when its initial value is a non-empty string |
| Scanner.FieldStringsStep | src/main/java/de/uni_passau/fim/auermich/android_analysis/scanner/DexScanner.java:954-967 | the field loop contributes field after field |
| Scanner.FieldStringsSpec | src/main/java/de/uni_passau/fim/auermich/android_analysis/scanner/DexScanner.java:975-994 | a string is collected from the fields exactly when it is non-empty and some field starts out with it |
| Scanner.SlotFor | src/main/java/de/uni_passau/fim/auermich/android_analysis/scanner/DexScanner.java:704-738 | only activities, services and receivers have lifecycle methods the scan goes into |
| Scanner.LifecycleScannedSpec | src/main/java/de/uni_passau/fim/auermich/android_analysis/scanner/DexScanner.java:540-549 | scanning one method changes at most the lists of the lifecycle method it is, which only grow; any other method leaves the component as it was |
| Scanner.WithGrownBag | src/main/java/de/uni_passau/fim/auermich/android_analysis/scanner/DexScanner.java:704-738 | storing grown lifecycle lists keeps the flags, the other collections, and the absence of duplicates |
| Scanner.IntentInfoSpec | src/main/java/de/uni_passau/fim/auermich/android_analysis/scanner/DexScanner.java:453-457 | the intent pass over a class's methods keeps the flags, the global strings and the method strings, and keeps the string collections duplicate-free |
| Scanner.StringInfoSpec | src/main/java/de/uni_passau/fim/auermich/android_analysis/scanner/DexScanner.java:458-471 | the string pass only adds, to the method strings and the onCreate extras, and leaves every other part of the component as it was |
| Scanner.ExtractedSpec | src/main/java/de/uni_passau/fim/auermich/android_analysis/scanner/DexScanner.java:421-474 | a fragment in the intent pass, or a service or receiver in the string pass, is left alone; any other component gains its class's field strings as global strings and keeps its flags |
| Scanner.StaticStringsHoldFieldStrings | src/main/java/de/uni_passau/fim/auermich/android_analysis/scanner/DexScanner.java:481-492 | after extractStringConstants an activity's static strings hold every non-empty string that a field of its class starts out with |
| Scanner.FoundInSpec | src/main/java/de/uni_passau/fim/auermich/android_analysis/scanner/DexScanner.java:513-528 | a class is found as a component of some kind exactly when it is one of the dex file's classes, is neither excluded nor (unless all classes are resolved) outside the package, and findComponent gives it that kind |
| Scanner.EntrySpec | src/main/java/de/uni_passau/fim/auermich/android_analysis/scanner/DexScanner.java:515-527 | one class contributes an entry exactly when it is not skipped and is classified |
| Scanner.FoundInStep | src/main/java/de/uni_passau/fim/auermich/android_analysis/scanner/DexScanner.java:513-528 | one class further, that class's entry, if any, comes after those found so far |
| Scanner.DescribesStep | src/main/java/de/uni_passau/fim/auermich/android_analysis/scanner/DexScanner.java:523-527 | after the loop body for one class, the accumulated components still match, one by one, the kinds and classes found so far |
| Scanner.DescribesAppend | src/main/java/de/uni_passau/fim/auermich/android_analysis/scanner/DexScanner.java:509-529 | the components of two dex files, one after the other, match the entries found in both |
| Scanner.FoundStep | src/main/java/de/uni_passau/fim/auermich/android_analysis/scanner/DexScanner.java:509-529 | one dex file further, that file's entries come after those of the files before it |
| Scanner.ListedAppend | src/main/java/de/uni_passau/fim/auermich/android_analysis/scanner/DexScanner.java:509-529 | two rosters without a shared component, one after the other, form a roster of the concatenated findings |
| Scanner.DexScanner.constructor | src/main/java/de/uni_passau/fim/auermich/android_analysis/scanner/DexScanner.java:50-52 | a scanner starts with its dex files, no cached class tables and no collected strings |
| Scanner.DexScanner.ScanComponentMethod | src/main/java/de/uni_passau/fim/auermich/android_analysis/scanner/DexScanner.java:580-673 | the extras and strings after the scan of a method are those of the scan specification, and the cached class tables stay correct |
| Scanner.DexScanner.FollowCall | src/main/java/de/uni_passau/fim/auermich/android_analysis/scanner/DexScanner.java:600-620 | a call that takes an Intent is scanned in the method it names, with that class's table (computed and cached on first use) |
| Scanner.DexScanner.ResolveCall | src/main/java/de/uni_passau/fim/auermich/android_analysis/scanner/DexScanner.java:603-608 | the method and class a call leads to, searched by its signature and by the class before `->` |
| Scanner.DexScanner.ReadAccessor | src/main/java/de/uni_passau/fim/auermich/android_analysis/scanner/DexScanner.java:622-656 | an Intent getter, or a Bundle getter on the intent's extras, records the extra it reads |
| Scanner.DexScanner.BacktrackIntentFilterInto | src/main/java/de/uni_passau/fim/auermich/android_analysis/scanner/DexScanner.java:166-323 | the receiver gains exactly one filter, rebuilt from the calls before the registerReceiver call, and nothing else of it changes |
| Scanner.DexScanner.ScanMethodForDynamicBroadcastReceiver | src/main/java/de/uni_passau/fim/auermich/android_analysis/scanner/DexScanner.java:87-156 | every component ends as the method's registerReceiver hits on it leave it: a receiver is marked dynamic and given one filter per hit, and a component of any other kind is left as it was |
| Scanner.DexScanner.ScanInstruction | src/main/java/de/uni_passau/fim/auermich/android_analysis/scanner/DexScanner.java:97-152 | one more instruction adds the hit of its registerReceiver call, if it is one and its backtracked component is a receiver |
| Scanner.DexScanner.MarkReceiver | src/main/java/de/uni_passau/fim/auermich/android_analysis/scanner/DexScanner.java:144-151 | the found receiver, which must be a BroadcastReceiver, is marked dynamic and gains the backtracked filter; every other component is untouched |
| Scanner.DexScanner.LookUpDynamicBroadcastReceivers | src/main/java/de/uni_passau/fim/auermich/android_analysis/scanner/DexScanner.java:59-79 | every component ends as the registerReceiver hits of all methods of all non-excluded classes leave it; only receivers are ever hit |
| Scanner.DexScanner.ScanClassesForDynamicBroadcastReceivers | src/main/java/de/uni_passau/fim/auermich/android_analysis/scanner/DexScanner.java:66-77 | the classes of one dex file contribute their hits in order |
| Scanner.DexScanner.ScanClassForDynamicBroadcastReceivers | src/main/java/de/uni_passau/fim/auermich/android_analysis/scanner/DexScanner.java:66-77 | an excluded class contributes nothing; otherwise each of its methods contributes its hits in order |
| Scanner.DexScanner.LookupStringConstants | src/main/java/de/uni_passau/fim/auermich/android_analysis/scanner/DexScanner.java:951-968 | every non-empty string field value is added to the component's global strings and to the scanner's strings, both as sets; nothing else changes |
| Scanner.DexScanner.AddFieldString | src/main/java/de/uni_passau/fim/auermich/android_analysis/scanner/DexScanner.java:956-966 | one field's non-empty string value is added to both sets |
| Scanner.DexScanner.FindComponent | src/main/java/de/uni_passau/fim/auermich/android_analysis/scanner/DexScanner.java:1005-1018 | no component exactly when the class is none of the four kinds; otherwise a new component of the first kind that matches, in the order activity, service, receiver, fragment, named after the class |
| Scanner.DexScanner.LookUpClass | src/main/java/de/uni_passau/fim/auermich/android_analysis/scanner/DexScanner.java:513-528 | a skipped class yields nothing, and any other class the new component findComponent makes of it |
| Scanner.DexScanner.AddClass | src/main/java/de/uni_passau/fim/auermich/android_analysis/scanner/DexScanner.java:513-528 | the component made of class `ci`, if any, joins the roster, which still lists what was found so far |
| Scanner.DexScanner.LookUpComponents | src/main/java/de/uni_passau/fim/auermich/android_analysis/scanner/DexScanner.java:502-531 | the returned components match, one by one and in order, the kinds and classes found in the dex files; they are distinct, new and start empty |
| Scanner.DexScanner.AddDexFile | src/main/java/de/uni_passau/fim/auermich/android_analysis/scanner/DexScanner.java:509-529 | the components of dex file `fi` join the roster after those already found |
| Scanner.DexScanner.LookUpComponentsIn | src/main/java/de/uni_passau/fim/auermich/android_analysis/scanner/DexScanner.java:511-528 | the components of one dex file, classified against that file's classes |
| Scanner.DexScanner.ScanLifecycleMethod | src/main/java/de/uni_passau/fim/auermich/android_analysis/scanner/DexScanner.java:540-549 | the component's new state is the lifecycle scan of the method, which changes only that method's lists |
| Scanner.DexScanner.ScanMethodStrings | src/main/java/de/uni_passau/fim/auermich/android_analysis/scanner/DexScanner.java:459-471 | the component's new state is the string scan of the method, into its method strings and its onCreate extras |
| Scanner.DexScanner.ExtractComponent | src/main/java/de/uni_passau/fim/auermich/android_analysis/scanner/DexScanner.java:437-472 | the component ends as the extraction specification says, and the scanner's strings gain its field strings when the pass works on its kind |
| Scanner.DexScanner.ScanIntentInfo | src/main/java/de/uni_passau/fim/auermich/android_analysis/scanner/DexScanner.java:453-457 | the component's new state is the intent pass over its class's methods |
| Scanner.DexScanner.ScanStringInfo | src/main/java/de/uni_passau/fim/auermich/android_analysis/scanner/DexScanner.java:458-471 | the component's new state is the string pass over its class's methods |
| Scanner.DexScanner.ExtractInfo | src/main/java/de/uni_passau/fim/auermich/android_analysis/scanner/DexScanner.java:421-474 | every component ends as the extraction specification says for its kind and class, and the scanner's strings gain the field strings of the components the pass works on |
| Scanner.DexScanner.ExtractAt | src/main/java/de/uni_passau/fim/auermich/android_analysis/scanner/DexScanner.java:423-473 | one round of the loop extracts component `i` and keeps the others as they were |
| Scanner.DexScanner.ExtractIntentInfo | src/main/java/de/uni_passau/fim/auermich/android_analysis/scanner/DexScanner.java:409-411 | every component ends as the intent pass leaves it |
| Scanner.DexScanner.ExtractStringConstants | src/main/java/de/uni_passau/fim/auermich/android_analysis/scanner/DexScanner.java:481-492 | every component ends as the string pass leaves it, and then an activity or fragment adds its method strings and global strings to its static strings |
| Scanner.DexScanner.AddStaticStringsAll | src/main/java/de/uni_passau/fim/auermich/android_analysis/scanner/DexScanner.java:483-491 | each activity and fragment adds its method strings and global strings to its static strings; services and receivers stay as they were |
| Scanner.DexScanner.AddStaticStringsOf | src/main/java/de/uni_passau/fim/auermich/android_analysis/scanner/DexScanner.java:484-490 | an activity or fragment adds its method strings, then its global strings, to its static strings |
| LegacyScanner.DeriveMethodSignature | src/main/java/de/uni_passau/fim/scanner/DexScanner.java:405-425 | the StringBuilder writes exactly the text of Method.toString, so the older and the current signatures coincide |
| LegacyScanner.TriggerNarrower | src/main/java/de/uni_passau/fim/scanner/DexScanner.java:87-95 | every call the older scanner treats as a registerReceiver call, the current scanner treats as one too |
| LegacyScanner.FlagsOverloadMissed | src/main/java/de/uni_passau/fim/scanner/DexScanner.java:93-95 | Context.registerReceiver with a flags argument is recognised by the current scanner only |
| LegacyScanner.BacktrackReceiverFinds | src/main/java/de/uni_passau/fim/scanner/DexScanner.java:241-267 | a name that is found is the dotted type of the nearest new-instance into the register at or before the start index |
| LegacyScanner.BacktrackReceiverNearest | src/main/java/de/uni_passau/fim/scanner/DexScanner.java:241-267 | the nearest new-instance into the register is the one answered |
| LegacyScanner.SameReceiverAsCurrent | src/main/java/de/uni_passau/fim/scanner/DexScanner.java:118-130 | when the nearest new-instance creates a class of the component list, the older and the current scanner pick the component of the same name |
| LegacyScanner.FilterFromAsCurrent | src/main/java/de/uni_passau/fim/scanner/DexScanner.java:157-199 | without IntentFilter(String) constructor calls, the older filter's non-null actions are the current filter's actions in the same order, it stays duplicate-free, and neither gains a category |
| LegacyScanner.FilterAsCurrent | src/main/java/de/uni_passau/fim/scanner/DexScanner.java:157-199 | the same comparison for the filter built for a registerReceiver call |
| LegacyScanner.FilterFromKeeps | src/main/java/de/uni_passau/fim/scanner/DexScanner.java:161-196 | backtracking only adds actions to the filter it starts from |
| LegacyScanner.NullActionKept | src/main/java/de/uni_passau/fim/scanner/DexScanner.java:186-191 | an addAction on the filter register whose string the backtracking cannot find leaves a null action in the older filter |
| LegacyScanner.Names | src/main/java/de/uni_passau/fim/scanner/DexScanner.java:123-125 | the names compared against are the components' names, one per component and in list order |
| LegacyScanner.RosterReceiver | src/main/java/de/uni_passau/fim/scanner/DexScanner.java:120-133 | the component that takes the place of the fabricated receiver is the first with its name, and only when that one is a receiver; a name no component has gives none |
| LegacyScanner.StepHits | src/main/java/de/uni_passau/fim/scanner/DexScanner.java:87-138 | an instruction contributes at most one hit, and a hit names a listed component |
| LegacyScanner.Hits | src/main/java/de/uni_passau/fim/scanner/DexScanner.java:82-145 | every hit of a method names a listed component |
| LegacyScanner.MarkedSpec | src/main/java/de/uni_passau/fim/scanner/DexScanner.java:133 | a component is marked exactly when some hit reaches it |
| LegacyScanner.HitsAppend | src/main/java/de/uni_passau/fim/scanner/DexScanner.java:82-145 | two runs of hits mark what either marks and register the filters of both, in order |
| LegacyScanner.RegisteredOne | src/main/java/de/uni_passau/fim/scanner/DexScanner.java:132-136 | one hit marks its component and appends its filter; every other component is untouched |
| LegacyScanner.RegisteredTrans | src/main/java/de/uni_passau/fim/scanner/DexScanner.java:82-145 | registering `a` and then `b` is registering `a + b` |
| LegacyScanner.RegisteredSeqTrans | src/main/java/de/uni_passau/fim/scanner/DexScanner.java:56-71 | for the whole component list, registering `a` and then `b` is registering `a + b` |
| LegacyScanner.RegisteredAllNone | src/main/java/de/uni_passau/fim/scanner/DexScanner.java:56-71 | no registration leaves every component as it is |
| LegacyScanner.BacktrackIntentFilterInto | src/main/java/de/uni_passau/fim/scanner/DexScanner.java:157-199 | the receiver gains exactly one filter, rebuilt from the calls before the registerReceiver call |
| LegacyScanner.MarkReceiver | src/main/java/de/uni_passau/fim/scanner/DexScanner.java:132-136 | the receiver is marked dynamic and gains the rebuilt filter |
| LegacyScanner.FindByName | src/main/java/de/uni_passau/fim/scanner/DexScanner.java:123-130 | the loop returns the first component with the receiver's name, if any |
| LegacyScanner.HandleRegisterReceiver | src/main/java/de/uni_passau/fim/scanner/DexScanner.java:114-137 | a registerReceiver call leaves the component list as its hit, if any, registers it |
| LegacyScanner.States | src/main/java/de/uni_passau/fim/scanner/DexScanner.java:52-72 | the abstract states of the components, one per component and in list order |
| LegacyScanner.FilterLists | src/main/java/de/uni_passau/fim/scanner/DexScanner.java:52-72 | the intent filters of the components, one list per component and in list order |
| LegacyScanner.ScanMethodForDynamicBroadcastReceiver | src/main/java/de/uni_passau/fim/scanner/DexScanner.java:74-147 | every component ends as the method's registerReceiver hits leave it |
| LegacyScanner.ScanInstruction | src/main/java/de/uni_passau/fim/scanner/DexScanner.java:84-144 | one instruction registers its hit, if any |
| LegacyScanner.ScanClassForDynamicBroadcastReceivers | src/main/java/de/uni_passau/fim/scanner/DexScanner.java:59-70 | an excluded class changes nothing; otherwise its methods register their hits in order |
| LegacyScanner.ScanMethodAt | src/main/java/de/uni_passau/fim/scanner/DexScanner.java:67-69 | one method of the class registers its hits after those of the methods before it |
| LegacyScanner.ScanClassesForDynamicBroadcastReceivers | src/main/java/de/uni_passau/fim/scanner/DexScanner.java:57-70 | the classes of one dex file register their hits in order |
| LegacyScanner.LookUpDynamicBroadcastReceivers | src/main/java/de/uni_passau/fim/scanner/DexScanner.java:52-72 | every component ends as the registerReceiver hits of all methods of all non-excluded classes leave it |
| LegacyScanner.RegisteredSpec | src/main/java/de/uni_passau/fim/scanner/DexScanner.java:132-136 | after the pass a component is dynamic exactly when it was before or a hit reached it, it has gained one filter per such hit, and its global strings and onReceive lists are unchanged |
| LegacyScanner.UnknownReceiverLeavesRoster | src/main/java/de/uni_passau/fim/scanner/DexScanner.java:118-137 | a registerReceiver call whose new-instance names no listed component changes no listed component: only the fabricated receiver is marked |
| LegacyScanner.ScannedAll | src/main/java/de/uni_passau/fim/scanner/DexScanner.java:295-320 | one scanned state per found class |
| LegacyScanner.ScannedAllAt | src/main/java/de/uni_passau/fim/scanner/DexScanner.java:295-320 | the k-th state is the k-th found class scanned |
| LegacyScanner.BuildsAt | src/main/java/de/uni_passau/fim/scanner/DexScanner.java:295-320 | each component of the result is built from the class found at the same place |
| LegacyScanner.InsertAllAppend | src/main/java/de/uni_passau/fim/scanner/DexScanner.java:830-847 | adding two lists of strings one after the other is adding their concatenation |
| LegacyScanner.FoundStringsAppend | src/main/java/de/uni_passau/fim/scanner/DexScanner.java:283-322 | the field strings of two runs of found classes are those of the first followed by those of the second |
| LegacyScanner.ScannedAsCurrent | src/main/java/de/uni_passau/fim/scanner/DexScanner.java:295-320 | the older lookUpComponents leaves a component as the current intent pass of extractInfo leaves a new component of the same class, and its string collections are duplicate-free |
| LegacyScanner.FindComponent | src/main/java/de/uni_passau/fim/scanner/DexScanner.java:884-897 | no component exactly when the class is none of the three kinds the older tree knows; otherwise a new component of the first kind that matches, named by the older dotted name, with no intent filter |
| LegacyScanner.LookupStringConstants | src/main/java/de/uni_passau/fim/scanner/DexScanner.java:830-847 | every non-empty string field value is added to the component's global strings and to the scanner's strings, both as sets |
| LegacyScanner.ScanMethod | src/main/java/de/uni_passau/fim/scanner/DexScanner.java:333-342 | the component's new state is the lifecycle scan of the method |
| LegacyScanner.ScanComponentClass | src/main/java/de/uni_passau/fim/scanner/DexScanner.java:300-319 | a found component is scanned as soon as it is found: its class's table is cached, its field strings read and its methods scanned |
| LegacyScanner.LookUpComponents | src/main/java/de/uni_passau/fim/scanner/DexScanner.java:275-324 | the returned components are built, one by one and in order, from the classes found in the dex files; they are distinct; the scanner's strings gain the field strings of every found class |
| LegacyScanner.FoundInStep | src/main/java/de/uni_passau/fim/scanner/DexScanner.java:287-321 | one class further, that class's entry, if any, comes after those found so far |
| LegacyScanner.FoundStep | src/main/java/de/uni_passau/fim/scanner/DexScanner.java:283-322 | one dex file further, that file's components come after those of the files before |
| LegacyScanner.BuildsSnoc | src/main/java/de/uni_passau/fim/scanner/DexScanner.java:297-300 | appending a component built from the next found class keeps the result built from what was found |
| LegacyScanner.RosterSnoc | src/main/java/de/uni_passau/fim/scanner/DexScanner.java:297-300 | appending a new component built from the next found class keeps the result built and distinct |
| LegacyScanner.AddFieldString | src/main/java/de/uni_passau/fim/scanner/DexScanner.java:832-846 | one field's non-empty string value is added to the component's global strings and the scanner's strings |
| LegacyScanner.LookUpClass | src/main/java/de/uni_passau/fim/scanner/DexScanner.java:289-320 | an excluded class yields nothing; any other class yields the new, scanned component findComponent makes of it, if any |
| LegacyScanner.AddClass | src/main/java/de/uni_passau/fim/scanner/DexScanner.java:287-321 | the component made of the class, if any, is appended and still matches what was found so far; the scanner's strings gain its field strings |
| LegacyScanner.LookUpComponentsIn | src/main/java/de/uni_passau/fim/scanner/DexScanner.java:285-321 | the components of one dex file, classified against that file, are appended after those of the files before |
| Merge.Add | src/main/java/de/uni_passau/fim/auermich/android_analysis/Main.java:169 | adding to the set makes the component present; one equal to a present element is not added, any other is added at the end |
| Merge.AddNoEqualPair | src/main/java/de/uni_passau/fim/auermich/android_analysis/Main.java:163-196 | adding keeps the set free of equal pairs |
| Merge.IndexOf | src/main/java/de/uni_passau/fim/auermich/android_analysis/Main.java:173 | the position of the first element equal to the component, and none exactly when no element is equal |
| Merge.CodeMatch | src/main/java/de/uni_passau/fim/auermich/android_analysis/Main.java:167-184 | a manifest entry other than an alias stands for the code component equal to it, if there is one; an alias stands for none |
| Merge.FromManifestSnoc | src/main/java/de/uni_passau/fim/auermich/android_analysis/Main.java:165-189 | one more manifest entry: an alias is added, any other entry adds its code component or nothing |
| Merge.FilterSpec | src/main/java/de/uni_passau/fim/auermich/android_analysis/Main.java:198-201 | the filter keeps exactly the aliases and the components whose class is not abstract, keeps the set free of equal pairs, and invents nothing |
| Merge.FilterMembers | src/main/java/de/uni_passau/fim/auermich/android_analysis/Main.java:200 | an element is kept exactly when it passes the filter's test |
| Merge.FilterNoEqualPair | src/main/java/de/uni_passau/fim/auermich/android_analysis/Main.java:198-201 | filtering keeps the result free of equal pairs |
| Merge.FromManifestOrigin | src/main/java/de/uni_passau/fim/auermich/android_analysis/Main.java:165-189 | the first loop adds only manifest aliases and code components, never two equal ones |
| Merge.FromCodeOrigin | src/main/java/de/uni_passau/fim/auermich/android_analysis/Main.java:192-196 | the second loop adds only code components, never two equal ones, keeps what was present, and leaves every code component present |
| Merge.FromManifestKeeps | src/main/java/de/uni_passau/fim/auermich/android_analysis/Main.java:165-189 | an element present after some manifest entries stays present after all of them |
| Merge.AliasesIncluded | src/main/java/de/uni_passau/fim/auermich/android_analysis/Main.java:167-170 | every manifest alias is in the result (it, or an equal alias added before it) |
| Merge.CodeComponentIncluded | src/main/java/de/uni_passau/fim/auermich/android_analysis/Main.java:191-201 | a code component that no other code component equals, and whose class is not abstract, is in the result whether the manifest names it or not |
| Merge.UnmatchedDropped | src/main/java/de/uni_passau/fim/auermich/android_analysis/Main.java:185-188 | a manifest entry other than an alias with no equal code component leaves no trace in the result |
| Merge.MergedMembers | src/main/java/de/uni_passau/fim/auermich/android_analysis/Main.java:161-202 | the result holds only manifest aliases and code components whose class is not abstract, with no two equal components |
| Merge.LastMatch | src/main/java/de/uni_passau/fim/auermich/android_analysis/Main.java:178-182 | the last manifest entry, other than an alias, that stands for a given code component |
| Merge.LastMatchSnoc | src/main/java/de/uni_passau/fim/auermich/android_analysis/Main.java:165-189 | one more manifest entry becomes the last match of its code component and of no other |
| Merge.CopiedStep | src/main/java/de/uni_passau/fim/auermich/android_analysis/Main.java:180-182 | one more manifest entry: its enabled and exported flags overwrite those of its code component, and the other components keep theirs |
| Merge.AddManifestComponent | src/main/java/de/uni_passau/fim/auermich/android_analysis/Main.java:167-188 | the body of the first loop adds the alias or the code component, and copies the entry's flags onto the code component it stands for |
| Merge.MergeComponents | src/main/java/de/uni_passau/fim/auermich/android_analysis/Main.java:161-202 | the result is the merge of code and manifest components, and each code component ends with the flags of the last manifest entry that stands for it, or its own when none does |
| Merge.AddManifestComponents | src/main/java/de/uni_passau/fim/auermich/android_analysis/Main.java:165-189 | the first loop yields the manifest-driven part of the set and leaves each code component with the flags of its last manifest entry |
| Merge.AddCodeComponents | src/main/java/de/uni_passau/fim/auermich/android_analysis/Main.java:192-196 | the second loop adds the code components that are not yet present |
| Merge.KeepRealComponents | src/main/java/de/uni_passau/fim/auermich/android_analysis/Main.java:198-201 | the stream keeps the aliases and the components whose class is not abstract, in order |

## Left out

- File and console I/O are left out. This covers `Main.main` of both trees, the logging, the XML files `Main.generateComponentInfo`, `generateStaticIntentInfo` and `generateStaticStrings` write, `Utility.decodeAPK` (apktool) and `Utility.readExcludePatterns`. The exclusion patterns the latter reads reach the scanner as an `excluded` predicate parameter.
- `ManifestParser` and `ManifestScanner` parse the decoded `AndroidManifest.xml` with a DOM parser, which is outside this model. `Merge.MergeComponents` takes their result, the manifest components, as a parameter.
- Java's `HashSet` iteration order depends on hash codes. Every set is modelled in insertion order, as `LinkedHashSet` would keep it, so the order of elements in the XML output is not modelled for the sets that are `HashSet`s in the source.
- `scanComponentMethod` follows every call that takes an `Intent` into the method it names, with no record of the methods already visited; a recursive call chain makes it recurse until the stack overflows. The model bounds that descent by a `fuel` parameter, and a call met with no fuel left is not followed.
- The superclass walks (`isActivity` and the others) loop forever on a cyclic superclass chain. The model requires a `rank` on descriptors that decreases from a class to its superclass (`Scanner.FilesAcyclic`, `LegacyScanner.FilesOk`), so those walks are only modelled on acyclic hierarchies. The same predicates require each class descriptor to have the `L…;` shape `dottedClassName` cuts.
- `component/Service.java` of the current tree has only the constructor that takes a name and no `getType`, while `findComponent` builds a `Service` from a class definition. The model builds it like every other component and writes its XML type as `service`.
- `component/Fragment.java` never assigns `onCreateExtras`, so `getOnCreateExtras` returns `null`. The model gives a fragment an empty `onCreate` bag.
- Scanner.DexScanner.ExtractStringConstants and Scanner.DexScanner.ScanMethodStrings: for a fragment the source passes that `null` list to `scanComponentMethod` (`scanner/DexScanner.java:466-469`), so the first extra the scan records there throws `NullPointerException` at `extras.add` (`scanner/DexScanner.java:636` or `655`). The model appends the extra to the empty bag instead and goes on.
- `component/Component.java` of the older tree has no `IntentFilter` class and no `addIntentFilter`, although the older scanner calls both. The model gives the older component a list of intent filters, each a set of possibly-null actions (`LegacyComponents.ActionFilter`). The older `toXml` writes no intent-filter element, and neither does the model.
- Instructions other than the forms the scanner inspects become `Other(name)`. This includes the register-range invokes (format 3rc), which the scanner never inspects. It also includes `invoke-polymorphic` (format 45cc), which the scanner's `instanceof Instruction35c` test passes over, as the model does. And it includes `invoke-custom`: that is a 35c instruction whose reference is a call site, not a method reference, so the source's cast to `MethodReference` throws there; the model does not reproduce that exception and passes over the instruction.
- `LegacyScanner.RosterReceiver`: when the name that the older receiver pass backtracks to belongs to a component that is not a receiver, the source's cast to `BroadcastReceiver` throws a `ClassCastException`. The model leaves that call site out (no receiver is marked) instead of modelling the exception.
- The `apkPath` field of the older `DexScanner` is stored and never read; it is not modelled.
- The loops of the scanner are written as methods whose loop bodies are helper methods. Nothing in the order of the state updates is changed by that split.
- MethodUtils.SearchForTargetMethod: requires the signature not to be made of arrows only. On such a signature `split("->")[0]` throws in the source. Every caller passes the text of a method reference, which always splits (`MethodUtils.ReferenceTextSplits`).
- Merge.MergeComponents: requires every code component to carry its class definition and no manifest component object to be one of the code component objects; `lookUpComponents` and `ManifestParser` create them that way.
- LegacyScanner.LookUpComponents: does not state that the returned components are newly allocated, only what each of them holds.
- ClassUtils.DottedClassName: returns `None` where the source's `substring` would throw `StringIndexOutOfBoundsException` (a name without `L` or `;` in the expected places).
- LegacyUtility.DottedClassName: returns `None` where the source's `substring` would throw (no `L` or no `;`, or the `;` before the `L`).
- DynamicReceivers.Hits, Scanner.DexScanner.ScanInstruction, Scanner.DexScanner.ScanMethodForDynamicBroadcastReceiver and Scanner.DexScanner.LookUpDynamicBroadcastReceivers: `backtrackReceiver` answers a roster component of any kind, and the source's cast `(BroadcastReceiver) receiver` (`scanner/DexScanner.java:147`) throws `ClassCastException` when that component is an activity, a service or a fragment. The model does not model the exception; it leaves that call site out, so nothing is marked and no filter is added.
- LegacyComponents.LegacyComponent.ToXml, LegacyComponents.LegacyComponent.FinalizeMethods and LegacyComponents.LegacyFinalizeIdempotent: the older tree's `component/Service.java` is not part of this model. The older scanner fills a service's own lifecycle lists, so that class most likely has its own `toXml` and `finalizeMethods`. The model gives an older service the base class's: it writes only the `component` element, and its finalizeMethods does nothing.
- Slicer.NoTrailingString, Slicer.BodiesWellFormed and LifecycleScan.FilesWellFormed require that no method ends in a non-empty const-string. `lookupConstructor` reads the instruction after such a constant (`scanner/DexScanner.java:932`) and would throw `IndexOutOfBoundsException` there. A verifiable dex method never ends in a const-string, since its last instruction must be a return, a throw or a goto.
- Components.NameHash: Java's `String.hashCode` hashes UTF-16 code units, and the model hashes the name's Unicode characters. The two differ for names holding characters outside the Basic Multilingual Plane.

## Findings

`Components.Component.ToXml` prints a service as the source does, through the as-written member. The corrected member shows what the source evidently intended, and `Components.ServiceAsWrittenAfterFinalize` proves the two agree once finalizeMethods has run.

| source | as written | input that shows it | evidently intended | confidence | as-written member | corrected member |
|---|---|---|---|---|---|---|
| src/main/java/de/uni_passau/fim/auermich/android_analysis/component/Service.java:66-81 | `onHandleIntentToXml` calls `finalizeOnStartCommand` where `finalizeOnHandleIntent` belongs, so the `onHandleIntent` extras and strings are written without having been merged by key or stripped of key strings | an `onHandleIntent` bag whose extras are `("k", "String")` and `("k", "")` is written with both `k` entries (`Components.ServiceAsWrittenListsDuplicates`) | call `finalizeOnHandleIntent`, so that the block lists each key once, as `onStartCommandToXml` does for its own bag | not executed | Components.Component.ServiceToXmlAsWritten | Components.Component.ServiceToXml |
