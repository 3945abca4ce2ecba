/**
 * Utility of the older tree: its dottedClassName, which cuts the name out
 * between the first `L` and the first `;` whatever comes before, and its
 * isActivity, isService and isBroadcastReceiver walks, which are the walk of
 * ComponentUtils over smaller descriptor sets.
 */
module LegacyUtility {
  import opened Wrappers
  import opened Strings
  import opened Dex
  import opened ComponentUtils
  import ClassUtils

  /**
   * Utility.dottedClassName: the text after the first `L` (or from the start
   * when there is none) up to the first `;`, with `/` turned into `.`. None
   * stands for the StringIndexOutOfBoundsException of a name without `;`, or
   * whose first `;` comes before the first `L`.
   */
  function DottedClassName(className: string): (r: Option<string>)
    ensures r.None? <==> ';' !in className || IndexOf(className, 'L') + 1 > IndexOf(className, ';')
    ensures r.Some? ==> '/' !in r.value && ';' !in r.value
  {
    var begin := IndexOf(className, 'L') + 1;
    var end := IndexOf(className, ';');
    if end < 0 || begin > end then None
    else
      var cut := className[begin..end];
      assert ';' !in cut by {
        assert cut == className[..end][begin..];
      }
      ReplaceCharMembers(cut, '/', ".");
      Some(Replace(cut, "/", "."))
  }

  /** On a class descriptor `L...;` both trees compute the same name. */
  lemma AgreesOnClassDescriptors(className: string)
    requires StartsWith(className, "L")
    ensures DottedClassName(className) == ClassUtils.DottedClassName(className)
  {
    assert className[0] == 'L';
    assert IndexOf(className, 'L') == 0;
  }

  /**
   * On an array of a class type the older tree loses the `[`: the element
   * class's name comes back, where ClassUtils keeps the brackets.
   */
  lemma DropsArrayBrackets(dotted: string)
    requires '/' !in dotted && ';' !in dotted
    ensures DottedClassName("[" + ClassUtils.Descriptor(dotted)) == Some(dotted)
    ensures ClassUtils.DottedClassName("[" + ClassUtils.Descriptor(dotted)) == Some("[" + dotted)
  {
    var body := Replace(dotted, ".", "/");
    var s := "[" + ClassUtils.Descriptor(dotted);
    ReplaceCharMembers(dotted, '.', "/");
    assert s[..2] == "[L";
    ClassUtils.IndexOfAt(s, 'L', 1);
    assert s[..|body| + 2] == "[L" + body;
    ClassUtils.IndexOfAt(s, ';', |body| + 2);
    assert s[2..|body| + 2] == body;
    ReplaceCharInverse(dotted, '.', '/');
    ClassUtils.DottedArrayDescriptor(dotted);
  }

  const LEGACY_ACTIVITY_CLASSES: set<string> := {
    "Landroid/app/Activity;", "Landroid/support/v7/app/AppCompatActivity;",
    "Landroid/support/v7/app/ActionBarActivity;", "Landroid/support/v4/app/FragmentActivity;" }

  const LEGACY_SERVICE_CLASSES: set<string> := { "Landroid/app/Service;", "Landroid/app/IntentService;" }

  const LEGACY_BROADCAST_RECEIVER_CLASSES: set<string> := {
    "Landroid/content/BroadcastReceiver;", "Landroid/appwidget/AppWidgetProvider;" }

  /** Utility.isActivity. */
  method IsActivity(classes: seq<ClassDef>, currentClass: ClassDef, ghost rank: string -> nat) returns (r: bool)
    requires Acyclic(classes, rank)
    ensures r == Walk(classes, LEGACY_ACTIVITY_CLASSES, currentClass.superclass, rank)
  {
    r := ExtendsOneOf(classes, currentClass, LEGACY_ACTIVITY_CLASSES, rank);
  }

  /** Utility.isService. */
  method IsService(classes: seq<ClassDef>, currentClass: ClassDef, ghost rank: string -> nat) returns (r: bool)
    requires Acyclic(classes, rank)
    ensures r == Walk(classes, LEGACY_SERVICE_CLASSES, currentClass.superclass, rank)
  {
    r := ExtendsOneOf(classes, currentClass, LEGACY_SERVICE_CLASSES, rank);
  }

  /** Utility.isBroadcastReceiver. */
  method IsBroadcastReceiver(classes: seq<ClassDef>, currentClass: ClassDef, ghost rank: string -> nat) returns (r: bool)
    requires Acyclic(classes, rank)
    ensures r == Walk(classes, LEGACY_BROADCAST_RECEIVER_CLASSES, currentClass.superclass, rank)
  {
    r := ExtendsOneOf(classes, currentClass, LEGACY_BROADCAST_RECEIVER_CLASSES, rank);
  }

  /** A walk that succeeds against some descriptors succeeds against any larger set of them. */
  lemma {:induction false} WalkMonotone(classes: seq<ClassDef>, small: set<string>, big: set<string>, sc: Option<string>, rank: string -> nat)
    requires Acyclic(classes, rank) && small <= big && Walk(classes, small, sc, rank)
    ensures Walk(classes, big, sc, rank)
    decreases if sc.Some? then rank(sc.value) else 0, sc.Some?
  {
    if sc.Some? && sc.value != OBJECT && sc.value !in big {
      PassClimbs(classes, sc, rank);
      var (next, moved) := Pass(classes, sc);
      WalkMonotone(classes, small, big, next, rank);
    }
  }

  /**
   * Every class the older tree takes for an activity, service or broadcast
   * receiver, the current tree's walk for that kind accepts too.
   */
  lemma CurrentTreeAcceptsLegacyKinds(classes: seq<ClassDef>, c: ClassDef, rank: string -> nat)
    requires Acyclic(classes, rank)
    ensures Walk(classes, LEGACY_ACTIVITY_CLASSES, c.superclass, rank) ==> Walk(classes, ACTIVITY_CLASSES, c.superclass, rank)
    ensures Walk(classes, LEGACY_SERVICE_CLASSES, c.superclass, rank) ==> Walk(classes, SERVICE_CLASSES, c.superclass, rank)
    ensures Walk(classes, LEGACY_BROADCAST_RECEIVER_CLASSES, c.superclass, rank)
            == Walk(classes, BROADCAST_RECEIVER_CLASSES, c.superclass, rank)
  {
    if Walk(classes, LEGACY_ACTIVITY_CLASSES, c.superclass, rank) {
      WalkMonotone(classes, LEGACY_ACTIVITY_CLASSES, ACTIVITY_CLASSES, c.superclass, rank);
    }
    if Walk(classes, LEGACY_SERVICE_CLASSES, c.superclass, rank) {
      WalkMonotone(classes, LEGACY_SERVICE_CLASSES, SERVICE_CLASSES, c.superclass, rank);
    }
  }
}
