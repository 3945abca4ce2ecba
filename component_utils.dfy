/**
 * ComponentUtils: classifying a class as activity, service, broadcast receiver
 * or fragment by walking up its superclass chain within the classes of one
 * dex file, and the abstract-class test.
 */
module ComponentUtils {
  import opened Wrappers
  import opened Dex

  const OBJECT := "Ljava/lang/Object;"

  const ACTIVITY_CLASSES: set<string> := {
    "Landroid/app/Activity;", "Landroidx/appcompat/app/AppCompatActivity;",
    "Landroid/support/v7/app/AppCompatActivity;", "Landroid/support/v7/app/ActionBarActivity;",
    "Landroid/support/v4/app/FragmentActivity;", "Landroid/preference/PreferenceActivity;" }

  const FRAGMENT_CLASSES: set<string> := {
    "Landroid/app/Fragment;", "Landroidx/fragment/app/Fragment;", "Landroid/support/v4/app/Fragment;",
    "Landroid/app/DialogFragment;", "Landroid/app/ListFragment;", "Landroid/preference/PreferenceFragment;",
    "Landroid/webkit/WebViewFragment;" }

  const SERVICE_CLASSES: set<string> := {
    "Landroid/app/Service;", "Landroid/app/IntentService;", "Landroid/widget/RemoteViewsService;",
    "Landroid/app/job/JobService;" }

  const BROADCAST_RECEIVER_CLASSES: set<string> := {
    "Landroid/content/BroadcastReceiver;", "Landroid/appwidget/AppWidgetProvider;" }

  /**
   * A ranking under which every listed class's superclass sits strictly
   * lower than the class itself: the superclass chains have no cycle.
   */
  predicate Acyclic(classes: seq<ClassDef>, rank: string -> nat) {
    forall c :: c in classes && c.superclass.Some? ==> rank(c.superclass.value) < rank(c.descriptor)
  }

  /**
   * One pass of the inner `for` loop over the classes in list order: every
   * class whose descriptor equals the current superclass replaces it by its
   * own superclass. The flag says whether any class matched (`abort = false`).
   */
  function Pass(classes: seq<ClassDef>, sc: Option<string>): (Option<string>, bool) {
    if classes == [] then (sc, false)
    else
      var (cur, moved) := Pass(classes[..|classes| - 1], sc);
      var last := classes[|classes| - 1];
      if cur == Some(last.descriptor) then (last.superclass, true) else (cur, moved)
  }

  /** A pass that matched has climbed: it reached a lower rank, or the end of the chain. */
  lemma {:induction false} PassClimbs(classes: seq<ClassDef>, sc: Option<string>, rank: string -> nat)
    requires Acyclic(classes, rank) && sc.Some?
    ensures var (next, moved) := Pass(classes, sc);
      (!moved ==> next == sc) && (moved ==> next.None? || rank(next.value) < rank(sc.value))
    decreases |classes|
  {
    if classes != [] {
      var init := classes[..|classes| - 1];
      assert Acyclic(init, rank) by {
        forall c | c in init ensures c in classes { }
      }
      PassClimbs(init, sc, rank);
      var last := classes[|classes| - 1];
      assert last in classes;
    }
  }

  /**
   * What the `while` loop of isActivity (and its siblings) computes from the
   * superclass `sc`: true as soon as the superclass at the top of an
   * iteration is one of `bases`; false at the end of the chain, at
   * java.lang.Object, or when no listed class has that descriptor.
   */
  ghost function Walk(classes: seq<ClassDef>, bases: set<string>, sc: Option<string>, rank: string -> nat): bool
    requires Acyclic(classes, rank)
    decreases if sc.Some? then rank(sc.value) else 0, sc.Some?
  {
    if sc.None? || sc.value == OBJECT then false
    else if sc.value in bases then true
    else
      PassClimbs(classes, sc, rank);
      var (next, moved) := Pass(classes, sc);
      if !moved then false else Walk(classes, bases, next, rank)
  }

  /**
   * The shared body of isActivity, isService, isBroadcastReceiver and
   * isFragment: the superclass chain of `currentClass` is climbed one pass
   * over `classes` at a time.
   */
  method ExtendsOneOf(classes: seq<ClassDef>, currentClass: ClassDef, bases: set<string>, ghost rank: string -> nat)
    returns (r: bool)
    requires Acyclic(classes, rank)
    ensures r == Walk(classes, bases, currentClass.superclass, rank)
    ensures (currentClass.superclass.Some? && currentClass.superclass.value in bases
             && currentClass.superclass.value != OBJECT) ==> r
    ensures currentClass.superclass.None? || currentClass.superclass == Some(OBJECT) ==> !r
  {
    ghost var goal := Walk(classes, bases, currentClass.superclass, rank);
    var superClass := currentClass.superclass;
    var abort := false;
    while !abort && superClass.Some? && superClass.value != OBJECT
      invariant if abort then !goal else Walk(classes, bases, superClass, rank) == goal
      decreases if !abort && superClass.Some? then rank(superClass.value) + 1 else 0
    {
      abort := true;
      if superClass.value in bases {
        return true;
      } else {
        ghost var start := superClass;
        PassClimbs(classes, start, rank);
        var i := 0;
        while i < |classes|
          invariant 0 <= i <= |classes|
          invariant Pass(classes[..i], start) == (superClass, !abort)
        {
          assert classes[..i + 1][..i] == classes[..i];
          if superClass == Some(classes[i].descriptor) {
            superClass := classes[i].superclass;
            abort := false;
          }
          i := i + 1;
        }
        assert classes[..i] == classes;
      }
    }
    return false;
  }

  /** ComponentUtils.isActivity. */
  method IsActivity(classes: seq<ClassDef>, currentClass: ClassDef, ghost rank: string -> nat) returns (r: bool)
    requires Acyclic(classes, rank)
    ensures r == Walk(classes, ACTIVITY_CLASSES, currentClass.superclass, rank)
  {
    r := ExtendsOneOf(classes, currentClass, ACTIVITY_CLASSES, rank);
  }

  /** ComponentUtils.isFragment. */
  method IsFragment(classes: seq<ClassDef>, currentClass: ClassDef, ghost rank: string -> nat) returns (r: bool)
    requires Acyclic(classes, rank)
    ensures r == Walk(classes, FRAGMENT_CLASSES, currentClass.superclass, rank)
  {
    r := ExtendsOneOf(classes, currentClass, FRAGMENT_CLASSES, rank);
  }

  /** ComponentUtils.isService. */
  method IsService(classes: seq<ClassDef>, currentClass: ClassDef, ghost rank: string -> nat) returns (r: bool)
    requires Acyclic(classes, rank)
    ensures r == Walk(classes, SERVICE_CLASSES, currentClass.superclass, rank)
  {
    r := ExtendsOneOf(classes, currentClass, SERVICE_CLASSES, rank);
  }

  /** ComponentUtils.isBroadcastReceiver. */
  method IsBroadcastReceiver(classes: seq<ClassDef>, currentClass: ClassDef, ghost rank: string -> nat) returns (r: bool)
    requires Acyclic(classes, rank)
    ensures r == Walk(classes, BROADCAST_RECEIVER_CLASSES, currentClass.superclass, rank)
  {
    r := ExtendsOneOf(classes, currentClass, BROADCAST_RECEIVER_CLASSES, rank);
  }

  const ABSTRACT: bv32 := 0x400

  /** ComponentUtils.isAbstractClass: the ABSTRACT access flag is among the class's flags. */
  function IsAbstractClass(c: ClassDef): (r: bool)
    ensures r <==> c.accessFlags & ABSTRACT != 0
  {
    c.accessFlags & ABSTRACT == ABSTRACT
  }

  /** A ranking read off a superclass chain listed from the subclass down: earlier entries rank higher. */
  function ChainRank(chain: seq<string>): string -> nat {
    (s: string) => if s in chain then |chain| - IndexIn(chain, s) else 0
  }

  function IndexIn(chain: seq<string>, s: string): (i: nat)
    requires s in chain
    ensures i < |chain| && chain[i] == s
  {
    if chain[0] == s then 0 else 1 + IndexIn(chain[1..], s)
  }

  /**
   * One pass climbs as many levels as the list order allows: with the
   * subclass listed before its superclass, a single pass from `LMid;` moves
   * two levels up.
   */
  lemma OnePassClimbsTwoLevels()
    ensures var mid := ClassDef("LMid;", Some("LBase;"), 0, [], []);
            var base := ClassDef("LBase;", Some("Landroid/app/Activity;"), 0, [], []);
            Pass([mid, base], Some("LMid;")) == (Some("Landroid/app/Activity;"), true)
  {
    var mid := ClassDef("LMid;", Some("LBase;"), 0, [], []);
    var base := ClassDef("LBase;", Some("Landroid/app/Activity;"), 0, [], []);
    assert [mid, base][..1] == [mid];
    assert [mid][..0] == [];
    assert Pass([mid], Some("LMid;")) == (Some("LBase;"), true);
  }

  /**
   * Because only the superclass at the top of an iteration is tested, a
   * listed class that is passed over inside one pass is never tested: a
   * class extending `LBaseFragment;`, which extends the androidx Fragment,
   * is not recognised as a fragment when the dex file lists `LBaseFragment;`
   * before the androidx Fragment class.
   */
  lemma SkippedAncestorNotTested()
    ensures var baseFragment := ClassDef("LBaseFragment;", Some("Landroidx/fragment/app/Fragment;"), 0, [], []);
            var androidx := ClassDef("Landroidx/fragment/app/Fragment;", Some(OBJECT), 0, [], []);
            var rank := ChainRank(["LBaseFragment;", "Landroidx/fragment/app/Fragment;", OBJECT]);
            Acyclic([baseFragment, androidx], rank)
            && !Walk([baseFragment, androidx], FRAGMENT_CLASSES, Some("LBaseFragment;"), rank)
  {
    var baseFragment := ClassDef("LBaseFragment;", Some("Landroidx/fragment/app/Fragment;"), 0, [], []);
    var androidx := ClassDef("Landroidx/fragment/app/Fragment;", Some(OBJECT), 0, [], []);
    var chain := ["LBaseFragment;", "Landroidx/fragment/app/Fragment;", OBJECT];
    var rank := ChainRank(chain);
    var classes := [baseFragment, androidx];
    assert IndexIn(chain, "LBaseFragment;") == 0;
    assert IndexIn(chain, "Landroidx/fragment/app/Fragment;") == 1 by {
      assert chain[1..][0] == "Landroidx/fragment/app/Fragment;";
    }
    assert IndexIn(chain, OBJECT) == 2 by {
      assert chain[1..][1..][0] == OBJECT;
    }
    assert Acyclic(classes, rank);
    assert "LBaseFragment;" !in FRAGMENT_CLASSES;
    assert classes[..1] == [baseFragment];
    assert [baseFragment][..0] == [];
    assert Pass([baseFragment], Some("LBaseFragment;")) == (Some("Landroidx/fragment/app/Fragment;"), true);
    assert Pass(classes, Some("LBaseFragment;")) == (Some(OBJECT), true);
  }
}
