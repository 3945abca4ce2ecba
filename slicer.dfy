/**
 * The backward slices and lookaheads of the current scanner: each walks the
 * instruction list of one method from a position, following the register
 * that holds the value it is after, and stops at the first instruction that
 * settles the question. The Java loops keep an index and a register in
 * local variables; here each step of such a loop is one recursive call.
 */
module Slicer {
  import opened Wrappers
  import opened Strings
  import opened Dex

  /** The instruction writes register `reg`. */
  predicate Writes(ins: Instr, reg: int) {
    match ins
    case ConstString(_, a, _) => a == reg
    case FieldGet(_, a, _) => a == reg
    case MoveObject(_, a, _) => a == reg
    case MoveResultObject(a) => a == reg
    case NewInstance(a, _) => a == reg
    case _ => false
  }

  /** No instruction at the positions `lo` .. `hi - 1` writes `reg`. */
  predicate Untouched(instrs: seq<Instr>, lo: int, hi: int, reg: int) {
    forall j :: lo <= j < hi && 0 <= j < |instrs| ==> !Writes(instrs[j], reg)
  }

  // ----- getExtraKey -----

  /**
   * getExtraKey: walks back from `currentIndex - 1`. A const-string (either
   * form) into the register gives its literal; an sget-object or
   * iget-object into it gives the class-variable table's entry for the
   * field, which may be missing; a move-object into it continues with the
   * move's source register. None when position 0 is passed.
   */
  function GetExtraKey(instrs: seq<Instr>, currentIndex: int, register: int, table: map<string, string>): Option<string>
    requires currentIndex <= |instrs|
    decreases currentIndex
  {
    if currentIndex <= 0 then None
    else
      var i := currentIndex - 1;
      match instrs[i]
      case ConstString(_, a, literal) =>
        if a == register then Some(literal) else GetExtraKey(instrs, i, register, table)
      case FieldGet(_, a, field) =>
        if a == register then (if field.name in table then Some(table[field.name]) else None)
        else GetExtraKey(instrs, i, register, table)
      case MoveObject(_, a, b) => GetExtraKey(instrs, i, if a == register then b else register, table)
      case _ => GetExtraKey(instrs, i, register, table)
  }

  /** Where a key can come from: a string literal, or a table entry for a field that is read. */
  predicate KeySource(ins: Instr, table: map<string, string>, key: string) {
    (ins.ConstString? && ins.literal == key)
    || (ins.FieldGet? && ins.field.name in table && table[ins.field.name] == key)
  }

  /** Instructions that leave the tracked register alone are stepped over. */
  lemma {:induction false} GetExtraKeySkip(instrs: seq<Instr>, lo: int, hi: int, register: int, table: map<string, string>)
    requires 0 <= lo <= hi <= |instrs| && Untouched(instrs, lo, hi, register)
    ensures GetExtraKey(instrs, hi, register, table) == GetExtraKey(instrs, lo, register, table)
    decreases hi
  {
    if lo < hi {
      assert !Writes(instrs[hi - 1], register);
      GetExtraKeySkip(instrs, lo, hi - 1, register, table);
    }
  }

  /** A key that is found was written by an instruction before `currentIndex`. */
  lemma {:induction false} GetExtraKeyOrigin(instrs: seq<Instr>, currentIndex: int, register: int, table: map<string, string>)
    requires currentIndex <= |instrs|
    ensures var r := GetExtraKey(instrs, currentIndex, register, table);
      r.Some? ==> exists j :: 0 <= j < currentIndex && KeySource(instrs[j], table, r.value)
    decreases currentIndex
  {
    if currentIndex > 0 {
      var i := currentIndex - 1;
      match instrs[i]
      case ConstString(_, a, _) =>
        if a != register {
          GetExtraKeyOrigin(instrs, i, register, table);
        }
      case FieldGet(_, a, _) =>
        if a != register {
          GetExtraKeyOrigin(instrs, i, register, table);
        }
      case MoveObject(_, a, b) =>
        GetExtraKeyOrigin(instrs, i, if a == register then b else register, table);
      case _ =>
        GetExtraKeyOrigin(instrs, i, register, table);
    }
  }

  /** The walk looks only at the instructions before `currentIndex`. */
  lemma {:induction false} GetExtraKeyPrefix(instrs: seq<Instr>, currentIndex: nat, register: int, table: map<string, string>)
    requires currentIndex <= |instrs|
    ensures GetExtraKey(instrs, currentIndex, register, table) == GetExtraKey(instrs[..currentIndex], currentIndex, register, table)
    decreases currentIndex
  {
    if currentIndex > 0 {
      var i := currentIndex - 1;
      var pre := instrs[..currentIndex];
      assert pre[..i] == instrs[..i];
      var next := if instrs[i].MoveObject? && instrs[i].a == register then instrs[i].b else register;
      GetExtraKeyPrefix(instrs, i, next, table);
      GetExtraKeyPrefix(pre, i, next, table);
    }
  }

  /**
   * The nearest write to the register decides: a literal is the key, a
   * field read is the table's entry or nothing (earlier instructions are not
   * consulted), a move continues with the source register.
   */
  lemma GetExtraKeyNearestWrite(instrs: seq<Instr>, j: nat, currentIndex: int, register: int, table: map<string, string>)
    requires j < currentIndex <= |instrs| && Writes(instrs[j], register) && Untouched(instrs, j + 1, currentIndex, register)
    ensures var r := GetExtraKey(instrs, currentIndex, register, table);
      var ins := instrs[j];
      if ins.ConstString? then r == Some(ins.literal)
      else if ins.FieldGet? then r == (if ins.field.name in table then Some(table[ins.field.name]) else None)
      else if ins.MoveObject? then r == GetExtraKey(instrs, j, ins.b, table)
      else r == GetExtraKey(instrs, j, register, table)
  {
    GetExtraKeySkip(instrs, j + 1, currentIndex, register, table);
  }

  // ----- isIntentBundle -----

  /** invoke-virtual Intent.getExtras(). */
  predicate IsGetExtras(ins: Instr) {
    ins.Invoke? && ins.kind == Virtual && ins.target.definingClass == INTENT && ins.target.name == "getExtras"
  }

  /**
   * isIntentBundle: walks back from `currentIndex - 1`, following
   * move-object into the register. At a move-result-object into it, the
   * instruction just before decides: Intent.getExtras gives true, any other
   * invoke-virtual lets the walk go on, anything else (or nothing) gives
   * false. False when position 0 is passed.
   */
  predicate IsIntentBundle(instrs: seq<Instr>, currentIndex: int, register: int)
    requires currentIndex <= |instrs|
    decreases currentIndex
  {
    if currentIndex <= 0 then false
    else
      var i := currentIndex - 1;
      match instrs[i]
      case MoveObject(_, a, b) => IsIntentBundle(instrs, i, if a == register then b else register)
      case MoveResultObject(a) =>
        if a != register then IsIntentBundle(instrs, i, register)
        else if i >= 1 && instrs[i - 1].Invoke? && instrs[i - 1].kind == Virtual then
          IsGetExtras(instrs[i - 1]) || IsIntentBundle(instrs, i, register)
        else false
      case _ => IsIntentBundle(instrs, i, register)
  }

  lemma {:induction false} IsIntentBundleSkip(instrs: seq<Instr>, lo: int, hi: int, register: int)
    requires 0 <= lo <= hi <= |instrs| && Untouched(instrs, lo, hi, register)
    ensures IsIntentBundle(instrs, hi, register) == IsIntentBundle(instrs, lo, register)
    decreases hi
  {
    if lo < hi {
      assert !Writes(instrs[hi - 1], register);
      IsIntentBundleSkip(instrs, lo, hi - 1, register);
    }
  }

  /** A bundle is only recognised behind a call of Intent.getExtras whose result is moved. */
  lemma {:induction false} IsIntentBundleWitness(instrs: seq<Instr>, currentIndex: int, register: int)
    requires currentIndex <= |instrs|
    ensures IsIntentBundle(instrs, currentIndex, register) ==>
      exists j :: 1 <= j < currentIndex && instrs[j].MoveResultObject? && IsGetExtras(instrs[j - 1])
    decreases currentIndex
  {
    if currentIndex > 0 {
      var i := currentIndex - 1;
      match instrs[i]
      case MoveObject(_, a, b) =>
        IsIntentBundleWitness(instrs, i, if a == register then b else register);
      case _ =>
        IsIntentBundleWitness(instrs, i, register);
    }
  }

  /**
   * The nearest move-result-object into the register settles the answer
   * when the instruction before it is not an invoke-virtual (or there is
   * none): false; when it is Intent.getExtras: true; when it is another
   * invoke-virtual, the walk continues further back.
   */
  lemma IsIntentBundleAtResult(instrs: seq<Instr>, j: nat, currentIndex: int, register: int)
    requires j < currentIndex <= |instrs| && instrs[j] == MoveResultObject(register)
    requires Untouched(instrs, j + 1, currentIndex, register)
    ensures j == 0 || !(instrs[j - 1].Invoke? && instrs[j - 1].kind == Virtual) ==> !IsIntentBundle(instrs, currentIndex, register)
    ensures j >= 1 && IsGetExtras(instrs[j - 1]) ==> IsIntentBundle(instrs, currentIndex, register)
    ensures j >= 1 && instrs[j - 1].Invoke? && instrs[j - 1].kind == Virtual && !IsGetExtras(instrs[j - 1]) ==>
      IsIntentBundle(instrs, currentIndex, register) == IsIntentBundle(instrs, j, register)
  {
    IsIntentBundleSkip(instrs, j + 1, currentIndex, register);
  }

  // ----- backtrackStringConstant -----

  /** A const-string (not the jumbo form) into `reg`. */
  predicate IsConstInto(ins: Instr, reg: int) {
    ins.ConstString? && !ins.jumbo && ins.a == reg
  }

  /**
   * backtrackStringConstant: walks back from `index` itself (the callers
   * pass the position before the invoke) to the first plain const-string
   * into the register. Moves are not followed.
   */
  function BacktrackStringConstant(instrs: seq<Instr>, index: int, register: int): Option<string>
    requires index < |instrs|
    decreases index + 1
  {
    if index < 0 then None
    else if IsConstInto(instrs[index], register) then Some(instrs[index].literal)
    else BacktrackStringConstant(instrs, index - 1, register)
  }

  /** Something is found exactly when some plain const-string at or before `index` writes the register. */
  lemma {:induction false} BacktrackStringConstantFinds(instrs: seq<Instr>, index: int, register: int)
    requires index < |instrs|
    ensures BacktrackStringConstant(instrs, index, register).Some?
        <==> exists j :: 0 <= j <= index && IsConstInto(instrs[j], register)
    decreases index + 1
  {
    if index >= 0 && !IsConstInto(instrs[index], register) {
      BacktrackStringConstantFinds(instrs, index - 1, register);
      if exists j :: 0 <= j <= index && IsConstInto(instrs[j], register) {
        var j :| 0 <= j <= index && IsConstInto(instrs[j], register);
        assert j < index;
      }
    }
  }

  /** What is found is the literal of the nearest such const-string. */
  lemma {:induction false} BacktrackStringConstantNearest(instrs: seq<Instr>, j: nat, index: int, register: int)
    requires j <= index < |instrs| && IsConstInto(instrs[j], register)
    requires forall l :: j < l <= index ==> !IsConstInto(instrs[l], register)
    ensures BacktrackStringConstant(instrs, index, register) == Some(instrs[j].literal)
    decreases index
  {
    if j < index {
      BacktrackStringConstantNearest(instrs, j, index - 1, register);
    }
  }

  // ----- stringUsedForOwnIntents -----

  /** isInvokeInstructionUsingRegister: one of the registers D to G (not C) is `reg`. */
  predicate IsInvokeUsingRegister(ins: Instr, reg: int)
    requires ins.Invoke?
  {
    ins.d == reg || ins.e == reg || ins.f == reg || ins.g == reg
  }

  /** An invoke-virtual that passes the register: it decides the lookahead. */
  predicate Decides(ins: Instr, reg: int) {
    ins.Invoke? && ins.kind == Virtual && IsInvokeUsingRegister(ins, reg)
  }

  /** A call on an Intent or a Bundle. */
  predicate OwnIntent(ins: Instr)
    requires ins.Invoke?
  {
    ins.target.definingClass == INTENT || ins.target.definingClass == BUNDLE
  }

  /** An instruction the lookahead steps over: not deciding, and its opcode name has "const" or "get". */
  predicate Passes(ins: Instr, reg: int) {
    !Decides(ins, reg) && (Contains(OpName(ins), "const") || Contains(OpName(ins), "get"))
  }

  /**
   * stringUsedForOwnIntents: looks forward from `currentIndex + 1`. The
   * first invoke-virtual passing the register decides (true for a call on
   * Intent or Bundle); an instruction whose opcode name holds neither
   * "const" nor "get" ends the lookahead with false, as does the end.
   */
  predicate StringUsedForOwnIntents(instrs: seq<Instr>, currentIndex: int, register: int)
    requires -1 <= currentIndex
    decreases |instrs| - currentIndex
  {
    var i := currentIndex + 1;
    if i >= |instrs| then false
    else if Decides(instrs[i], register) then OwnIntent(instrs[i])
    else if !Contains(OpName(instrs[i]), "const") && !Contains(OpName(instrs[i]), "get") then false
    else StringUsedForOwnIntents(instrs, i, register)
  }

  /**
   * The lookahead answers true exactly when, after `currentIndex`, an
   * invoke-virtual on Intent or Bundle passes the register and every
   * instruction before it is stepped over.
   */
  lemma {:induction false} StringUsedForOwnIntentsIff(instrs: seq<Instr>, currentIndex: int, register: int)
    requires -1 <= currentIndex
    ensures StringUsedForOwnIntents(instrs, currentIndex, register) <==>
      exists j :: currentIndex < j < |instrs| && Decides(instrs[j], register) && OwnIntent(instrs[j])
        && forall l :: currentIndex < l < j ==> Passes(instrs[l], register)
    decreases |instrs| - currentIndex
  {
    var i := currentIndex + 1;
    if i < |instrs| {
      if Decides(instrs[i], register) {
        LookaheadDecides(instrs, currentIndex, register);
      } else if !Passes(instrs[i], register) {
        LookaheadStops(instrs, currentIndex, register);
      } else {
        StringUsedForOwnIntentsIff(instrs, i, register);
        LookaheadPasses(instrs, currentIndex, register);
      }
    }
  }

  /** The lookahead at an instruction that decides: the call's class gives the answer. */
  lemma LookaheadDecides(instrs: seq<Instr>, currentIndex: int, register: int)
    requires -1 <= currentIndex && currentIndex + 1 < |instrs| && Decides(instrs[currentIndex + 1], register)
    ensures StringUsedForOwnIntents(instrs, currentIndex, register) <==>
      exists j :: currentIndex < j < |instrs| && Decides(instrs[j], register) && OwnIntent(instrs[j])
        && forall l :: currentIndex < l < j ==> Passes(instrs[l], register)
  {
    var i := currentIndex + 1;
    if StringUsedForOwnIntents(instrs, currentIndex, register) {
      assert Decides(instrs[i], register) && OwnIntent(instrs[i]);
    } else {
      forall j | currentIndex < j < |instrs| && Decides(instrs[j], register)
        ensures !OwnIntent(instrs[j]) || exists l :: currentIndex < l < j && !Passes(instrs[l], register)
      {
        if j > i {
          assert !Passes(instrs[i], register);
        }
      }
    }
  }

  /** The lookahead at an instruction it cannot step over: the answer is false. */
  lemma LookaheadStops(instrs: seq<Instr>, currentIndex: int, register: int)
    requires -1 <= currentIndex && currentIndex + 1 < |instrs|
    requires !Decides(instrs[currentIndex + 1], register) && !Passes(instrs[currentIndex + 1], register)
    ensures !StringUsedForOwnIntents(instrs, currentIndex, register)
    ensures forall j :: currentIndex < j < |instrs| && Decides(instrs[j], register) && OwnIntent(instrs[j]) ==>
      exists l :: currentIndex < l < j && !Passes(instrs[l], register)
  {
    var i := currentIndex + 1;
    forall j | currentIndex < j < |instrs| && Decides(instrs[j], register)
      ensures exists l :: currentIndex < l < j && !Passes(instrs[l], register)
    {
      assert j != i;
    }
  }

  /** The lookahead at an instruction it steps over: the answer is the one from the next position. */
  lemma LookaheadPasses(instrs: seq<Instr>, currentIndex: int, register: int)
    requires -1 <= currentIndex && currentIndex + 1 < |instrs| && Passes(instrs[currentIndex + 1], register)
    requires StringUsedForOwnIntents(instrs, currentIndex + 1, register) <==>
      exists j :: currentIndex + 1 < j < |instrs| && Decides(instrs[j], register) && OwnIntent(instrs[j])
        && forall l :: currentIndex + 1 < l < j ==> Passes(instrs[l], register)
    ensures StringUsedForOwnIntents(instrs, currentIndex, register) <==>
      exists j :: currentIndex < j < |instrs| && Decides(instrs[j], register) && OwnIntent(instrs[j])
        && forall l :: currentIndex < l < j ==> Passes(instrs[l], register)
  {
    var i := currentIndex + 1;
    if StringUsedForOwnIntents(instrs, i, register) {
      var j :| i < j < |instrs| && Decides(instrs[j], register) && OwnIntent(instrs[j])
        && forall l :: i < l < j ==> Passes(instrs[l], register);
      assert forall l :: currentIndex < l < j ==> Passes(instrs[l], register);
    } else {
      forall j | currentIndex < j < |instrs| && Decides(instrs[j], register) && OwnIntent(instrs[j])
        ensures exists l :: currentIndex < l < j && !Passes(instrs[l], register)
      {
        assert j != i;
        var l :| i < l < j && !Passes(instrs[l], register);
      }
    }
  }


  /** String constants and field reads never end the lookahead, whatever register they use. */
  lemma ConstAndGetPass(ins: Instr, reg: int)
    requires ins.ConstString? || ins.FieldGet?
    ensures Passes(ins, reg)
  {
    if ins.ConstString? {
      assert OccursAt(OpName(ins), "const", 0);
    } else {
      assert OccursAt(OpName(ins), "get", 1);
    }
  }

  // ----- convertExtraType -----

  /**
   * convertExtraType: a type ending in "ArrayList" has every "ArrayList"
   * replaced by "<>"; otherwise one ending in "Array" has every "Array"
   * replaced by "[]"; anything else is kept.
   */
  function ConvertExtraType(extraType: string): string {
    if EndsWith(extraType, "ArrayList") then Replace(extraType, "ArrayList", "<>")
    else if EndsWith(extraType, "Array") then Replace(extraType, "Array", "[]")
    else extraType
  }

  lemma ArrayListSuffix(x: string)
    ensures EndsWith(x + "ArrayList", "ArrayList")
    ensures ConvertExtraType(x + "ArrayList") == Replace(x, "ArrayList", "<>") + "<>"
  {
    assert (x + "ArrayList")[|x|..] == "ArrayList";
    ReplaceAtEnd(x, "ArrayList", "<>");
  }

  lemma ArraySuffix(x: string)
    ensures !EndsWith(x + "Array", "ArrayList") && EndsWith(x + "Array", "Array")
    ensures ConvertExtraType(x + "Array") == Replace(x, "Array", "[]") + "[]"
  {
    var s := x + "Array";
    assert s[|x|..] == "Array";
    assert s[|s| - 1] == 'y';
    ReplaceAtEnd(x, "Array", "[]");
  }

  /** The element type in front of the suffix is kept when it does not mention "Array". */
  lemma ConvertElementType(x: string)
    requires !Contains(x, "Array")
    ensures ConvertExtraType(x + "ArrayList") == x + "<>"
    ensures ConvertExtraType(x + "Array") == x + "[]"
  {
    assert !Contains(x, "ArrayList") by {
      forall i | OccursAt(x, "ArrayList", i) ensures OccursAt(x, "Array", i) {
        assert x[i..i + 5] == x[i..i + 9][..5];
      }
    }
    ArrayListSuffix(x);
    ArraySuffix(x);
    ReplaceAbsent(x, "ArrayList", "<>");
    ReplaceAbsent(x, "Array", "[]");
  }

  /** A converted type ends in "<>" or "[]", so converting it again changes nothing. */
  lemma ConvertExtraTypeIdempotent(extraType: string)
    ensures ConvertExtraType(ConvertExtraType(extraType)) == ConvertExtraType(extraType)
  {
    var r := ConvertExtraType(extraType);
    if EndsWith(extraType, "ArrayList") {
      var x := extraType[..|extraType| - 9];
      assert extraType == x + "ArrayList";
      ArrayListSuffix(x);
      assert r[|r| - 1] == '>';
    } else if EndsWith(extraType, "Array") {
      var x := extraType[..|extraType| - 5];
      assert extraType == x + "Array";
      ArraySuffix(x);
      assert r[|r| - 1] == ']';
    }
  }

  // ----- the accessor calls scanComponentMethod recognises -----

  /** A call that reads an intent extra: Intent.get...Extra... (not getExtras) or Intent.hasExtra. */
  predicate IsIntentAccessor(m: MethodRef) {
    m.definingClass == INTENT
    && ((Contains(m.name, "get") && Contains(m.name, "Extra") && !Contains(m.name, "getExtras"))
        || Contains(m.name, "hasExtra"))
  }

  /** A call that reads a bundle entry: Bundle.get... or Bundle.containsKey. */
  predicate IsBundleAccessor(m: MethodRef) {
    m.definingClass == BUNDLE && (Contains(m.name, "get") || Contains(m.name, "containsKey"))
  }

  /** "get" and "Extra" cannot overlap, so an intent accessor's name has at least 8 characters. */
  lemma IntentAccessorLength(m: MethodRef)
    requires IsIntentAccessor(m)
    ensures |m.name| >= 8
  {
    var s := m.name;
    if Contains(s, "hasExtra") {
      var k :| 0 <= k <= |s| - 8 && OccursAt(s, "hasExtra", k);
    } else {
      var i :| 0 <= i <= |s| - 5 && OccursAt(s, "Extra", i);
      var j :| 0 <= j <= |s| - 3 && OccursAt(s, "get", j);
      GetExtraApart(s, i, j);
    }
  }

  /** "get" and "Extra" occurrences in one string do not overlap. */
  lemma GetExtraApart(s: string, i: int, j: int)
    requires OccursAt(s, "Extra", i) && OccursAt(s, "get", j)
    ensures j + 3 <= i || i + 5 <= j
  {
    var e, g := s[i..i + 5], s[j..j + 3];
    assert e == "Extra" && g == "get";
    assert s[i] == e[0] == 'E' && s[i + 1] == e[1] && s[i + 2] == e[2] && s[i + 3] == e[3] && s[i + 4] == e[4];
    assert s[j] == g[0] && s[j + 1] == g[1] && s[j + 2] == g[2];
  }

  /** `name.substring(3, name.length() - 5)`: the type between "get" and "Extra". */
  function IntentExtraType(name: string): string
    requires |name| >= 8
  {
    name[3..|name| - 5]
  }

  /** The type of `get<T>Extra` is T; hasExtra names none. */
  lemma IntentExtraTypeOf(t: string)
    ensures IntentExtraType("get" + t + "Extra") == t
    ensures IntentExtraType("hasExtra") == ""
  {
    assert ("get" + t + "Extra")[3..3 + |t|] == t;
  }

  /** `name.substring(3)`, or "" for containsKey. */
  function BundleExtraType(name: string): string
    requires |name| >= 3
  {
    if Contains(name, "containsKey") then "" else name[3..]
  }

  lemma BundleAccessorLength(m: MethodRef)
    requires IsBundleAccessor(m)
    ensures |m.name| >= 3
  {
  }

  // ----- lookupConstructor -----

  /** lookupVariableName: an sput-object or iput-object names the field it stores into. */
  function LookupVariableName(successor: Instr): Option<string> {
    if successor.FieldPut? then Some(successor.field.name) else None
  }

  /**
   * lookupConstructor reads the instruction after every non-empty string
   * constant; the source fails when that constant is the last instruction.
   */
  predicate NoTrailingString(instrs: seq<Instr>) {
    forall i :: 0 <= i < |instrs| && instrs[i].ConstString? && instrs[i].literal != "" ==> i + 1 < |instrs|
  }

  /** Position `i` stores a non-empty string constant straight into the field `name`. */
  predicate StoresInto(instrs: seq<Instr>, i: int, name: string) {
    0 <= i && i + 1 < |instrs| && instrs[i].ConstString? && instrs[i].literal != ""
    && LookupVariableName(instrs[i + 1]) == Some(name)
  }

  /** The table lookupConstructor has built after the first `n` instructions. */
  function Stores(instrs: seq<Instr>, n: nat): map<string, string>
    requires n <= |instrs| && NoTrailingString(instrs)
  {
    if n == 0 then map[]
    else
      var table := Stores(instrs, n - 1);
      var ins := instrs[n - 1];
      if ins.ConstString? && ins.literal != "" then
        match LookupVariableName(instrs[n])
        case Some(name) => table[name := ins.literal]
        case None => table
      else table
  }

  /** A field has an entry exactly when some string constant is stored straight into it. */
  lemma {:induction false} StoresKeys(instrs: seq<Instr>, n: nat, name: string)
    requires n <= |instrs| && NoTrailingString(instrs)
    ensures name in Stores(instrs, n) <==> exists i :: 0 <= i < n && StoresInto(instrs, i, name)
  {
    if n > 0 {
      StoresKeys(instrs, n - 1, name);
      var ins := instrs[n - 1];
      if StoresInto(instrs, n - 1, name) {
        assert name in Stores(instrs, n);
      } else {
        assert name in Stores(instrs, n) <==> name in Stores(instrs, n - 1);
        if name in Stores(instrs, n - 1) {
          var i :| 0 <= i < n - 1 && StoresInto(instrs, i, name);
          assert 0 <= i < n;
        }
        if exists i :: 0 <= i < n && StoresInto(instrs, i, name) {
          var i :| 0 <= i < n && StoresInto(instrs, i, name);
          assert i < n - 1;
        }
      }
    }
  }

  /** The entry of a field is the last string constant stored into it (a later put overwrites). */
  lemma {:induction false} StoresLast(instrs: seq<Instr>, n: nat, i: nat, name: string)
    requires n <= |instrs| && NoTrailingString(instrs) && i < n && StoresInto(instrs, i, name)
    requires forall j :: i < j < n ==> !StoresInto(instrs, j, name)
    ensures name in Stores(instrs, n) && Stores(instrs, n)[name] == instrs[i].literal
  {
    if i < n - 1 {
      StoresLast(instrs, n - 1, i, name);
      assert !StoresInto(instrs, n - 1, name);
    }
  }

  /** lookupConstructor: the table of a method without a body is empty. */
  function ConstructorTable(m: MethodDef): map<string, string>
    requires m.implementation.Some? ==> NoTrailingString(m.implementation.value)
  {
    match m.implementation
    case None => map[]
    case Some(instrs) => Stores(instrs, |instrs|)
  }

  /** A constructor or static initialiser, whose tables lookupConstructorsForVariables merges. */
  predicate IsInitializer(m: MethodDef) {
    m.name == "<init>" || m.name == "<clinit>"
  }

  /** Every method body lookupConstructor might read ends in something other than a string constant. */
  predicate BodiesWellFormed(ms: seq<MethodDef>) {
    forall m :: m in ms && m.implementation.Some? ==> NoTrailingString(m.implementation.value)
  }

  /**
   * lookupConstructorsForVariables: the tables of all initialisers, in
   * method order, merged with putAll (a later entry for a field wins).
   */
  function ClassTable(ms: seq<MethodDef>): map<string, string>
    requires BodiesWellFormed(ms)
    decreases |ms|
  {
    if ms == [] then map[]
    else
      var init := ms[..|ms| - 1];
      var last := ms[|ms| - 1];
      assert BodiesWellFormed(init) by {
        forall m | m in init ensures m in ms { }
      }
      if IsInitializer(last) then ClassTable(init) + ConstructorTable(last) else ClassTable(init)
  }

  /** Only fields that some initialiser stores a string constant into get an entry. */
  lemma {:induction false} ClassTableKeys(ms: seq<MethodDef>, name: string)
    requires BodiesWellFormed(ms)
    ensures name in ClassTable(ms) ==> exists m :: m in ms && IsInitializer(m) && name in ConstructorTable(m)
    decreases |ms|
  {
    if ms != [] {
      var init := ms[..|ms| - 1];
      assert BodiesWellFormed(init) by {
        forall m | m in init ensures m in ms { }
      }
      ClassTableKeys(init, name);
      if name in ClassTable(init) {
        var m :| m in init && IsInitializer(m) && name in ConstructorTable(m);
        assert m in ms;
      }
    }
  }

  /** lookupConstructor's loop. */
  method LookupConstructor(m: MethodDef) returns (variables: map<string, string>)
    requires m.implementation.Some? ==> NoTrailingString(m.implementation.value)
    ensures variables == ConstructorTable(m)
  {
    variables := map[];
    if m.implementation.Some? {
      var instrs := m.implementation.value;
      var i := 0;
      while i < |instrs|
        invariant 0 <= i <= |instrs|
        invariant variables == Stores(instrs, i)
      {
        var ins := instrs[i];
        if ins.ConstString? && ins.literal != "" {
          var varName := LookupVariableName(instrs[i + 1]);
          if varName.Some? {
            variables := variables[varName.value := ins.literal];
          }
        }
        i := i + 1;
      }
    }
  }

  /** lookupConstructorsForVariables' loop over the methods of a class. */
  method LookupConstructorsForVariables(c: ClassDef) returns (classVariables: map<string, string>)
    requires BodiesWellFormed(c.methods)
    ensures classVariables == ClassTable(c.methods)
  {
    classVariables := map[];
    var i := 0;
    while i < |c.methods|
      invariant 0 <= i <= |c.methods|
      invariant BodiesWellFormed(c.methods[..i])
      invariant classVariables == ClassTable(c.methods[..i])
    {
      var m := c.methods[i];
      assert c.methods[..i + 1][..i] == c.methods[..i];
      assert BodiesWellFormed(c.methods[..i + 1]) by {
        forall x | x in c.methods[..i + 1] ensures x in c.methods { }
      }
      if IsInitializer(m) {
        var table := LookupConstructor(m);
        classVariables := classVariables + table;
      }
      i := i + 1;
    }
    assert c.methods[..i] == c.methods;
  }
}
