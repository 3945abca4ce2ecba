/**
 * The part of a dex file the scanner looks at: class definitions with their
 * superclass, access flags, fields and methods, and method bodies as lists of
 * instructions. Each instruction form carries exactly the operands of its
 * dexlib2 format, so the casts the scanner performs after an opcode test
 * cannot fail.
 */
module Dex {
  import opened Wrappers

  datatype InvokeKind = Virtual | Direct | Static | Super | Interface

  /** move-object, move-object/from16 and move-object/16. */
  datatype MoveForm = Plain | From16 | Wide16

  datatype FieldRef = FieldRef(definingClass: string, name: string, fieldType: string)

  datatype MethodRef = MethodRef(definingClass: string, name: string, parameterTypes: seq<string>, returnType: string)

  datatype Instr =
    | ConstString(jumbo: bool, a: int, literal: string)           // const-string, const-string/jumbo
    | FieldGet(isStatic: bool, a: int, field: FieldRef)             // sget-object, iget-object
    | FieldPut(isStatic: bool, a: int, field: FieldRef)             // sput-object, iput-object
    | MoveObject(form: MoveForm, a: int, b: int)
    | MoveResultObject(a: int)
    | Invoke(kind: InvokeKind, c: int, d: int, e: int, f: int, g: int, target: MethodRef)  // format 35c
    | NewInstance(a: int, classType: string)
    | Other(opName: string)                                       // any other opcode, by its mnemonic

  /** The dexlib2 mnemonic of an instruction's opcode (Opcode.name). */
  function OpName(ins: Instr): string {
    match ins
    case ConstString(jumbo, _, _) => if jumbo then "const-string/jumbo" else "const-string"
    case FieldGet(isStatic, _, _) => if isStatic then "sget-object" else "iget-object"
    case FieldPut(isStatic, _, _) => if isStatic then "sput-object" else "iput-object"
    case MoveObject(form, _, _) =>
      (match form case Plain => "move-object" case From16 => "move-object/from16" case Wide16 => "move-object/16")
    case MoveResultObject(_) => "move-result-object"
    case Invoke(kind, _, _, _, _, _, _) =>
      (match kind
       case Virtual => "invoke-virtual" case Direct => "invoke-direct" case Static => "invoke-static"
       case Super => "invoke-super" case Interface => "invoke-interface")
    case NewInstance(_, _) => "new-instance"
    case Other(n) => n
  }

  function Concat(parts: seq<string>): string {
    if parts == [] then "" else parts[0] + Concat(parts[1..])
  }

  /** Reference.toString of a method reference: `Lcls;->name(params)ret`. */
  function MethodRefText(m: MethodRef): string {
    m.definingClass + "->" + m.name + "(" + Concat(m.parameterTypes) + ")" + m.returnType
  }

  datatype EncodedValue = StringValue(value: string) | OtherValue

  datatype Field = Field(name: string, initialValue: Option<EncodedValue>)

  datatype MethodDef = MethodDef(
    definingClass: string, name: string, parameterTypes: seq<string>, returnType: string,
    implementation: Option<seq<Instr>>)

  function RefOf(m: MethodDef): MethodRef {
    MethodRef(m.definingClass, m.name, m.parameterTypes, m.returnType)
  }

  /** A class definition; `descriptor` is what ClassDef.toString returns. */
  datatype ClassDef = ClassDef(
    descriptor: string, superclass: Option<string>, accessFlags: bv32,
    fields: seq<Field>, methods: seq<MethodDef>)

  /** The classes of one dex file, in the order the file lists them. */
  type DexFile = seq<ClassDef>

  /** The classes of all dex files, file after file. */
  function AllClasses(files: seq<DexFile>): seq<ClassDef> {
    if files == [] then [] else files[0] + AllClasses(files[1..])
  }

  lemma {:induction false} AllClassesAppend(a: seq<DexFile>, b: seq<DexFile>)
    ensures AllClasses(a + b) == AllClasses(a) + AllClasses(b)
    decreases |a|
  {
    if a == [] {
      assert a + b == b;
    } else {
      assert (a + b)[1..] == a[1..] + b;
      AllClassesAppend(a[1..], b);
    }
  }

  /** Where the scan of file `k` stands: the files before it, file `k`, the files after it. */
  lemma AllClassesAt(files: seq<DexFile>, k: nat)
    requires k < |files|
    ensures AllClasses(files[..k + 1]) == AllClasses(files[..k]) + files[k]
    ensures AllClasses(files) == AllClasses(files[..k]) + files[k] + AllClasses(files[k + 1..])
  {
    var single: seq<DexFile> := [files[k]];
    assert AllClasses(single) == files[k] by {
      assert single[1..] == [];
    }
    assert files[..k + 1] == files[..k] + single;
    AllClassesAppend(files[..k], single);
    assert files == files[..k + 1] + files[k + 1..];
    AllClassesAppend(files[..k + 1], files[k + 1..]);
  }

  const INTENT := "Landroid/content/Intent;"
  const BUNDLE := "Landroid/os/Bundle;"
}
