/**
 A compiled program (horse64/bytecode.h) as far as it is written to an image, and
 the sizes of its instructions (horse64/bytecode.c).
 */
module Bytecode {
  import opened Options
  import opened Words

  // -------------------------------------------------------------------- instructions

  const INST_SETCONST: Byte := 1

  const VALTYPE_INT64: Byte := 1
  const VALTYPE_FLOAT64: Byte := 2
  const VALTYPE_BOOL: Byte := 3
  const VALTYPE_FUNCREF: Byte := 4
  const VALTYPE_CLASSREF: Byte := 5
  const VALTYPE_SHORTSTR: Byte := 8
  const VALTYPE_CONSTPREALLOCSTR: Byte := 9
  const VALTYPE_SHORTBYTES: Byte := 10
  const VALTYPE_CONSTPREALLOCBYTES: Byte := 11

  const SIZEOF_H64WCHAR: nat := 4

  /** The size of the packed struct SETCONST, and where its content keeps type, pointer and length. */
  const SETCONST_SIZE: nat := 32
  const CONTENT_TYPE_AT: nat := 8
  const POINTER_AT: nat := 16
  const LENGTH_AT: nat := 24

  /** h64program_PtrToInstructionSize; 0 for a type it does not know. */
  function InstructionSize(kind: Byte): (size: nat)
    ensures size <= 32
  {
    match kind
    case 1 => SETCONST_SIZE
    case 2 => 11 // SETGLOBAL
    case 3 => 11 // GETGLOBAL
    case 4 => 7  // SETBYINDEXEXPR
    case 5 => 13 // SETBYATTRIBUTENAME
    case 6 => 7  // SETBYATTRIBUTEIDX
    case 7 => 11 // GETFUNC
    case 8 => 7  // GETCLASS
    case 9 => 5  // VALUECOPY
    case 10 => 8 // BINOP
    case 11 => 6 // UNOP
    case 12 => 10 // CALL
    case 13 => 10 // CALLIGNOREIFNONE
    case 14 => 3 // SETTOP
    case 15 => 3 // CALLSETTOP
    case 16 => 3 // RETURNVALUE
    case 17 => 3 // JUMPTARGET
    case 18 => 5 // CONDJUMP
    case 19 => 6 // CONDJUMPEX
    case 20 => 3 // JUMP
    case 21 => 5 // NEWITERATOR
    case 22 => 7 // ITERATE
    case 23 => 10 // PUSHRESCUEFRAME
    case 24 => 5 // ADDRESCUETYPEBYREF
    case 25 => 7 // ADDRESCUETYPE
    case 26 => 3 // POPRESCUEFRAME
    case 27 => 13 // GETATTRIBUTEBYNAME
    case 28 => 7 // GETATTRIBUTEBYIDX
    case 29 => 3 // JUMPTOFINALLY
    case 30 => 3 // NEWLIST
    case 31 => 3 // NEWSET
    case 32 => 3 // NEWMAP
    case 33 => 3 // NEWVECTOR
    case 34 => 5 // NEWINSTANCEBYREF
    case 35 => 7 // NEWINSTANCE
    case 36 => 5 // GETCONSTRUCTOR
    case 37 => 3 // AWAITITEM
    case 39 => 13 // HASATTRJUMP; 38, CREATEPIPE, has no size
    case 40 => 7 // RAISE
    case 41 => 5 // RAISEBYREF
    case _ => 0
  }

  /** One instruction: its bytes in the stream, and the string or bytes constant its pointer field leads to. */
  datatype Inst = Inst(image: seq<Byte>, data: seq<Byte>)

  /** The bytes one unit of an out-of-line constant takes; 0 if the instruction has none. */
  function ConstUnit(image: seq<Byte>): (unit: nat)
    ensures unit != 0 ==> |image| == SETCONST_SIZE
  {
    if |image| == SETCONST_SIZE && image[0] == INST_SETCONST then
      if image[CONTENT_TYPE_AT] == VALTYPE_CONSTPREALLOCSTR then SIZEOF_H64WCHAR
      else if image[CONTENT_TYPE_AT] == VALTYPE_CONSTPREALLOCBYTES then 1
      else 0
    else 0
  }

  /** The 32-bit length field of an out-of-line constant. */
  function ConstLength(image: seq<Byte>): int
    requires |image| == SETCONST_SIZE
  {
    Decode(I32, image[LENGTH_AT..LENGTH_AT + 4])
  }

  /** An instruction as the compiler produces it. */
  predicate InstOk(inst: Inst) {
    && |inst.image| > 0 && |inst.image| == InstructionSize(inst.image[0])
    && if ConstUnit(inst.image) == 0 then inst.data == []
       else ConstLength(inst.image) >= 0 && |inst.data| == ConstLength(inst.image) * ConstUnit(inst.image)
  }

  /** The instruction with the pointer field of its out-of-line constant forgotten. */
  function ForgetPointer(inst: Inst): (r: Inst) {
    if ConstUnit(inst.image) == 0 then inst
    else Inst(inst.image[..POINTER_AT] + [0, 0, 0, 0, 0, 0, 0, 0] + inst.image[LENGTH_AT..], inst.data)
  }

  /** The instruction stream as it lies in memory. */
  function Stream(insts: seq<Inst>): seq<Byte> {
    if |insts| == 0 then [] else insts[0].image + Stream(insts[1..])
  }

  // -------------------------------------------------------------------- the program

  datatype Class = Class(
    baseClassGlobalId: int, isError: int, isThreadable: int, userSetParallel: int, hasEqualsAttr: int,
    funcattrNames: seq<int>, funcattrFuncs: seq<int>,
    varattrNames: seq<int>, varattrFlags: seq<int>,
    hasVarInitFunc: int, varInitFuncIdx: int)

  /** cfunclookup is None for a null pointer; only functions with isCFunc == 0 have instructions. */
  datatype Func = Func(
    inputStackSize: int, innerStackSize: int, isCFunc: int, isThreadable: int, userSetParallel: int,
    kwargNames: seq<int>, asyncProgressStructSize: int,
    cfuncLookup: Option<seq<Byte>>, insts: seq<Inst>)

  /** The content of a global: nothing behind its type, a 64-bit word, or bytes behind a length. */
  datatype Content = Nothing | Word(n: int) | Data(bytes: seq<Byte>)

  datatype Global = Global(kind: Byte, content: Content, isSimpleConstant: int, isConst: int)

  datatype Indexes = Indexes(
    mainFunc: int, globalInitSimpleFunc: int, globalInitFunc: int, hasAttrFunc: int, isAFunc: int,
    asBytesName: int, asStrName: int, lenName: int, initName: int, onClonedName: int, onDestroyName: int,
    addName: int, delName: int, containsName: int, isAName: int,
    ioFileClass: int, netStreamClass: int, uriClass: int)

  datatype Program = Program(classes: seq<Class>, funcs: seq<Func>, indexes: Indexes, globals: seq<Global>)

  // ----------------------------------------------------------------- well-formedness

  ghost predicate AllIn(k: Kind, ns: seq<int>) { forall i :: 0 <= i < |ns| ==> InRange(k, ns[i]) }

  ghost predicate ClassOk(c: Class) {
    && InRange(I32, c.baseClassGlobalId) && InRange(U8, c.isError) && InRange(U8, c.isThreadable)
    && InRange(U8, c.userSetParallel) && InRange(U8, c.hasEqualsAttr)
    && InRange(I16, |c.funcattrNames|) && |c.funcattrNames| == |c.funcattrFuncs|
    && AllIn(I64, c.funcattrNames) && AllIn(I32, c.funcattrFuncs)
    && InRange(I16, |c.varattrNames|) && |c.varattrNames| == |c.varattrFlags|
    && AllIn(I64, c.varattrNames) && AllIn(U8, c.varattrFlags)
    && InRange(I32, c.hasVarInitFunc) && InRange(I32, c.varInitFuncIdx)
  }

  function LookupBytes(f: Func): seq<Byte> { if f.cfuncLookup.Some? then f.cfuncLookup.value else [] }

  ghost predicate FuncOk(f: Func) {
    && InRange(I32, f.inputStackSize) && InRange(I32, f.innerStackSize) && InRange(I32, f.isCFunc)
    && InRange(I32, f.isThreadable) && InRange(I32, f.userSetParallel)
    && InRange(I32, |f.kwargNames|) && AllIn(I64, f.kwargNames) && InRange(I16, f.asyncProgressStructSize)
    && InRange(I32, |LookupBytes(f)|)
    && (forall i :: 0 <= i < |f.insts| ==> InstOk(f.insts[i]))
    && InRange(I32, |Stream(f.insts)|)
    && (f.isCFunc != 0 ==> f.insts == [])
  }

  /** How the content of a global of that type is stored: not at all, as a word, or as units behind a length field. */
  datatype Layout = NoContent | OneWord | Units(length: Kind, unit: nat, limit: int)

  function LayoutOf(kind: Byte): Layout {
    if kind == VALTYPE_BOOL || kind == VALTYPE_INT64 || kind == VALTYPE_FUNCREF || kind == VALTYPE_CLASSREF
       || kind == VALTYPE_FLOAT64 then OneWord
    else if kind == VALTYPE_SHORTBYTES then Units(U8, 1, 7)
    else if kind == VALTYPE_CONSTPREALLOCBYTES then Units(I32, 1, 0x7FFF_FFFF)
    else if kind == VALTYPE_SHORTSTR then Units(U8, SIZEOF_H64WCHAR, 2)
    else if kind == VALTYPE_CONSTPREALLOCSTR then Units(I32, SIZEOF_H64WCHAR, 0x7FFF_FFFF)
    else NoContent // none, 0, and unspecified keyword argument, 13; other types are reported and their content dropped
  }

  ghost predicate GlobalOk(g: Global) {
    && InRange(U8, g.isSimpleConstant) && InRange(U8, g.isConst)
    && match LayoutOf(g.kind)
       case NoContent => true
       case OneWord => g.content.Word? && InRange(I64, g.content.n)
       case Units(_, unit, limit) => g.content.Data? && |g.content.bytes| % unit == 0 && |g.content.bytes| / unit <= limit
  }

  function IndexFields(x: Indexes): (ns: seq<int>)
    ensures |ns| == 18
  {
    [x.mainFunc, x.globalInitSimpleFunc, x.globalInitFunc, x.hasAttrFunc, x.isAFunc,
     x.asBytesName, x.asStrName, x.lenName, x.initName, x.onClonedName, x.onDestroyName,
     x.addName, x.delName, x.containsName, x.isAName,
     x.ioFileClass, x.netStreamClass, x.uriClass]
  }

  const INDEX_KINDS: seq<Kind> :=
    [I32, I32, I32, I32, I32, I64, I64, I64, I64, I64, I64, I64, I64, I64, I64, I32, I32, I32]

  ghost predicate ProgramOk(p: Program) {
    && InRange(I32, |p.classes|) && (forall i :: 0 <= i < |p.classes| ==> ClassOk(p.classes[i]))
    && InRange(I32, |p.funcs|) && (forall i :: 0 <= i < |p.funcs| ==> FuncOk(p.funcs[i]))
    && Fit(INDEX_KINDS, IndexFields(p.indexes))
    && InRange(I32, |p.globals|) && (forall i :: 0 <= i < |p.globals| ==> GlobalOk(p.globals[i]))
  }

  // ------------------------------------------------- what an image can bring back

  function StoredInsts(insts: seq<Inst>): seq<Inst> { seq(|insts|, i requires 0 <= i < |insts| => ForgetPointer(insts[i])) }

  /** Pointers are forgotten and a null lookup name reads back as an empty one. */
  function StoredFunc(f: Func): Func { f.(cfuncLookup := Some(LookupBytes(f)), insts := StoredInsts(f.insts)) }

  /** Content of a type that images do not support is lost. */
  function StoredGlobal(g: Global): Global { if LayoutOf(g.kind).NoContent? then g.(content := Nothing) else g }

  function StoredFuncs(fs: seq<Func>): seq<Func> { seq(|fs|, i requires 0 <= i < |fs| => StoredFunc(fs[i])) }

  function StoredGlobals(gs: seq<Global>): seq<Global> { seq(|gs|, i requires 0 <= i < |gs| => StoredGlobal(gs[i])) }

  function Stored(p: Program): Program { p.(funcs := StoredFuncs(p.funcs), globals := StoredGlobals(p.globals)) }
}
