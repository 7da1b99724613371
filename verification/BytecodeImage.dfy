/**
 Dumping a program to an image and restoring it (horse64/bytecodeserialize.c): the format,
 its round trip, and what the loader does with an image that is cut short.
 */
module BytecodeImage {
  import opened Options
  import opened Words
  import opened Bytecode
  import ClassAttributes

  /** "\x01H64BCODE_V1\x01" */
  const HEADER: seq<Byte> := [1, 72, 54, 52, 66, 67, 79, 68, 69, 95, 86, 49, 1]

  // ------------------------------------------------------------------------- classes

  const CLASS_HEAD: seq<Kind> := [I32, U8, U8, U8, U8, I16]

  function ClassHead(c: Class): (ns: seq<int>)
    ensures |ns| == 6
  {
    [c.baseClassGlobalId, c.isError, c.isThreadable, c.userSetParallel, c.hasEqualsAttr, |c.funcattrNames|]
  }

  function PutClass(c: Class, rest: seq<Byte>): seq<Byte> {
    PutFields(CLASS_HEAD, ClassHead(c),
    PutFields(Array(I64, |c.funcattrNames|), c.funcattrNames,
    PutFields(Array(I32, |c.funcattrFuncs|), c.funcattrFuncs,
    PutFields([I16], [|c.varattrNames|],
    PutFields(Array(I64, |c.varattrNames|), c.varattrNames,
    PutFields(Array(U8, |c.varattrFlags|), c.varattrFlags,
    PutFields([I32, I32], [c.hasVarInitFunc, c.varInitFuncIdx], rest)))))))
  }

  function LoadClass(b: seq<Byte>): (r: Load<Class>)
    ensures r.Loaded? ==> |r.value.funcattrNames| == |r.value.funcattrFuncs| && |r.value.varattrNames| == |r.value.varattrFlags|
  {
    var (head, b1) :- LoadFields(CLASS_HEAD, b);
    if head[5] < 0 then Refused else
    var (funcNames, b2) :- LoadFields(Array(I64, head[5]), b1);
    var (funcs, b3) :- LoadFields(Array(I32, head[5]), b2);
    var (count, b4) :- LoadFields([I16], b3);
    if count[0] < 0 then Refused else
    var (varNames, b5) :- LoadFields(Array(I64, count[0]), b4);
    var (flags, b6) :- LoadFields(Array(U8, count[0]), b5);
    var (init, b7) :- LoadFields([I32, I32], b6);
    Loaded(Class(head[0], head[1], head[2], head[3], head[4], funcNames, funcs, varNames, flags, init[0], init[1]), b7)
  }

  lemma ClassRoundTrip(c: Class, rest: seq<Byte>)
    requires ClassOk(c)
    ensures LoadClass(PutClass(c, rest)) == Loaded(c, rest)
  {
    hide LoadFields, PutFields;
    var n, m := |c.funcattrNames|, |c.varattrNames|;
    var b7 := PutFields([I32, I32], [c.hasVarInitFunc, c.varInitFuncIdx], rest);
    var b6 := PutFields(Array(U8, m), c.varattrFlags, b7);
    var b5 := PutFields(Array(I64, m), c.varattrNames, b6);
    var b4 := PutFields([I16], [m], b5);
    var b3 := PutFields(Array(I32, n), c.funcattrFuncs, b4);
    var b2 := PutFields(Array(I64, n), c.funcattrNames, b3);
    FieldsRoundTrip(CLASS_HEAD, ClassHead(c), b2);
    FieldsRoundTrip(Array(I64, n), c.funcattrNames, b3);
    FieldsRoundTrip(Array(I32, n), c.funcattrFuncs, b4);
    FieldsRoundTrip([I16], [m], b5);
    FieldsRoundTrip(Array(I64, m), c.varattrNames, b6);
    FieldsRoundTrip(Array(U8, m), c.varattrFlags, b7);
    FieldsRoundTrip([I32, I32], [c.hasVarInitFunc, c.varInitFuncIdx], rest);
  }

  lemma ClassStable(b: seq<Byte>, more: seq<Byte>)
    requires LoadClass(b).Loaded?
    ensures LoadClass(b + more) == Loaded(LoadClass(b).value, LoadClass(b).rest + more)
  {
    hide LoadFields;
    var h := LoadFields(CLASS_HEAD, b);
    FieldsStable(CLASS_HEAD, b, more);
    var n := h.value[5];
    var names := LoadFields(Array(I64, n), h.rest);
    FieldsStable(Array(I64, n), h.rest, more);
    var funcs := LoadFields(Array(I32, n), names.rest);
    FieldsStable(Array(I32, n), names.rest, more);
    var count := LoadFields([I16], funcs.rest);
    FieldsStable([I16], funcs.rest, more);
    var m := count.value[0];
    var vars := LoadFields(Array(I64, m), count.rest);
    FieldsStable(Array(I64, m), count.rest, more);
    var flags := LoadFields(Array(U8, m), vars.rest);
    FieldsStable(Array(U8, m), vars.rest, more);
    FieldsStable([I32, I32], flags.rest, more);
  }

  function PutClasses(cs: seq<Class>, rest: seq<Byte>): seq<Byte> {
    if |cs| == 0 then rest else PutClass(cs[0], PutClasses(cs[1..], rest))
  }

  function LoadClasses(n: nat, b: seq<Byte>): (r: Load<seq<Class>>)
    ensures r.Loaded? ==> |r.value| == n
  {
    if n == 0 then Loaded([], b)
    else
      var (c, b1) :- LoadClass(b);
      var (tail, b2) :- LoadClasses(n - 1, b1);
      Loaded([c] + tail, b2)
  }

  lemma {:induction false} ClassesRoundTrip(cs: seq<Class>, rest: seq<Byte>)
    requires forall i :: 0 <= i < |cs| ==> ClassOk(cs[i])
    ensures LoadClasses(|cs|, PutClasses(cs, rest)) == Loaded(cs, rest)
  {
    hide LoadClass, PutClass, ClassOk;
    if |cs| > 0 {
      ClassRoundTrip(cs[0], PutClasses(cs[1..], rest));
      ClassesRoundTrip(cs[1..], rest);
      assert cs == [cs[0]] + cs[1..];
    }
  }

  lemma {:induction false} ClassesStable(n: nat, b: seq<Byte>, more: seq<Byte>)
    requires LoadClasses(n, b).Loaded?
    ensures LoadClasses(n, b + more) == Loaded(LoadClasses(n, b).value, LoadClasses(n, b).rest + more)
  {
    hide LoadClass;
    if n > 0 {
      ClassStable(b, more);
      ClassesStable(n - 1, LoadClass(b).rest, more);
    }
  }

  // -------------------------------------------------- instructions and their constants

  /** The out-of-line constants of the instructions, each behind its 64-bit length. */
  function PutConsts(insts: seq<Inst>, rest: seq<Byte>): seq<Byte> {
    if |insts| == 0 then rest
    else if ConstUnit(insts[0].image) == 0 then PutConsts(insts[1..], rest)
    else PutFields([I64], [ConstLength(insts[0].image)], insts[0].data + PutConsts(insts[1..], rest))
  }

  /** A loaded constant in its instruction: the pointer is forgotten, the length is cut to 32 bits. */
  function Attach(image: seq<Byte>, len: int, data: seq<Byte>): Inst
    requires |image| == SETCONST_SIZE
  {
    Inst(image[..POINTER_AT] + [0, 0, 0, 0, 0, 0, 0, 0] + Encode(I32, len) + image[LENGTH_AT + 4..], data)
  }

  /** Walk the loaded stream and load the constant of each instruction that has one. */
  function LoadConsts(stream: seq<Byte>, b: seq<Byte>): Load<seq<Inst>> {
    if |stream| == 0 then Loaded([], b)
    else
      var size := InstructionSize(stream[0]);
      if size == 0 || size > |stream| then Refused
      else
        var image := stream[..size];
        if ConstUnit(image) == 0 then
          var (tail, rest) :- LoadConsts(stream[size..], b);
          Loaded([Inst(image, [])] + tail, rest)
        else
          var (len, b1) :- LoadFields([I64], b);
          var (data, b2) :- LoadRaw(len[0] * ConstUnit(image), b1);
          var (tail, rest) :- LoadConsts(stream[size..], b2);
          Loaded([Attach(image, len[0], data)] + tail, rest)
  }

  /** Attaching the constant an instruction was dumped with gives the instruction back, but for the pointer. */
  lemma AttachRestores(inst: Inst)
    requires InstOk(inst) && ConstUnit(inst.image) != 0
    ensures Attach(inst.image, ConstLength(inst.image), inst.data) == ForgetPointer(inst)
  {
    var image := inst.image;
    ImageRoundTrip(I32, image[LENGTH_AT..LENGTH_AT + 4]);
    assert image[LENGTH_AT..] == image[LENGTH_AT..LENGTH_AT + 4] + image[LENGTH_AT + 4..];
    var front := image[..POINTER_AT] + [0, 0, 0, 0, 0, 0, 0, 0];
    assert (front + image[LENGTH_AT..LENGTH_AT + 4]) + image[LENGTH_AT + 4..]
        == front + (image[LENGTH_AT..LENGTH_AT + 4] + image[LENGTH_AT + 4..]);
  }

  lemma ConstLengthFits(inst: Inst)
    requires InstOk(inst) && ConstUnit(inst.image) != 0
    ensures Fit([I64], [ConstLength(inst.image)])
  {
    ImageRoundTrip(I32, inst.image[LENGTH_AT..LENGTH_AT + 4]);
  }

  lemma {:induction false} ConstsRoundTrip(insts: seq<Inst>, rest: seq<Byte>)
    requires forall i :: 0 <= i < |insts| ==> InstOk(insts[i])
    ensures LoadConsts(Stream(insts), PutConsts(insts, rest)) == Loaded(StoredInsts(insts), rest)
  {
    hide LoadFields, PutFields, LoadRaw, Attach, ForgetPointer, ConstLength, InstructionSize, ConstUnit;
    if |insts| > 0 {
      var head, tail := insts[0], Stream(insts[1..]);
      var stream := Stream(insts);
      assert InstOk(head);
      assert stream[..|head.image|] == head.image && stream[|head.image|..] == tail;
      ConstsRoundTrip(insts[1..], rest);
      assert StoredInsts(insts) == [ForgetPointer(head)] + StoredInsts(insts[1..]);
      if ConstUnit(head.image) == 0 {
        ForgetNothing(head);
      } else {
        ConstLengthFits(head);
        FieldsRoundTrip([I64], [ConstLength(head.image)], head.data + PutConsts(insts[1..], rest));
        RawRoundTrip(head.data, PutConsts(insts[1..], rest));
        AttachRestores(head);
      }
    }
  }

  lemma ForgetNothing(inst: Inst)
    requires ConstUnit(inst.image) == 0
    ensures ForgetPointer(inst) == inst
  {
  }

  lemma {:induction false} ConstsStable(stream: seq<Byte>, b: seq<Byte>, more: seq<Byte>)
    requires LoadConsts(stream, b).Loaded?
    ensures LoadConsts(stream, b + more) == Loaded(LoadConsts(stream, b).value, LoadConsts(stream, b).rest + more)
    decreases |stream|
  {
    hide LoadFields, LoadRaw, Attach, InstructionSize, ConstUnit;
    if |stream| > 0 {
      var size := InstructionSize(stream[0]);
      var image := stream[..size];
      if ConstUnit(image) == 0 {
        ConstsStable(stream[size..], b, more);
      } else {
        var len := LoadFields([I64], b);
        FieldsStable([I64], b, more);
        var data := LoadRaw(len.value[0] * ConstUnit(image), len.rest);
        RawStable(len.value[0] * ConstUnit(image), len.rest, more);
        ConstsStable(stream[size..], data.rest, more);
      }
    }
  }

  // ----------------------------------------------------------------------- functions

  const FUNC_HEAD: seq<Kind> := [I32, I32, I32, I32, I32, I32]

  function FuncHead(f: Func): (ns: seq<int>)
    ensures |ns| == 6
  {
    [f.inputStackSize, f.innerStackSize, f.isCFunc, f.isThreadable, f.userSetParallel, |f.kwargNames|]
  }

  /** The instruction stream and its constants; C functions have none. */
  function PutBody(f: Func, rest: seq<Byte>): seq<Byte> {
    if f.isCFunc != 0 then rest
    else PutFields([I32], [|Stream(f.insts)|], Stream(f.insts) + PutConsts(f.insts, rest))
  }

  function PutFunc(f: Func, rest: seq<Byte>): seq<Byte> {
    PutFields(FUNC_HEAD, FuncHead(f),
    PutFields(Array(I64, |f.kwargNames|), f.kwargNames,
    PutFields([I16, I32], [f.asyncProgressStructSize, |LookupBytes(f)|],
    LookupBytes(f) + PutBody(f, rest))))
  }

  function LoadBody(isCFunc: int, b: seq<Byte>): Load<seq<Inst>> {
    if isCFunc != 0 then Loaded([], b)
    else
      var (size, b1) :- LoadFields([I32], b);
      var (stream, b2) :- LoadRaw(size[0], b1);
      LoadConsts(stream, b2)
  }

  function LoadFunc(b: seq<Byte>): Load<Func> {
    var (head, b1) :- LoadFields(FUNC_HEAD, b);
    if head[5] < 0 then Refused else
    var (kwargs, b2) :- LoadFields(Array(I64, head[5]), b1);
    var (sizes, b3) :- LoadFields([I16, I32], b2);
    var (lookup, b4) :- LoadRaw(sizes[1], b3);
    var (insts, b5) :- LoadBody(head[2], b4);
    Loaded(Func(head[0], head[1], head[2], head[3], head[4], kwargs, sizes[0], Some(lookup), insts), b5)
  }

  lemma BodyRoundTrip(f: Func, rest: seq<Byte>)
    requires FuncOk(f)
    ensures LoadBody(f.isCFunc, PutBody(f, rest)) == Loaded(StoredInsts(f.insts), rest)
  {
    hide LoadFields, PutFields, LoadRaw, InstOk;
    if f.isCFunc == 0 {
      var stream := Stream(f.insts);
      FieldsRoundTrip([I32], [|stream|], stream + PutConsts(f.insts, rest));
      RawRoundTrip(stream, PutConsts(f.insts, rest));
      ConstsRoundTrip(f.insts, rest);
    } else {
      assert StoredInsts([]) == [];
    }
  }

  lemma {:induction false} FuncRoundTrip(f: Func, rest: seq<Byte>)
    requires FuncOk(f)
    ensures LoadFunc(PutFunc(f, rest)) == Loaded(StoredFunc(f), rest)
  {
    hide LoadFields, PutFields, LoadRaw, LoadBody, PutBody, StoredInsts, Stream;
    var lookup := LookupBytes(f);
    var b4 := PutBody(f, rest);
    var b3 := lookup + b4;
    var b2 := PutFields([I16, I32], [f.asyncProgressStructSize, |lookup|], b3);
    var b1 := PutFields(Array(I64, |f.kwargNames|), f.kwargNames, b2);
    FieldsRoundTrip(FUNC_HEAD, FuncHead(f), b1);
    FieldsRoundTrip(Array(I64, |f.kwargNames|), f.kwargNames, b2);
    FieldsRoundTrip([I16, I32], [f.asyncProgressStructSize, |lookup|], b3);
    RawRoundTrip(lookup, b4);
    BodyRoundTrip(f, rest);
  }

  lemma BodyStable(isCFunc: int, b: seq<Byte>, more: seq<Byte>)
    requires LoadBody(isCFunc, b).Loaded?
    ensures LoadBody(isCFunc, b + more) == Loaded(LoadBody(isCFunc, b).value, LoadBody(isCFunc, b).rest + more)
  {
    hide LoadFields, LoadRaw;
    if isCFunc == 0 {
      var size := LoadFields([I32], b);
      FieldsStable([I32], b, more);
      var stream := LoadRaw(size.value[0], size.rest);
      RawStable(size.value[0], size.rest, more);
      ConstsStable(stream.value, stream.rest, more);
    }
  }

  lemma FuncStable(b: seq<Byte>, more: seq<Byte>)
    requires LoadFunc(b).Loaded?
    ensures LoadFunc(b + more) == Loaded(LoadFunc(b).value, LoadFunc(b).rest + more)
  {
    hide LoadFields, LoadRaw, LoadBody;
    var head := LoadFields(FUNC_HEAD, b);
    FieldsStable(FUNC_HEAD, b, more);
    var kwargs := LoadFields(Array(I64, head.value[5]), head.rest);
    FieldsStable(Array(I64, head.value[5]), head.rest, more);
    var sizes := LoadFields([I16, I32], kwargs.rest);
    FieldsStable([I16, I32], kwargs.rest, more);
    var lookup := LoadRaw(sizes.value[1], sizes.rest);
    RawStable(sizes.value[1], sizes.rest, more);
    BodyStable(head.value[2], lookup.rest, more);
  }

  function PutFuncs(fs: seq<Func>, rest: seq<Byte>): seq<Byte> {
    if |fs| == 0 then rest else PutFunc(fs[0], PutFuncs(fs[1..], rest))
  }

  function LoadFuncs(n: nat, b: seq<Byte>): (r: Load<seq<Func>>)
    ensures r.Loaded? ==> |r.value| == n
  {
    if n == 0 then Loaded([], b)
    else
      var (f, b1) :- LoadFunc(b);
      var (tail, b2) :- LoadFuncs(n - 1, b1);
      Loaded([f] + tail, b2)
  }

  lemma {:induction false} FuncsRoundTrip(fs: seq<Func>, rest: seq<Byte>)
    requires forall i :: 0 <= i < |fs| ==> FuncOk(fs[i])
    ensures LoadFuncs(|fs|, PutFuncs(fs, rest)) == Loaded(StoredFuncs(fs), rest)
  {
    hide LoadFunc, PutFunc, FuncOk, StoredFunc;
    if |fs| > 0 {
      FuncRoundTrip(fs[0], PutFuncs(fs[1..], rest));
      FuncsRoundTrip(fs[1..], rest);
      assert StoredFuncs(fs) == [StoredFunc(fs[0])] + StoredFuncs(fs[1..]);
    }
  }

  lemma {:induction false} FuncsStable(n: nat, b: seq<Byte>, more: seq<Byte>)
    requires LoadFuncs(n, b).Loaded?
    ensures LoadFuncs(n, b + more) == Loaded(LoadFuncs(n, b).value, LoadFuncs(n, b).rest + more)
  {
    hide LoadFunc;
    if n > 0 {
      FuncStable(b, more);
      FuncsStable(n - 1, LoadFunc(b).rest, more);
    }
  }

  // ------------------------------------------------------------------------- globals

  function PutContent(g: Global, rest: seq<Byte>): seq<Byte> {
    match LayoutOf(g.kind)
    case NoContent => rest
    case OneWord => PutFields([I64], [if g.content.Word? then g.content.n else 0], rest)
    case Units(length, unit, _) =>
      var bytes := if g.content.Data? then g.content.bytes else [];
      PutFields([length], [|bytes| / unit], bytes + rest)
  }

  function PutGlobal(g: Global, rest: seq<Byte>): seq<Byte> {
    PutFields([U8], [g.kind], PutContent(g, PutFields([U8, U8], [g.isSimpleConstant, g.isConst], rest)))
  }

  /** More units than the value has room for are refused. */
  function LoadContent(kind: Byte, b: seq<Byte>): Load<Content> {
    match LayoutOf(kind)
    case NoContent => Loaded(Nothing, b)
    case OneWord =>
      var (n, b1) :- LoadFields([I64], b);
      Loaded(Word(n[0]), b1)
    case Units(length, unit, limit) =>
      var (n, b1) :- LoadFields([length], b);
      if n[0] > limit then Refused else
      var (data, b2) :- LoadRaw(n[0] * unit, b1);
      Loaded(Data(data), b2)
  }

  function LoadGlobal(b: seq<Byte>): Load<Global> {
    var (kind, b1) :- LoadFields([U8], b);
    if !(0 <= kind[0] < 256) then Refused else
    var (content, b2) :- LoadContent(kind[0], b1);
    var (flags, b3) :- LoadFields([U8, U8], b2);
    Loaded(Global(kind[0], content, flags[0], flags[1]), b3)
  }

  lemma ContentRoundTrip(g: Global, rest: seq<Byte>)
    requires GlobalOk(g)
    ensures LoadContent(g.kind, PutContent(g, rest)) == Loaded(StoredGlobal(g).content, rest)
  {
    hide LoadFields, PutFields, LoadRaw;
    match LayoutOf(g.kind)
    case NoContent =>
    case OneWord => FieldsRoundTrip([I64], [g.content.n], rest);
    case Units(length, unit, limit) =>
      var bytes := g.content.bytes;
      FieldsRoundTrip([length], [|bytes| / unit], bytes + rest);
      RawRoundTrip(bytes, rest);
  }

  lemma GlobalRoundTrip(g: Global, rest: seq<Byte>)
    requires GlobalOk(g)
    ensures LoadGlobal(PutGlobal(g, rest)) == Loaded(StoredGlobal(g), rest)
  {
    hide LoadFields, PutFields, LoadContent, PutContent;
    var b2 := PutFields([U8, U8], [g.isSimpleConstant, g.isConst], rest);
    FieldsRoundTrip([U8], [g.kind], PutContent(g, b2));
    ContentRoundTrip(g, b2);
    FieldsRoundTrip([U8, U8], [g.isSimpleConstant, g.isConst], rest);
  }

  lemma ContentStable(kind: Byte, b: seq<Byte>, more: seq<Byte>)
    requires LoadContent(kind, b).Loaded?
    ensures LoadContent(kind, b + more) == Loaded(LoadContent(kind, b).value, LoadContent(kind, b).rest + more)
  {
    hide LoadFields, LoadRaw;
    match LayoutOf(kind)
    case NoContent =>
    case OneWord => FieldsStable([I64], b, more);
    case Units(length, unit, _) =>
      FieldsStable([length], b, more);
      var n := LoadFields([length], b);
      RawStable(n.value[0] * unit, n.rest, more);
  }

  lemma GlobalStable(b: seq<Byte>, more: seq<Byte>)
    requires LoadGlobal(b).Loaded?
    ensures LoadGlobal(b + more) == Loaded(LoadGlobal(b).value, LoadGlobal(b).rest + more)
  {
    hide LoadFields, LoadContent;
    var kind := LoadFields([U8], b);
    FieldsStable([U8], b, more);
    var content := LoadContent(kind.value[0], kind.rest);
    ContentStable(kind.value[0], kind.rest, more);
    FieldsStable([U8, U8], content.rest, more);
  }

  function PutGlobals(gs: seq<Global>, rest: seq<Byte>): seq<Byte> {
    if |gs| == 0 then rest else PutGlobal(gs[0], PutGlobals(gs[1..], rest))
  }

  function LoadGlobals(n: nat, b: seq<Byte>): (r: Load<seq<Global>>)
    ensures r.Loaded? ==> |r.value| == n
  {
    if n == 0 then Loaded([], b)
    else
      var (g, b1) :- LoadGlobal(b);
      var (tail, b2) :- LoadGlobals(n - 1, b1);
      Loaded([g] + tail, b2)
  }

  lemma {:induction false} GlobalsRoundTrip(gs: seq<Global>, rest: seq<Byte>)
    requires forall i :: 0 <= i < |gs| ==> GlobalOk(gs[i])
    ensures LoadGlobals(|gs|, PutGlobals(gs, rest)) == Loaded(StoredGlobals(gs), rest)
  {
    hide LoadGlobal, PutGlobal, GlobalOk, StoredGlobal;
    if |gs| > 0 {
      GlobalRoundTrip(gs[0], PutGlobals(gs[1..], rest));
      GlobalsRoundTrip(gs[1..], rest);
      assert StoredGlobals(gs) == [StoredGlobal(gs[0])] + StoredGlobals(gs[1..]);
    }
  }

  lemma {:induction false} GlobalsStable(n: nat, b: seq<Byte>, more: seq<Byte>)
    requires LoadGlobals(n, b).Loaded?
    ensures LoadGlobals(n, b + more) == Loaded(LoadGlobals(n, b).value, LoadGlobals(n, b).rest + more)
  {
    hide LoadGlobal;
    if n > 0 {
      GlobalStable(b, more);
      GlobalsStable(n - 1, LoadGlobal(b).rest, more);
    }
  }

  // ------------------------------------------------------------------- whole programs

  function FromIndexFields(ns: seq<int>): Indexes
    requires |ns| == 18
  {
    Indexes(ns[0], ns[1], ns[2], ns[3], ns[4], ns[5], ns[6], ns[7], ns[8], ns[9], ns[10], ns[11], ns[12], ns[13], ns[14],
            ns[15], ns[16], ns[17])
  }

  function PutProgram(p: Program, rest: seq<Byte>): seq<Byte> {
    HEADER +
    PutFields([I32], [|p.classes|], PutClasses(p.classes,
    PutFields([I32], [|p.funcs|], PutFuncs(p.funcs,
    PutFields(INDEX_KINDS, IndexFields(p.indexes),
    PutFields([I32], [|p.globals|], PutGlobals(p.globals, rest)))))))
  }

  /** The image h64program_Dump writes. */
  function Image(p: Program): seq<Byte> { PutProgram(p, []) }

  function LoadProgram(b: seq<Byte>): Load<Program> {
    var (header, b1) :- LoadRaw(|HEADER|, b);
    if header != HEADER then Refused else
    var (nc, b2) :- LoadFields([I32], b1);
    if nc[0] < 0 then Refused else
    var (classes, b3) :- LoadClasses(nc[0], b2);
    var (nf, b4) :- LoadFields([I32], b3);
    if nf[0] < 0 then Refused else
    var (funcs, b5) :- LoadFuncs(nf[0], b4);
    var (ix, b6) :- LoadFields(INDEX_KINDS, b5);
    var (ng, b7) :- LoadFields([I32], b6);
    if ng[0] < 0 then Refused else
    var (globals, b8) :- LoadGlobals(ng[0], b7);
    Loaded(Program(classes, funcs, FromIndexFields(ix), globals), b8)
  }

  lemma ProgramRoundTrip(p: Program, rest: seq<Byte>)
    requires ProgramOk(p)
    ensures LoadProgram(PutProgram(p, rest)) == Loaded(Stored(p), rest)
  {
    hide LoadFields, PutFields, LoadRaw, LoadClasses, LoadFuncs, LoadGlobals, PutClasses, PutFuncs, PutGlobals, ClassOk, FuncOk, GlobalOk;
    var b7 := PutGlobals(p.globals, rest);
    var b6 := PutFields([I32], [|p.globals|], b7);
    var b5 := PutFields(INDEX_KINDS, IndexFields(p.indexes), b6);
    var b4 := PutFuncs(p.funcs, b5);
    var b3 := PutFields([I32], [|p.funcs|], b4);
    var b2 := PutClasses(p.classes, b3);
    var b1 := PutFields([I32], [|p.classes|], b2);
    RawRoundTrip(HEADER, b1);
    FieldsRoundTrip([I32], [|p.classes|], b2);
    ClassesRoundTrip(p.classes, b3);
    FieldsRoundTrip([I32], [|p.funcs|], b4);
    FuncsRoundTrip(p.funcs, b5);
    FieldsRoundTrip(INDEX_KINDS, IndexFields(p.indexes), b6);
    FieldsRoundTrip([I32], [|p.globals|], b7);
    GlobalsRoundTrip(p.globals, rest);
    hide StoredFuncs, StoredGlobals;
    assert FromIndexFields(IndexFields(p.indexes)) == p.indexes;
  }

  lemma ProgramStable(b: seq<Byte>, more: seq<Byte>)
    requires LoadProgram(b).Loaded?
    ensures LoadProgram(b + more) == Loaded(LoadProgram(b).value, LoadProgram(b).rest + more)
  {
    hide LoadFields, LoadRaw, LoadClasses, LoadFuncs, LoadGlobals;
    var header := LoadRaw(|HEADER|, b);
    RawStable(|HEADER|, b, more);
    var nc := LoadFields([I32], header.rest);
    FieldsStable([I32], header.rest, more);
    var classes := LoadClasses(nc.value[0], nc.rest);
    ClassesStable(nc.value[0], nc.rest, more);
    var nf := LoadFields([I32], classes.rest);
    FieldsStable([I32], classes.rest, more);
    var funcs := LoadFuncs(nf.value[0], nf.rest);
    FuncsStable(nf.value[0], nf.rest, more);
    var ix := LoadFields(INDEX_KINDS, funcs.rest);
    FieldsStable(INDEX_KINDS, funcs.rest, more);
    var ng := LoadFields([I32], ix.rest);
    FieldsStable([I32], ix.rest, more);
    GlobalsStable(ng.value[0], ng.rest, more);
  }

  // -------------------------------------------------------------------- main results

  /** Rebuilding the attribute buckets of the class succeeds. */
  ghost predicate RebuildOk(c: Class) {
    && ClassAttributes.Distinct(c.varattrNames + c.funcattrNames)
    && (forall i :: 0 <= i < |c.varattrNames| ==> c.varattrNames[i] >= 0)
    && (forall i :: 0 <= i < |c.funcattrNames| ==> c.funcattrNames[i] >= 0)
  }

  ghost predicate AllRebuildOk(p: Program) { forall i :: 0 <= i < |p.classes| ==> RebuildOk(p.classes[i]) }

  /** What h64program_Restore makes of an input; bytes behind the image are ignored. */
  ghost function Restore(b: seq<Byte>): Option<Program> {
    var r := LoadProgram(b);
    if r.Loaded? && AllRebuildOk(r.value) then Some(r.value) else None
  }

  /** The image is consumed exactly, and what comes back is the program as far as images store it. */
  lemma RestoreOfDump(p: Program)
    requires ProgramOk(p)
    ensures LoadProgram(Image(p)) == Loaded(Stored(p), [])
    ensures Restore(Image(p)) == if AllRebuildOk(p) then Some(Stored(p)) else None
  {
    hide LoadProgram, PutProgram, StoredFuncs, StoredGlobals;
    ProgramRoundTrip(p, []);
  }

  /**
   The globals an image keeps with their content, kind by kind: an integer, float, boolean, function or class reference
   is a 64-bit word; a short string has at most two characters of four bytes, short bytes at most seven; the others may
   be as long as a 32-bit length says; none and an unspecified keyword argument have no content.
   */
  ghost predicate KeptWhole(g: Global) {
    && 0 <= g.isSimpleConstant < 256 && 0 <= g.isConst < 256
    && match g.content
       case Nothing => g.kind in [0, 13]
       case Word(n) => g.kind in [1, 2, 3, 4, 5] && -0x8000_0000_0000_0000 <= n < 0x8000_0000_0000_0000
       case Data(bytes) =>
         || (g.kind == 8 && |bytes| in [0, 4, 8])
         || (g.kind == 9 && |bytes| % 4 == 0 && |bytes| / 4 < 0x8000_0000)
         || (g.kind == 10 && |bytes| <= 7)
         || (g.kind == 11 && |bytes| < 0x8000_0000)
  }

  /** Such a global comes back as it was. */
  lemma KindsComeBack(g: Global, rest: seq<Byte>)
    requires KeptWhole(g)
    ensures LoadGlobal(PutGlobal(g, rest)) == Loaded(g, rest)
  {
    hide LoadGlobal, PutGlobal;
    GlobalRoundTrip(g, rest);
  }

  /** And so do all globals of a program that has no others. */
  lemma GlobalsComeBack(p: Program)
    requires ProgramOk(p) && forall i :: 0 <= i < |p.globals| ==> KeptWhole(p.globals[i])
    ensures LoadProgram(Image(p)) == Loaded(p.(funcs := StoredFuncs(p.funcs)), [])
  {
    hide LoadProgram, PutProgram, ClassOk, FuncOk, StoredFuncs;
    RestoreOfDump(p);
    forall i | 0 <= i < |p.globals| ensures StoredGlobal(p.globals[i]) == p.globals[i] {
      assert KeptWhole(p.globals[i]);
    }
    assert StoredGlobals(p.globals) == p.globals;
  }

  /** A function comes back with its lookup name, or an empty one if it had none, and its instructions without pointers. */
  lemma FuncComesBack(f: Func, rest: seq<Byte>)
    requires FuncOk(f)
    ensures var r := LoadFunc(PutFunc(f, rest));
            && r.Loaded? && r.rest == rest && |r.value.insts| == |f.insts|
            && r.value == f.(cfuncLookup := Some(match f.cfuncLookup case Some(name) => name case None => []),
                             insts := r.value.insts)
            && forall i :: 0 <= i < |f.insts| ==> r.value.insts[i] == ForgetPointer(f.insts[i])
  {
    hide LoadFunc, PutFunc, FuncOk, ForgetPointer;
    FuncRoundTrip(f, rest);
  }

  /** A dump is restored exactly if no class has a name twice among its variables and methods, and no id is negative. */
  lemma RestoredExactly(p: Program)
    requires ProgramOk(p)
    ensures Restore(Image(p)).Some? <==>
            forall k :: 0 <= k < |p.classes| ==>
              var names := p.classes[k].varattrNames + p.classes[k].funcattrNames;
              && (forall i, j :: 0 <= i < j < |names| ==> names[i] != names[j])
              && (forall i :: 0 <= i < |names| ==> names[i] >= 0)
  {
    hide ProgramOk, Restore, Image, Stored;
    RestoreOfDump(p);
    forall k | 0 <= k < |p.classes|
      ensures RebuildOk(p.classes[k]) <==>
              var names := p.classes[k].varattrNames + p.classes[k].funcattrNames;
              && (forall i, j :: 0 <= i < j < |names| ==> names[i] != names[j])
              && (forall i :: 0 <= i < |names| ==> names[i] >= 0)
    {
      RebuiltExactly(p.classes[k]);
    }
  }

  lemma RebuiltExactly(c: Class)
    ensures RebuildOk(c) <==>
            var names := c.varattrNames + c.funcattrNames;
            && (forall i, j :: 0 <= i < j < |names| ==> names[i] != names[j])
            && (forall i :: 0 <= i < |names| ==> names[i] >= 0)
  {
    var names := c.varattrNames + c.funcattrNames;
    if forall i :: 0 <= i < |names| ==> names[i] >= 0 {
      forall i | 0 <= i < |c.varattrNames| ensures c.varattrNames[i] >= 0 { assert names[i] == c.varattrNames[i]; }
      forall i | 0 <= i < |c.funcattrNames| ensures c.funcattrNames[i] >= 0 {
        assert names[|c.varattrNames| + i] == c.funcattrNames[i];
      }
    }
  }

  /** No image that is cut short is accepted, wherever it is cut. */
  lemma TruncationRefused(p: Program, n: nat)
    requires ProgramOk(p) && n < |Image(p)|
    ensures LoadProgram(Image(p)[..n]) == Refused && Restore(Image(p)[..n]) == None
  {
    hide LoadProgram, PutProgram, StoredFuncs, StoredGlobals;
    var b, more := Image(p)[..n], Image(p)[n..];
    if LoadProgram(b).Loaded? {
      ProgramStable(b, more);
      assert b + more == Image(p);
      ProgramRoundTrip(p, []);
    }
  }

  /** Bytes behind an accepted image change nothing. */
  lemma TrailingBytesIgnored(b: seq<Byte>, more: seq<Byte>)
    requires Restore(b).Some?
    ensures Restore(b + more) == Restore(b)
  {
    hide LoadProgram;
    ProgramStable(b, more);
  }

  lemma ForgetTwice(inst: Inst)
    requires InstOk(inst)
    ensures InstOk(ForgetPointer(inst)) && ForgetPointer(ForgetPointer(inst)) == ForgetPointer(inst)
    ensures |ForgetPointer(inst).image| == |inst.image|
  {
    if ConstUnit(inst.image) != 0 {
      var image := ForgetPointer(inst).image;
      assert image[LENGTH_AT..LENGTH_AT + 4] == inst.image[LENGTH_AT..LENGTH_AT + 4];
      assert image[..POINTER_AT] == inst.image[..POINTER_AT] && image[LENGTH_AT..] == inst.image[LENGTH_AT..];
      assert image[0] == inst.image[0] && image[CONTENT_TYPE_AT] == inst.image[CONTENT_TYPE_AT];
    }
  }

  lemma {:induction false} StoredStreamSize(insts: seq<Inst>)
    requires forall i :: 0 <= i < |insts| ==> InstOk(insts[i])
    ensures |Stream(StoredInsts(insts))| == |Stream(insts)|
  {
    hide InstOk, ForgetPointer;
    if |insts| > 0 {
      ForgetTwice(insts[0]);
      StoredStreamSize(insts[1..]);
      assert StoredInsts(insts)[1..] == StoredInsts(insts[1..]);
    }
  }

  lemma StoredFuncTwice(f: Func)
    requires FuncOk(f)
    ensures FuncOk(StoredFunc(f)) && StoredFunc(StoredFunc(f)) == StoredFunc(f)
  {
    hide InstOk, ForgetPointer, Stream;
    forall i | 0 <= i < |f.insts|
      ensures InstOk(ForgetPointer(f.insts[i])) && ForgetPointer(ForgetPointer(f.insts[i])) == ForgetPointer(f.insts[i])
    {
      ForgetTwice(f.insts[i]);
    }
    StoredStreamSize(f.insts);
    assert StoredInsts(StoredInsts(f.insts)) == StoredInsts(f.insts);
  }

  /** A restored program survives being dumped and restored again unchanged. */
  lemma SecondGeneration(p: Program)
    requires ProgramOk(p) && AllRebuildOk(p)
    ensures ProgramOk(Stored(p)) && Restore(Image(Stored(p))) == Restore(Image(p)) == Some(Stored(p))
  {
    hide LoadProgram, PutProgram, ClassOk, FuncOk, StoredFunc;
    forall i | 0 <= i < |p.funcs|
      ensures FuncOk(StoredFunc(p.funcs[i])) && StoredFunc(StoredFunc(p.funcs[i])) == StoredFunc(p.funcs[i])
    {
      StoredFuncTwice(p.funcs[i]);
    }
    assert StoredFuncs(StoredFuncs(p.funcs)) == StoredFuncs(p.funcs);
    assert StoredGlobals(StoredGlobals(p.globals)) == StoredGlobals(p.globals);
    RestoreOfDump(p);
    RestoreOfDump(Stored(p));
  }

  // ----------------------------------------------------------- C functions by their names

  /** A function of the program that is restored into: what C functions there are called and where they are. */
  datatype HostFunc = HostFunc(isCFunc: bool, lookup: seq<Byte>, address: int)

  /** The bytes in front of the terminating zero. */
  function CString(b: seq<Byte>): seq<Byte> {
    if |b| == 0 || b[0] == 0 then [] else [b[0]] + CString(b[1..])
  }

  predicate Matches(h: HostFunc, name: seq<Byte>) { h.isCFunc && CString(h.lookup) == CString(name) }

  /** The address of the last C function of that name, or none. */
  function AddressOf(host: seq<HostFunc>, name: seq<Byte>): Option<int> {
    if |host| == 0 then None
    else if Matches(host[|host| - 1], name) then Some(host[|host| - 1].address)
    else AddressOf(host[..|host| - 1], name)
  }

  /** A name is compared up to its first zero byte. */
  lemma {:induction false} CStringStops(name: seq<Byte>, junk: seq<Byte>)
    requires 0 !in name
    ensures CString(name) == name && CString(name + [0] + junk) == name
  {
    if |name| > 0 {
      CStringStops(name[1..], junk);
      assert (name + [0] + junk)[1..] == name[1..] + [0] + junk;
      assert name == [name[0]] + name[1..];
    }
  }

  /** A C function keeps no address if and only if the program restored into has no C function of its name. */
  lemma {:induction false} AddressMissing(host: seq<HostFunc>, name: seq<Byte>)
    ensures AddressOf(host, name) == None <==>
            forall i :: 0 <= i < |host| ==> !(host[i].isCFunc && CString(host[i].lookup) == CString(name))
  {
    if |host| > 0 { AddressMissing(host[..|host| - 1], name); }
  }

  /** It gets the address of the function it was dumped from, provided no later C function has the same name. */
  lemma {:induction false} AddressComesBack(host: seq<HostFunc>, name: seq<Byte>, i: nat)
    requires i < |host| && host[i].isCFunc && CString(host[i].lookup) == CString(name)
    requires forall k :: i < k < |host| ==> !(host[k].isCFunc && CString(host[k].lookup) == CString(name))
    ensures AddressOf(host, name) == Some(host[i].address)
  {
    if i < |host| - 1 { AddressComesBack(host[..|host| - 1], name, i); }
  }

  /** The loops that map the names of restored C functions to addresses. */
  method MapCFuncs(funcs: seq<Func>, host: seq<HostFunc>) returns (addresses: seq<Option<int>>)
    requires forall i :: 0 <= i < |funcs| ==> funcs[i].cfuncLookup.Some?
    ensures |addresses| == |funcs|
    ensures forall i :: 0 <= i < |funcs| ==>
              addresses[i] == if funcs[i].isCFunc != 0 then AddressOf(host, funcs[i].cfuncLookup.value) else None
  {
    addresses := [];
    for i := 0 to |funcs|
      invariant |addresses| == i
      invariant forall k :: 0 <= k < i ==>
                  addresses[k] == if funcs[k].isCFunc != 0 then AddressOf(host, funcs[k].cfuncLookup.value) else None
    {
      var address: Option<int> := None;
      if funcs[i].isCFunc != 0 {
        for i2 := 0 to |host|
          invariant address == AddressOf(host[..i2], funcs[i].cfuncLookup.value)
        {
          assert host[..i2 + 1][..i2] == host[..i2];
          if host[i2].isCFunc && CString(host[i2].lookup) == CString(funcs[i].cfuncLookup.value) {
            address := Some(host[i2].address);
          }
        }
        assert host[..|host|] == host;
      }
      addresses := addresses + [address];
    }
  }

  /** Every function of a restored program has a lookup name, so the loops never fail for want of one. */
  lemma {:induction false} LoadedNames(n: nat, b: seq<Byte>)
    requires LoadFuncs(n, b).Loaded?
    ensures forall i :: 0 <= i < n ==> LoadFuncs(n, b).value[i].cfuncLookup.Some?
  {
    hide LoadBody, LoadRaw, LoadFields;
    if n > 0 { LoadedNames(n - 1, LoadFunc(b).rest); }
  }

  // --------------------------------------------------------------- the loops as written

  /** What was loaded so far, followed by what r loads. */
  function Prepend<T>(done: seq<T>, r: Load<seq<T>>): Load<seq<T>> {
    match r
    case Refused => Refused
    case Loaded(tail, rest) => Loaded(done + tail, rest)
  }

  lemma PrependOne<T>(done: seq<T>, x: T, r: Load<seq<T>>)
    ensures Prepend(done, Prepend([x], r)) == Prepend(done + [x], r)
  {
    if r.Loaded? { assert done + ([x] + r.value) == (done + [x]) + r.value; }
  }

  lemma PrependNothing<T>(r: Load<seq<T>>)
    ensures Prepend([], r) == r
  {
    if r.Loaded? { assert [] + r.value == r.value; }
  }

  /** The walk over a loaded instruction stream. */
  method WalkStream(stream: seq<Byte>, b: seq<Byte>) returns (r: Load<seq<Inst>>)
    ensures r == LoadConsts(stream, b)
  {
    hide LoadFields, LoadRaw, Attach, InstructionSize, ConstUnit;
    var insts: seq<Inst>, pinst, pin := [], 0, b;
    PrependNothing(LoadConsts(stream, b));
    assert stream[0..] == stream;
    while pinst < |stream|
      invariant 0 <= pinst <= |stream|
      invariant LoadConsts(stream, b) == Prepend(insts, LoadConsts(stream[pinst..], pin))
    {
      ghost var left := stream[pinst..];
      var size := InstructionSize(stream[pinst]);
      if size == 0 || size > |stream| - pinst {
        return Refused;
      }
      var inst := Inst(stream[pinst..pinst + size], []);
      assert left[..size] == inst.image && left[size..] == stream[pinst + size..];
      if ConstUnit(inst.image) != 0 {
        var len := LoadFields([I64], pin);
        if len.Refused? {
          return Refused;
        }
        var data := LoadRaw(len.value[0] * ConstUnit(inst.image), len.rest);
        if data.Refused? {
          return Refused;
        }
        inst := Attach(inst.image, len.value[0], data.value);
        pin := data.rest;
      }
      PrependOne(insts, inst, LoadConsts(stream[pinst + size..], pin));
      insts := insts + [inst];
      pinst := pinst + size;
    }
    assert stream[pinst..] == [] && insts + [] == insts;
    return Loaded(insts, pin);
  }

  /** The three loops of h64program_Restore over classes, functions and globals. */
  method RestoreClasses(n: nat, b: seq<Byte>) returns (r: Load<seq<Class>>)
    ensures r == LoadClasses(n, b)
  {
    hide LoadClass;
    var done: seq<Class>, pin, i := [], b, 0;
    PrependNothing(LoadClasses(n, b));
    while i < n
      invariant 0 <= i <= n && LoadClasses(n, b) == Prepend(done, LoadClasses(n - i, pin))
    {
      var c := LoadClass(pin);
      if c.Refused? {
        return Refused;
      }
      PrependOne(done, c.value, LoadClasses(n - i - 1, c.rest));
      done, pin, i := done + [c.value], c.rest, i + 1;
    }
    assert done + [] == done;
    return Loaded(done, pin);
  }

  method RestoreFuncs(n: nat, b: seq<Byte>) returns (r: Load<seq<Func>>)
    ensures r == LoadFuncs(n, b)
  {
    hide LoadFunc;
    var done: seq<Func>, pin, i := [], b, 0;
    PrependNothing(LoadFuncs(n, b));
    while i < n
      invariant 0 <= i <= n && LoadFuncs(n, b) == Prepend(done, LoadFuncs(n - i, pin))
    {
      var f := RestoreFunc(pin);
      if f.Refused? {
        return Refused;
      }
      PrependOne(done, f.value, LoadFuncs(n - i - 1, f.rest));
      done, pin, i := done + [f.value], f.rest, i + 1;
    }
    assert done + [] == done;
    return Loaded(done, pin);
  }

  method RestoreFunc(b: seq<Byte>) returns (r: Load<Func>)
    ensures r == LoadFunc(b)
  {
    hide LoadFields, LoadRaw;
    var head := LoadFields(FUNC_HEAD, b);
    if head.Refused? || head.value[5] < 0 {
      return Refused;
    }
    var kwargs := LoadFields(Array(I64, head.value[5]), head.rest);
    if kwargs.Refused? {
      return Refused;
    }
    var sizes := LoadFields([I16, I32], kwargs.rest);
    if sizes.Refused? {
      return Refused;
    }
    var lookup := LoadRaw(sizes.value[1], sizes.rest);
    if lookup.Refused? {
      return Refused;
    }
    var insts := Loaded([], lookup.rest);
    if head.value[2] == 0 {
      var size := LoadFields([I32], lookup.rest);
      if size.Refused? {
        return Refused;
      }
      var stream := LoadRaw(size.value[0], size.rest);
      if stream.Refused? {
        return Refused;
      }
      insts := WalkStream(stream.value, stream.rest);
      if insts.Refused? {
        return Refused;
      }
    }
    return Loaded(Func(head.value[0], head.value[1], head.value[2], head.value[3], head.value[4], kwargs.value,
                       sizes.value[0], Some(lookup.value), insts.value), insts.rest);
  }

  method RestoreGlobals(n: nat, b: seq<Byte>) returns (r: Load<seq<Global>>)
    ensures r == LoadGlobals(n, b)
  {
    hide LoadGlobal;
    var done: seq<Global>, pin, i := [], b, 0;
    PrependNothing(LoadGlobals(n, b));
    while i < n
      invariant 0 <= i <= n && LoadGlobals(n, b) == Prepend(done, LoadGlobals(n - i, pin))
    {
      var g := LoadGlobal(pin);
      if g.Refused? {
        return Refused;
      }
      PrependOne(done, g.value, LoadGlobals(n - i - 1, g.rest));
      done, pin, i := done + [g.value], g.rest, i + 1;
    }
    assert done + [] == done;
    return Loaded(done, pin);
  }

  /** h64program_Restore up to the rebuilding of the attribute buckets. */
  method RestoreProgram(b: seq<Byte>) returns (r: Load<Program>)
    ensures r == LoadProgram(b)
  {
    hide LoadFields, LoadRaw, LoadClasses, LoadFuncs, LoadGlobals;
    var header := LoadRaw(|HEADER|, b);
    if header.Refused? || header.value != HEADER {
      return Refused;
    }
    var count := LoadFields([I32], header.rest);
    if count.Refused? || count.value[0] < 0 {
      return Refused;
    }
    var classes := RestoreClasses(count.value[0], count.rest);
    if classes.Refused? {
      return Refused;
    }
    count := LoadFields([I32], classes.rest);
    if count.Refused? || count.value[0] < 0 {
      return Refused;
    }
    var funcs := RestoreFuncs(count.value[0], count.rest);
    if funcs.Refused? {
      return Refused;
    }
    var ix := LoadFields(INDEX_KINDS, funcs.rest);
    if ix.Refused? {
      return Refused;
    }
    count := LoadFields([I32], ix.rest);
    if count.Refused? || count.value[0] < 0 {
      return Refused;
    }
    var globals := RestoreGlobals(count.value[0], count.rest);
    if globals.Refused? {
      return Refused;
    }
    return Loaded(Program(classes.value, funcs.value, FromIndexFields(ix.value), globals.value), globals.rest);
  }

  /** Append fields to the output; rest stands for whatever will be written behind them. */
  method DumpFields(out: seq<Byte>, ks: seq<Kind>, ns: seq<int>, ghost rest: seq<Byte>) returns (out': seq<Byte>)
    requires |ks| == |ns|
    ensures out' + rest == out + PutFields(ks, ns, rest)
  {
    PutFieldsAppends(ks, ns, rest);
    var fields := PutFields(ks, ns, []);
    out' := out + fields;
    assert (out + fields) + rest == out + (fields + rest);
  }

  method DumpRaw(out: seq<Byte>, bytes: seq<Byte>, ghost rest: seq<Byte>) returns (out': seq<Byte>)
    ensures out' + rest == out + (bytes + rest)
  {
    out' := out + bytes;
    assert (out + bytes) + rest == out + (bytes + rest);
  }

  method DumpClass(out: seq<Byte>, c: Class, ghost rest: seq<Byte>) returns (out': seq<Byte>)
    ensures out' + rest == out + PutClass(c, rest)
  {
    hide PutFields;
    ghost var b7 := PutFields([I32, I32], [c.hasVarInitFunc, c.varInitFuncIdx], rest);
    ghost var b6 := PutFields(Array(U8, |c.varattrFlags|), c.varattrFlags, b7);
    ghost var b5 := PutFields(Array(I64, |c.varattrNames|), c.varattrNames, b6);
    ghost var b4 := PutFields([I16], [|c.varattrNames|], b5);
    ghost var b3 := PutFields(Array(I32, |c.funcattrFuncs|), c.funcattrFuncs, b4);
    ghost var b2 := PutFields(Array(I64, |c.funcattrNames|), c.funcattrNames, b3);
    out' := DumpFields(out, CLASS_HEAD, ClassHead(c), b2);
    out' := DumpFields(out', Array(I64, |c.funcattrNames|), c.funcattrNames, b3);
    out' := DumpFields(out', Array(I32, |c.funcattrFuncs|), c.funcattrFuncs, b4);
    out' := DumpFields(out', [I16], [|c.varattrNames|], b5);
    out' := DumpFields(out', Array(I64, |c.varattrNames|), c.varattrNames, b6);
    out' := DumpFields(out', Array(U8, |c.varattrFlags|), c.varattrFlags, b7);
    out' := DumpFields(out', [I32, I32], [c.hasVarInitFunc, c.varInitFuncIdx], rest);
  }

  /** The loop over the instructions that writes their constants. */
  method DumpConsts(out: seq<Byte>, insts: seq<Inst>, ghost rest: seq<Byte>) returns (out': seq<Byte>)
    ensures out' + rest == out + PutConsts(insts, rest)
  {
    hide PutFields, ConstUnit, ConstLength;
    out' := out;
    var i := 0;
    assert insts[0..] == insts;
    while i < |insts|
      invariant 0 <= i <= |insts| && out' + PutConsts(insts[i..], rest) == out + PutConsts(insts, rest)
    {
      ghost var tail := PutConsts(insts[i + 1..], rest);
      assert insts[i..][0] == insts[i] && insts[i..][1..] == insts[i + 1..];
      if ConstUnit(insts[i].image) != 0 {
        out' := DumpFields(out', [I64], [ConstLength(insts[i].image)], insts[i].data + tail);
        out' := DumpRaw(out', insts[i].data, tail);
      }
      i := i + 1;
    }
  }

  method DumpFunc(out: seq<Byte>, f: Func, ghost rest: seq<Byte>) returns (out': seq<Byte>)
    ensures out' + rest == out + PutFunc(f, rest)
  {
    hide PutFields, PutConsts, Stream;
    var lookup := LookupBytes(f);
    ghost var b4 := PutBody(f, rest);
    ghost var b2 := PutFields([I16, I32], [f.asyncProgressStructSize, |lookup|], lookup + b4);
    out' := DumpFields(out, FUNC_HEAD, FuncHead(f), PutFields(Array(I64, |f.kwargNames|), f.kwargNames, b2));
    out' := DumpFields(out', Array(I64, |f.kwargNames|), f.kwargNames, b2);
    out' := DumpFields(out', [I16, I32], [f.asyncProgressStructSize, |lookup|], lookup + b4);
    out' := DumpRaw(out', lookup, b4);
    if f.isCFunc == 0 {
      var stream := Stream(f.insts);
      out' := DumpFields(out', [I32], [|stream|], stream + PutConsts(f.insts, rest));
      out' := DumpRaw(out', stream, PutConsts(f.insts, rest));
      out' := DumpConsts(out', f.insts, rest);
    }
  }

  method DumpGlobal(out: seq<Byte>, g: Global, ghost rest: seq<Byte>) returns (out': seq<Byte>)
    ensures out' + rest == out + PutGlobal(g, rest)
  {
    hide PutFields;
    ghost var b2 := PutFields([U8, U8], [g.isSimpleConstant, g.isConst], rest);
    out' := DumpFields(out, [U8], [g.kind], PutContent(g, b2));
    match LayoutOf(g.kind) {
      case NoContent =>
      case OneWord => out' := DumpFields(out', [I64], [if g.content.Word? then g.content.n else 0], b2);
      case Units(length, unit, _) =>
        var bytes := if g.content.Data? then g.content.bytes else [];
        out' := DumpFields(out', [length], [|bytes| / unit], bytes + b2);
        out' := DumpRaw(out', bytes, b2);
    }
    out' := DumpFields(out', [U8, U8], [g.isSimpleConstant, g.isConst], rest);
  }

  /** h64program_Dump */
  method DumpProgram(p: Program) returns (out: seq<Byte>)
    ensures out == Image(p)
  {
    hide PutFields, PutClass, PutFunc, PutGlobal;
    ghost var b6 := PutFields([I32], [|p.globals|], PutGlobals(p.globals, []));
    ghost var b5 := PutFields(INDEX_KINDS, IndexFields(p.indexes), b6);
    ghost var b3 := PutFields([I32], [|p.funcs|], PutFuncs(p.funcs, b5));
    out := DumpRaw([], HEADER, PutFields([I32], [|p.classes|], PutClasses(p.classes, b3)));
    out := DumpFields(out, [I32], [|p.classes|], PutClasses(p.classes, b3));
    assert out + PutClasses(p.classes, b3) == Image(p);
    var i := 0;
    assert p.classes[0..] == p.classes;
    while i < |p.classes|
      invariant 0 <= i <= |p.classes| && out + PutClasses(p.classes[i..], b3) == Image(p)
    {
      assert p.classes[i..][0] == p.classes[i] && p.classes[i..][1..] == p.classes[i + 1..];
      out := DumpClass(out, p.classes[i], PutClasses(p.classes[i + 1..], b3));
      i := i + 1;
    }
    out := DumpFields(out, [I32], [|p.funcs|], PutFuncs(p.funcs, b5));
    i := 0;
    assert p.funcs[0..] == p.funcs;
    while i < |p.funcs|
      invariant 0 <= i <= |p.funcs| && out + PutFuncs(p.funcs[i..], b5) == Image(p)
    {
      assert p.funcs[i..][0] == p.funcs[i] && p.funcs[i..][1..] == p.funcs[i + 1..];
      out := DumpFunc(out, p.funcs[i], PutFuncs(p.funcs[i + 1..], b5));
      i := i + 1;
    }
    out := DumpFields(out, INDEX_KINDS, IndexFields(p.indexes), b6);
    out := DumpFields(out, [I32], [|p.globals|], PutGlobals(p.globals, []));
    i := 0;
    assert p.globals[0..] == p.globals;
    while i < |p.globals|
      invariant 0 <= i <= |p.globals| && out + PutGlobals(p.globals[i..], []) == Image(p)
    {
      assert p.globals[i..][0] == p.globals[i] && p.globals[i..][1..] == p.globals[i + 1..];
      out := DumpGlobal(out, p.globals[i], PutGlobals(p.globals[i + 1..], []));
      i := i + 1;
    }
    assert out + [] == out;
  }
}
