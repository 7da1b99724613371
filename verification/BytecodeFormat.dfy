/**
 The bytes of a bytecode image (horse64/bytecodeserialize.c) and of the instructions in it (horse64/bytecode.h):
 what an image begins with, how long its parts are, and how the packed structs of instructions add up.
 */
module BytecodeFormat {
  import opened Options
  import opened Words
  import opened Bytecode
  import opened BytecodeImage

  // ------------------------------------------------------------- instructions as structs

  /** The sizes of the fields of the packed struct of an instruction added up, its type byte first; 0 if it has none. */
  function StructSize(kind: Byte): nat {
    match kind
    case 1 => 1 + 2 + 1 + 4 + 24            // SETCONST: slot, padding, the value
    case 2 => 1 + 8 + 2                     // SETGLOBAL: global, slot
    case 3 => 1 + 2 + 8                     // GETGLOBAL: slot, global
    case 4 => 1 + 2 + 2 + 2                 // SETBYINDEXEXPR: three slots
    case 5 => 1 + 2 + 8 + 2                 // SETBYATTRIBUTENAME: slot, name, slot
    case 6 => 1 + 2 + 2 + 2                 // SETBYATTRIBUTEIDX: slot, attribute, slot
    case 7 => 1 + 2 + 8                     // GETFUNC: slot, function
    case 8 => 1 + 2 + 4                     // GETCLASS: slot, class
    case 9 => 1 + 2 + 2                     // VALUECOPY: two slots
    case 10 => 1 + 1 + 2 + 2 + 2            // BINOP: operator, three slots
    case 11 => 1 + 1 + 2 + 2                // UNOP: operator, two slots
    case 12 | 13 => 1 + 2 + 2 + 1 + 2 + 2   // CALL, CALLIGNOREIFNONE: two slots, flags, two counts
    case 14 | 15 | 16 => 1 + 2              // SETTOP, CALLSETTOP, RETURNVALUE: slot
    case 17 | 20 => 1 + 2                   // JUMPTARGET, JUMP: id or offset
    case 18 => 1 + 2 + 2                    // CONDJUMP: offset, slot
    case 19 => 1 + 1 + 2 + 2                // CONDJUMPEX: flags, offset, slot
    case 21 => 1 + 2 + 2                    // NEWITERATOR: two slots
    case 22 => 1 + 2 + 2 + 2                // ITERATE: two slots, offset
    case 23 => 1 + 1 + 2 + 2 + 2 + 2        // PUSHRESCUEFRAME: mode, slot, two offsets, frame
    case 24 => 1 + 2 + 2                    // ADDRESCUETYPEBYREF: slot, frame
    case 25 => 1 + 4 + 2                    // ADDRESCUETYPE: class, frame
    case 26 | 29 => 1 + 2                   // POPRESCUEFRAME, JUMPTOFINALLY: frame
    case 27 => 1 + 2 + 2 + 8                // GETATTRIBUTEBYNAME: two slots, name
    case 28 => 1 + 2 + 2 + 2                // GETATTRIBUTEBYIDX: two slots, attribute
    case 30 | 31 | 32 | 33 => 1 + 2         // NEWLIST, NEWSET, NEWMAP, NEWVECTOR: slot
    case 34 => 1 + 2 + 2                    // NEWINSTANCEBYREF: two slots
    case 35 => 1 + 2 + 4                    // NEWINSTANCE: slot, class
    case 36 => 1 + 2 + 2                    // GETCONSTRUCTOR: two slots
    case 37 => 1 + 2                        // AWAITITEM: slot
    case 39 => 1 + 2 + 2 + 8                // HASATTRJUMP: offset, slot, name
    case 40 => 1 + 4 + 2                    // RAISE: class, slot
    case 41 => 1 + 2 + 2                    // RAISEBYREF: two slots
    case _ => 0
  }

  /** The loader steps from one instruction to the next by the size of its struct; type 38 has no size. */
  lemma SizeIsStructSize(kind: Byte)
    ensures InstructionSize(kind) == StructSize(kind)
  {
  }

  // ------------------------------------------------- constants outside of the instruction

  /** The bytes of a SETCONST: a slot and padding, then the value it sets with its type, a pointer and a length. */
  function SetConst(slot: seq<Byte>, kind: Byte, padding: seq<Byte>, pointer: seq<Byte>, length: int, end: seq<Byte>): seq<Byte> {
    [1] + slot + [kind] + padding + pointer + Encode(I32, length) + end
  }

  /** Where the loader looks for type and length: only two types lead to bytes elsewhere, four or one per unit. */
  lemma ConstOfSetConst(slot: seq<Byte>, kind: Byte, padding: seq<Byte>, pointer: seq<Byte>, length: int, end: seq<Byte>)
    requires |slot| == 7 && |padding| == 7 && |pointer| == 8 && |end| == 4 && -0x8000_0000 <= length < 0x8000_0000
    ensures var image := SetConst(slot, kind, padding, pointer, length, end);
            && |image| == 32
            && ConstUnit(image) == (if kind == 9 then 4 else if kind == 11 then 1 else 0)
            && ConstLength(image) == length
  {
    var image := SetConst(slot, kind, padding, pointer, length, end);
    assert image[8] == kind;
    assert image[24..28] == Encode(I32, length);
    IntRoundTrip(I32, length);
  }

  /** With which bytes elsewhere such an instruction is complete: none, or as many units as its length says. */
  lemma SetConstComplete(slot: seq<Byte>, kind: Byte, padding: seq<Byte>, pointer: seq<Byte>, length: int, end: seq<Byte>,
                         data: seq<Byte>)
    requires |slot| == 7 && |padding| == 7 && |pointer| == 8 && |end| == 4 && -0x8000_0000 <= length < 0x8000_0000
    ensures InstOk(Inst(SetConst(slot, kind, padding, pointer, length, end), data)) <==>
            if kind == 9 then length >= 0 && |data| == 4 * length
            else if kind == 11 then length >= 0 && |data| == length
            else data == []
  {
    ConstOfSetConst(slot, kind, padding, pointer, length, end);
    assert SetConst(slot, kind, padding, pointer, length, end)[0] == 1;
  }

  /** What is loaded into it: the same bytes with the pointer cleared. */
  lemma PointerIsCleared(slot: seq<Byte>, kind: Byte, padding: seq<Byte>, pointer: seq<Byte>, length: int, end: seq<Byte>,
                         data: seq<Byte>)
    requires |slot| == 7 && |padding| == 7 && |pointer| == 8 && |end| == 4 && -0x8000_0000 <= length < 0x8000_0000
    ensures ForgetPointer(Inst(SetConst(slot, kind, padding, pointer, length, end), data)) ==
            Inst(SetConst(slot, kind, padding, if kind in [9, 11] then [0, 0, 0, 0, 0, 0, 0, 0] else pointer, length, end), data)
  {
    ConstOfSetConst(slot, kind, padding, pointer, length, end);
    var image, front := SetConst(slot, kind, padding, pointer, length, end), [1] + slot + [kind] + padding;
    assert image[..16] == front && image[24..] == Encode(I32, length) + end;
    assert (front + [0, 0, 0, 0, 0, 0, 0, 0]) + (Encode(I32, length) + end)
        == SetConst(slot, kind, padding, [0, 0, 0, 0, 0, 0, 0, 0], length, end);
  }

  // ------------------------------------------------------------------ the whole image

  /** The characters of a text as bytes. */
  function Ascii(s: string): seq<Byte> {
    seq(|s|, i requires 0 <= i < |s| => s[i] as int % 256)
  }

  /** An image begins with the name and version of the format between two bytes 1. */
  lemma BeginsWithHeader(p: Program)
    ensures |Image(p)| >= 13 && Image(p)[..13] == [1] + Ascii("H64BCODE_V1") + [1]
  {
    hide PutFields, PutClasses, PutFuncs, PutGlobals;
    HeaderBytes();
    assert Image(p)[..13] == HEADER;
  }

  lemma HeaderBytes()
    ensures HEADER == [1] + Ascii("H64BCODE_V1") + [1]
  {
  }

  /** Nothing else is taken for an image. */
  lemma OtherHeaderRefused(b: seq<Byte>)
    requires !([1] + Ascii("H64BCODE_V1") + [1] <= b)
    ensures LoadProgram(b) == Refused && Restore(b) == None
  {
    hide LoadFields, LoadClasses, LoadFuncs, LoadGlobals, Ascii;
    HeaderBytes();
    if |b| >= 13 { assert b[..13] <= b; }
  }

  function TotalWidth(ks: seq<Kind>): nat {
    if |ks| == 0 then 0 else Width(ks[0]) + TotalWidth(ks[1..])
  }

  lemma {:induction false} SizeOfFields(ks: seq<Kind>, ns: seq<int>, rest: seq<Byte>)
    requires |ks| == |ns|
    ensures |PutFields(ks, ns, rest)| == TotalWidth(ks) + |rest|
  {
    if |ks| > 0 { SizeOfFields(ks[1..], ns[1..], rest); }
  }

  lemma {:induction false} WidthOfArray(k: Kind, n: nat)
    ensures TotalWidth(Array(k, n)) == n * Width(k)
  {
    if n > 0 {
      WidthOfArray(k, n - 1);
      assert Array(k, n)[1..] == Array(k, n - 1);
    }
  }

  lemma SizeOfArray(k: Kind, ns: seq<int>, rest: seq<Byte>)
    ensures |PutFields(Array(k, |ns|), ns, rest)| == |ns| * Width(k) + |rest|
  {
    SizeOfFields(Array(k, |ns|), ns, rest);
    WidthOfArray(k, |ns|);
  }

  /** A class takes 20 bytes, twelve more for each method and nine more for each variable. */
  lemma SizeOfClass(c: Class, rest: seq<Byte>)
    requires |c.funcattrFuncs| == |c.funcattrNames| && |c.varattrFlags| == |c.varattrNames|
    ensures |PutClass(c, rest)| == 20 + 12 * |c.funcattrNames| + 9 * |c.varattrNames| + |rest|
  {
    hide PutFields, Array;
    var b7 := PutFields([I32, I32], [c.hasVarInitFunc, c.varInitFuncIdx], rest);
    var b6 := PutFields(Array(U8, |c.varattrFlags|), c.varattrFlags, b7);
    var b5 := PutFields(Array(I64, |c.varattrNames|), c.varattrNames, b6);
    var b4 := PutFields([I16], [|c.varattrNames|], b5);
    var b3 := PutFields(Array(I32, |c.funcattrFuncs|), c.funcattrFuncs, b4);
    var b2 := PutFields(Array(I64, |c.funcattrNames|), c.funcattrNames, b3);
    SizeOfFields([I32, I32], [c.hasVarInitFunc, c.varInitFuncIdx], rest);
    SizeOfArray(U8, c.varattrFlags, b7);
    SizeOfArray(I64, c.varattrNames, b6);
    SizeOfFields([I16], [|c.varattrNames|], b5);
    SizeOfArray(I32, c.funcattrFuncs, b4);
    SizeOfArray(I64, c.funcattrNames, b3);
    SizeOfFields(CLASS_HEAD, ClassHead(c), b2);
    assert TotalWidth(CLASS_HEAD) == 10 && TotalWidth([I32, I32]) == 8 && TotalWidth([I16]) == 2;
  }

  /** The bytes of the constants outside of the instructions, each behind a 64-bit length. */
  function ConstsSize(insts: seq<Inst>): nat {
    if |insts| == 0 then 0
    else (if ConstUnit(insts[0].image) == 0 then 0 else 8 + |insts[0].data|) + ConstsSize(insts[1..])
  }

  lemma {:induction false} SizeOfConsts(insts: seq<Inst>, rest: seq<Byte>)
    ensures |PutConsts(insts, rest)| == ConstsSize(insts) + |rest|
  {
    hide PutFields, ConstUnit, ConstLength;
    if |insts| > 0 {
      SizeOfConsts(insts[1..], rest);
      if ConstUnit(insts[0].image) != 0 {
        SizeOfFields([I64], [ConstLength(insts[0].image)], insts[0].data + PutConsts(insts[1..], rest));
        assert TotalWidth([I64]) == 8;
      }
    }
  }

  /** A function takes 30 bytes, eight more for each keyword name, its lookup name, and, if it is no C function, its body. */
  lemma SizeOfFunc(f: Func, rest: seq<Byte>)
    ensures |PutFunc(f, rest)| ==
            30 + 8 * |f.kwargNames| + |LookupBytes(f)|
            + (if f.isCFunc != 0 then 0 else 4 + |Stream(f.insts)| + ConstsSize(f.insts)) + |rest|
  {
    hide PutFields, PutConsts, Array, Stream, ConstsSize;
    var b4 := PutBody(f, rest);
    var b2 := PutFields([I16, I32], [f.asyncProgressStructSize, |LookupBytes(f)|], LookupBytes(f) + b4);
    if f.isCFunc == 0 {
      SizeOfConsts(f.insts, rest);
      SizeOfFields([I32], [|Stream(f.insts)|], Stream(f.insts) + PutConsts(f.insts, rest));
    }
    SizeOfFields([I16, I32], [f.asyncProgressStructSize, |LookupBytes(f)|], LookupBytes(f) + b4);
    SizeOfArray(I64, f.kwargNames, b2);
    SizeOfFields(FUNC_HEAD, FuncHead(f), PutFields(Array(I64, |f.kwargNames|), f.kwargNames, b2));
    assert TotalWidth(FUNC_HEAD) == 24 && TotalWidth([I16, I32]) == 6 && TotalWidth([I32]) == 4;
  }

  /** A global takes three bytes and its content: a word of eight, or its bytes behind a length of one or four. */
  lemma SizeOfGlobal(g: Global, rest: seq<Byte>)
    requires KeptWhole(g)
    ensures |PutGlobal(g, rest)| == |rest| + 3 + match g.content
                                              case Nothing => 0
                                              case Word(_) => 8
                                              case Data(bytes) => |bytes| + if g.kind in [8, 10] then 1 else 4
  {
    hide PutFields;
    var b2 := PutFields([U8, U8], [g.isSimpleConstant, g.isConst], rest);
    SizeOfFields([U8, U8], [g.isSimpleConstant, g.isConst], rest);
    match g.content {
      case Nothing =>
      case Word(n) => SizeOfFields([I64], [n], b2);
      case Data(bytes) =>
        var unit := if g.kind in [8, 9] then 4 else 1;
        SizeOfFields([if g.kind in [8, 10] then U8 else I32], [|bytes| / unit], bytes + b2);
    }
    SizeOfFields([U8], [g.kind], PutContent(g, b2));
    assert TotalWidth([U8]) == 1 && TotalWidth([I32]) == 4 && TotalWidth([I64]) == 8 && TotalWidth([U8, U8]) == 2;
  }

  lemma {:induction false} WidthOfBoth(a: seq<Kind>, b: seq<Kind>)
    ensures TotalWidth(a + b) == TotalWidth(a) + TotalWidth(b)
  {
    if |a| > 0 {
      WidthOfBoth(a[1..], b);
      assert (a + b)[1..] == a[1..] + b;
    } else {
      assert a + b == b;
    }
  }

  /** A short string of more than two characters, and short bytes of more than seven, are refused. */
  lemma OverlongRefused(n: Byte, rest: seq<Byte>)
    ensures n > 2 ==> LoadGlobal([8, n] + rest) == Refused
    ensures n > 7 ==> LoadGlobal([10, n] + rest) == Refused
  {
    OneByteLoaded(8, [n] + rest);
    OneByteLoaded(10, [n] + rest);
    OneByteLoaded(n, rest);
    assert [8] + ([n] + rest) == [8, n] + rest && [10] + ([n] + rest) == [10, n] + rest;
  }

  lemma OneByteLoaded(n: Byte, rest: seq<Byte>)
    ensures LoadFields([U8], [n] + rest) == Loaded([n], rest)
  {
    FieldsRoundTrip([U8], [n], rest);
    assert PutFields([U8], [n], rest) == [n] + rest by { assert Encode(U8, n) == [n]; }
  }

  /** The block of function, name and class indexes takes 112 bytes. */
  lemma SizeOfIndexes(x: Indexes, rest: seq<Byte>)
    ensures |PutFields(INDEX_KINDS, IndexFields(x), rest)| == 112 + |rest|
  {
    hide PutFields, TotalWidth;
    SizeOfFields(INDEX_KINDS, IndexFields(x), rest);
    assert INDEX_KINDS == (Array(I32, 5) + Array(I64, 10)) + Array(I32, 3);
    WidthOfBoth(Array(I32, 5) + Array(I64, 10), Array(I32, 3));
    WidthOfBoth(Array(I32, 5), Array(I64, 10));
    WidthOfArray(I32, 5);
    WidthOfArray(I64, 10);
    WidthOfArray(I32, 3);
  }
}
