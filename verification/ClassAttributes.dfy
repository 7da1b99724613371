/**
 The attributes of a class: its tables of variables and methods, and the buckets that map an
 attribute's name id to its index (horse64/bytecode.c).
 */
module ClassAttributes {

  const HASH_SIZE: nat := 32
  const MAX_VARATTRS: nat := 0x7FFF / 4 - 2
  const MAX_FUNCATTRS: nat := 0x7FFF / 4 - 2

  /** Methods are numbered from here on. */
  const METHOD_OFFSET: nat := MAX_VARATTRS

  /** A bucket entry; a negative name id ends the bucket. */
  datatype Info = Info(nameid: int, methodorvaridx: int)

  const END: Info := Info(-1, -1)

  // -------------------------------------------------------------- what lookups should say

  /** The position of name in the table, or -1. */
  function IndexIn(table: seq<int>, name: int): (i: int)
    ensures -1 <= i < |table|
    ensures i >= 0 <==> name in table
    ensures i >= 0 ==> table[i] == name && name !in table[..i]
  {
    if |table| == 0 then -1
    else if table[0] == name then 0
    else
      var i := IndexIn(table[1..], name);
      if i < 0 then -1 else i + 1
  }

  /** What a 16-bit field holds of a number. */
  function Int16(n: int): (r: int)
    ensures -0x8000 <= r < 0x8000
    ensures -0x8000 <= n < 0x8000 ==> r == n
    ensures (n - r) % 0x1_0000 == 0
  {
    var m := n % 0x1_0000;
    if m >= 0x8000 then m - 0x1_0000 else m
  }

  /** Variable i is i, method i is METHOD_OFFSET + i, anything else -1. */
  function AttributeIndex(vars: seq<int>, funcs: seq<int>, name: int): int {
    if name in vars then IndexIn(vars, name)
    else if name in funcs then METHOD_OFFSET + IndexIn(funcs, name)
    else -1
  }

  ghost predicate Distinct(names: seq<int>) {
    forall i, j :: 0 <= i < j < |names| ==> names[i] != names[j]
  }

  lemma {:induction false} IndexInAppended(table: seq<int>, last: int, name: int)
    requires last !in table
    ensures IndexIn(table + [last], name) == if name == last then |table| else IndexIn(table, name)
  {
    if |table| > 0 {
      assert (table + [last])[1..] == table[1..] + [last];
      IndexInAppended(table[1..], last, name);
    }
  }

  /** In distinct tables every variable and every method is found at its own index. */
  lemma DistinctIndexes(vars: seq<int>, funcs: seq<int>)
    requires Distinct(vars + funcs)
    ensures forall i :: 0 <= i < |vars| ==> AttributeIndex(vars, funcs, vars[i]) == i
    ensures forall i :: 0 <= i < |funcs| ==> AttributeIndex(vars, funcs, funcs[i]) == METHOD_OFFSET + i
  {
    var all := vars + funcs;
    forall i | 0 <= i < |vars| ensures AttributeIndex(vars, funcs, vars[i]) == i {
      var k := IndexIn(vars, vars[i]);
      assert all[k] == vars[k] && all[i] == vars[i];
    }
    forall i | 0 <= i < |funcs| ensures AttributeIndex(vars, funcs, funcs[i]) == METHOD_OFFSET + i {
      var k := IndexIn(funcs, funcs[i]);
      assert all[|vars| + k] == funcs[k] && all[|vars| + i] == funcs[i];
      assert forall v :: 0 <= v < |vars| ==> all[v] == vars[v];
    }
  }

  // -------------------------------------------------------------------------- buckets

  /** The number of entries before the end mark. */
  function Entries(b: seq<Info>): (n: nat)
    ensures n <= |b|
    ensures forall i :: 0 <= i < n ==> b[i].nameid >= 0
    ensures n < |b| ==> b[n].nameid < 0
  {
    if |b| == 0 || b[0].nameid < 0 then 0 else 1 + Entries(b[1..])
  }

  ghost predicate Terminated(b: seq<Info>) { Entries(b) < |b| }

  /** What a bucket says about a name. */
  function Find(b: seq<Info>, name: int): int {
    if |b| == 0 || b[0].nameid < 0 then -1
    else if b[0].nameid == name then b[0].methodorvaridx
    else Find(b[1..], name)
  }

  predicate HasName(b: seq<Info>, name: int) {
    exists i :: 0 <= i < Entries(b) && b[i].nameid == name
  }

  lemma NameInEntries(b: seq<Info>, name: int)
    ensures HasName(b, name) <==> Entries(b) > 0 && (b[0].nameid == name || HasName(b[1..], name))
  {
    if HasName(b, name) {
      var i :| 0 <= i < Entries(b) && b[i].nameid == name;
      if i > 0 { assert b[1..][i - 1].nameid == name; }
    }
    if Entries(b) > 0 && HasName(b[1..], name) {
      var i :| 0 <= i < Entries(b[1..]) && b[1..][i].nameid == name;
      assert b[i + 1].nameid == name;
    }
  }

  lemma {:induction false} FindMissing(b: seq<Info>, name: int)
    requires !HasName(b, name)
    ensures Find(b, name) == -1
  {
    if |b| > 0 && b[0].nameid >= 0 {
      assert b[0].nameid != name;
      forall i | 0 <= i < Entries(b[1..]) ensures b[1..][i].nameid != name { assert b[i + 1] == b[1..][i]; }
      FindMissing(b[1..], name);
    }
  }

  /** A bucket with one more entry where its end mark was. */
  function WithEntry(b: seq<Info>, info: Info): seq<Info> { b[..Entries(b)] + [info, END] }

  lemma WithEntryTail(b: seq<Info>, info: Info)
    requires |b| > 0 && b[0].nameid >= 0
    ensures WithEntry(b, info)[0] == b[0] && WithEntry(b, info)[1..] == WithEntry(b[1..], info)
  {
  }

  lemma {:induction false} FindWithEntry(b: seq<Info>, info: Info, name: int)
    requires info.nameid >= 0
    ensures Terminated(WithEntry(b, info)) && Entries(WithEntry(b, info)) == Entries(b) + 1
    ensures HasName(WithEntry(b, info), name) <==> HasName(b, name) || name == info.nameid
    ensures Find(WithEntry(b, info), name) ==
            if HasName(b, name) then Find(b, name) else if name == info.nameid then info.methodorvaridx else -1
  {
    hide HasName;
    var b' := WithEntry(b, info);
    NameInEntries(b, name);
    NameInEntries(b', name);
    if |b| == 0 || b[0].nameid < 0 {
      assert b' == [info, END] && b'[1..] == [END];
      NameInEntries([END], name);
    } else {
      WithEntryTail(b, info);
      FindWithEntry(b[1..], info, name);
      NameInEntries(b[1..], name);
    }
  }

  // --------------------------------------------------- buckets that agree with the tables

  function BucketOf(name: int): (k: int)
    requires name >= 0
    ensures 0 <= k < HASH_SIZE
  {
    name % HASH_SIZE
  }

  /** For every name id, the buckets know it if the tables do, and say what the tables say as far as 16 bits hold it. */
  ghost predicate Agrees(bs: seq<seq<Info>>, vars: seq<int>, funcs: seq<int>) {
    && |bs| == HASH_SIZE
    && (forall k :: 0 <= k < HASH_SIZE ==> Terminated(bs[k]))
    && (forall name :: name >= 0 ==> (HasName(bs[BucketOf(name)], name) <==> name in vars || name in funcs))
    && (forall name :: name >= 0 ==> Find(bs[BucketOf(name)], name) == Int16(AttributeIndex(vars, funcs, name)))
  }

  function EmptyBuckets(): seq<seq<Info>> { seq(HASH_SIZE, _ => [END]) }

  lemma EmptyAgrees()
    ensures Agrees(EmptyBuckets(), [], [])
  {
  }

  /** The buckets know exactly the names in the tables. */
  lemma KnownNames(bs: seq<seq<Info>>, vars: seq<int>, funcs: seq<int>, name: int)
    requires Agrees(bs, vars, funcs) && name >= 0
    ensures |bs| == HASH_SIZE && Terminated(bs[BucketOf(name)])
    ensures HasName(bs[BucketOf(name)], name) <==> name in vars || name in funcs
  {
  }

  function Added(bs: seq<seq<Info>>, name: int, index: int): (r: seq<seq<Info>>)
    requires |bs| == HASH_SIZE && name >= 0
    ensures |r| == HASH_SIZE
  {
    bs[BucketOf(name) := WithEntry(bs[BucketOf(name)], Info(name, Int16(index)))]
  }

  /** Adding a new name to one bucket changes the answer for that name only. */
  lemma AddedFind(bs: seq<seq<Info>>, vars: seq<int>, funcs: seq<int>, name: int, index: int, other: int)
    requires Agrees(bs, vars, funcs) && name >= 0 && other >= 0
    requires name !in vars && name !in funcs
    ensures var b := Added(bs, name, index)[BucketOf(other)];
            && Find(b, other) == Int16(if other == name then index else AttributeIndex(vars, funcs, other))
            && (HasName(b, other) <==> other == name || other in vars || other in funcs)
  {
    hide HasName, Terminated, WithEntry, Find;
    assert HasName(bs[BucketOf(name)], name) <==> name in vars || name in funcs;
    assert HasName(bs[BucketOf(other)], other) <==> other in vars || other in funcs;
    assert Find(bs[BucketOf(other)], other) == Int16(AttributeIndex(vars, funcs, other));
    FindWithEntry(bs[BucketOf(name)], Info(name, Int16(index)), other);
    if !HasName(bs[BucketOf(other)], other) { FindMissing(bs[BucketOf(other)], other); }
  }

  lemma AddedTerminated(bs: seq<seq<Info>>, name: int, index: int)
    requires |bs| == HASH_SIZE && (forall k :: 0 <= k < HASH_SIZE ==> Terminated(bs[k])) && name >= 0
    ensures forall k :: 0 <= k < HASH_SIZE ==> Terminated(Added(bs, name, index)[k])
  {
    FindWithEntry(bs[BucketOf(name)], Info(name, Int16(index)), 0);
  }

  lemma AddingVariable(bs: seq<seq<Info>>, vars: seq<int>, funcs: seq<int>, name: int)
    requires Agrees(bs, vars, funcs) && name >= 0 && name !in vars && name !in funcs
    ensures Agrees(Added(bs, name, |vars|), vars + [name], funcs)
  {
    hide HasName, Find, Terminated, Added, IndexIn, Int16, BucketOf;
    AddedTerminated(bs, name, |vars|);
    forall other | other >= 0
      ensures var b := Added(bs, name, |vars|)[BucketOf(other)];
              && (HasName(b, other) <==> other in vars + [name] || other in funcs)
              && Find(b, other) == Int16(AttributeIndex(vars + [name], funcs, other))
    {
      AddedFind(bs, vars, funcs, name, |vars|, other);
      IndexInAppended(vars, name, other);
    }
  }

  lemma AddingMethod(bs: seq<seq<Info>>, vars: seq<int>, funcs: seq<int>, name: int)
    requires Agrees(bs, vars, funcs) && name >= 0 && name !in vars && name !in funcs
    ensures Agrees(Added(bs, name, METHOD_OFFSET + |funcs|), vars, funcs + [name])
  {
    hide HasName, Find, Terminated, Added, IndexIn, Int16, BucketOf;
    AddedTerminated(bs, name, METHOD_OFFSET + |funcs|);
    forall other | other >= 0
      ensures var b := Added(bs, name, METHOD_OFFSET + |funcs|)[BucketOf(other)];
              && (HasName(b, other) <==> other in vars || other in funcs + [name])
              && Find(b, other) == Int16(AttributeIndex(vars, funcs + [name], other))
    {
      AddedFind(bs, vars, funcs, name, METHOD_OFFSET + |funcs|, other);
      IndexInAppended(funcs, name, other);
    }
  }

  /** A new variable gets the next index, a new method the next one behind the offset; all else stays. */
  lemma AddingKeepsAgreement(bs: seq<seq<Info>>, vars: seq<int>, funcs: seq<int>, name: int)
    requires Agrees(bs, vars, funcs) && name >= 0 && name !in vars && name !in funcs
    ensures Agrees(Added(bs, name, |vars|), vars + [name], funcs)
    ensures Agrees(Added(bs, name, METHOD_OFFSET + |funcs|), vars, funcs + [name])
  {
    hide Agrees;
    AddingVariable(bs, vars, funcs, name);
    AddingMethod(bs, vars, funcs, name);
  }

  /** Within the limits variables and methods cannot be mistaken for each other, and indexes fit 16 bits. */
  lemma RangesDisjoint(vars: seq<int>, funcs: seq<int>, name: int)
    requires |vars| <= MAX_VARATTRS && |funcs| <= MAX_FUNCATTRS
    ensures var i := AttributeIndex(vars, funcs, name);
            && (0 <= i < METHOD_OFFSET <==> name in vars)
            && (i >= METHOD_OFFSET <==> name !in vars && name in funcs)
            && -1 <= i <= 0x7FFF
  {
  }

  /**
   Tables of a restored image may be longer than registration allows. Their answers fit 16 bits, and so are the right
   ones, if and only if there is room for the methods behind the offset.
   */
  lemma AnswersFit(vars: seq<int>, funcs: seq<int>)
    requires Distinct(vars + funcs) && |vars| <= 0x7FFF
    ensures (forall name :: Int16(AttributeIndex(vars, funcs, name)) == AttributeIndex(vars, funcs, name))
            <==> 8189 + |funcs| <= 0x8000
  {
    hide Int16;
    if METHOD_OFFSET + |funcs| > 0x8000 {
      DistinctIndexes(vars, funcs);
      assert AttributeIndex(vars, funcs, funcs[|funcs| - 1]) >= 0x8000;
    }
  }

  lemma DistinctAppend(names: seq<int>, name: int)
    requires Distinct(names)
    ensures Distinct(names + [name]) <==> name !in names
  {
    if name in names {
      var i :| 0 <= i < |names| && names[i] == name;
      assert (names + [name])[i] == (names + [name])[|names|];
    }
  }

  lemma DistinctInsert(vars: seq<int>, funcs: seq<int>, name: int)
    requires Distinct(vars + funcs) && name !in vars && name !in funcs
    ensures Distinct(vars + [name] + funcs) && Distinct(vars + (funcs + [name]))
  {
    var old', new' := vars + funcs, vars + [name] + funcs;
    forall i, j | 0 <= i < j < |new'| ensures new'[i] != new'[j] {
      var i', j' := if i > |vars| then i - 1 else i, if j > |vars| then j - 1 else j;
      if i != |vars| { assert new'[i] == old'[i']; }
      if j != |vars| { assert new'[j] == old'[j']; }
      if i == |vars| { assert new'[j] in funcs; }
      if j == |vars| { assert new'[i] in vars; }
    }
    assert vars + (funcs + [name]) == old' + [name];
    DistinctAppend(old', name);
  }

  // ------------------------------------------------------------------------------ runs

  /** The tables of names and the buckets. */
  datatype Tables = Tables(vars: seq<int>, funcs: seq<int>, buckets: seq<seq<Info>>)

  /** A registration of a variable or a method. */
  datatype Request = Request(nameid: nat, isMethod: bool)

  /** A name the buckets know, and a full table, are refused. */
  function AfterRegister(t: Tables, r: Request): Tables
    requires |t.buckets| == HASH_SIZE
  {
    if HasName(t.buckets[BucketOf(r.nameid)], r.nameid) then t
    else if r.isMethod then
      if |t.funcs| >= MAX_FUNCATTRS then t
      else Tables(t.vars, t.funcs + [r.nameid], Added(t.buckets, r.nameid, METHOD_OFFSET + |t.funcs|))
    else if |t.vars| >= MAX_VARATTRS then t
    else Tables(t.vars + [r.nameid], t.funcs, Added(t.buckets, r.nameid, |t.vars|))
  }

  ghost predicate TablesValid(t: Tables) {
    && Agrees(t.buckets, t.vars, t.funcs) && Distinct(t.vars + t.funcs)
    && |t.vars| <= MAX_VARATTRS && |t.funcs| <= MAX_FUNCATTRS
    && (forall i :: 0 <= i < |t.vars| ==> t.vars[i] >= 0) && (forall i :: 0 <= i < |t.funcs| ==> t.funcs[i] >= 0)
  }

  function AfterAll(t: Tables, requests: seq<Request>): Tables
    requires |t.buckets| == HASH_SIZE
    decreases requests
  {
    if |requests| == 0 then t else AfterAll(AfterRegister(t, requests[0]), requests[1..])
  }

  lemma RegisterKeeps(t: Tables, r: Request)
    requires TablesValid(t)
    ensures TablesValid(AfterRegister(t, r))
  {
    hide Agrees, HasName, Added, AttributeIndex, Distinct;
    KnownNames(t.buckets, t.vars, t.funcs, r.nameid);
    if !HasName(t.buckets[BucketOf(r.nameid)], r.nameid) {
      AddingKeepsAgreement(t.buckets, t.vars, t.funcs, r.nameid);
      DistinctInsert(t.vars, t.funcs, r.nameid);
    }
  }

  /** A registration is taken if and only if the name is new and its table has fewer than 8189 entries, and goes to its end. */
  lemma RegisterTakes(t: Tables, r: Request)
    requires TablesValid(t)
    ensures |t.buckets| == 32
    ensures var t' := AfterRegister(t, r);
            var isNew := r.nameid !in t.vars && r.nameid !in t.funcs;
            && t'.vars == (if isNew && !r.isMethod && |t.vars| < 8189 then t.vars + [r.nameid] else t.vars)
            && t'.funcs == (if isNew && r.isMethod && |t.funcs| < 8189 then t.funcs + [r.nameid] else t.funcs)
            && (t'.vars == t.vars && t'.funcs == t.funcs ==> t'.buckets == t.buckets) && |t'.buckets| == 32
  {
    hide Agrees, HasName, Added;
    KnownNames(t.buckets, t.vars, t.funcs, r.nameid);
  }

  /** Whatever is registered on a new class, the buckets keep agreeing with the tables, which name nothing twice. */
  lemma {:induction false} RegistrationsAgree(t: Tables, requests: seq<Request>)
    requires TablesValid(t)
    ensures TablesValid(AfterAll(t, requests))
    decreases requests
  {
    if |requests| > 0 {
      RegisterKeeps(t, requests[0]);
      RegistrationsAgree(AfterRegister(t, requests[0]), requests[1..]);
    }
  }

  lemma {:induction false} NamesStayKnown(t: Tables, requests: seq<Request>, name: int)
    requires |t.buckets| == HASH_SIZE && (name in t.vars || name in t.funcs)
    ensures var t' := AfterAll(t, requests); name in t'.vars || name in t'.funcs
    decreases requests
  {
    hide HasName, Added;
    if |requests| > 0 { NamesStayKnown(AfterRegister(t, requests[0]), requests[1..], name); }
  }

  /** As long as a class cannot be full, every name registered is known from then on. */
  lemma {:induction false} RegisteredIsKnown(t: Tables, requests: seq<Request>, k: nat)
    requires TablesValid(t) && |t.vars| + |t.funcs| + |requests| <= 8189 && k < |requests|
    ensures var t' := AfterAll(t, requests); requests[k].nameid in t'.vars || requests[k].nameid in t'.funcs
    decreases requests
  {
    hide Agrees, Distinct, HasName, Added, AfterRegister;
    KnownNames(t.buckets, t.vars, t.funcs, 0);
    var first := AfterRegister(t, requests[0]);
    RegisterTakes(t, requests[0]);
    RegisterKeeps(t, requests[0]);
    if k > 0 {
      RegisteredIsKnown(first, requests[1..], k - 1);
    } else {
      NamesStayKnown(first, requests[1..], requests[0].nameid);
    }
  }

  /**
   After any run on a new class a lookup gives i for variable i, 8189 + i for method i and -1 for any other name, and the
   two ranges of answers do not meet.
   */
  lemma LookupAfterRun(requests: seq<Request>, name: nat)
    ensures var t := AfterAll(Tables([], [], EmptyBuckets()), requests);
            && |t.buckets| == 32 && |t.vars| <= 8189 && |t.funcs| <= 8189
            && (forall i :: 0 <= i < |t.vars| ==> t.vars[i] >= 0 && Find(t.buckets[t.vars[i] % 32], t.vars[i]) == i)
            && (forall i :: 0 <= i < |t.funcs| ==>
                  t.funcs[i] >= 0 && Find(t.buckets[t.funcs[i] % 32], t.funcs[i]) == 8189 + i)
            && (name !in t.vars && name !in t.funcs ==> Find(t.buckets[name % 32], name) == -1)
  {
    EmptyAgrees();
    DistinctNothing();
    RegistrationsAgree(Tables([], [], EmptyBuckets()), requests);
    var t := AfterAll(Tables([], [], EmptyBuckets()), requests);
    DistinctIndexes(t.vars, t.funcs);
  }

  // ------------------------------------------------------------------------- the class

  class ClassTables {
    var vars: seq<int>     // varattr_global_name_idx
    var funcs: seq<int>    // funcattr_global_name_idx
    var funcIdxs: seq<int> // funcattr_func_idx
    const buckets: array<seq<Info>>

    ghost predicate TablesOk()
      reads this
    {
      && Distinct(vars + funcs) && |funcIdxs| == |funcs|
      && |vars| <= MAX_VARATTRS && |funcs| <= MAX_FUNCATTRS
      && (forall i :: 0 <= i < |vars| ==> vars[i] >= 0) && (forall i :: 0 <= i < |funcs| ==> funcs[i] >= 0)
    }

    ghost predicate Valid()
      reads this, buckets
    {
      TablesOk() && buckets.Length == HASH_SIZE && Agrees(buckets[..], vars, funcs)
    }

    /** A new class: h64program_AllocClassAttributeHashmap and empty tables. */
    constructor ()
      ensures Valid() && fresh(buckets) && vars == [] && funcs == [] && funcIdxs == []
    {
      vars, funcs, funcIdxs := [], [], [];
      buckets := new seq<Info>[HASH_SIZE](_ => [END]);
      new;
      EmptyAgrees();
      assert buckets[..] == EmptyBuckets();
    }

    /** The scan of _h64program_AddClassAttributeHashmapBucket: the free slot, or -1 if the name is taken. */
    static method FreeSlot(b: seq<Info>, nameid: int) returns (count: int)
      requires Terminated(b)
      ensures count == if HasName(b, nameid) then -1 else Entries(b)
    {
      count := 0;
      while b[count].nameid >= 0
        invariant 0 <= count <= Entries(b)
        invariant forall i :: 0 <= i < count ==> b[i].nameid != nameid
        decreases Entries(b) - count
      {
        if b[count].nameid == nameid {
          return -1;
        }
        count := count + 1;
      }
    }

    /** Put the entry and the end mark behind it. */
    method Store(count: int, nameid: int, index: int)
      requires buckets.Length == HASH_SIZE && nameid >= 0
      requires count == Entries(buckets[BucketOf(nameid)])
      modifies buckets
      ensures buckets[..] == Added(old(buckets[..]), nameid, index)
    {
      var k := nameid % HASH_SIZE;
      buckets[k] := buckets[k][..count] + [Info(nameid, Int16(index)), END];
    }

    /**
     h64program_RegisterClassAttributeEx for a name already interned. A function index of 0 or
     more registers a method, else a variable. Returns its index in its table, or -1 if
     the name is taken or the table is full.
     */
    method Register(nameid: int, funcIdx: int) returns (entry: int)
      requires Valid() && nameid >= 0
      modifies this, buckets
      ensures Valid()
      ensures Tables(vars, funcs, buckets[..]) ==
              AfterRegister(old(Tables(vars, funcs, buckets[..])), Request(nameid, funcIdx >= 0))
      ensures entry == -1 <==> nameid in old(vars) || nameid in old(funcs)
                               || (if funcIdx >= 0 then |old(funcs)| == MAX_FUNCATTRS else |old(vars)| == MAX_VARATTRS)
      ensures entry == -1 ==> vars == old(vars) && funcs == old(funcs) && funcIdxs == old(funcIdxs)
                              && buckets[..] == old(buckets[..])
      ensures entry != -1 && funcIdx >= 0 ==> entry == |old(funcs)| && vars == old(vars)
                                              && funcs == old(funcs) + [nameid] && funcIdxs == old(funcIdxs) + [funcIdx]
      ensures entry != -1 && funcIdx < 0 ==> entry == |old(vars)| && vars == old(vars) + [nameid]
                                             && funcs == old(funcs) && funcIdxs == old(funcIdxs)
    {
      hide Agrees, HasName, Added, AttributeIndex;
      KnownNames(buckets[..], vars, funcs, nameid);
      var count := FreeSlot(buckets[nameid % HASH_SIZE], nameid);
      if count < 0 {
        return -1;
      }
      if (funcIdx >= 0 && |funcs| >= MAX_FUNCATTRS) || (funcIdx < 0 && |vars| >= MAX_VARATTRS) {
        return -1;
      }
      AddingKeepsAgreement(buckets[..], vars, funcs, nameid);
      DistinctInsert(vars, funcs, nameid);
      if funcIdx >= 0 {
        entry := |funcs|;
        Store(count, nameid, METHOD_OFFSET + entry);
        funcs, funcIdxs := funcs + [nameid], funcIdxs + [funcIdx];
      } else {
        entry := |vars|;
        Store(count, nameid, entry);
        vars := vars + [nameid];
      }
    }

    /** h64program_LookupClassAttribute */
    method Lookup(nameid: int) returns (r: int)
      requires Valid() && nameid >= 0
      ensures r == AttributeIndex(vars, funcs, nameid)
    {
      var b := buckets[nameid % HASH_SIZE];
      RangesDisjoint(vars, funcs, nameid);
      assert Find(buckets[..][BucketOf(nameid)], nameid) == AttributeIndex(vars, funcs, nameid);
      var i := 0;
      assert b[0..] == b;
      while b[i].nameid >= 0
        invariant 0 <= i <= Entries(b) && Find(b, nameid) == Find(b[i..], nameid)
        decreases Entries(b) - i
      {
        if b[i].nameid == nameid {
          return b[i].methodorvaridx;
        }
        assert b[i..][1..] == b[i + 1..];
        i := i + 1;
      }
      return -1;
    }

    /** One round of either loop of the rebuild. */
    method Reinsert(nameid: int, index: int, ghost vs: seq<int>, ghost fs: seq<int>) returns (ok: bool)
      requires buckets.Length == HASH_SIZE && Agrees(buckets[..], vs, fs) && nameid >= 0
      requires index == |vs| || index == METHOD_OFFSET + |fs|
      modifies buckets
      ensures ok <==> nameid !in vs && nameid !in fs
      ensures ok && index == |vs| ==> Agrees(buckets[..], vs + [nameid], fs)
      ensures ok && index == METHOD_OFFSET + |fs| ==> Agrees(buckets[..], vs, fs + [nameid])
    {
      hide Agrees, HasName, Added, AttributeIndex;
      KnownNames(buckets[..], vs, fs, nameid);
      var count := FreeSlot(buckets[nameid % HASH_SIZE], nameid);
      if count < 0 {
        return false;
      }
      AddingKeepsAgreement(buckets[..], vs, fs, nameid);
      Store(count, nameid, index);
      return true;
    }

    /**
     h64program_RebuildClassAttributeHashmap: succeeds exactly when the tables name nothing twice, and
     then the buckets agree with them again, whatever they said before. The answers are exact exactly when the
     methods fit behind the offset.
     */
    method Rebuild() returns (ok: bool)
      requires buckets.Length == HASH_SIZE
      requires (forall i :: 0 <= i < |vars| ==> vars[i] >= 0) && (forall i :: 0 <= i < |funcs| ==> funcs[i] >= 0)
      modifies buckets
      ensures ok <==> Distinct(vars + funcs)
      ensures ok ==> Agrees(buckets[..], vars, funcs)
      ensures ok && |vars| <= 0x7FFF && METHOD_OFFSET + |funcs| <= 0x8000 ==>
                forall name :: name >= 0 ==> Find(buckets[..][BucketOf(name)], name) == AttributeIndex(vars, funcs, name)
    {
      hide Agrees, Distinct, AttributeIndex;
      forall k | 0 <= k < HASH_SIZE { buckets[k] := [END]; }
      EmptyAgrees();
      assert buckets[..] == EmptyBuckets();
      DistinctNothing();
      var i := 0;
      while i < |vars|
        invariant 0 <= i <= |vars| && Distinct(vars[..i]) && Agrees(buckets[..], vars[..i], [])
      {
        ghost var done := vars[..i];
        DistinctAppend(done, vars[i]);
        assert vars[..i + 1] == done + [vars[i]];
        var inserted := Reinsert(vars[i], i, done, []);
        if !inserted {
          assert (vars + funcs)[..i + 1] == vars[..i + 1];
          NotDistinct(vars + funcs, i + 1);
          return false;
        }
        i := i + 1;
      }
      assert vars[..i] == vars && vars + funcs[..0] == vars;
      i := 0;
      while i < |funcs|
        invariant 0 <= i <= |funcs| && Distinct(vars + funcs[..i]) && Agrees(buckets[..], vars, funcs[..i])
      {
        ghost var done := funcs[..i];
        DistinctAppend(vars + done, funcs[i]);
        assert funcs[..i + 1] == done + [funcs[i]];
        assert vars + funcs[..i + 1] == (vars + done) + [funcs[i]];
        var inserted := Reinsert(funcs[i], METHOD_OFFSET + i, vars, done);
        if !inserted {
          assert (vars + funcs)[..|vars| + i + 1] == vars + funcs[..i + 1];
          NotDistinct(vars + funcs, |vars| + i + 1);
          return false;
        }
        i := i + 1;
      }
      assert funcs[..i] == funcs;
      ExactWhenFitting(buckets[..], vars, funcs);
      return true;
    }
  }

  lemma ExactWhenFitting(bs: seq<seq<Info>>, vars: seq<int>, funcs: seq<int>)
    requires Agrees(bs, vars, funcs) && Distinct(vars + funcs)
    ensures |vars| <= 0x7FFF && METHOD_OFFSET + |funcs| <= 0x8000 ==>
              forall name :: name >= 0 ==> Find(bs[BucketOf(name)], name) == AttributeIndex(vars, funcs, name)
  {
    if |vars| <= 0x7FFF { AnswersFit(vars, funcs); }
  }

  lemma DistinctNothing()
    ensures Distinct([])
  {
  }

  lemma NotDistinct(names: seq<int>, n: nat)
    requires n <= |names| && !Distinct(names[..n])
    ensures !Distinct(names)
  {
    var i, j :| 0 <= i < j < n && names[..n][i] == names[..n][j];
    assert names[i] == names[j];
  }
}
