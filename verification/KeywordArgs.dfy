/**
 The keyword arguments of a registered function (h64program_RegisterCFunction in horse64/bytecode.c): name ids are
 kept sorted by insertion, and the names move along with them.
 */
module KeywordArgs {
  import opened Options
  import opened Interning

  datatype Keyword = Keyword(id: nat, name: Name)

  // ------------------------------------------------------------------ what insertion means

  /** The first place behind all ids that are not larger. */
  function Place(s: seq<Keyword>, id: nat): (k: nat)
    ensures k <= |s|
    ensures k > 0 ==> s[k - 1].id <= id
    ensures k < |s| ==> s[k].id > id
  {
    if |s| > 0 && s[|s| - 1].id > id then
      var k := Place(s[..|s| - 1], id);
      k
    else |s|
  }

  function Insert(s: seq<Keyword>, x: Keyword): seq<Keyword> {
    s[..Place(s, x.id)] + [x] + s[Place(s, x.id)..]
  }

  function InsertAll(xs: seq<Keyword>): seq<Keyword> {
    if |xs| == 0 then [] else Insert(InsertAll(xs[..|xs| - 1]), xs[|xs| - 1])
  }

  predicate Sorted(s: seq<Keyword>) {
    forall i, j :: 0 <= i < j < |s| ==> s[i].id <= s[j].id
  }

  lemma InsertedAt(s: seq<Keyword>, x: Keyword, k: nat)
    requires k <= |s|
    ensures |Insert(s, x)| == |s| + 1
    ensures var p := Place(s, x.id); Insert(s, x)[k] == if k < p then s[k] else if k == p then x else s[k - 1]
  {
  }

  lemma InsertKeepsSorted(s: seq<Keyword>, x: Keyword)
    requires Sorted(s)
    ensures Sorted(Insert(s, x))
  {
    hide Insert;
    InsertedAt(s, x, 0);
    forall i, j | 0 <= i < j < |Insert(s, x)| ensures Insert(s, x)[i].id <= Insert(s, x)[j].id {
      InsertedAt(s, x, i);
      InsertedAt(s, x, j);
    }
  }

  lemma InsertAdds(s: seq<Keyword>, x: Keyword)
    ensures multiset(Insert(s, x)) == multiset(s) + multiset{x}
  {
    var k := Place(s, x.id);
    assert s == s[..k] + s[k..];
  }

  /** The keywords come out sorted by id, each with its own name, none lost and none doubled. */
  lemma {:induction false} InsertAllSorts(xs: seq<Keyword>)
    ensures Sorted(InsertAll(xs)) && multiset(InsertAll(xs)) == multiset(xs) && |InsertAll(xs)| == |xs|
  {
    hide Insert, Sorted;
    SortedNothing();
    if |xs| > 0 {
      var front, last := xs[..|xs| - 1], xs[|xs| - 1];
      InsertAllSorts(front);
      InsertKeepsSorted(InsertAll(front), last);
      InsertAdds(InsertAll(front), last);
      InsertedAt(InsertAll(front), last, 0);
      FrontAndLast(xs);
    }
  }

  lemma SortedNothing()
    ensures Sorted([])
  {
  }

  lemma FrontAndLast(xs: seq<Keyword>)
    requires |xs| > 0
    ensures multiset(xs) == multiset(xs[..|xs| - 1]) + multiset{xs[|xs| - 1]}
  {
    assert xs == xs[..|xs| - 1] + [xs[|xs| - 1]];
  }

  // ------------------------------------------------------------------ the two arrays

  /** The first |kept| slots hold these keywords, the id slots behind them -1. */
  ghost predicate Holds(ids: array<int>, names: array<Option<Name>>, first: nat, kept: seq<Keyword>)
    reads ids, names
  {
    && |kept| <= ids.Length && names.Length == first + ids.Length
    && (forall k :: 0 <= k < |kept| ==> ids[k] == kept[k].id && names[first + k] == Some(kept[k].name))
    && (forall k :: |kept| <= k < ids.Length ==> ids[k] == -1)
    && (forall k :: 0 <= k < first ==> names[k] == None)
  }

  /** The search for the insertion slot: its assertion never fails while a slot is free. */
  method FindSlot(ids: array<int>, names: array<Option<Name>>, first: nat, ghost kept: seq<Keyword>, id: nat)
    returns (slot: nat)
    requires Holds(ids, names, first, kept) && Sorted(kept) && |kept| < ids.Length
    ensures slot == Place(kept, id)
  {
    slot := 0;
    while slot < ids.Length
      invariant 0 <= slot <= Place(kept, id)
      decreases ids.Length - slot
    {
      if (slot <= 0 || ids[slot - 1] <= id) && (ids[slot] > id || ids[slot] < 0) {
        return;
      }
      slot := slot + 1;
    }
  }

  /** memmove of everything from a slot on by one place upwards. */
  method ShiftUp<T>(a: array<T>, from: nat)
    requires from < a.Length
    modifies a
    ensures forall j :: 0 <= j <= from ==> a[j] == old(a[j])
    ensures forall j :: from < j < a.Length ==> a[j] == old(a[..])[j - 1]
  {
    ghost var before := a[..];
    var k := a.Length - 1;
    while k > from
      invariant from <= k < a.Length
      invariant forall j :: 0 <= j <= k ==> a[j] == before[j]
      invariant forall j :: k < j < a.Length ==> a[j] == before[j - 1]
    {
      a[k] := a[k - 1];
      k := k - 1;
    }
  }

  /** Make space in a slot and fill it. */
  method InsertAt<T>(a: array<T>, slot: nat, x: T)
    requires slot < a.Length
    modifies a
    ensures forall j :: 0 <= j < slot ==> a[j] == old(a[..])[j]
    ensures a[slot] == x
    ensures forall j :: slot < j < a.Length ==> a[j] == old(a[..])[j - 1]
  {
    if slot < a.Length - 1 { ShiftUp(a, slot); }
    a[slot] := x;
  }

  method InsertKeyword(ids: array<int>, names: array<Option<Name>>, first: nat, ghost kept: seq<Keyword>, x: Keyword)
    requires Holds(ids, names, first, kept) && Sorted(kept) && |kept| < ids.Length
    modifies ids, names
    ensures Holds(ids, names, first, Insert(kept, x))
  {
    hide Insert, Sorted;
    var slot := FindSlot(ids, names, first, kept, x.id);
    InsertAt(ids, slot, x.id);
    InsertAt(names, first + slot, Some(x.name));
    forall k: nat | k <= |kept| ensures |Insert(kept, x)| == |kept| + 1
      ensures ids[k] == Insert(kept, x)[k].id && names[first + k] == Some(Insert(kept, x)[k].name)
    {
      InsertedAt(kept, x, k);
    }
  }

  function FirstKeyword(args: seq<Option<Name>>): (first: nat)
    ensures first <= |args|
    ensures forall k :: 0 <= k < first ==> args[k].None?
    ensures first < |args| ==> args[first].Some?
  {
    if |args| == 0 || args[0].Some? then 0 else 1 + FirstKeyword(args[1..])
  }

  function KeywordNames(args: seq<Option<Name>>): (r: seq<Name>)
    requires forall k :: FirstKeyword(args) <= k < |args| ==> args[k].Some?
    ensures |r| == |args| - FirstKeyword(args)
  {
    seq(|args| - FirstKeyword(args), k requires 0 <= k < |args| - FirstKeyword(args) => args[FirstKeyword(args) + k].value)
  }

  /** Requests that add every name. */
  function Requests(names: seq<Name>): seq<Request> {
    seq(|names|, k requires 0 <= k < |names| => Request(names[k], true))
  }

  predicate AllKnown(known: seq<Name>, names: seq<Name>) {
    forall k :: 0 <= k < |names| ==> names[k] in known
  }

  function WithIds(known: seq<Name>, names: seq<Name>): seq<Keyword>
    requires AllKnown(known, names)
  {
    seq(|names|, k requires 0 <= k < |names| => Keyword(IdOf(known, names[k]), names[k]))
  }

  lemma {:induction false} OneMoreRequest(known: seq<Name>, names: seq<Name>, name: Name)
    ensures AfterAll(known, Requests(names + [name])) == After(AfterAll(known, Requests(names)), name, true)
    decreases names
  {
    if |names| == 0 {
      assert Requests(names + [name])[1..] == Requests(names);
    } else {
      OneMoreRequest(After(known, names[0], true), names[1..], name);
      assert Requests(names)[1..] == Requests(names[1..]);
      assert (names + [name])[1..] == names[1..] + [name];
      assert Requests(names + [name])[1..] == Requests(names[1..] + [name]);
    }
  }

  /** Interning one more name leaves the ids of the others alone. */
  lemma IdsKept(known: seq<Name>, names: seq<Name>, name: Name)
    requires Unique(known) && AllKnown(known, names)
    ensures var after := After(known, name, true);
            && Unique(after) && AllKnown(after, names + [name])
            && WithIds(after, names + [name]) == WithIds(known, names) + [Keyword(IdOf(after, name), name)]
  {
    var one := [Request(name, true)];
    assert AfterAll(known, one) == After(known, name, true) by { assert one[1..] == []; }
    IdsAreForever(known, one);
  }

  /** The arrays hold these names sorted by their ids. */
  ghost predicate Filled(known: seq<Name>, ids: array<int>, names: array<Option<Name>>, first: nat, done: seq<Name>)
    reads ids, names
  {
    AllKnown(known, done) && Holds(ids, names, first, InsertAll(WithIds(known, done)))
  }

  /** One round of the loop: intern the name, find its slot, and put it there. */
  method AddKeyword(table: NameTable, ids: array<int>, names: array<Option<Name>>, first: nat, name: Name,
                    ghost done: seq<Name>)
    requires table.Valid() && Filled(table.names, ids, names, first, done) && |done| < ids.Length
    modifies table, table.ids, table.ids.buckets, table.ids.nodes, ids, names
    ensures table.Valid() && fresh(table.ids.nodes - old(table.ids.nodes))
    ensures table.names == After(old(table.names), name, true)
    ensures Filled(table.names, ids, names, first, done + [name])
  {
    hide Insert, InsertAll, Holds, AllKnown, WithIds;
    ghost var xs := WithIds(table.names, done);
    WithIdsSize(table.names, done);
    TableIsUnique(table);
    IdsKept(table.names, done, name);
    var id := table.NameToId(name, true, false);
    InsertAllSorts(xs);
    NextKeyword(xs, Keyword(id, name));
    assert Holds(ids, names, first, InsertAll(xs));
    InsertKeyword(ids, names, first, InsertAll(xs), Keyword(id, name));
  }

  lemma FilledAtFirst(known: seq<Name>, ids: array<int>, names: array<Option<Name>>, first: nat)
    requires names.Length == first + ids.Length
    requires forall k :: 0 <= k < ids.Length ==> ids[k] == -1
    requires forall k :: 0 <= k < first ==> names[k] == None
    ensures Filled(known, ids, names, first, []) && known == AfterAll(known, Requests([]))
  {
  }

  /**
   The first slots for names are empty, as many as there are arguments without a keyword; behind them are the keywords
   given, none lost and none doubled, each beside its id, with the ids rising.
   */
  ghost predicate KeywordsSorted(known: seq<Name>, ids: array<int>, names: array<Option<Name>>, args: seq<Option<Name>>)
    reads ids, names
  {
    var first := FirstKeyword(args);
    && names.Length == |args| == first + ids.Length && (forall k :: 0 <= k < first ==> names[k] == None)
    && (forall k :: 0 <= k < ids.Length ==> names[first + k].Some? && ids[k] == IdOf(known, names[first + k].value))
    && (forall j, k :: 0 <= j < k < ids.Length ==> ids[j] <= ids[k])
    && multiset(names[first..]) == multiset(args[first..])
  }

  /** The part of h64program_RegisterCFunction that interns the keyword names of a function and sorts them by id. */
  method SortKeywords(table: NameTable, args: seq<Option<Name>>) returns (ids: array<int>, names: array<Option<Name>>)
    requires table.Valid() && forall k :: FirstKeyword(args) <= k < |args| ==> args[k].Some?
    modifies table, table.ids, table.ids.buckets, table.ids.nodes
    ensures table.Valid() && table.names == AfterAll(old(table.names), Requests(KeywordNames(args)))
    ensures ids.Length == |KeywordNames(args)| && Filled(table.names, ids, names, FirstKeyword(args), KeywordNames(args))
    ensures KeywordsSorted(table.names, ids, names, args)
  {
    hide *;
    var first, wanted := FirstKeyword(args), KeywordNames(args);
    ids := new int[|wanted|](_ => -1);
    names := new Option<Name>[|args|](_ => None);
    assert wanted[..0] == [];
    FilledAtFirst(table.names, ids, names, first);
    for i := 0 to |wanted|
      invariant table.Valid() && fresh(table.ids.nodes - old(table.ids.nodes))
      invariant table.names == AfterAll(old(table.names), Requests(wanted[..i]))
      invariant Filled(table.names, ids, names, first, wanted[..i])
    {
      OneMoreRequest(old(table.names), wanted[..i], wanted[i]);
      assert wanted[..i + 1] == wanted[..i] + [wanted[i]];
      AddKeyword(table, ids, names, first, wanted[i], wanted[..i]);
    }
    assert wanted[..|wanted|] == wanted;
    FilledMeans(table.names, ids, names, args);
  }

  function NamesOf(xs: seq<Keyword>): (r: seq<Option<Name>>)
    ensures |r| == |xs|
  {
    seq(|xs|, k requires 0 <= k < |xs| => Some(xs[k].name))
  }

  lemma {:induction false} NamesInserted(xs: seq<Keyword>)
    ensures multiset(NamesOf(InsertAll(xs))) == multiset(NamesOf(xs))
  {
    hide Insert;
    if |xs| > 0 {
      var front, last := xs[..|xs| - 1], xs[|xs| - 1];
      NamesInserted(front);
      NamesOfInsert(InsertAll(front), last);
      assert NamesOf(xs) == NamesOf(front) + [Some(last.name)];
    }
  }

  lemma NamesOfInsert(s: seq<Keyword>, x: Keyword)
    ensures multiset(NamesOf(Insert(s, x))) == multiset(NamesOf(s)) + multiset{Some(x.name)}
  {
    var k := Place(s, x.id);
    assert NamesOf(Insert(s, x)) == NamesOf(s)[..k] + [Some(x.name)] + NamesOf(s)[k..];
    assert NamesOf(s) == NamesOf(s)[..k] + NamesOf(s)[k..];
  }

  /** What filled arrays hold, seen from outside: each id is that of the name beside it, and the names are those given. */
  lemma FilledMeans(known: seq<Name>, ids: array<int>, names: array<Option<Name>>, args: seq<Option<Name>>)
    requires forall k :: FirstKeyword(args) <= k < |args| ==> args[k].Some?
    requires ids.Length == |KeywordNames(args)| && Filled(known, ids, names, FirstKeyword(args), KeywordNames(args))
    ensures KeywordsSorted(known, ids, names, args)
  {
    hide Insert, InsertAll, IdOf;
    var first, wanted := FirstKeyword(args), KeywordNames(args);
    var xs := WithIds(known, wanted);
    var kept := InsertAll(xs);
    InsertAllSorts(xs);
    NamesInserted(xs);
    assert NamesOf(xs) == args[first..];
    assert NamesOf(kept) == names[first..];
    forall k: nat | k < ids.Length
      ensures names[first + k] == Some(kept[k].name) && kept[k].id == IdOf(known, kept[k].name)
    {
      KeptHasId(known, wanted, kept, k);
    }
  }

  lemma KeptHasId(known: seq<Name>, wanted: seq<Name>, kept: seq<Keyword>, k: nat)
    requires AllKnown(known, wanted) && multiset(kept) == multiset(WithIds(known, wanted)) && k < |kept|
    ensures kept[k].id == IdOf(known, kept[k].name)
  {
    hide IdOf;
    var xs := WithIds(known, wanted);
    assert kept[k] in multiset(kept);
    assert kept[k] in xs;
    var m :| 0 <= m < |xs| && xs[m] == kept[k];
    assert xs[m] == Keyword(IdOf(known, wanted[m]), wanted[m]);
  }

  lemma WithIdsSize(known: seq<Name>, names: seq<Name>)
    requires AllKnown(known, names)
    ensures |WithIds(known, names)| == |names|
  {
  }

  lemma NextKeyword(xs: seq<Keyword>, x: Keyword)
    ensures InsertAll(xs + [x]) == Insert(InsertAll(xs), x) && |Insert(InsertAll(xs), x)| == |InsertAll(xs)| + 1
  {
    assert (xs + [x])[..|xs|] == xs;
  }

  lemma TableIsUnique(table: NameTable)
    requires table.Valid()
    ensures Unique(table.names)
  {
    InverseIsUnique(table.ids.Table(), table.ids.hash, table.names, []);
  }
}
