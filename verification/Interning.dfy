/**
 Attribute names and their dense ids (h64debugsymbols_AttributeNameToAttributeNameId in horse64/debugsymbols.c): an
 array of names, and a hash map from name to position.
 */
module Interning {
  import opened Options
  import opened Words
  import HashMap

  type Name = HashMap.Key

  /** The key a string map stores: the name with its terminating zero. */
  function Terminated(name: Name): (key: HashMap.Key)
    ensures |key| == |name| + 1 && key[..|name|] == name && key[|name|] == 0
  {
    name + [0]
  }

  function Text(s: string): Name {
    seq(|s|, i requires 0 <= i < |s| => s[i] as int % 256)
  }

  /** The names for which the program keeps the id in a field of its own. */
  function Builtins(): set<Name> {
    {Text("as_bytes"), Text("as_str"), Text("len"), Text("init"), Text("on_cloned_name_index"), Text("on_destroy"),
     Text("add"), Text("del"), Text("contains"), Text("is_a")}
  }

  lemma MoreTextBytes()
    ensures Text("as_bytes") == [97, 115, 95, 98, 121, 116, 101, 115] && Text("as_str") == [97, 115, 95, 115, 116, 114]
    ensures Text("on_cloned_name_index") ==
            [111, 110, 95, 99, 108, 111, 110, 101, 100, 95, 110, 97, 109, 101, 95, 105, 110, 100, 101, 120]
  {
  }

  lemma TextBytes()
    ensures Text("len") == [108, 101, 110] && Text("init") == [105, 110, 105, 116]
    ensures Text("on_destroy") == [111, 110, 95, 100, 101, 115, 116, 114, 111, 121]
    ensures Text("add") == [97, 100, 100] && Text("del") == [100, 101, 108]
    ensures Text("contains") == [99, 111, 110, 116, 97, 105, 110, 115] && Text("is_a") == [105, 115, 95, 97]
  {
  }

  /** Ten names, one for each id field of the program, by their bytes. */
  lemma BuiltinNames(name: Name)
    ensures name in Builtins() <==> name in [
              [97, 115, 95, 98, 121, 116, 101, 115], [97, 115, 95, 115, 116, 114], [108, 101, 110], [105, 110, 105, 116],
              [111, 110, 95, 99, 108, 111, 110, 101, 100, 95, 110, 97, 109, 101, 95, 105, 110, 100, 101, 120],
              [111, 110, 95, 100, 101, 115, 116, 114, 111, 121], [97, 100, 100], [100, 101, 108],
              [99, 111, 110, 116, 97, 105, 110, 115], [105, 115, 95, 97]]
  {
    hide Text;
    TextBytes();
    MoreTextBytes();
  }

  // ------------------------------------------------------------------ what the calls mean

  function After(names: seq<Name>, name: Name, add: bool): seq<Name> {
    if add && name !in names then names + [name] else names
  }

  /** The id of a name: its position, or -1. */
  function IdOf(names: seq<Name>, name: Name): (id: int)
    ensures id == -1 <==> name !in names
    ensures name in names ==> 0 <= id < |names| && names[id] == name
  {
    if |names| == 0 then -1
    else if names[|names| - 1] == name then |names| - 1
    else IdOf(names[..|names| - 1], name)
  }

  datatype Request = Request(name: Name, add: bool)

  function AfterAll(names: seq<Name>, requests: seq<Request>): seq<Name>
    decreases requests
  {
    if |requests| == 0 then names
    else AfterAll(After(names, requests[0].name, requests[0].add), requests[1..])
  }

  predicate Unique(names: seq<Name>) {
    forall i, j :: 0 <= i < j < |names| ==> names[i] != names[j]
  }

  /** Ids and names stay inverse to each other, and an id once given is never given to another name. */
  lemma {:induction false} IdsAreForever(names: seq<Name>, requests: seq<Request>)
    requires Unique(names)
    ensures names <= AfterAll(names, requests) && Unique(AfterAll(names, requests))
    ensures forall i: nat :: i < |AfterAll(names, requests)| ==> IdOf(AfterAll(names, requests), AfterAll(names, requests)[i]) == i
    ensures forall name :: name in names ==> IdOf(AfterAll(names, requests), name) == IdOf(names, name)
    decreases requests
  {
    if |requests| > 0 {
      IdsAreForever(After(names, requests[0].name, requests[0].add), requests[1..]);
    }
  }

  /** A name asked for with permission to add it has an id from then on. */
  lemma {:induction false} AddedIsKnown(names: seq<Name>, requests: seq<Request>, k: nat)
    requires Unique(names) && k < |requests| && requests[k].add
    ensures requests[k].name in AfterAll(names, requests)
    decreases requests
  {
    var first := After(names, requests[0].name, requests[0].add);
    if k > 0 {
      AddedIsKnown(first, requests[1..], k - 1);
    } else {
      IdsAreForever(first, requests[1..]);
      assert first[IdOf(first, requests[0].name)] == requests[0].name;
    }
  }

  // ------------------------------------------------------------------ names and map in memory

  /** The map answers with the position of a name, and knows nothing else. */
  ghost predicate Inverse(t: HashMap.Table, hash: HashMap.Key -> nat, names: seq<Name>)
    requires |t| > 0
  {
    && (forall i: nat :: i < |names| ==> HashMap.Get(t, hash, Terminated(names[i])) == Some(i))
    && (forall name: Name, i: nat :: HashMap.Get(t, hash, Terminated(name)) == Some(i) ==> i < |names| && names[i] == name)
  }

  lemma InverseIsUnique(t: HashMap.Table, hash: HashMap.Key -> nat, names: seq<Name>, name: Name)
    requires |t| > 0 && Inverse(t, hash, names)
    ensures Unique(names)
    ensures HashMap.Get(t, hash, Terminated(name)) == if name in names then Some(IdOf(names, name)) else None
  {
    forall i, j | 0 <= i < j < |names| ensures names[i] != names[j] {
      assert HashMap.Get(t, hash, Terminated(names[i])) == Some(i);
      assert HashMap.Get(t, hash, Terminated(names[j])) == Some(j);
    }
    if name in names {
      assert HashMap.Get(t, hash, Terminated(names[IdOf(names, name)])) == Some(IdOf(names, name));
    }
  }

  lemma PutKeepsInverse(t: HashMap.Table, hash: HashMap.Key -> nat, names: seq<Name>, name: Name)
    requires HashMap.Good(t, hash) && Inverse(t, hash, names) && name !in names
    ensures var u := HashMap.Apply(t, hash, HashMap.Put(Terminated(name), |names|));
            HashMap.Good(u, hash) && Inverse(u, hash, names + [name])
  {
    hide HashMap.Get, HashMap.Apply;
    var op := HashMap.Put(Terminated(name), |names|);
    var u := HashMap.Apply(t, hash, op);
    HashMap.ApplyKeepsGood(t, hash, op);
    forall other: Name
      ensures HashMap.Get(u, hash, Terminated(other)) ==
              if other == name then Some(|names|) else HashMap.Get(t, hash, Terminated(other))
    {
      HashMap.ApplyAnswers(t, hash, op, Terminated(other));
      assert Terminated(other)[..|other|] == other;
      assert Terminated(name)[..|name|] == name;
    }
  }

  /** The id fields of the program hold the ids of those built-in names that were seen, and these ids are fixed. */
  ghost predicate Tracks(tracked: map<Name, nat>, names: seq<Name>, needsIndex: seq<bool>, hasProgram: bool)
    requires |names| == |needsIndex|
  {
    && (forall name :: name in tracked <==> hasProgram && name in Builtins() && name in names)
    && (forall name :: name in tracked ==> IdOf(names, name) == tracked[name] && needsIndex[tracked[name]])
  }

  lemma AddKeepsTracks(tracked: map<Name, nat>, names: seq<Name>, needsIndex: seq<bool>, hasProgram: bool, name: Name, needs: bool)
    requires |names| == |needsIndex| && Tracks(tracked, names, needsIndex, hasProgram) && name !in names
    ensures Tracks(if hasProgram && name in Builtins() then tracked[name := |names|] else tracked, names + [name],
                   needsIndex + [needs || (hasProgram && name in Builtins())], hasProgram)
  {
    hide Builtins;
    assert (names + [name])[..|names|] == names;
  }

  class NameTable {
    var names: seq<Name>
    var needsIndex: seq<bool>
    /** The id fields of the program, for as long as there is a program. */
    var tracked: map<Name, nat>
    const hasProgram: bool
    const ids: HashMap.Map

    ghost predicate Valid()
      reads this, ids, ids.buckets, ids.nodes
    {
      && ids.Valid()
      && HashMap.Good(ids.Table(), ids.hash)
      && Inverse(ids.Table(), ids.hash, names)
      && |names| == |needsIndex|
      && Tracks(tracked, names, needsIndex, hasProgram)
    }

    constructor (hash: HashMap.Key -> nat, hasProgram: bool)
      ensures Valid() && fresh(ids) && fresh(ids.buckets) && fresh(ids.nodes) && names == [] && this.hasProgram == hasProgram
    {
      names, needsIndex, tracked := [], [], map[];
      this.hasProgram := hasProgram;
      ids := new HashMap.Map(hash, 5120);
    }

    /** While there is a program, its field of a built-in name is set exactly if the name was seen, to the id of the name. */
    lemma FieldsHoldIds(name: Name)
      requires Valid()
      ensures name in tracked <==> hasProgram && name in Builtins() && name in names
      ensures name in tracked ==> tracked[name] == IdOf(names, name) && tracked[name] < |needsIndex| && needsIndex[tracked[name]]
    {
    }

    /** h64debugsymbols_AttributeNameToAttributeNameId */
    method NameToId(name: Name, add: bool, requireFixed: bool) returns (id: int)
      requires Valid()
      modifies this, ids, ids.buckets, ids.nodes
      ensures Valid() && fresh(ids.nodes - old(ids.nodes))
      ensures names == After(old(names), name, add) && id == IdOf(names, name)
      ensures needsIndex == if names == old(names) then old(needsIndex)
                            else old(needsIndex) + [requireFixed || (hasProgram && name in Builtins())]
      ensures tracked == if names != old(names) && hasProgram && name in Builtins() then old(tracked)[name := |old(names)|]
                         else old(tracked)
    {
      hide Builtins, Tracks, Inverse, HashMap.Apply, HashMap.Get;
      InverseIsUnique(ids.Table(), ids.hash, names, name);
      var found := ids.Lookup(Terminated(name));
      if found.Some? { return found.value; }
      if !add { return -1; }
      var newId := |names|;
      PutKeepsInverse(ids.Table(), ids.hash, names, name);
      AddKeepsTracks(tracked, names, needsIndex, hasProgram, name, requireFixed);
      names, needsIndex := names + [name], needsIndex + [requireFixed];
      ids.Change(HashMap.Put(Terminated(name), newId));
      if hasProgram && name in Builtins() {
        tracked := tracked[name := newId];
        needsIndex := needsIndex[newId := true];
      }
      assert needsIndex == old(needsIndex) + [requireFixed || (hasProgram && name in Builtins())];
      return newId;
    }
  }
}
