/**
 The pool allocator (horse64/poolalloc.c): slots of one size in areas of growing length, with
 a few slots kept back for callers that may use the emergency margin.
 */
module PoolAlloc {
  import opened Options

  const FIRST_POOL_SIZE: nat := 256

  /** A normal allocation adds an area when fewer slots than this are free. */
  const MARGIN: nat := 10

  /** One area: the address of its first byte, its slots, and where a free one was last seen. */
  datatype Area = Area(base: int, slotUsed: seq<bool>, possiblyFree: nat)

  datatype Pool = Pool(allocSize: int, areas: seq<Area>, lastUsedArea: int, totalItems: int, freeItems: int)

  /** A slot: area j, index k. */
  datatype Slot = Slot(area: nat, index: nat)

  // ---------------------------------------------------------------------------- slots

  predicate HasSlot(p: Pool, s: Slot) { s.area < |p.areas| && s.index < |p.areas[s.area].slotUsed| }

  predicate IsUsed(p: Pool, s: Slot)
    requires HasSlot(p, s)
  {
    p.areas[s.area].slotUsed[s.index]
  }

  function Address(p: Pool, s: Slot): int
    requires HasSlot(p, s)
  {
    p.areas[s.area].base + p.allocSize * s.index
  }

  predicate LiveAt(p: Pool, s: Slot, ptr: int) { HasSlot(p, s) && IsUsed(p, s) && Address(p, s) == ptr }

  /** ptr was handed out and not freed since. */
  ghost predicate Live(p: Pool, ptr: int) { exists s :: LiveAt(p, s, ptr) }

  function CountFree(slots: seq<bool>): nat {
    if |slots| == 0 then 0 else (if slots[0] then 0 else 1) + CountFree(slots[1..])
  }

  function AllFree(areas: seq<Area>): nat {
    if |areas| == 0 then 0 else CountFree(areas[0].slotUsed) + AllFree(areas[1..])
  }

  function AllSlots(areas: seq<Area>): nat {
    if |areas| == 0 then 0 else |areas[0].slotUsed| + AllSlots(areas[1..])
  }

  /** Area j has 256 times 2 to the j slots. */
  function AreaSize(j: nat): (n: nat)
    ensures n > 0
  {
    if j == 0 then FIRST_POOL_SIZE else AreaSize(j - 1) * 2
  }

  function AreaEnd(p: Pool, j: nat): int
    requires j < |p.areas|
  {
    p.areas[j].base + p.allocSize * |p.areas[j].slotUsed|
  }

  /** The bytes from base on, size slots long, overlap no area. */
  ghost predicate Apart(p: Pool, base: int, size: nat) {
    forall j :: 0 <= j < |p.areas| ==> AreaEnd(p, j) <= base || base + p.allocSize * size <= p.areas[j].base
  }

  predicate IsByte(x: int, start: int, end: int) { start <= x < end }

  ghost predicate ShareByte(start: int, end: int, start2: int, end2: int) {
    exists x :: IsByte(x, start, end) && IsByte(x, start2, end2)
  }

  /** That is, no byte of it is a byte of an area. */
  lemma ApartSharesNoByte(p: Pool, base: int, size: nat)
    requires p.allocSize > 0 && size > 0 && forall j :: 0 <= j < |p.areas| ==> |p.areas[j].slotUsed| > 0
    ensures Apart(p, base, size) <==>
            forall j :: 0 <= j < |p.areas| ==>
              !ShareByte(base, base + p.allocSize * size,
                         p.areas[j].base, p.areas[j].base + p.allocSize * |p.areas[j].slotUsed|)
  {
    if !Apart(p, base, size) {
      var j :| 0 <= j < |p.areas| && AreaEnd(p, j) > base && base + p.allocSize * size > p.areas[j].base;
      MulStep(p.allocSize, 0, size);
      MulStep(p.allocSize, 0, |p.areas[j].slotUsed|);
      var x := if base < p.areas[j].base then p.areas[j].base else base;
      assert IsByte(x, base, base + p.allocSize * size) && IsByte(x, p.areas[j].base, AreaEnd(p, j));
    }
  }

  ghost predicate AreasApart(p: Pool) {
    forall i, j :: 0 <= i < j < |p.areas| ==> AreaEnd(p, i) <= p.areas[j].base || AreaEnd(p, j) <= p.areas[i].base
  }

  ghost predicate Valid(p: Pool) {
    && p.allocSize > 0 && |p.areas| > 0
    && (forall j :: 0 <= j < |p.areas| ==> |p.areas[j].slotUsed| == AreaSize(j))
    && AreasApart(p)
    && p.freeItems == AllFree(p.areas) && p.totalItems == AllSlots(p.areas)
  }

  // ------------------------------------------------------------------------ operations

  /** poolalloc_AddArea; room is the address malloc finds for the area, or nothing. */
  function AddArea(p: Pool, room: Option<int>): Option<Pool> {
    if room.None? then None
    else
      var size := if |p.areas| > 0 then |p.areas[|p.areas| - 1].slotUsed| * 2 else FIRST_POOL_SIZE;
      Some(p.(areas := p.areas + [Area(room.value, seq(size, _ => false), 0)],
              freeItems := p.freeItems + size, totalItems := p.totalItems + size,
              lastUsedArea := |p.areas|))
  }

  /** poolalloc_New */
  function New(itemSize: int, room: Option<int>): Option<Pool> {
    if itemSize <= 0 then None else AddArea(Pool(itemSize, [], 0, 0, 0), room)
  }

  function FirstFree(slots: seq<bool>): (k: nat)
    ensures k <= |slots|
    ensures k < |slots| ==> !slots[k]
  {
    if |slots| == 0 || !slots[0] then 0 else 1 + FirstFree(slots[1..])
  }

  /** The first free slot in area order, from area j on. */
  function FirstFreeFrom(p: Pool, j: nat): (s: Option<Slot>)
    ensures s.Some? ==> HasSlot(p, s.value) && !IsUsed(p, s.value)
    decreases |p.areas| - j
  {
    if j >= |p.areas| then None
    else
      var k := FirstFree(p.areas[j].slotUsed);
      if k < |p.areas[j].slotUsed| then Some(Slot(j, k)) else FirstFreeFrom(p, j + 1)
  }

  /** The slot an allocation takes: the hint of the area last used, else its first free slot, else any. */
  function Choose(p: Pool): (s: Option<Slot>)
    ensures s.Some? ==> HasSlot(p, s.value) && !IsUsed(p, s.value)
  {
    if 0 <= p.lastUsedArea < |p.areas| then
      var a := p.areas[p.lastUsedArea];
      if a.possiblyFree < |a.slotUsed| && !a.slotUsed[a.possiblyFree] then Some(Slot(p.lastUsedArea, a.possiblyFree))
      else
        var k := FirstFree(a.slotUsed);
        if k < |a.slotUsed| then Some(Slot(p.lastUsedArea, k)) else FirstFreeFrom(p, 0)
    else FirstFreeFrom(p, 0)
  }

  function SetSlot(p: Pool, s: Slot, used: bool, hint: nat): Pool
    requires HasSlot(p, s)
  {
    var a := p.areas[s.area];
    p.(areas := p.areas[s.area := a.(slotUsed := a.slotUsed[s.index := used], possiblyFree := hint)], lastUsedArea := s.area)
  }

  function Take(p: Pool, s: Slot): Pool
    requires HasSlot(p, s)
  {
    SetSlot(p, s, true, s.index + 1).(freeItems := p.freeItems - 1)
  }

  /** poolalloc_malloc: the pool afterwards and the address, or nothing. */
  function Malloc(p: Pool, emergency: bool, room: Option<int>): (Pool, Option<int>) {
    var grown := if !emergency && p.freeItems < MARGIN then AddArea(p, room) else Some(p);
    if grown.None? then (p, None)
    else
      var q := grown.value;
      if q.freeItems <= 0 then (q, None)
      else
        var s := Choose(q);
        if s.None? then (q, None) else (Take(q, s.value), Some(Address(q, s.value)))
  }

  /** The area whose bytes hold ptr, from area j on. */
  function OwnerFrom(p: Pool, ptr: int, j: nat): (r: Option<nat>)
    ensures r.Some? ==> j <= r.value < |p.areas| && p.areas[r.value].base <= ptr < AreaEnd(p, r.value)
    decreases |p.areas| - j
  {
    if j >= |p.areas| then None
    else if p.areas[j].base <= ptr < AreaEnd(p, j) then Some(j)
    else OwnerFrom(p, ptr, j + 1)
  }

  lemma {:induction false} MulStep(size: int, i: int, j: int)
    requires size > 0 && i < j
    ensures size * i + size <= size * j
    decreases j - i
  {
    if i + 1 < j { MulStep(size, i, j - 1); }
    assert size * j == size * (j - 1) + size;
  }

  lemma OffsetInRange(offset: int, size: int, count: int)
    requires size > 0 && 0 <= offset < size * count
    ensures 0 <= offset / size < count
  {
    var q := offset / size;
    assert offset == size * q + offset % size;
    if q > count { MulStep(size, count, q); }
  }

  /** The slot ptr points into. */
  function Owner(p: Pool, ptr: int): (s: Option<Slot>)
    requires p.allocSize > 0
    ensures s.Some? ==> HasSlot(p, s.value)
  {
    var j := OwnerFrom(p, ptr, 0);
    if j.None? then None
    else
      var offset := ptr - p.areas[j.value].base;
      OffsetInRange(offset, p.allocSize, |p.areas[j.value].slotUsed|);
      Some(Slot(j.value, offset / p.allocSize))
  }

  /** poolalloc_free; nothing where the code asserts that the pointer belongs to a used slot. */
  function Free(p: Pool, ptr: int): Option<Pool>
    requires p.allocSize > 0
  {
    var s := Owner(p, ptr);
    if s.None? || !IsUsed(p, s.value) then None
    else Some(SetSlot(p, s.value, false, s.value.index).(freeItems := p.freeItems + 1))
  }

  // ------------------------------------------------------------------- counting slots

  lemma {:induction false} CountFreeUpdate(slots: seq<bool>, k: nat, used: bool)
    requires k < |slots| && slots[k] != used
    ensures CountFree(slots[k := used]) == CountFree(slots) + (if used then -1 else 1)
  {
    if k == 0 {
      assert slots[k := used][1..] == slots[1..];
    } else {
      CountFreeUpdate(slots[1..], k - 1, used);
      assert slots[k := used][1..] == slots[1..][k - 1 := used];
    }
  }

  lemma {:induction false} AllFreeUpdate(areas: seq<Area>, j: nat, a: Area)
    requires j < |areas| && |a.slotUsed| == |areas[j].slotUsed|
    ensures AllFree(areas[j := a]) == AllFree(areas) - CountFree(areas[j].slotUsed) + CountFree(a.slotUsed)
    ensures AllSlots(areas[j := a]) == AllSlots(areas)
  {
    if j == 0 {
      assert areas[j := a][1..] == areas[1..];
    } else {
      AllFreeUpdate(areas[1..], j - 1, a);
      assert areas[j := a][1..] == areas[1..][j - 1 := a];
    }
  }

  lemma {:induction false} AllFreeAppend(areas: seq<Area>, a: Area)
    ensures AllFree(areas + [a]) == AllFree(areas) + CountFree(a.slotUsed)
    ensures AllSlots(areas + [a]) == AllSlots(areas) + |a.slotUsed|
  {
    if |areas| == 0 {
      assert areas + [a] == [a];
    } else {
      AllFreeAppend(areas[1..], a);
      assert (areas + [a])[1..] == areas[1..] + [a];
    }
  }

  lemma {:induction false} CountFreeFresh(n: nat)
    ensures CountFree(seq(n, _ => false)) == n
  {
    if n > 0 {
      CountFreeFresh(n - 1);
      assert seq<bool>(n, _ => false)[1..] == seq<bool>(n - 1, _ => false);
    }
  }

  lemma {:induction false} FirstFreeNone(slots: seq<bool>)
    ensures FirstFree(slots) == |slots| <==> CountFree(slots) == 0
  {
    if |slots| > 0 && slots[0] { FirstFreeNone(slots[1..]); }
  }

  lemma {:induction false} FirstFreeFromNone(p: Pool, j: nat)
    requires j <= |p.areas|
    ensures FirstFreeFrom(p, j).None? <==> AllFree(p.areas[j..]) == 0
    decreases |p.areas| - j
  {
    if j < |p.areas| {
      FirstFreeNone(p.areas[j].slotUsed);
      FirstFreeFromNone(p, j + 1);
      assert p.areas[j..][1..] == p.areas[j + 1..];
    }
  }

  /** The search fails only when every slot is used, so the last assertion in the code cannot fail. */
  lemma ChooseFindsFreeSlot(p: Pool)
    requires Valid(p)
    ensures Choose(p).Some? <==> p.freeItems > 0
    ensures p.freeItems >= 0
  {
    FirstFreeFromNone(p, 0);
    assert p.areas[0..] == p.areas;
    if Choose(p).Some? {
      var s := Choose(p).value;
      var a := p.areas[s.area];
      CountFreeUpdate(a.slotUsed, s.index, true);
      AllFreeUpdate(p.areas, s.area, a.(slotUsed := a.slotUsed[s.index := true]));
    }
  }

  // ------------------------------------------------------------ what every call keeps

  lemma SetSlotKeeps(p: Pool, s: Slot, used: bool, hint: nat)
    requires Valid(p) && HasSlot(p, s) && IsUsed(p, s) != used
    ensures Valid(SetSlot(p, s, used, hint).(freeItems := p.freeItems + (if used then -1 else 1)))
  {
    var a := p.areas[s.area];
    CountFreeUpdate(a.slotUsed, s.index, used);
    AllFreeUpdate(p.areas, s.area, a.(slotUsed := a.slotUsed[s.index := used], possiblyFree := hint));
    var q := SetSlot(p, s, used, hint).(freeItems := p.freeItems + (if used then -1 else 1));
    forall i, j | 0 <= i < j < |q.areas| ensures AreaEnd(q, i) <= q.areas[j].base || AreaEnd(q, j) <= q.areas[i].base {
      assert AreaEnd(q, i) == AreaEnd(p, i) && AreaEnd(q, j) == AreaEnd(p, j);
    }
  }

  lemma AddAreaKeeps(p: Pool, room: Option<int>)
    requires Valid(p) && (room.Some? ==> Apart(p, room.value, AreaSize(|p.areas|)))
    ensures AddArea(p, room).Some? <==> room.Some?
    ensures room.Some? ==> var q := AddArea(p, room).value;
                           Valid(q) && q.freeItems == p.freeItems + AreaSize(|p.areas|) && |q.areas| == |p.areas| + 1
  {
    if room.Some? {
      var q := AddArea(p, room).value;
      var size := |p.areas[|p.areas| - 1].slotUsed| * 2;
      var a := q.areas[|p.areas|];
      assert q.areas == p.areas + [a] && size == AreaSize(|p.areas|) == |a.slotUsed|;
      AllFreeAppend(p.areas, a);
      CountFreeFresh(size);
      forall i, j | 0 <= i < j < |q.areas| ensures AreaEnd(q, i) <= q.areas[j].base || AreaEnd(q, j) <= q.areas[i].base {
        assert AreaEnd(q, i) == AreaEnd(p, i);
        if j < |p.areas| { assert AreaEnd(q, j) == AreaEnd(p, j); }
      }
    }
  }

  lemma NewIsValid(itemSize: int, room: Option<int>)
    ensures New(itemSize, room).Some? <==> itemSize > 0 && room.Some?
    ensures var r := New(itemSize, room);
            r.Some? ==> Valid(r.value) && r.value.freeItems == 256 && r.value.allocSize == itemSize
    ensures var r := New(itemSize, room); r.Some? ==> forall ptr :: !Live(r.value, ptr)
  {
    if itemSize > 0 && room.Some? {
      var p := New(itemSize, room).value;
      assert p.areas[1..] == [];
      CountFreeFresh(FIRST_POOL_SIZE);
    }
  }

  /** The pool an allocation takes its slot from: p itself, or p with one more area. */
  function Grown(p: Pool, emergency: bool, room: Option<int>): Option<Pool> {
    if !emergency && p.freeItems < MARGIN then AddArea(p, room) else Some(p)
  }

  /** The address malloc returns for an area overlaps none of the areas in use. */
  ghost predicate RoomOk(p: Pool, room: Option<int>) { room.Some? ==> Apart(p, room.value, AreaSize(|p.areas|)) }

  lemma GrownKeeps(p: Pool, emergency: bool, room: Option<int>)
    requires Valid(p) && RoomOk(p, room)
    ensures var g := Grown(p, emergency, room);
            g.Some? ==> Valid(g.value) && (!emergency ==> g.value.freeItems >= MARGIN) && (emergency ==> g.value == p)
    ensures var g := Grown(p, emergency, room);
            g.Some? ==> g.value.allocSize == p.allocSize && forall ptr :: Live(g.value, ptr) <==> Live(p, ptr)
  {
    AddAreaKeeps(p, room);
    var g := Grown(p, emergency, room);
    AreaSizeAtLeast(|p.areas|);
    if g.Some? && g.value != p {
      var q := g.value;
      forall ptr ensures Live(q, ptr) <==> Live(p, ptr) {
        if Live(q, ptr) {
          var s :| LiveAt(q, s, ptr);
          assert LiveAt(p, s, ptr);
        }
        if Live(p, ptr) {
          var s :| LiveAt(p, s, ptr);
          assert LiveAt(q, s, ptr);
        }
      }
    }
  }

  lemma {:induction false} AreaSizeAtLeast(j: nat)
    ensures AreaSize(j) >= FIRST_POOL_SIZE
  {
    if j > 0 { AreaSizeAtLeast(j - 1); }
  }

  // -------------------------------------------------------------- slots and addresses

  lemma SlotInArea(p: Pool, s: Slot)
    requires p.allocSize > 0 && HasSlot(p, s)
    ensures p.areas[s.area].base <= Address(p, s) && Address(p, s) + p.allocSize <= AreaEnd(p, s.area)
  {
    var size, k, n := p.allocSize, s.index, |p.areas[s.area].slotUsed|;
    MulStep(size, k, n);
    if k > 0 { MulStep(size, 0, k); }
  }

  lemma SlotsInAreaApart(p: Pool, s: Slot, t: Slot)
    requires p.allocSize > 0 && HasSlot(p, s) && HasSlot(p, t) && s.area == t.area && s.index < t.index
    ensures Address(p, s) + p.allocSize <= Address(p, t)
  {
    var size, i, j := p.allocSize, s.index, t.index;
    MulStep(size, i, j);
  }

  /** Different slots never overlap. */
  lemma SlotsApart(p: Pool, s: Slot, t: Slot)
    requires Valid(p) && HasSlot(p, s) && HasSlot(p, t) && s != t
    ensures Address(p, s) + p.allocSize <= Address(p, t) || Address(p, t) + p.allocSize <= Address(p, s)
  {
    SlotInArea(p, s);
    SlotInArea(p, t);
    if s.area == t.area {
      if s.index < t.index { SlotsInAreaApart(p, s, t); } else { SlotsInAreaApart(p, t, s); }
    }
  }

  /** Memory handed out at two live addresses never overlaps. */
  lemma LiveMemoryApart(p: Pool, a: int, b: int)
    requires Valid(p) && Live(p, a) && Live(p, b) && a != b
    ensures a + p.allocSize <= b || b + p.allocSize <= a
  {
    var s :| LiveAt(p, s, a);
    var t :| LiveAt(p, t, b);
    SlotsApart(p, s, t);
  }

  lemma {:induction false} OwnerFromFinds(p: Pool, s: Slot, j: nat)
    requires Valid(p) && HasSlot(p, s) && j <= s.area
    ensures OwnerFrom(p, Address(p, s), j) == Some(s.area)
    decreases s.area - j
  {
    SlotInArea(p, s);
    if j < s.area { OwnerFromFinds(p, s, j + 1); }
  }

  lemma OffsetOfSlot(size: int, k: int)
    requires size > 0 && k >= 0
    ensures size * k / size == k
  {
    var x := size * k;
    var q := x / size;
    assert x == size * q + x % size;
    if q < k { MulStep(size, q, k); }
    if k < q { MulStep(size, k, q); }
  }

  /** The address of a slot leads back to that slot. */
  lemma OwnerOfAddress(p: Pool, s: Slot)
    requires Valid(p) && HasSlot(p, s)
    ensures Owner(p, Address(p, s)) == Some(s)
  {
    OwnerFromFinds(p, s, 0);
    OffsetOfSlot(p.allocSize, s.index);
  }

  /** Marking one slot changes what is live at its address only. */
  lemma SetSlotLive(p: Pool, s: Slot, used: bool, hint: nat, ptr: int)
    requires Valid(p) && HasSlot(p, s)
    ensures Live(SetSlot(p, s, used, hint), ptr) <==> if ptr == Address(p, s) then used else Live(p, ptr)
  {
    var q := SetSlot(p, s, used, hint);
    forall t | HasSlot(p, t)
      ensures HasSlot(q, t) && Address(q, t) == Address(p, t) && IsUsed(q, t) == (if t == s then used else IsUsed(p, t))
    {
    }
    assert Address(q, s) == Address(p, s);
    if Live(q, ptr) {
      var t :| LiveAt(q, t, ptr);
      assert HasSlot(p, t);
      if t != s {
        SlotsApart(p, s, t);
        assert LiveAt(p, t, ptr);
      }
    }
    if ptr == Address(p, s) {
      if used { assert LiveAt(q, s, ptr); }
    } else if Live(p, ptr) {
      var t :| LiveAt(p, t, ptr);
      assert LiveAt(q, t, ptr);
    }
  }

  // -------------------------------------------------------------------- main results

  /**
   One allocation: it fails exactly when no area could be added where one was due, with fewer than ten slots free, or an
   emergency finds every slot used; otherwise it returns an address that was not live, and makes exactly that one live.
   */
  lemma MallocCorrect(p: Pool, emergency: bool, room: Option<int>)
    requires Valid(p) && RoomOk(p, room)
    ensures var (q, r) := Malloc(p, emergency, room);
            && Valid(q) && q.allocSize == p.allocSize
            && (r.None? <==> if emergency then p.freeItems == 0 else p.freeItems < 10 && room.None?)
            && (r.None? ==> q == p)
            && |q.areas| == |p.areas| + (if !emergency && p.freeItems < 10 && room.Some? then 1 else 0)
            && (r.Some? ==> !Live(p, r.value) && forall ptr :: Live(q, ptr) <==> Live(p, ptr) || ptr == r.value)
  {
    hide Valid, Live, Choose, AddArea, Apart;
    GrownKeeps(p, emergency, room);
    AddAreaKeeps(p, room);
    ChooseFindsFreeSlot(p);
    var g := Grown(p, emergency, room);
    if g.Some? {
      ChooseFindsFreeSlot(g.value);
      if g.value.freeItems > 0 {
        var s := Choose(g.value).value;
        SetSlotKeeps(g.value, s, true, s.index + 1);
        TakenLive(g.value, s);
      }
    }
  }

  lemma TakenLive(p: Pool, s: Slot)
    requires Valid(p) && HasSlot(p, s) && !IsUsed(p, s)
    ensures !Live(p, Address(p, s))
    ensures forall ptr :: Live(Take(p, s), ptr) <==> Live(p, ptr) || ptr == Address(p, s)
  {
    if Live(p, Address(p, s)) {
      var t :| LiveAt(p, t, Address(p, s));
      SlotsApart(p, s, t);
    }
    var q := SetSlot(p, s, true, s.index + 1);
    forall ptr ensures Live(Take(p, s), ptr) <==> Live(p, ptr) || ptr == Address(p, s) {
      SetSlotLive(p, s, true, s.index + 1, ptr);
      assert Live(Take(p, s), ptr) <==> Live(q, ptr) by { SameAreasLive(Take(p, s), q, ptr); }
    }
  }

  lemma SameAreasLive(p: Pool, q: Pool, ptr: int)
    requires p.areas == q.areas && p.allocSize == q.allocSize
    ensures Live(p, ptr) <==> Live(q, ptr)
  {
    if Live(p, ptr) { var s :| LiveAt(p, s, ptr); assert LiveAt(q, s, ptr); }
    if Live(q, ptr) { var s :| LiveAt(q, s, ptr); assert LiveAt(p, s, ptr); }
  }

  /** Freeing a live address is always possible and ends exactly that one. */
  lemma FreeCorrect(p: Pool, ptr: int)
    requires Valid(p) && Live(p, ptr)
    ensures Free(p, ptr).Some?
    ensures var q := Free(p, ptr).value;
            && Valid(q) && q.allocSize == p.allocSize && q.freeItems == p.freeItems + 1 <= q.totalItems
            && |q.areas| == |p.areas|
            && forall a :: Live(q, a) <==> Live(p, a) && a != ptr
  {
    var s :| LiveAt(p, s, ptr);
    FreeSlotCorrect(p, s);
  }

  /** What belongs to no slot in use cannot be freed: a slot freed before, or an address outside of all areas. */
  lemma FreeRefuses(p: Pool, ptr: int)
    requires Valid(p)
    requires (exists s :: HasSlot(p, s) && !IsUsed(p, s) && Address(p, s) == ptr)
             || forall j :: 0 <= j < |p.areas| ==> ptr < p.areas[j].base || AreaEnd(p, j) <= ptr
    ensures Free(p, ptr) == None
  {
    if s :| HasSlot(p, s) && !IsUsed(p, s) && Address(p, s) == ptr {
      OwnerOfAddress(p, s);
    }
  }

  lemma FreeSlotCorrect(p: Pool, s: Slot)
    requires Valid(p) && HasSlot(p, s) && IsUsed(p, s)
    ensures Free(p, Address(p, s)).Some?
    ensures var q := Free(p, Address(p, s)).value;
            && Valid(q) && q.allocSize == p.allocSize && q.freeItems == p.freeItems + 1 <= q.totalItems
            && |q.areas| == |p.areas|
            && forall a :: Live(q, a) <==> Live(p, a) && a != Address(p, s)
  {
    hide Valid, Live, Owner;
    FreeItemsBounded(p);
    OwnerOfAddress(p, s);
    SetSlotKeeps(p, s, false, s.index);
    var m := SetSlot(p, s, false, s.index);
    var q := m.(freeItems := p.freeItems + 1);
    assert Free(p, Address(p, s)) == Some(q);
    forall a ensures Live(q, a) <==> Live(p, a) && a != Address(p, s) {
      SetSlotLive(p, s, false, s.index, a);
      SameAreasLive(q, m, a);
    }
    FreeItemsBounded(q);
  }

  lemma FreeItemsBounded(p: Pool)
    requires Valid(p)
    ensures 0 <= p.freeItems <= p.totalItems && p.allocSize > 0
  {
    FreeAtMostAll(p.areas);
  }

  lemma {:induction false} CountFreeAtMost(slots: seq<bool>)
    ensures CountFree(slots) <= |slots|
  {
    if |slots| > 0 { CountFreeAtMost(slots[1..]); }
  }

  lemma {:induction false} FreeAtMostAll(areas: seq<Area>)
    ensures AllFree(areas) <= AllSlots(areas)
  {
    if |areas| > 0 {
      CountFreeAtMost(areas[0].slotUsed);
      FreeAtMostAll(areas[1..]);
    }
  }

  // ------------------------------------------------------------- which slot is handed out

  /** The slot the pool remembers: where the area last used had a slot freed, or behind the one it handed out last. */
  predicate Remembers(p: Pool, s: Slot) {
    HasSlot(p, s) && !IsUsed(p, s) && s.area == p.lastUsedArea && s.index == p.areas[s.area].possiblyFree
  }

  /** Once the pool has grown if it has to, the remembered slot is handed out if it is free. */
  lemma RememberedIsNext(p: Pool, emergency: bool, room: Option<int>, s: Slot)
    requires Valid(p) && RoomOk(p, room) && Grown(p, emergency, room).Some? && Remembers(Grown(p, emergency, room).value, s)
    ensures Malloc(p, emergency, room).1 == Some(Address(Grown(p, emergency, room).value, s))
  {
    GrownKeeps(p, emergency, room);
    ChooseFindsFreeSlot(Grown(p, emergency, room).value);
  }

  /** An address just given back is the next one handed out, unless an area is added first. */
  lemma FreedIsNext(p: Pool, ptr: int, emergency: bool, room: Option<int>)
    requires Valid(p) && Live(p, ptr) && Free(p, ptr).Some?
    requires RoomOk(Free(p, ptr).value, room) && (emergency || Free(p, ptr).value.freeItems >= 10)
    ensures Malloc(Free(p, ptr).value, emergency, room).1 == Some(ptr)
  {
    hide Valid, RoomOk, Owner, Malloc;
    var s :| LiveAt(p, s, ptr);
    FreeCorrect(p, ptr);
    OwnerOfAddress(p, s);
    assert Remembers(Free(p, ptr).value, s);
    RememberedIsNext(Free(p, ptr).value, emergency, room, s);
  }

  /** An area just added is used from its first slot on. */
  lemma NewAreaIsUsedFirst(p: Pool, base: int)
    requires Valid(p) && RoomOk(p, Some(base)) && p.freeItems < 10
    ensures Malloc(p, false, Some(base)).1 == Some(base)
  {
    hide Malloc;
    assert Remembers(AddArea(p, Some(base)).value, Slot(|p.areas|, 0)) by { AddAreaKeeps(p, Some(base)); }
    RememberedIsNext(p, false, Some(base), Slot(|p.areas|, 0));
  }

  /** So is a new pool. */
  lemma NewPoolStartsAtBase(itemSize: int, base: int)
    requires itemSize > 0
    ensures Malloc(New(itemSize, Some(base)).value, false, None).1 == Some(base)
  {
    hide Malloc;
    NewIsValid(itemSize, Some(base));
    RememberedIsNext(New(itemSize, Some(base)).value, false, None, Slot(0, 0));
  }

  lemma SameAddressSameSlot(p: Pool, s: Slot, t: Slot)
    requires Valid(p) && HasSlot(p, s) && HasSlot(p, t) && Address(p, s) == Address(p, t)
    ensures s == t
  {
    if s != t { SlotsApart(p, s, t); }
  }

  /** What is handed out next lies right behind what was handed out last, if that slot is free and no area is added. */
  lemma NextInRow(p: Pool, e: bool, room: Option<int>, s: Slot, emergency: bool, later: Option<int>)
    requires Valid(p) && RoomOk(p, room) && Malloc(p, e, room).1.Some?
    requires var (q, r) := Malloc(p, e, room);
             && RoomOk(q, later) && (emergency || q.freeItems >= 10)
             && LiveAt(q, s, r.value) && HasSlot(q, Slot(s.area, s.index + 1)) && !IsUsed(q, Slot(s.area, s.index + 1))
    ensures var (q, r) := Malloc(p, e, room); Malloc(q, emergency, later).1 == Some(r.value + p.allocSize)
  {
    hide Valid, RoomOk, Choose;
    var (q, r) := Malloc(p, e, room);
    MallocCorrect(p, e, room);
    var g := Grown(p, e, room).value;
    SameAddressSameSlot(q, s, Choose(g).value);
    RememberedIsNext(q, emergency, later, Slot(s.area, s.index + 1));
    assert p.allocSize * (s.index + 1) == p.allocSize * s.index + p.allocSize;
  }

  lemma {:induction false} FirstFreeIsFirst(slots: seq<bool>, k: nat)
    requires k < |slots| && !slots[k]
    ensures FirstFree(slots) <= k
  {
    if slots[0] { FirstFreeIsFirst(slots[1..], k - 1); }
  }

  lemma {:induction false} FirstFreeFromIsFirst(p: Pool, j: nat, t: Slot)
    requires HasSlot(p, t) && !IsUsed(p, t) && j <= t.area
    ensures var s := FirstFreeFrom(p, j);
            s.Some? && j <= s.value.area <= t.area && (s.value.area == t.area ==> s.value.index <= t.index)
    decreases |p.areas| - j
  {
    if j == t.area {
      FirstFreeIsFirst(p.areas[j].slotUsed, t.index);
    } else if FirstFree(p.areas[j].slotUsed) == |p.areas[j].slotUsed| {
      FirstFreeFromIsFirst(p, j + 1, t);
    }
  }

  /**
   If the remembered slot is not free, the lowest free slot of the area last used is taken, and if that has none the
   lowest free slot of the first area that has one.
   */
  lemma LowestOtherwise(p: Pool, s: Slot, t: Slot)
    requires Choose(p) == Some(s) && !Remembers(p, s) && HasSlot(p, t) && !IsUsed(p, t)
    ensures s.area == t.area ==> s.index <= t.index
    ensures s.area != t.area ==> s.area == p.lastUsedArea || (s.area < t.area && t.area != p.lastUsedArea)
  {
    FirstFreeFromIsFirst(p, 0, t);
    FirstFreeIsFirst(p.areas[t.area].slotUsed, t.index);
  }

  // ----------------------------------------------------------------------------- runs

  /** A call; room is where an area would go if the call adds one. */
  datatype Op = Ask(emergency: bool, room: Option<int>) | Release(ptr: int)

  /** What callers and malloc owe: room that is not in use, and only live addresses given back. */
  ghost predicate Runs(p: Pool, ops: seq<Op>)
    requires p.allocSize > 0
    decreases ops
  {
    |ops| == 0 ||
    match ops[0]
    case Ask(e, room) => RoomOk(p, room) && var q := Malloc(p, e, room).0; q.allocSize > 0 && Runs(q, ops[1..])
    case Release(ptr) => Live(p, ptr) && var q := Free(p, ptr); q.Some? && q.value.allocSize > 0 && Runs(q.value, ops[1..])
  }

  ghost function AfterRun(p: Pool, ops: seq<Op>): Pool
    requires p.allocSize > 0 && Runs(p, ops)
    decreases ops
  {
    if |ops| == 0 then p
    else
      match ops[0]
      case Ask(e, room) => AfterRun(Malloc(p, e, room).0, ops[1..])
      case Release(ptr) => AfterRun(Free(p, ptr).value, ops[1..])
  }

  /** The addresses callers hold after a run that starts with them holding held. */
  ghost function Held(p: Pool, held: set<int>, ops: seq<Op>): set<int>
    requires p.allocSize > 0 && Runs(p, ops)
    decreases ops
  {
    if |ops| == 0 then held
    else
      match ops[0]
      case Ask(e, room) =>
        var (q, r) := Malloc(p, e, room);
        Held(q, if r.Some? then held + {r.value} else held, ops[1..])
      case Release(ptr) => Held(Free(p, ptr).value, held - {ptr}, ops[1..])
  }

  lemma {:induction false} RunKeeps(p: Pool, held: set<int>, ops: seq<Op>)
    requires Valid(p) && (forall a :: Live(p, a) <==> a in held) && Runs(p, ops)
    ensures Valid(AfterRun(p, ops)) && AfterRun(p, ops).allocSize == p.allocSize
    ensures forall a :: Live(AfterRun(p, ops), a) <==> a in Held(p, held, ops)
    decreases ops
  {
    hide Valid, Live, Malloc, Free;
    if |ops| > 0 {
      match ops[0]
      case Ask(e, room) =>
        MallocCorrect(p, e, room);
        var (q, r) := Malloc(p, e, room);
        RunKeeps(q, if r.Some? then held + {r.value} else held, ops[1..]);
      case Release(ptr) =>
        FreeCorrect(p, ptr);
        RunKeeps(Free(p, ptr).value, held - {ptr}, ops[1..]);
    }
  }

  /**
   Over any run from a new pool the live addresses are exactly those handed out and not given back, no two of them
   overlap, the count of free items is the number of unused slots, and area j has 256 times 2 to the j slots.
   */
  lemma RunsAreSafe(itemSize: int, room: Option<int>, ops: seq<Op>)
    requires itemSize > 0 && room.Some? && Runs(New(itemSize, room).value, ops)
    ensures var p := New(itemSize, room).value;
            var q, held := AfterRun(p, ops), Held(p, {}, ops);
            && (forall a :: Live(q, a) <==> a in held)
            && (forall a, b :: a in held && b in held && a < b ==> a + itemSize <= b)
            && q.freeItems == AllFree(q.areas) && |q.areas| > 0 && |q.areas[0].slotUsed| == 256
            && forall j :: 1 <= j < |q.areas| ==> |q.areas[j].slotUsed| == 2 * |q.areas[j - 1].slotUsed|
  {
    NewIsValid(itemSize, room);
    var p := New(itemSize, room).value;
    RunKeeps(p, {}, ops);
    var q, held := AfterRun(p, ops), Held(p, {}, ops);
    forall a, b | a in held && b in held && a < b ensures a + itemSize <= b {
      LiveMemoryApart(q, a, b);
    }
  }

  /** Every emergency allocation of the run succeeds, and none adds an area. */
  ghost predicate AllServed(p: Pool, ops: seq<Op>)
    requires p.allocSize > 0 && Runs(p, ops)
    decreases ops
  {
    |ops| == 0 ||
    match ops[0]
    case Ask(e, room) =>
      var (q, r) := Malloc(p, e, room);
      (e ==> r.Some? && |q.areas| == |p.areas|) && AllServed(q, ops[1..])
    case Release(ptr) => AllServed(Free(p, ptr).value, ops[1..])
  }

  function Emergencies(ops: seq<Op>): nat {
    if |ops| == 0 then 0 else (if ops[0].Ask? && ops[0].emergency then 1 else 0) + Emergencies(ops[1..])
  }

  predicate OnlyEmergencies(ops: seq<Op>) { forall i :: 0 <= i < |ops| && ops[i].Ask? ==> ops[i].emergency }

  lemma {:induction false} EnoughFree(p: Pool, ops: seq<Op>)
    requires Valid(p) && Runs(p, ops) && OnlyEmergencies(ops) && Emergencies(ops) <= p.freeItems
    ensures AllServed(p, ops)
    decreases ops
  {
    if |ops| > 0 {
      match ops[0]
      case Ask(e, room) =>
        MallocCorrect(p, true, room);
        ChooseFindsFreeSlot(p);
        EnoughFree(Malloc(p, true, room).0, ops[1..]);
      case Release(ptr) =>
        FreeCorrect(p, ptr);
        EnoughFree(Free(p, ptr).value, ops[1..]);
    }
  }

  /** The reserve: after a successful normal allocation nine emergency allocations succeed, whatever is freed in between. */
  lemma ReserveOfNine(p: Pool, room: Option<int>, ops: seq<Op>)
    requires Valid(p) && RoomOk(p, room) && Malloc(p, false, room).1.Some?
    requires var q := Malloc(p, false, room).0;
             q.allocSize > 0 && Runs(q, ops) && OnlyEmergencies(ops) && Emergencies(ops) <= 9
    ensures AllServed(Malloc(p, false, room).0, ops)
  {
    MallocCorrect(p, false, room);
    GrownKeeps(p, false, room);
    EnoughFree(Malloc(p, false, room).0, ops);
  }

  // --------------------------------------------------------------- the code as written

  /** struct poolalloc; the value p is its fields. */
  class PoolAllocator {
    var allocSize: int
    var areas: seq<Area>
    var lastUsedArea: int
    var totalItems: int
    var freeItems: int

    function State(): Pool
      reads this
    {
      Pool(allocSize, areas, lastUsedArea, totalItems, freeItems)
    }

    /** The fields poolalloc_New sets before it adds the first area. */
    constructor (itemSize: int)
      ensures State() == Pool(itemSize, [], 0, 0, 0)
    {
      allocSize, areas, lastUsedArea, totalItems, freeItems := itemSize, [], 0, 0, 0;
    }

    /** poolalloc_AddArea */
    method AddAreaAt(room: Option<int>) returns (ok: bool)
      modifies this
      ensures ok == AddArea(old(State()), room).Some?
      ensures State() == if ok then AddArea(old(State()), room).value else old(State())
    {
      if room.None? {
        return false;
      }
      var poolSize := FIRST_POOL_SIZE;
      if |areas| > 0 {
        poolSize := |areas[|areas| - 1].slotUsed| * 2;
      }
      areas := areas + [Area(room.value, seq(poolSize, _ => false), 0)];
      freeItems := freeItems + poolSize;
      totalItems := totalItems + poolSize;
      lastUsedArea := |areas| - 1;
      return true;
    }

    /** The scan of one area for a free slot. */
    static method ScanArea(slots: seq<bool>) returns (k: nat)
      ensures k == FirstFree(slots)
    {
      k := 0;
      assert slots[0..] == slots;
      while k < |slots|
        invariant k <= |slots| && FirstFree(slots) == k + FirstFree(slots[k..])
      {
        assert slots[k..][1..] == slots[k + 1..];
        if !slots[k] {
          return;
        }
        k := k + 1;
      }
    }

    /** Mark slot k of area j used and return its address. */
    method TakeSlot(j: nat, k: nat) returns (ptr: int)
      requires HasSlot(State(), Slot(j, k))
      modifies this
      ensures State() == Take(old(State()), Slot(j, k)) && ptr == Address(old(State()), Slot(j, k))
    {
      freeItems := freeItems - 1;
      lastUsedArea := j;
      areas := areas[j := areas[j].(slotUsed := areas[j].slotUsed[k := true], possiblyFree := k + 1)];
      ptr := areas[j].base + allocSize * k;
    }

    /** poolalloc_malloc */
    method Allocate(emergency: bool, room: Option<int>) returns (ptr: Option<int>)
      requires Valid(State())
      requires RoomOk(State(), room)
      modifies this
      ensures State() == Malloc(old(State()), emergency, room).0 && ptr == Malloc(old(State()), emergency, room).1
    {
      hide Valid, Live, RoomOk;
      ghost var p := State();
      GrownKeeps(p, emergency, room);
      if !emergency && freeItems < MARGIN {
        var ok := AddAreaAt(room);
        if !ok {
          return None;
        }
      }
      ghost var q := State();
      assert Grown(p, emergency, room) == Some(q);
      if freeItems <= 0 {
        return None;
      }
      ChooseFindsFreeSlot(q);
      if 0 <= lastUsedArea < |areas| {
        var a := areas[lastUsedArea];
        var k := a.possiblyFree;
        if k < |a.slotUsed| && !a.slotUsed[k] {
          var taken := TakeSlot(lastUsedArea, k);
          return Some(taken);
        }
        k := ScanArea(a.slotUsed);
        if k < |a.slotUsed| {
          var taken := TakeSlot(lastUsedArea, k);
          return Some(taken);
        }
      }
      var j := 0;
      while j < |areas|
        invariant 0 <= j <= |areas| && State() == q
        invariant FirstFreeFrom(q, 0) == FirstFreeFrom(q, j)
      {
        var k := ScanArea(areas[j].slotUsed);
        if k < |areas[j].slotUsed| {
          var taken := TakeSlot(j, k);
          return Some(taken);
        }
        j := j + 1;
      }
      assert false; // the final assertion of the code
    }

    /** poolalloc_free */
    method Release(ptr: int)
      requires Valid(State()) && Live(State(), ptr)
      modifies this
      ensures Free(old(State()), ptr) == Some(State())
    {
      hide Valid, Live;
      ghost var p := State();
      FreeItemsBounded(p);
      FreeCorrect(p, ptr);
      var j := 0;
      while j < |areas|
        invariant 0 <= j <= |areas| && State() == p
        invariant OwnerFrom(p, ptr, 0) == OwnerFrom(p, ptr, j)
      {
        var c := |areas[j].slotUsed|;
        if areas[j].base <= ptr < areas[j].base + allocSize * c {
          var offset := ptr - areas[j].base;
          OffsetInRange(offset, allocSize, c);
          offset := offset / allocSize;
          areas := areas[j := areas[j].(slotUsed := areas[j].slotUsed[offset := false], possiblyFree := offset)];
          lastUsedArea := j;
          freeItems := freeItems + 1;
          return;
        }
        j := j + 1;
      }
      assert false; // no area owns the pointer
    }
  }
}
