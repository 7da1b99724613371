/**
 Quick sort over a queue of sub ranges (horse64/itemsort.c).

 The sort keeps no recursion stack: it works through a first-in first-out queue
 of ranges. A range of three or more items is partitioned around a randomly drawn
 pivot that is pulled through the range, and the two parts around the pivot are
 queued again. Correctness is therefore a statement about every range still
 queued: no two items are out of order unless one queued range holds both.
 */
module ItemSort {

  const CMP_ERR_UNSORTABLE := -3

  /** Jobs that fit the stack buffer; queueing more needs memory. */
  const STACK_JOBS := 32

  /** Size of the buffer items are swapped through. */
  const SWITCHBUF_SIZE := 64

  /** A queued range; end is exclusive. */
  datatype Job = Job(start: int, end: int) {
    function Length(): int { end - start }

    predicate Within(n: int) { 0 <= start < end <= n }
  }

  /**
   How a call ends. Sorted is the return value 1. The others return 0: with the
   unsortable flag, with the oom flag, with no flag at all (the job queue could
   not grow), and DrawsUsedUp stands for a run that is still going on when the
   random source has been asked |draws| times.
   */
  datatype Outcome = Sorted | Unsortable | OutOfMemory | NoJobMemory | DrawsUsedUp

  /** What the comparison of two items means for the order le, errors aside. */
  ghost predicate Reflects<T(!new)>(cmp: (T, T) -> int, le: (T, T) -> bool) {
    forall x, y :: cmp(x, y) == -3 || cmp(x, y) == -2
                   || (-1 <= cmp(x, y) <= 1 && (cmp(x, y) == 1 <==> !le(x, y)) && (cmp(x, y) == -1 <==> !le(y, x)))
  }

  /** The only results below -1 are the two error codes, -3 for unsortable items and -2 for lack of memory. */
  ghost predicate ErrorCodesOnly<T(!new)>(cmp: (T, T) -> int) {
    forall x, y :: cmp(x, y) >= -3
  }

  ghost predicate Comparator<T(!new)>(cmp: (T, T) -> int, le: (T, T) -> bool) {
    Reflects(cmp, le) && TotalPreorder(le)
  }

  ghost predicate TotalPreorder<T(!new)>(le: (T, T) -> bool) {
    && (forall x, y :: le(x, y) || le(y, x))
    && (forall x, y, z :: le(x, y) && le(y, z) ==> le(x, z))
  }

  ghost predicate Ordered<T>(s: seq<T>, le: (T, T) -> bool) {
    forall i, j :: 0 <= i < j < |s| ==> le(s[i], s[j])
  }

  /** Some queued range holds both positions. */
  ghost predicate Together(jobs: seq<Job>, i: int, j: int) {
    exists q :: 0 <= q < |jobs| && jobs[q].start <= i && j < jobs[q].end
  }

  /** Every pair that is out of order lies inside one queued range. */
  ghost predicate InversionsQueued<T>(s: seq<T>, le: (T, T) -> bool, jobs: seq<Job>) {
    forall i, j :: 0 <= i < j < |s| ==> le(s[i], s[j]) || Together(jobs, i, j)
  }

  ghost predicate Disjoint(a: Job, b: Job) { a.end <= b.start || b.end <= a.start }

  /** The queued ranges are non-empty parts of [0, n) that do not overlap. */
  ghost predicate QueueValid(jobs: seq<Job>, n: int) {
    && (forall q :: 0 <= q < |jobs| ==> jobs[q].Within(n))
    && (forall q, r :: 0 <= q < r < |jobs| ==> Disjoint(jobs[q], jobs[r]))
  }

  /** t is s with the items of [lo, hi) rearranged. */
  ghost predicate Rearranged<T>(s: seq<T>, t: seq<T>, lo: int, hi: int) {
    && |s| == |t| && 0 <= lo <= hi <= |s|
    && multiset(s) == multiset(t)
    && (forall i :: 0 <= i < lo || hi <= i < |s| ==> t[i] == s[i])
  }

  /** Comparing two items of s reports the error err. */
  ghost predicate Reports<T>(s: seq<T>, cmp: (T, T) -> int, err: int) {
    exists x, y :: x in multiset(s) && y in multiset(s) && cmp(x, y) == err
  }

  /** No item of [lo, p) is above the item at p, and none of (p, hi) is below it. */
  ghost predicate Partitioned<T>(s: seq<T>, cmp: (T, T) -> int, lo: int, p: int, hi: int) {
    && 0 <= lo <= p < hi <= |s|
    && (forall i :: lo <= i < p ==> cmp(s[i], s[p]) >= -1 && cmp(s[i], s[p]) != 1)
    && (forall i :: p < i < hi ==> cmp(s[i], s[p]) >= -1 && cmp(s[i], s[p]) != -1)
  }

  /** The items of [lo, z) other than the pivot are on the right side of it; pv is the pivot item. */
  ghost predicate PartitionedUpTo<T>(s: seq<T>, cmp: (T, T) -> int, lo: int, p: int, z: int, pv: T) {
    && 0 <= lo <= z <= |s| && lo <= p < |s| && s[p] == pv
    && (forall i :: lo <= i < z && i < p ==> cmp(s[i], pv) >= -1 && cmp(s[i], pv) != 1)
    && (forall i :: p < i < z ==> cmp(s[i], pv) >= -1 && cmp(s[i], pv) != -1)
  }

  // ----------------------------------------------------------------- rearranging

  lemma ItemsOfParts<T>(s: seq<T>, lo: int, hi: int)
    requires 0 <= lo <= hi <= |s|
    ensures multiset(s) - (multiset(s[..lo]) + multiset(s[hi..])) == multiset(s[lo..hi])
  {
    assert s == s[..lo] + s[lo..hi] + s[hi..];
  }

  /** Rearranging a range keeps the items of that range. */
  lemma RangeItemsKept<T>(s: seq<T>, t: seq<T>, lo: int, hi: int)
    requires Rearranged(s, t, lo, hi)
    ensures multiset(s[lo..hi]) == multiset(t[lo..hi])
  {
    ItemsOfParts(s, lo, hi);
    ItemsOfParts(t, lo, hi);
    assert s[..lo] == t[..lo];
    assert s[hi..] == t[hi..];
  }

  /** Each item of a rearranged range was in that range before. */
  lemma RearrangedItem<T>(s: seq<T>, t: seq<T>, lo: int, hi: int, j: int) returns (k: int)
    requires Rearranged(s, t, lo, hi) && lo <= j < hi
    ensures lo <= k < hi && t[j] == s[k]
  {
    RangeItemsKept(s, t, lo, hi);
    var before, after := s[lo..hi], t[lo..hi];
    assert after[j - lo] in multiset(after);
    assert after[j - lo] in before;
    var m :| 0 <= m < |before| && before[m] == after[j - lo];
    k := lo + m;
  }

  /** Items outside the range keep their order towards every item inside it. */
  lemma OrderKeptAcrossRange<T>(s: seq<T>, t: seq<T>, le: (T, T) -> bool, jobs: seq<Job>, i: int, j: int)
    requires |jobs| > 0 && QueueValid(jobs, |s|) && InversionsQueued(s, le, jobs)
    requires Rearranged(s, t, jobs[0].start, jobs[0].end)
    requires 0 <= i < j < |s|
    requires !(jobs[0].start <= i && j < jobs[0].end)
    ensures le(t[i], t[j]) || Together(jobs[1..], i, j)
  {
    var lo, hi := jobs[0].start, jobs[0].end;
    var i', j' := i, j;
    if lo <= i < hi { i' := RearrangedItem(s, t, lo, hi, i); }
    if lo <= j < hi { j' := RearrangedItem(s, t, lo, hi, j); }
    assert t[i] == s[i'] && t[j] == s[j'] && i' < j';
    if !le(s[i'], s[j']) {
      var q :| 0 <= q < |jobs| && jobs[q].start <= i' && j' < jobs[q].end;
      assert q != 0;
      assert Disjoint(jobs[0], jobs[q]);
      assert jobs[1..][q - 1] == jobs[q];
    }
  }

  /** With consistent comparisons a partitioned range is ordered across the pivot. */
  lemma PartitionOrders<T(!new)>(s: seq<T>, cmp: (T, T) -> int, le: (T, T) -> bool, lo: int, p: int, hi: int, i: int, j: int)
    requires Comparator(cmp, le)
    requires Partitioned(s, cmp, lo, p, hi)
    requires lo <= i < j < hi
    requires i < p <= j
    ensures le(s[i], s[j])
  {
    assert le(s[i], s[p]);
    assert le(s[p], s[j]);
  }

  // ------------------------------------------------------------------ queue steps

  /** Taking the first range out of the queue and sorting it keeps every inversion queued. */
  lemma SettleRange<T>(s: seq<T>, t: seq<T>, le: (T, T) -> bool, jobs: seq<Job>)
    requires |jobs| > 0 && QueueValid(jobs, |s|) && InversionsQueued(s, le, jobs)
    requires Rearranged(s, t, jobs[0].start, jobs[0].end)
    requires forall i, j :: jobs[0].start <= i < j < jobs[0].end ==> le(t[i], t[j])
    ensures QueueValid(jobs[1..], |t|) && InversionsQueued(t, le, jobs[1..])
  {
    forall i, j | 0 <= i < j < |t| ensures le(t[i], t[j]) || Together(jobs[1..], i, j) {
      if !(jobs[0].start <= i && j < jobs[0].end) {
        OrderKeptAcrossRange(s, t, le, jobs, i, j);
      }
    }
  }

  /** The ranges queued for the two parts around the pivot; the first may be empty. */
  function FollowUps(lo: int, p: int, hi: int): seq<Job> {
    (if lo < p then [Job(lo, p)] else []) + (if p < hi then [Job(p, hi)] else [])
  }

  /** The step the whole sort rests on: partition the first range and queue its two parts. */
  lemma SplitRange<T(!new)>(s: seq<T>, t: seq<T>, cmp: (T, T) -> int, le: (T, T) -> bool, jobs: seq<Job>, p: int)
    requires Comparator(cmp, le)
    requires |jobs| > 0 && QueueValid(jobs, |s|) && InversionsQueued(s, le, jobs)
    requires Rearranged(s, t, jobs[0].start, jobs[0].end)
    requires Partitioned(t, cmp, jobs[0].start, p, jobs[0].end)
    ensures InversionsQueued(t, le, jobs[1..] + FollowUps(jobs[0].start, p, jobs[0].end))
  {
    var lo, hi := jobs[0].start, jobs[0].end;
    var next := jobs[1..] + FollowUps(lo, p, hi);
    assert next[|next| - 1] == Job(p, hi);
    forall i, j | 0 <= i < j < |t| ensures le(t[i], t[j]) || Together(next, i, j) {
      if !(lo <= i && j < hi) {
        OrderKeptAcrossRange(s, t, le, jobs, i, j);
        if Together(jobs[1..], i, j) {
          var q :| 0 <= q < |jobs[1..]| && jobs[1..][q].start <= i && j < jobs[1..][q].end;
          assert next[q] == jobs[1..][q];
        }
      } else if i < p <= j {
        PartitionOrders(t, cmp, le, lo, p, hi, i, j);
      } else if j < p {
        assert next[|jobs| - 1] == Job(lo, p);
      }
    }
  }

  /** The queue stays a set of disjoint non-empty ranges. */
  lemma SplitKeepsQueueValid(jobs: seq<Job>, p: int, n: int)
    requires |jobs| > 0 && QueueValid(jobs, n) && jobs[0].start <= p < jobs[0].end
    ensures QueueValid(jobs[1..] + FollowUps(jobs[0].start, p, jobs[0].end), n)
  {
    var lo, hi := jobs[0].start, jobs[0].end;
    var next := jobs[1..] + FollowUps(lo, p, hi);
    forall q, r | 0 <= q < r < |next| ensures Disjoint(next[q], next[r]) {
      if q < |jobs| - 1 {
        assert next[q] == jobs[q + 1];
        assert Disjoint(jobs[0], jobs[q + 1]);
        if r < |jobs| - 1 { assert next[r] == jobs[r + 1]; }
      }
    }
  }

  /** An empty queue leaves no inversion. */
  lemma EmptyQueueMeansOrdered<T>(s: seq<T>, le: (T, T) -> bool, jobs: seq<Job>)
    requires InversionsQueued(s, le, jobs)
    ensures |jobs| == 0 ==> Ordered(s, le)
    ensures Ordered(s, le) <==> InversionsQueued(s, le, [])
  {
    if |jobs| == 0 {
      forall i, j | 0 <= i < j < |s| ensures le(s[i], s[j]) {
        assert !Together(jobs, i, j);
      }
    }
    if InversionsQueued(s, le, []) {
      forall i, j | 0 <= i < j < |s| ensures le(s[i], s[j]) {
        assert !Together([], i, j);
      }
    }
  }

  // ------------------------------------------------------------------- work bound

  /** Rounds the queued ranges can still cause, unlucky draws not counted. */
  function Work(jobs: seq<Job>): int {
    if |jobs| == 0 then 0 else 2 * jobs[0].Length() - 1 + Work(jobs[1..])
  }

  /** Draws the queued ranges can still cause, unlucky ones not counted. */
  function Splits(jobs: seq<Job>): int {
    if |jobs| == 0 then 0 else (if jobs[0].Length() > 2 then jobs[0].Length() - 2 else 0) + Splits(jobs[1..])
  }

  lemma {:induction false} WorkOfConcat(a: seq<Job>, b: seq<Job>)
    ensures Work(a + b) == Work(a) + Work(b)
    ensures Splits(a + b) == Splits(a) + Splits(b)
  {
    if |a| == 0 {
      assert a + b == b;
    } else {
      WorkOfConcat(a[1..], b);
      assert (a + b)[1..] == a[1..] + b;
    }
  }

  lemma {:induction false} WorkNotNegative(jobs: seq<Job>, n: int)
    requires forall q :: 0 <= q < |jobs| ==> jobs[q].Within(n)
    ensures Work(jobs) >= |jobs| && Splits(jobs) >= 0
  {
    if |jobs| > 0 { WorkNotNegative(jobs[1..], n); }
  }

  /** A split costs one unit of work and one draw unless the pivot ended at the range start. */
  lemma SplitWork(jobs: seq<Job>, p: int)
    requires |jobs| > 0 && jobs[0].Length() > 2 && jobs[0].start <= p < jobs[0].end
    ensures var next := jobs[1..] + FollowUps(jobs[0].start, p, jobs[0].end);
            if p == jobs[0].start then Work(next) == Work(jobs) && Splits(next) == Splits(jobs)
            else Work(next) == Work(jobs) - 1 && Splits(next) < Splits(jobs)
  {
    var lo, hi := jobs[0].start, jobs[0].end;
    WorkOfConcat(jobs[1..], FollowUps(lo, p, hi));
    if p == lo {
      assert FollowUps(lo, p, hi) == [Job(p, hi)];
      assert Work([Job(p, hi)]) == 2 * (hi - p) - 1 + Work([]);
      assert Splits([Job(p, hi)]) == hi - p - 2 + Splits([]);
    } else {
      WorkOfConcat([Job(lo, p)], [Job(p, hi)]);
      assert FollowUps(lo, p, hi) == [Job(lo, p)] + [Job(p, hi)];
      assert [Job(lo, p)][1..] == [] && [Job(p, hi)][1..] == [];
      assert Work([Job(lo, p)]) == 2 * (p - lo) - 1 && Work([Job(p, hi)]) == 2 * (hi - p) - 1;
    }
  }

  // ------------------------------------------------------------- what a round does

  /** An attempt on one range: the items after it, where the pivot ended, and the error of a comparison or 0. */
  datatype Parted<T> = Parted(items: seq<T>, pivot: int, err: int)

  function Swapped<T>(s: seq<T>, i: int, j: int): (t: seq<T>)
    requires 0 <= i < |s| && 0 <= j < |s|
    ensures |t| == |s| && t[i] == s[j] && t[j] == s[i]
    ensures forall k :: 0 <= k < |s| && k != i && k != j ==> t[k] == s[k]
  {
    s[i := s[j]][j := s[i]]
  }

  lemma SwapKeepsItems<T>(s: seq<T>, i: int, j: int)
    requires 0 <= i < |s| && 0 <= j < |s|
    ensures multiset(Swapped(s, i, j)) == multiset(s)
  {
  }

  lemma SwapRearranges<T>(s: seq<T>, i: int, j: int, lo: int, hi: int)
    requires 0 <= lo <= i < hi <= |s| && lo <= j < hi
    ensures Rearranged(s, Swapped(s, i, j), lo, hi)
  {
    SwapKeepsItems(s, i, j);
  }

  /** The item at z is on the wrong side of the pivot at p: where both go. */
  function Moved<T>(s: seq<T>, p: int, z: int): (r: Parted<T>)
    requires 0 <= p < |s| && 0 <= z < |s|
    ensures |r.items| == |s| && 0 <= r.pivot < |s|
  {
    if z <= p + 1 then Parted(Swapped(s, z, p), z, 0)
    else Parted(Swapped(Swapped(s, p + 1, p), p, z), p + 1, 0)
  }

  /** The inner loop from position z on. */
  function PartitionFrom<T>(s: seq<T>, z: int, hi: int, p: int, cmp: (T, T) -> int): (r: Parted<T>)
    requires 0 <= z <= hi <= |s| && 0 <= p < hi
    ensures |r.items| == |s|
    decreases hi - z
  {
    if z == hi then Parted(s, p, 0)
    else if z == p then PartitionFrom(s, z + 1, hi, p, cmp)
    else
      var order := cmp(s[z], s[p]);
      if order < -1 then Parted(s, p, order)
      else if (order == 1 && z < p) || (order == -1 && z > p) then
        var m := Moved(s, p, z);
        PartitionFrom(m.items, z + 1, hi, m.pivot, cmp)
      else PartitionFrom(s, z + 1, hi, p, cmp)
  }

  /** A range of at most two items: compare once and swap if needed. */
  function Settle<T>(s: seq<T>, job: Job, cmp: (T, T) -> int): (r: Parted<T>)
    requires job.Within(|s|) && job.Length() <= 2
    ensures |r.items| == |s|
  {
    if job.Length() < 2 then Parted(s, job.start, 0)
    else
      var order := cmp(s[job.start], s[job.start + 1]);
      if order < -1 then Parted(s, job.start, order)
      else if order > 0 then Parted(Swapped(s, job.start + 1, job.start), job.start, 0)
      else Parted(s, job.start, 0)
  }

  /** The position a draw picks in a range. */
  function Picked(job: Job, draw: nat): (p: int)
    requires job.Length() > 0
    ensures job.start <= p < job.end
  {
    job.start + draw % job.Length()
  }

  /** Any position of a range can be drawn, and draws that differ by a multiple of its length pick the same one. */
  lemma AnyCanBePicked(job: Job, p: int, k: nat)
    requires job.start <= p < job.end
    ensures Picked(job, p - job.start + k * job.Length()) == p
  {
    var n := job.Length();
    assert (p - job.start + k * n) % n == p - job.start by { Wraps(p - job.start, k, n); }
  }

  lemma Wraps(r: nat, k: nat, n: nat)
    requires r < n
    ensures (r + k * n) % n == r
  {
    var x := r + k * n;
    var q, m := x / n, x % n;
    assert n * (q - k) == r - m by {
      assert x == n * q + m;
      assert n * (q - k) == n * q - n * k;
    }
    BelowOne(n, q - k);
  }

  lemma BelowOne(n: int, x: int)
    requires n > 0 && 0 - n < n * x < n
    ensures x == 0
  {
  }

  lemma ReportsError<T>(s: seq<T>, i: int, j: int, cmp: (T, T) -> int)
    requires 0 <= i < |s| && 0 <= j < |s|
    ensures Reports(s, cmp, cmp(s[i], s[j]))
  {
    assert s[i] in multiset(s) && s[j] in multiset(s);
  }

  /** Moving an item across the pivot keeps all passed so far on its side. */
  lemma MovedKeeps<T>(s: seq<T>, cmp: (T, T) -> int, lo: int, p: int, z: int, hi: int)
    requires 0 <= lo <= z < hi <= |s| && lo <= p < hi && z != p
    requires PartitionedUpTo(s, cmp, lo, p, z, s[p])
    requires if z < p then cmp(s[z], s[p]) == 1 else cmp(s[z], s[p]) == -1
    ensures var r := Moved(s, p, z);
            && Rearranged(s, r.items, lo, hi) && lo <= r.pivot < hi
            && PartitionedUpTo(r.items, cmp, lo, r.pivot, z + 1, r.items[r.pivot]) && r.items[r.pivot] == s[p]
  {
    MovedRearranges(s, lo, p, z, hi);
  }

  lemma MovedRearranges<T>(s: seq<T>, lo: int, p: int, z: int, hi: int)
    requires 0 <= lo <= z < hi <= |s| && lo <= p < hi
    ensures Rearranged(s, Moved(s, p, z).items, lo, hi)
  {
    hide Rearranged, Swapped;
    if z <= p + 1 {
      SwapRearranges(s, z, p, lo, hi);
    } else {
      var t := Swapped(s, p + 1, p);
      SwapRearranges(s, p + 1, p, lo, hi);
      SwapRearranges(t, p, z, lo, hi);
      RearrangedTwice(s, t, Swapped(t, p, z), lo, hi);
    }
  }

  lemma StepOver<T>(s: seq<T>, cmp: (T, T) -> int, lo: int, p: int, z: int)
    requires 0 <= lo <= p < |s| && 0 <= z < |s|
    requires PartitionedUpTo(s, cmp, lo, p, z, s[p])
    requires z != p ==> cmp(s[z], s[p]) >= -1
    requires z < p ==> cmp(s[z], s[p]) != 1
    requires z > p ==> cmp(s[z], s[p]) != -1
    ensures PartitionedUpTo(s, cmp, lo, p, z + 1, s[p])
  {
  }

  lemma RearrangedTwice<T>(s: seq<T>, t: seq<T>, u: seq<T>, lo: int, hi: int)
    requires Rearranged(s, t, lo, hi) && Rearranged(t, u, lo, hi)
    ensures Rearranged(s, u, lo, hi)
  {
  }

  /** Pulling the pivot through a range partitions it, unless a comparison reports an error. */
  lemma {:induction false} PartitionWorks<T>(s: seq<T>, lo: int, z: int, hi: int, p: int, cmp: (T, T) -> int)
    requires 0 <= lo <= z <= hi <= |s| && lo <= p < hi
    requires PartitionedUpTo(s, cmp, lo, p, z, s[p])
    ensures var r := PartitionFrom(s, z, hi, p, cmp);
            && Rearranged(s, r.items, lo, hi) && lo <= r.pivot < hi
            && (r.err == 0 ==> Partitioned(r.items, cmp, lo, r.pivot, hi) && r.items[r.pivot] == s[p])
            && (r.err != 0 ==> r.err < -1 && Reports(s, cmp, r.err))
    decreases hi - z
  {
    hide Moved, Reports, PartitionedUpTo, Rearranged;
    if z == hi {
      PartitionedAtEnd(s, cmp, lo, p, hi);
    } else if z == p {
      StepOver(s, cmp, lo, p, z);
      PartitionWorks(s, lo, z + 1, hi, p, cmp);
    } else {
      var order := cmp(s[z], s[p]);
      if order < -1 {
        ReportsError(s, z, p, cmp);
        RearrangedNot(s, lo, hi);
      } else if (order == 1 && z < p) || (order == -1 && z > p) {
        MovedKeeps(s, cmp, lo, p, z, hi);
        var m := Moved(s, p, z);
        PartitionWorks(m.items, lo, z + 1, hi, m.pivot, cmp);
        var r := PartitionFrom(m.items, z + 1, hi, m.pivot, cmp);
        RearrangedTwice(s, m.items, r.items, lo, hi);
        if r.err != 0 { ReportsAlike(s, m.items, lo, hi, cmp, r.err); }
      } else {
        StepOver(s, cmp, lo, p, z);
        PartitionWorks(s, lo, z + 1, hi, p, cmp);
      }
    }
  }

  lemma RearrangedNot<T>(s: seq<T>, lo: int, hi: int)
    requires 0 <= lo <= hi <= |s|
    ensures Rearranged(s, s, lo, hi)
  {
  }

  lemma PartitionedAtEnd<T>(s: seq<T>, cmp: (T, T) -> int, lo: int, p: int, hi: int)
    requires 0 <= lo <= p < hi <= |s| && PartitionedUpTo(s, cmp, lo, p, hi, s[p])
    ensures Rearranged(s, s, lo, hi) && Partitioned(s, cmp, lo, p, hi)
  {
  }

  lemma ReportsAlike<T>(s: seq<T>, t: seq<T>, lo: int, hi: int, cmp: (T, T) -> int, err: int)
    requires Rearranged(s, t, lo, hi) && Reports(t, cmp, err)
    ensures Reports(s, cmp, err)
  {
  }

  /** A pair ends up as its comparison says, unless that reports an error. */
  lemma SettleWorks<T>(s: seq<T>, job: Job, cmp: (T, T) -> int)
    requires job.Within(|s|) && job.Length() <= 2
    ensures var r := Settle(s, job, cmp);
            && Rearranged(s, r.items, job.start, job.end)
            && r.err == (if job.Length() == 2 && cmp(s[job.start], s[job.start + 1]) < -1 then cmp(s[job.start], s[job.start + 1]) else 0)
            && (r.err == 0 && job.Length() == 2 ==>
                  var x, y := r.items[job.start], r.items[job.start + 1]; cmp(y, x) > 0 || -1 <= cmp(x, y) <= 0)
            && (r.err != 0 ==> r.err < -1 && Reports(s, cmp, r.err))
  {
    hide Rearranged, Reports;
    RearrangedNot(s, job.start, job.end);
    if job.Length() == 2 {
      ReportsError(s, job.start, job.start + 1, cmp);
      SwapRearranges(s, job.start + 1, job.start, job.start, job.end);
    }
  }

  // -------------------------------------------------------------------------- runs

  /** A completed round of the job loop: a short range settled, or a longer one split by a pivot drawn at first. */
  datatype Visit = Settled(job: Job) | Split(job: Job, first: int, pivot: int)

  /** The queue after a round: the range is gone, and a split has queued its follow-ups. */
  function NextQueue(pending: seq<Job>, v: Visit): seq<Job> {
    if |pending| == 0 then []
    else match v
      case Settled(_) => pending[1..]
      case Split(job, _, pivot) => pending[1..] + FollowUps(job.start, pivot, job.end)
  }

  /** The ranges still queued after these rounds on n items. */
  function Pending(n: nat, trace: seq<Visit>): seq<Job> {
    if |trace| == 0 then [Job(0, n)] else NextQueue(Pending(n, trace[..|trace| - 1]), trace[|trace| - 1])
  }

  /** A round takes the range at the front; ranges of at most two items are settled, longer ones split inside. */
  predicate CanVisit(pending: seq<Job>, v: Visit) {
    && |pending| > 0 && v.job == pending[0]
    && match v
       case Settled(job) => job.Length() <= 2
       case Split(job, first, pivot) => job.Length() > 2 && job.start <= first < job.end && job.start <= pivot < job.end
  }

  /** Every round is one the queue allows. */
  predicate Legal(n: nat, trace: seq<Visit>) {
    |trace| == 0 ||
    (Legal(n, trace[..|trace| - 1]) && CanVisit(Pending(n, trace[..|trace| - 1]), trace[|trace| - 1]))
  }

  /** One for every round that draws a pivot. */
  function Draws(trace: seq<Visit>): nat {
    if |trace| == 0 then 0 else Draws(trace[..|trace| - 1]) + if trace[|trace| - 1].Split? then 1 else 0
  }

  /** One for every round whose pivot ended at the start of its range. */
  function Unlucky(trace: seq<Visit>): nat {
    if |trace| == 0 then 0
    else Unlucky(trace[..|trace| - 1]) + match trace[|trace| - 1]
                                         case Settled(_) => 0
                                         case Split(job, _, pivot) => if pivot == job.start then 1 else 0
  }

  /** The number of draws is that of the rounds that split. */
  lemma {:induction false} DrawsCount(trace: seq<Visit>)
    ensures Draws(trace) == |set k: nat | k < |trace| && trace[k].Split?|
  {
    if |trace| > 0 {
      var front, last := trace[..|trace| - 1], |trace| - 1;
      DrawsCount(front);
      var d := set k: nat | k < |front| && front[k].Split?;
      var all := set k: nat | k < |trace| && trace[k].Split?;
      assert forall k: nat :: k < last ==> front[k] == trace[k];
      assert all == if trace[last].Split? then d + {last} else d;
    }
  }

  /** The number of unlucky ones is that of the rounds whose pivot ended at the start of their range. */
  lemma {:induction false} UnluckyCount(trace: seq<Visit>)
    ensures Unlucky(trace) == |set k: nat | k < |trace| && trace[k].Split? && trace[k].pivot == trace[k].job.start|
  {
    if |trace| > 0 {
      var front, last := trace[..|trace| - 1], |trace| - 1;
      UnluckyCount(front);
      var u := set k: nat | k < |front| && front[k].Split? && front[k].pivot == front[k].job.start;
      var all := set k: nat | k < |trace| && trace[k].Split? && trace[k].pivot == trace[k].job.start;
      assert forall k: nat :: k < last ==> front[k] == trace[k];
      assert all == if trace[last].Split? && trace[last].pivot == trace[last].job.start then u + {last} else u;
    }
  }

  lemma TraceOfOneMore(n: nat, trace: seq<Visit>, v: Visit)
    ensures Pending(n, trace + [v]) == NextQueue(Pending(n, trace), v)
    ensures Legal(n, trace + [v]) <==> Legal(n, trace) && CanVisit(Pending(n, trace), v)
    ensures Draws(trace + [v]) == Draws(trace) + if v.Split? then 1 else 0
  {
    assert (trace + [v])[..|trace|] == trace;
  }

  lemma TailKeepsQueueValid(jobs: seq<Job>, n: int)
    requires |jobs| > 0 && QueueValid(jobs, n)
    ensures QueueValid(jobs[1..], n)
  {
    forall q, r | 0 <= q < r < |jobs| - 1 ensures Disjoint(jobs[1..][q], jobs[1..][r]) {
      assert Disjoint(jobs[q + 1], jobs[r + 1]);
    }
  }

  /** On any legal run the queued ranges stay non-empty, disjoint parts of the array. */
  lemma {:induction false} PendingValid(n: nat, trace: seq<Visit>)
    requires n >= 1 && Legal(n, trace)
    ensures QueueValid(Pending(n, trace), n)
  {
    hide QueueValid, FollowUps;
    if |trace| == 0 {
      OneRangeValid(n);
    } else {
      var before, v := Pending(n, trace[..|trace| - 1]), trace[|trace| - 1];
      PendingValid(n, trace[..|trace| - 1]);
      if v.Split? { SplitKeepsQueueValid(before, v.pivot, n); } else { TailKeepsQueueValid(before, n); }
    }
  }

  lemma OneRangeValid(n: nat)
    requires n >= 1
    ensures QueueValid([Job(0, n)], n)
  {
  }

  /** What is still queued pays for the rounds and draws made: an unlucky draw costs nothing of it, any other round does. */
  lemma {:induction false} WorkPaid(n: nat, trace: seq<Visit>)
    requires n >= 2 && Legal(n, trace)
    ensures |trace| + Work(Pending(n, trace)) <= 2 * n - 1 + Unlucky(trace)
    ensures Draws(trace) + Splits(Pending(n, trace)) <= n - 2 + Unlucky(trace)
  {
    hide FollowUps, QueueValid;
    if |trace| == 0 {
      assert [Job(0, n)][1..] == [];
    } else {
      var before, v := Pending(n, trace[..|trace| - 1]), trace[|trace| - 1];
      WorkPaid(n, trace[..|trace| - 1]);
      PendingValid(n, trace[..|trace| - 1]);
      FrontWork(before, n);
      if v.Split? { SplitWork(before, v.pivot); }
    }
  }

  /** The range at the front is worth at least a round, and a draw if it is long. */
  lemma FrontWork(jobs: seq<Job>, n: int)
    requires |jobs| > 0 && QueueValid(jobs, n)
    ensures Work(jobs[1..]) < Work(jobs) && Splits(jobs[1..]) <= Splits(jobs)
    ensures jobs[0].Length() > 2 ==> Splits(jobs[1..]) < Splits(jobs)
  {
  }

  /**
   The work bound, for every legal run and so for every comparison and every sequence of draws: with u rounds whose
   pivot ended at the range start, at most 2n-1+u rounds are begun, the one in progress included, and at most
   n-2+u of them draw a pivot.
   */
  lemma RunBound(n: nat, trace: seq<Visit>)
    requires n >= 2 && Legal(n, trace)
    ensures |trace| + |Pending(n, trace)| <= 2 * n - 1 + Unlucky(trace)
    ensures var pending := Pending(n, trace);
            Draws(trace) + (if |pending| > 0 && pending[0].Length() > 2 then 1 else 0) <= n - 2 + Unlucky(trace)
  {
    WorkPaid(n, trace);
    PendingValid(n, trace);
    var pending := Pending(n, trace);
    WorkNotNegative(pending, n);
    if |pending| > 0 {
      FrontWork(pending, n);
      WorkNotNegative(pending[1..], n);
    }
  }

  // --------------------------------------------------------- what runs do to the items

  /** The items after one round. */
  function Effect<T>(t: seq<T>, cmp: (T, T) -> int, v: Visit): (u: seq<T>)
    ensures |u| == |t|
  {
    if !v.job.Within(|t|) then t
    else match v
      case Settled(job) => if job.Length() <= 2 then Settle(t, job, cmp).items else t
      case Split(job, first, _) =>
        if job.start <= first < job.end then PartitionFrom(t, job.start, job.end, first, cmp).items else t
  }

  /** The items after these rounds. */
  function ItemsAfter<T>(s: seq<T>, cmp: (T, T) -> int, trace: seq<Visit>): (t: seq<T>)
    ensures |t| == |s|
  {
    if |trace| == 0 then s else Effect(ItemsAfter(s, cmp, trace[..|trace| - 1]), cmp, trace[|trace| - 1])
  }

  /** The round is free of errors, splits with the pivot that draw number drawn picks, and leaves it where it says. */
  predicate GoesThrough<T>(t: seq<T>, cmp: (T, T) -> int, draws: seq<nat>, drawn: nat, v: Visit)
    requires v.job.Within(|t|)
  {
    match v
    case Settled(job) => job.Length() <= 2 && Settle(t, job, cmp).err == 0
    case Split(job, first, pivot) =>
      && drawn < |draws| && job.Length() > 2 && first == Picked(job, draws[drawn])
      && var r := PartitionFrom(t, job.start, job.end, first, cmp); r.err == 0 && r.pivot == pivot
  }

  /** Every round goes through. */
  predicate Performed<T>(s: seq<T>, cmp: (T, T) -> int, draws: seq<nat>, trace: seq<Visit>) {
    |trace| == 0 ||
    var front, v := trace[..|trace| - 1], trace[|trace| - 1];
    && Performed(s, cmp, draws, front) && v.job.Within(|s|)
    && GoesThrough(ItemsAfter(s, cmp, front), cmp, draws, Draws(front), v)
  }

  /** A run of the sort: the queue allows it and the comparisons and draws make it. Both fix it round by round. */
  predicate IsRun<T>(s: seq<T>, cmp: (T, T) -> int, draws: seq<nat>, trace: seq<Visit>) {
    Legal(|s|, trace) && Performed(s, cmp, draws, trace)
  }

  /** There is only one run of each length, so a run is what happened and not a choice. */
  lemma {:induction false} RunIsUnique<T>(s: seq<T>, cmp: (T, T) -> int, draws: seq<nat>, t: seq<Visit>, u: seq<Visit>)
    requires IsRun(s, cmp, draws, t) && IsRun(s, cmp, draws, u) && |t| == |u|
    ensures t == u
  {
    if |t| > 0 {
      RunIsUnique(s, cmp, draws, t[..|t| - 1], u[..|u| - 1]);
      assert t == t[..|t| - 1] + [t[|t| - 1]] && u == u[..|u| - 1] + [u[|u| - 1]];
    }
  }

  /** The range of a pair that one comparison put in order is in order. */
  lemma PairInOrder<T(!new)>(t: seq<T>, cmp: (T, T) -> int, le: (T, T) -> bool, lo: int)
    requires Comparator(cmp, le)
    requires 0 <= lo && lo + 1 < |t|
    requires cmp(t[lo + 1], t[lo]) > 0 || -1 <= cmp(t[lo], t[lo + 1]) <= 0
    ensures le(t[lo], t[lo + 1])
  {
  }

  /** A settling round keeps every inversion inside a queued range. */
  lemma SettlingRound<T(!new)>(s: seq<T>, cmp: (T, T) -> int, le: (T, T) -> bool, pending: seq<Job>)
    requires Comparator(cmp, le)
    requires |pending| > 0 && QueueValid(pending, |s|) && InversionsQueued(s, le, pending)
    requires pending[0].Length() <= 2 && Settle(s, pending[0], cmp).err == 0
    ensures InversionsQueued(Settle(s, pending[0], cmp).items, le, pending[1..])
  {
    hide Settle, InversionsQueued;
    var job, t := pending[0], Settle(s, pending[0], cmp).items;
    SettleWorks(s, job, cmp);
    if job.Length() == 2 { PairInOrder(t, cmp, le, job.start); }
    SettleRange(s, t, le, pending);
  }

  /** So does a splitting round. */
  lemma SplittingRound<T(!new)>(s: seq<T>, cmp: (T, T) -> int, le: (T, T) -> bool, pending: seq<Job>, first: int)
    requires Comparator(cmp, le)
    requires |pending| > 0 && QueueValid(pending, |s|) && InversionsQueued(s, le, pending)
    requires pending[0].start <= first < pending[0].end
    requires PartitionFrom(s, pending[0].start, pending[0].end, first, cmp).err == 0
    ensures var r := PartitionFrom(s, pending[0].start, pending[0].end, first, cmp);
            InversionsQueued(r.items, le, pending[1..] + FollowUps(pending[0].start, r.pivot, pending[0].end))
  {
    hide PartitionFrom, InversionsQueued, FollowUps;
    var lo, hi := pending[0].start, pending[0].end;
    StartsPartitioned(s, cmp, lo, first);
    PartitionWorks(s, lo, lo, hi, first, cmp);
    var r := PartitionFrom(s, lo, hi, first, cmp);
    SplitRange(s, r.items, cmp, le, pending, r.pivot);
  }

  lemma StartsPartitioned<T>(s: seq<T>, cmp: (T, T) -> int, lo: int, first: int)
    requires 0 <= lo <= first < |s|
    ensures PartitionedUpTo(s, cmp, lo, first, lo, s[first])
  {
  }

  /** On every run the items are only rearranged. */
  lemma {:induction false} RunRearranges<T>(s: seq<T>, cmp: (T, T) -> int, draws: seq<nat>, trace: seq<Visit>)
    requires Performed(s, cmp, draws, trace)
    ensures multiset(ItemsAfter(s, cmp, trace)) == multiset(s)
  {
    hide Settle, PartitionFrom;
    if |trace| > 0 {
      var front, v := trace[..|trace| - 1], trace[|trace| - 1];
      RunRearranges(s, cmp, draws, front);
      var t := ItemsAfter(s, cmp, front);
      match v
      case Settled(job) => SettleWorks(t, job, cmp);
      case Split(job, first, _) =>
        StartsPartitioned(t, cmp, job.start, first);
        PartitionWorks(t, job.start, job.start, job.end, first, cmp);
    }
  }

  /** The global argument: on every run, every pair that is out of order lies inside one queued range. */
  lemma {:induction false} RunKeepsInversions<T(!new)>(s: seq<T>, cmp: (T, T) -> int, le: (T, T) -> bool, draws: seq<nat>,
                                                       trace: seq<Visit>)
    requires Comparator(cmp, le) && |s| >= 1 && IsRun(s, cmp, draws, trace)
    ensures InversionsQueued(ItemsAfter(s, cmp, trace), le, Pending(|s|, trace))
  {
    hide Settle, PartitionFrom, InversionsQueued, QueueValid, FollowUps, Comparator;
    if |trace| == 0 {
      AllQueued(s, le);
    } else {
      var front, v := trace[..|trace| - 1], trace[|trace| - 1];
      RunKeepsInversions(s, cmp, le, draws, front);
      PendingValid(|s|, front);
      var t, pending := ItemsAfter(s, cmp, front), Pending(|s|, front);
      match v
      case Settled(_) => SettlingRound(t, cmp, le, pending);
      case Split(_, first, _) => SplittingRound(t, cmp, le, pending, first);
    }
  }

  lemma AllQueued<T>(s: seq<T>, le: (T, T) -> bool)
    ensures InversionsQueued(s, le, [Job(0, |s|)])
  {
    var jobs := [Job(0, |s|)];
    forall i, j | 0 <= i < j < |s| ensures Together(jobs, i, j) {
      assert jobs[0].start <= i && j < jobs[0].end;
    }
  }

  /** A run that leaves nothing queued has sorted the items. */
  lemma FinishedRunSorts<T(!new)>(s: seq<T>, cmp: (T, T) -> int, le: (T, T) -> bool, draws: seq<nat>, trace: seq<Visit>)
    requires Comparator(cmp, le) && |s| >= 1 && IsRun(s, cmp, draws, trace) && Pending(|s|, trace) == []
    ensures Ordered(ItemsAfter(s, cmp, trace), le)
  {
    RunKeepsInversions(s, cmp, le, draws, trace);
    EmptyQueueMeansOrdered(ItemsAfter(s, cmp, trace), le, Pending(|s|, trace));
  }

  // ------------------------------------------------------------------- the methods

  method Swap<T>(a: array<T>, i: int, j: int)
    requires 0 <= i < a.Length && 0 <= j < a.Length
    modifies a
    ensures a[..] == Swapped(old(a[..]), i, j)
  {
    a[i], a[j] := a[j], a[i];
  }

  /**
   The item at z belongs below the pivot but is not its neighbour: swap the pivot with
   the neighbour above it, then that neighbour with the item at z.
   */
  method PullBelow<T>(a: array<T>, pivot: int, z: int)
    requires 0 <= pivot && pivot + 1 < z < a.Length
    modifies a
    ensures a[pivot] == old(a[z]) && a[pivot + 1] == old(a[pivot]) && a[z] == old(a[pivot + 1])
    ensures forall m :: 0 <= m < a.Length && m != pivot && m != pivot + 1 && m != z ==> a[m] == old(a[m])
    ensures a[..] == Moved(old(a[..]), pivot, z).items
  {
    Swap(a, pivot + 1, pivot);
    Swap(a, pivot, z);
  }

  /** The item at z is on the wrong side of the pivot: move it, and the pivot with it. */
  method MoveAcross<T>(a: array<T>, pivot: int, z: int) returns (pivot': int)
    requires 0 <= z < a.Length && 0 <= pivot < a.Length
    modifies a
    ensures Parted(a[..], pivot', 0) == Moved(old(a[..]), pivot, z)
  {
    if z <= pivot + 1 {
      Swap(a, z, pivot);
      pivot' := z;
    } else {
      PullBelow(a, pivot, z);
      pivot' := pivot + 1;
    }
  }

  /**
   The inner loop: pull the pivot drawn at position first through [lo, hi). Stops at
   once when a comparison reports an error, leaving the items rearranged.
   */
  method Partition<T>(a: array<T>, lo: int, hi: int, first: int, cmp: (T, T) -> int) returns (pivot: int, err: int)
    requires 0 <= lo <= first < hi <= a.Length
    modifies a
    ensures Parted(a[..], pivot, err) == PartitionFrom(old(a[..]), lo, hi, first, cmp)
    ensures Rearranged(old(a[..]), a[..], lo, hi) && lo <= pivot < hi
    ensures err == 0 ==> Partitioned(a[..], cmp, lo, pivot, hi)
    ensures err != 0 ==> err < -1 && Reports(old(a[..]), cmp, err)
  {
    hide Moved, Rearranged, Partitioned, PartitionedUpTo, Reports;
    pivot, err := first, 0;
    ghost var s := a[..];
    StartsPartitioned(s, cmp, lo, first);
    PartitionWorks(s, lo, lo, hi, first, cmp);
    var z := lo;
    while z < hi
      invariant lo <= z <= hi && 0 <= pivot < hi && err == 0
      invariant PartitionFrom(s, lo, hi, first, cmp) == PartitionFrom(a[..], z, hi, pivot, cmp)
    {
      if z == pivot {
        z := z + 1;
        continue;
      }
      var order := cmp(a[z], a[pivot]);
      if order < -1 {
        err := order;
        return;
      }
      if (order == 1 && z < pivot) || (order == -1 && z > pivot) {
        MovedInside(a[..], pivot, z, hi);
        pivot := MoveAcross(a, pivot, z);
      }
      z := z + 1;
    }
  }

  lemma MovedInside<T>(s: seq<T>, p: int, z: int, hi: int)
    requires 0 <= p < hi <= |s| && 0 <= z < hi
    ensures Moved(s, p, z).pivot < hi
  {
  }

  /** A range of at most two items: one comparison and perhaps a swap. */
  method SortPair<T>(a: array<T>, job: Job, cmp: (T, T) -> int) returns (err: int)
    requires job.Within(a.Length) && job.Length() <= 2
    modifies a
    ensures Parted(a[..], job.start, err) == Settle(old(a[..]), job, cmp)
    ensures Rearranged(old(a[..]), a[..], job.start, job.end)
    ensures err == 0 && job.Length() == 2 ==>
              cmp(a[job.start + 1], a[job.start]) > 0 || -1 <= cmp(a[job.start], a[job.start + 1]) <= 0
    ensures err != 0 ==> err < -1 && Reports(old(a[..]), cmp, err)
  {
    hide Rearranged, Reports;
    SettleWorks(a[..], job, cmp);
    err := 0;
    if job.Length() == 2 {
      var order := cmp(a[job.start], a[job.start + 1]);
      if order < -1 {
        err := order;
      } else if order > 0 {
        Swap(a, job.start + 1, job.start);
      }
    }
  }

  /**
   SORT_PUSHJOB: queue a range unless it is empty. Beyond STACK_JOBS queued ranges every
   push needs memory; canGrow says whether the push after that many ranges gets it.
   */
  function PushJob(jobs: seq<Job>, start: int, end: int, canGrow: nat -> bool): (r: (bool, seq<Job>))
    ensures r.0 && start < end ==> r.1 == jobs + [Job(start, end)]
    ensures r.0 && start >= end ==> r.1 == jobs
    ensures r.0 <==> start >= end || |jobs| < 32 || canGrow(|jobs|)
  {
    if end > start then
      if |jobs| + 1 > STACK_JOBS && !canGrow(|jobs|) then (false, jobs) else (true, jobs + [Job(start, end)])
    else (true, jobs)
  }

  /** Queue both follow-up ranges. */
  function PushBoth(jobs: seq<Job>, lo: int, p: int, hi: int, canGrow: nat -> bool): (r: (bool, seq<Job>))
    requires lo <= p < hi
    ensures r.0 ==> r.1 == jobs + FollowUps(lo, p, hi)
    ensures r.0 <==> (lo == p || |jobs| < 32 || canGrow(|jobs|))
                     && var m := |jobs| + (if lo < p then 1 else 0); m < 32 || canGrow(m)
  {
    var first := PushJob(jobs, lo, p, canGrow);
    if first.0 then PushJob(first.1, p, hi, canGrow) else first
  }

  function ErrorOutcome(err: int): Outcome {
    if err == CMP_ERR_UNSORTABLE then Unsortable else OutOfMemory
  }

  /** How a call ends after the rounds of trace: with an empty queue, or inside the next round. */
  ghost predicate Ends<T>(r: Outcome, s: seq<T>, t: seq<T>, cmp: (T, T) -> int, draws: seq<nat>, canGrow: nat -> bool,
                          trace: seq<Visit>)
  {
    var pending, before := Pending(|s|, trace), ItemsAfter(s, cmp, trace);
    if r == Sorted then pending == [] && t == before
    else
      && |pending| > 0 && pending[0].Within(|s|)
      && var job := pending[0];
      if job.Length() <= 2 then
        var p := Settle(before, job, cmp);
        p.err < -1 && t == p.items && r == ErrorOutcome(p.err)
      else if r == DrawsUsedUp then Draws(trace) == |draws| && t == before
      else
        && Draws(trace) < |draws|
        && var p := PartitionFrom(before, job.start, job.end, Picked(job, draws[Draws(trace)]), cmp);
        && t == p.items
        && if r == NoJobMemory then p.err == 0 && exists m: nat :: m >= STACK_JOBS && !canGrow(m)
           else p.err < -1 && r == ErrorOutcome(p.err)
  }

  /** The state of the job loop: what the rounds of trace have made of the items s. */
  ghost predicate Running<T>(s: seq<T>, t: seq<T>, cmp: (T, T) -> int, draws: seq<nat>, drawn: nat, pending: seq<Job>,
                             trace: seq<Visit>)
  {
    && |s| >= 2 && IsRun(s, cmp, draws, trace)
    && t == ItemsAfter(s, cmp, trace) && pending == Pending(|s|, trace) && drawn == Draws(trace) <= |draws|
  }

  lemma ItemsAfterOneMore<T>(s: seq<T>, cmp: (T, T) -> int, draws: seq<nat>, trace: seq<Visit>, v: Visit)
    ensures Performed(s, cmp, draws, trace + [v]) <==>
            && Performed(s, cmp, draws, trace) && v.job.Within(|s|)
            && GoesThrough(ItemsAfter(s, cmp, trace), cmp, draws, Draws(trace), v)
    ensures Performed(s, cmp, draws, trace + [v]) ==>
              ItemsAfter(s, cmp, trace + [v]) == Effect(ItemsAfter(s, cmp, trace), cmp, v)
  {
    hide Settle, PartitionFrom, Picked;
    assert (trace + [v])[..|trace|] == trace;
  }

  lemma SettledOnce<T>(s: seq<T>, t: seq<T>, cmp: (T, T) -> int, draws: seq<nat>, drawn: nat, pending: seq<Job>, trace: seq<Visit>)
    requires Running(s, t, cmp, draws, drawn, pending, trace)
    requires |pending| > 0 && pending[0].Within(|s|) && pending[0].Length() <= 2 && Settle(t, pending[0], cmp).err == 0
    ensures Running(s, Settle(t, pending[0], cmp).items, cmp, draws, drawn, pending[1..], trace + [Settled(pending[0])])
  {
    hide Settle, Performed, ItemsAfter, Pending, Legal, Draws;
    var v := Settled(pending[0]);
    TraceOfOneMore(|s|, trace, v);
    ItemsAfterOneMore(s, cmp, draws, trace, v);
  }

  lemma SplitOnce<T>(s: seq<T>, t: seq<T>, cmp: (T, T) -> int, draws: seq<nat>, drawn: nat, pending: seq<Job>, trace: seq<Visit>)
    requires Running(s, t, cmp, draws, drawn, pending, trace)
    requires |pending| > 0 && pending[0].Within(|s|) && pending[0].Length() > 2 && drawn < |draws|
    requires PartitionFrom(t, pending[0].start, pending[0].end, Picked(pending[0], draws[drawn]), cmp).err == 0
    requires var p := PartitionFrom(t, pending[0].start, pending[0].end, Picked(pending[0], draws[drawn]), cmp).pivot;
             pending[0].start <= p < pending[0].end
    ensures var job, first := pending[0], Picked(pending[0], draws[drawn]);
            var r := PartitionFrom(t, job.start, job.end, first, cmp);
            Running(s, r.items, cmp, draws, drawn + 1, pending[1..] + FollowUps(job.start, r.pivot, job.end),
                    trace + [Split(job, first, r.pivot)])
  {
    hide PartitionFrom, FollowUps, Picked, Performed, ItemsAfter, Pending, Legal, Draws;
    var job, first := pending[0], Picked(pending[0], draws[drawn]);
    var v := Split(job, first, PartitionFrom(t, job.start, job.end, first, cmp).pivot);
    TraceOfOneMore(|s|, trace, v);
    ItemsAfterOneMore(s, cmp, draws, trace, v);
  }

  lemma NextPending(jobs: seq<Job>, k: int, tail: seq<Job>)
    requires 0 <= k < |jobs|
    ensures (jobs + tail)[k + 1..] == jobs[k..][1..] + tail && jobs[k..][0] == jobs[k]
  {
  }

  /** A round on a range of at most two items, or how the call ends in it. */
  method SettleJob<T>(a: array<T>, job: Job, cmp: (T, T) -> int, ghost s: seq<T>, ghost draws: seq<nat>, ghost drawn: nat,
                      ghost canGrow: nat -> bool, ghost pending: seq<Job>, ghost trace: seq<Visit>)
    returns (err: int)
    requires Running(s, a[..], cmp, draws, drawn, pending, trace)
    requires |pending| > 0 && pending[0] == job && job.Within(a.Length) && job.Length() <= 2
    modifies a
    ensures err == 0 ==> Running(s, a[..], cmp, draws, drawn, pending[1..], trace + [Settled(job)])
    ensures err != 0 ==> Ends(ErrorOutcome(err), s, a[..], cmp, draws, canGrow, trace)
  {
    hide Settle, PartitionFrom, IsRun, Rearranged, Reports;
    if Settle(a[..], job, cmp).err == 0 { SettledOnce(s, a[..], cmp, draws, drawn, pending, trace); }
    err := SortPair(a, job, cmp);
  }

  /** A round on a longer range, or how the call ends in it if a comparison fails or the queue cannot grow. */
  method SplitJob<T>(a: array<T>, job: Job, cmp: (T, T) -> int, draws: seq<nat>, drawn: nat, ghost s: seq<T>,
                     ghost canGrow: nat -> bool, ghost pending: seq<Job>, ghost trace: seq<Visit>)
    returns (first: int, pivot: int, err: int)
    requires Running(s, a[..], cmp, draws, drawn, pending, trace) && drawn < |draws|
    requires |pending| > 0 && pending[0] == job && job.Within(a.Length) && job.Length() > 2
    modifies a
    ensures first == Picked(job, draws[drawn]) && job.start <= pivot < job.end
    ensures err == 0 ==> Running(s, a[..], cmp, draws, drawn + 1, pending[1..] + FollowUps(job.start, pivot, job.end),
                                 trace + [Split(job, first, pivot)])
    ensures err != 0 ==> Ends(ErrorOutcome(err), s, a[..], cmp, draws, canGrow, trace)
    ensures err == 0 && (exists m: nat :: m >= STACK_JOBS && !canGrow(m)) ==>
              Ends(NoJobMemory, s, a[..], cmp, draws, canGrow, trace)
  {
    hide PartitionFrom, Settle, IsRun, FollowUps, Partitioned, Rearranged, Reports;
    ghost var before := a[..];
    first := job.start + draws[drawn] % (job.end - job.start);
    pivot, err := Partition(a, job.start, job.end, first, cmp);
    if err == 0 { SplitOnce(s, before, cmp, draws, drawn, pending, trace); }
  }

  /** One pass of the job loop: the round it adds to the run, or how the call ends in it. */
  method Round<T(!new)>(a: array<T>, jobs: seq<Job>, k: int, cmp: (T, T) -> int, canGrow: nat -> bool, draws: seq<nat>,
                        drawn: nat, ghost s: seq<T>, ghost trace: seq<Visit>)
    returns (r: Outcome, jobs': seq<Job>, drawn': nat, ghost trace': seq<Visit>)
    requires ErrorCodesOnly(cmp)
    requires 0 <= k < |jobs| && Running(s, a[..], cmp, draws, drawn, jobs[k..], trace)
    modifies a
    ensures r == Sorted ==> |trace'| == |trace| + 1 && trace <= trace' && k < |jobs'|
    ensures r == Sorted ==> Running(s, a[..], cmp, draws, drawn', jobs'[k + 1..], trace')
    ensures r == Sorted ==> drawn' == drawn + (if jobs[k].Length() > 2 then 1 else 0) <= |draws|
    ensures r != Sorted ==> trace' == trace && Ends(r, s, a[..], cmp, draws, canGrow, trace)
    ensures r == Sorted && drawn' == drawn ==> Work(jobs'[k + 1..]) < Work(jobs[k..])
  {
    hide Work, FollowUps, Running, Ends, Legal;
    ghost var pending := jobs[k..];
    FrontOfRun(s, a[..], cmp, draws, drawn, pending, trace, canGrow);
    NextPending(jobs, k, []);
    assert jobs + [] == jobs && pending[1..] + [] == pending[1..];
    var job := jobs[k];
    jobs', drawn', trace' := jobs, drawn, trace;
    if job.end - job.start <= 2 {
      var err := SettleJob(a, job, cmp, s, draws, drawn, canGrow, pending, trace);
      if err != 0 {
        return ErrorOutcome(err), jobs, drawn, trace;
      }
      return Sorted, jobs, drawn, trace + [Settled(job)];
    }
    if drawn == |draws| {
      return DrawsUsedUp, jobs, drawn, trace;
    }
    var first, pivot, err := SplitJob(a, job, cmp, draws, drawn, s, canGrow, pending, trace);
    if err != 0 {
      return ErrorOutcome(err), jobs, drawn, trace;
    }
    var pushed := PushBoth(jobs, job.start, pivot, job.end, canGrow);
    if !pushed.0 {
      return NoJobMemory, jobs, drawn, trace;
    }
    NextPending(jobs, k, FollowUps(job.start, pivot, job.end));
    return Sorted, pushed.1, drawn + 1, trace + [Split(job, first, pivot)];
  }

  /** What a round finds at the front of the queue. */
  lemma FrontOfRun<T>(s: seq<T>, t: seq<T>, cmp: (T, T) -> int, draws: seq<nat>, drawn: nat, pending: seq<Job>,
                      trace: seq<Visit>, canGrow: nat -> bool)
    requires |pending| > 0 && Running(s, t, cmp, draws, drawn, pending, trace)
    ensures pending[0].Within(|t|) && Work(pending[1..]) < Work(pending) && drawn <= |draws|
    ensures pending[0].Length() > 2 && drawn == |draws| ==> Ends(DrawsUsedUp, s, t, cmp, draws, canGrow, trace)
  {
    PendingValid(|s|, trace);
    FrontWork(pending, |s|);
  }

  lemma AtMostOneItem(n: nat, itemsize: int)
    requires itemsize > 0
    ensures n * itemsize <= itemsize <==> n <= 1
  {
    if n >= 2 { assert n * itemsize >= 2 * itemsize; }
  }

  /** Why a call that stops early may do so. */
  ghost predicate StopJustified<T>(r: Outcome, s: seq<T>, cmp: (T, T) -> int, canGrow: nat -> bool) {
    match r
    case Unsortable => exists x, y :: x in multiset(s) && y in multiset(s) && cmp(x, y) == -3
    case OutOfMemory => exists x, y :: x in multiset(s) && y in multiset(s) && cmp(x, y) == -2
    case NoJobMemory => exists m: nat :: m >= 32 && !canGrow(m)
    case _ => true
  }

  /** However a call ends: the items are those of the start, and an error was reported by comparing two of them. */
  lemma EndIsJustified<T(!new)>(r: Outcome, s: seq<T>, t: seq<T>, cmp: (T, T) -> int, draws: seq<nat>, canGrow: nat -> bool,
                                trace: seq<Visit>)
    requires ErrorCodesOnly(cmp) && |s| >= 2 && IsRun(s, cmp, draws, trace) && Ends(r, s, t, cmp, draws, canGrow, trace)
    ensures multiset(t) == multiset(s) && StopJustified(r, s, cmp, canGrow)
  {
    hide Settle, PartitionFrom, Partitioned, PartitionedUpTo, QueueValid;
    RunRearranges(s, cmp, draws, trace);
    var pending, before := Pending(|s|, trace), ItemsAfter(s, cmp, trace);
    if r != Sorted {
      var job := pending[0];
      if job.Length() <= 2 {
        SettleWorks(before, job, cmp);
      } else if r != DrawsUsedUp {
        var first := Picked(job, draws[Draws(trace)]);
        StartsPartitioned(before, cmp, job.start, first);
        PartitionWorks(before, job.start, job.start, job.end, first, cmp);
      }
    }
  }

  /**
   itemsort_Do. The random source is the list draws: a draw d picks position d modulo the
   range length, so every sequence of in-range pivots is some list. The rounds of the call are its trace, the
   only run of that length; RunBound says how long it can be.
   */
  method Do<T(!new)>(a: array<T>, itemsize: int, cmp: (T, T) -> int, canGrow: nat -> bool, draws: seq<nat>,
                     ghost le: (T, T) -> bool)
    returns (r: Outcome, ghost trace: seq<Visit>)
    requires itemsize > 0
    requires ErrorCodesOnly(cmp)
    modifies a
    ensures multiset(a[..]) == multiset(old(a[..]))
    ensures r == Sorted && Comparator(cmp, le) ==> Ordered(a[..], le)
    ensures a.Length <= 1 ==> r == Sorted && a[..] == old(a[..])
    ensures a.Length > 1 && itemsize > 64 ==> r == OutOfMemory && a[..] == old(a[..])
    ensures a.Length <= 1 || itemsize > 64 ==> trace == []
    ensures a.Length > 1 && itemsize <= 64 ==>
              IsRun(old(a[..]), cmp, draws, trace) && Ends(r, old(a[..]), a[..], cmp, draws, canGrow, trace)
    ensures a.Length > 1 && itemsize <= 64 ==> StopJustified(r, old(a[..]), cmp, canGrow)
    ensures a.Length > 1 && itemsize <= 64 ==>
              && |trace| + (if r == Sorted then 0 else 1) <= 2 * a.Length - 1 + Unlucky(trace)
              && Draws(trace) <= a.Length - 2 + Unlucky(trace)
  {
    hide Ends, Work, StopJustified, Comparator, Ordered, IsRun, Legal;
    r, trace := Sorted, [];
    AtMostOneItem(a.Length, itemsize);
    if a.Length * itemsize <= itemsize {
      FewItemsOrdered(a[..], le);
      return;
    }
    if itemsize > SWITCHBUF_SIZE {
      return OutOfMemory, [];
    }
    ghost var s := a[..];
    var jobs := [Job(0, a.Length)];
    var k, drawn := 0, 0;
    StartsRunning(s, cmp, draws);
    assert jobs[k..] == [Job(0, |s|)];
    while k < |jobs|
      invariant r == Sorted && 0 <= k <= |jobs|
      invariant Running(s, a[..], cmp, draws, drawn, jobs[k..], trace)
      decreases |draws| - drawn, Work(jobs[k..])
    {
      WorkCounts(s, a[..], cmp, draws, drawn, jobs[k..], trace);
      r, jobs, drawn, trace := Round(a, jobs, k, cmp, canGrow, draws, drawn, s, trace);
      if r != Sorted {
        break;
      }
      k := k + 1;
    }
    if r == Sorted {
      assert jobs[k..] == [];
      EndsSorted(s, a[..], cmp, draws, drawn, canGrow, trace);
      if Comparator(cmp, le) { FinishedRunSorts(s, cmp, le, draws, trace); }
    }
    EndIsJustified(r, s, a[..], cmp, draws, canGrow, trace);
    EndIsBounded(r, s, a[..], cmp, draws, canGrow, trace);
  }

  lemma FewItemsOrdered<T>(s: seq<T>, le: (T, T) -> bool)
    requires |s| <= 1
    ensures Ordered(s, le)
  {
  }

  lemma StartsRunning<T>(s: seq<T>, cmp: (T, T) -> int, draws: seq<nat>)
    requires |s| >= 2
    ensures Running(s, s, cmp, draws, 0, [Job(0, |s|)], [])
  {
  }

  lemma WorkCounts<T>(s: seq<T>, t: seq<T>, cmp: (T, T) -> int, draws: seq<nat>, drawn: nat, pending: seq<Job>, trace: seq<Visit>)
    requires Running(s, t, cmp, draws, drawn, pending, trace)
    ensures Work(pending) >= 0
  {
    PendingValid(|s|, trace);
    WorkNotNegative(pending, |s|);
  }

  lemma EndsSorted<T>(s: seq<T>, t: seq<T>, cmp: (T, T) -> int, draws: seq<nat>, drawn: nat, canGrow: nat -> bool, trace: seq<Visit>)
    requires Running(s, t, cmp, draws, drawn, [], trace)
    ensures IsRun(s, cmp, draws, trace) && Pending(|s|, trace) == [] && t == ItemsAfter(s, cmp, trace)
    ensures Ends(Sorted, s, t, cmp, draws, canGrow, trace)
  {
  }

  lemma EndIsBounded<T>(r: Outcome, s: seq<T>, t: seq<T>, cmp: (T, T) -> int, draws: seq<nat>, canGrow: nat -> bool, trace: seq<Visit>)
    requires |s| >= 2 && IsRun(s, cmp, draws, trace) && Ends(r, s, t, cmp, draws, canGrow, trace)
    ensures |trace| + (if r == Sorted then 0 else 1) <= 2 * |s| - 1 + Unlucky(trace)
    ensures Draws(trace) <= |s| - 2 + Unlucky(trace)
  {
    RunBound(|s|, trace);
  }
}
