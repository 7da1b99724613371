/**
 Resource paks appended to a binary: the tool that appends one (tools/append-datapak.py)
 and the reader that finds them all (horse64/vfspak.c).
 */
module PakChain {
  import opened Options
  import opened Words

  /** "\x00\xFF\x00H64PAKAPPEND_V1\x00\xFF\x00" */
  function Magic(): (b: seq<Byte>)
    ensures |b| == 21
  {
    [0, 255, 0, 72, 54, 52, 80, 65, 75, 65, 80, 80, 69, 78, 68, 95, 86, 49, 0, 255, 0]
  }

  /** Two 64-bit offsets and the magic bytes. */
  const FOOTER: nat := 37

  /** Offsets are written as signed 64-bit integers. */
  const LIMIT: nat := 0x8000_0000_0000_0000

  /** The data of one pak lies in [start, end) of the file; its footer ends at fullEnd. */
  datatype Pak = Pak(start: nat, end: nat) {
    function FullEnd(): nat { end + FOOTER }
  }

  function Footer(start: nat, end: nat): (b: seq<Byte>)
    ensures |b| == FOOTER
  {
    Little(8, start) + Little(8, end) + Magic()
  }

  /** The binary after a pak was appended. */
  function Append(binary: seq<Byte>, pak: seq<Byte>): seq<Byte> {
    binary + pak + Footer(|binary|, |binary| + |pak|)
  }

  function AppendAll(binary: seq<Byte>, paks: seq<seq<Byte>>): seq<Byte> {
    if |paks| == 0 then binary else Append(AppendAll(binary, paks[..|paks| - 1]), paks[|paks| - 1])
  }

  /** The paks found when the file is taken to end at end, the one read first in front. */
  function ReadFrom(f: seq<Byte>, end: nat): (r: seq<Pak>)
    requires end <= |f|
    decreases end
  {
    if end < FOOTER then []
    else
      var footer := f[end - FOOTER..end];
      if footer[16..] != Magic() then []
      else
        var start, pakEnd := FromLittle(footer[..8]), FromLittle(footer[8..16]);
        if pakEnd != end - FOOTER || start >= pakEnd then []
        else [Pak(start, pakEnd)] + ReadFrom(f, start)
  }

  /** vfs_GetEmbbeddedPakInfoByVFSFile; an empty file is an error. */
  function Read(f: seq<Byte>): Option<seq<Pak>> {
    if |f| <= 0 then None else Some(ReadFrom(f, |f|))
  }

  /** What lies behind end does not matter. */
  lemma {:induction false} ReadsPrefixOnly(f: seq<Byte>, more: seq<Byte>, end: nat)
    requires end <= |f|
    ensures ReadFrom(f + more, end) == ReadFrom(f, end)
    decreases end
  {
    if end >= FOOTER {
      var footer := f[end - FOOTER..end];
      assert (f + more)[end - FOOTER..end] == footer;
      var start := FromLittle(footer[..8]);
      if start < end { ReadsPrefixOnly(f, more, start); }
    }
  }

  lemma OffsetRoundTrip(n: nat)
    requires n < LIMIT
    ensures FromLittle(Little(8, n)) == n
  {
    assert Pow256(4) == 0x1_0000_0000;
    assert Pow256(8) == 0x1_0000_0000_0000_0000;
    LittleRoundTrip(8, n);
  }

  /** Where the writer's three fields are found again. */
  lemma FooterParts(start: nat, end: nat)
    ensures Footer(start, end)[..8] == Little(8, start)
    ensures Footer(start, end)[8..16] == Little(8, end)
    ensures Footer(start, end)[16..] == Magic()
  {
    hide Magic, Little;
  }

  lemma FooterIsLast(binary: seq<Byte>, pak: seq<Byte>)
    ensures var f, footer := Append(binary, pak), Footer(|binary|, |binary| + |pak|);
            |f| == |binary| + |pak| + FOOTER && f[|binary| + |pak|..|f|] == footer && f == binary + (pak + footer)
  {
    hide Footer;
  }

  lemma {:induction false} ReadFooter(f: seq<Byte>, end: nat, start: nat)
    requires FOOTER <= end <= |f| && start <= end - FOOTER < LIMIT
    requires f[end - FOOTER..end] == Footer(start, end - FOOTER)
    ensures ReadFrom(f, end) ==
            if start < end - FOOTER then [Pak(start, end - FOOTER)] + ReadFrom(f, start) else []
  {
    hide Magic, Little, FromLittle, Footer;
    FooterParts(start, end - FOOTER);
    OffsetRoundTrip(start);
    OffsetRoundTrip(end - FOOTER);
  }

  lemma AppendSize(binary: seq<Byte>, pak: seq<Byte>)
    ensures |Append(binary, pak)| == |binary| + |pak| + FOOTER
    ensures Append(binary, pak)[|binary|..|binary| + |pak|] == pak
  {
  }

  lemma {:induction false} ReadsAppended(binary: seq<Byte>, pak: seq<Byte>)
    requires |binary| + |pak| < LIMIT
    ensures var f, start, end := Append(binary, pak), |binary|, |binary| + |pak|;
            && |f| == end + FOOTER
            && ReadFrom(f, |f|) == if start < end then [Pak(start, end)] + ReadFrom(f, start) else []
  {
    hide ReadFrom, Footer, Append;
    AppendSize(binary, pak);
    FooterIsLast(binary, pak);
    ReadFooter(Append(binary, pak), |Append(binary, pak)|, |binary|);
  }

  lemma KeepsOlder(binary: seq<Byte>, pak: seq<Byte>)
    ensures |Append(binary, pak)| >= |binary|
    ensures ReadFrom(Append(binary, pak), |binary|) == ReadFrom(binary, |binary|)
  {
    hide ReadFrom, Footer;
    var rest := pak + Footer(|binary|, |binary| + |pak|);
    assert Append(binary, pak) == binary + rest;
    ReadsPrefixOnly(binary, rest, |binary|);
  }

  /**
   Reading right after appending: a pak with data is found in front of whatever was found before; an empty one
   hides everything.
   */
  lemma {:induction false} ReadAfterAppend(binary: seq<Byte>, pak: seq<Byte>)
    requires |binary| + |pak| < 0x8000_0000_0000_0000
    ensures Read(Append(binary, pak)) ==
            Some(if |pak| > 0 then [Pak(|binary|, |binary| + |pak|)] + ReadFrom(binary, |binary|) else [])
  {
    hide ReadFrom, Footer, Append;
    ReadsAppended(binary, pak);
    KeepsOlder(binary, pak);
  }

  /** So a pak extends the chain exactly when it is not empty. */
  lemma AppendExtendsChain(binary: seq<Byte>, pak: seq<Byte>)
    requires |binary| + |pak| < 0x8000_0000_0000_0000 && |binary| > 0
    ensures Read(Append(binary, pak)) == Some([Pak(|binary|, |binary| + |pak|)] + Read(binary).value) <==> |pak| > 0
  {
    ReadAfterAppend(binary, pak);
  }

  /** An empty pak behind a pak with data: the reader finds neither. */
  lemma EmptyPakHidesOlder(binary: seq<Byte>, pak: seq<Byte>)
    requires |binary| + |pak| + FOOTER < 0x8000_0000_0000_0000 && |pak| > 0
    ensures Read(Append(binary, pak)) == Some([Pak(|binary|, |binary| + |pak|)] + ReadFrom(binary, |binary|))
    ensures Read(Append(Append(binary, pak), [])) == Some([])
  {
    hide ReadFrom, Append;
    AppendSize(binary, pak);
    ReadAfterAppend(binary, pak);
    ReadAfterAppend(Append(binary, pak), []);
  }

  function Ascii(s: string): seq<Byte> {
    seq(|s|, i requires 0 <= i < |s| => s[i] as int % 256)
  }

  /**
   The bytes an append adds: the pak, where it begins and where it ends in eight bytes each, least significant first, and
   a mark.
   */
  lemma AppendedBytes(binary: seq<Byte>, pak: seq<Byte>)
    ensures var f, start, end := Append(binary, pak), |binary|, |binary| + |pak|;
            && |f| == end + 37 && f[..start] == binary && f[start..end] == pak
            && (forall i: nat :: i < 8 ==> f[end + i] == start / Pow256(i) % 256 && f[end + 8 + i] == end / Pow256(i) % 256)
            && f[end + 16..] == [0, 255, 0] + Ascii("H64PAKAPPEND_V1") + [0, 255, 0]
  {
    hide *;
    var f, start, end := Append(binary, pak), |binary|, |binary| + |pak|;
    var footer := Footer(start, end);
    FooterIsLast(binary, pak);
    AppendSize(binary, pak);
    BinaryKept(binary, pak);
    FooterSize(start, end);
    MagicBytes();
    FooterParts(start, end);
    DropTwice(f, end, 16);
    assert f[end..] == footer;
    forall i: nat | i < 8 ensures f[end + i] == start / Pow256(i) % 256 && f[end + 8 + i] == end / Pow256(i) % 256 {
      FooterByte(start, end, i);
      assert f[end..][i] == f[end + i] && f[end..][8 + i] == f[end + 8 + i];
    }
  }

  lemma BinaryKept(binary: seq<Byte>, pak: seq<Byte>)
    ensures Append(binary, pak)[..|binary|] == binary
  {
    hide Footer;
  }

  lemma FooterSize(start: nat, end: nat)
    ensures |Footer(start, end)| == FOOTER == 37
  {
  }

  lemma DropTwice(f: seq<Byte>, a: nat, b: nat)
    requires a + b <= |f|
    ensures f[a..][b..] == f[a + b..]
  {
  }

  lemma FooterByte(start: nat, end: nat, i: nat)
    requires i < 8
    ensures Footer(start, end)[i] == start / Pow256(i) % 256 && Footer(start, end)[8 + i] == end / Pow256(i) % 256
  {
    hide Footer, Little, Pow256;
    FooterParts(start, end);
    LittleDigit(8, start, i);
    LittleDigit(8, end, i);
    assert Footer(start, end)[i] == Footer(start, end)[..8][i];
    assert Footer(start, end)[8 + i] == Footer(start, end)[8..16][i];
  }

  lemma MagicBytes()
    ensures Magic() == [0, 255, 0] + Ascii("H64PAKAPPEND_V1") + [0, 255, 0]
  {
  }

  /** A file that does not end with the mark has no paks, whatever else it holds; one that holds nothing is an error. */
  lemma NoMarkNoPaks(f: seq<Byte>)
    requires |f| > 0 && (|f| < 21 || f[|f| - 21..] != [0, 255, 0] + Ascii("H64PAKAPPEND_V1") + [0, 255, 0])
    ensures Read(f) == Some([]) && Read([]) == None
  {
    MagicBytes();
    if |f| >= FOOTER { assert f[|f| - FOOTER..][16..] == f[|f| - 21..]; }
  }

  /** The data ranges of paks appended one after another, newest first. */
  function Ranges(binary: seq<Byte>, paks: seq<seq<Byte>>): seq<Pak> {
    if |paks| == 0 then []
    else
      var before := |AppendAll(binary, paks[..|paks| - 1])|;
      [Pak(before, before + |paks[|paks| - 1]|)] + Ranges(binary, paks[..|paks| - 1])
  }

  lemma {:induction false} AppendAllGrows(binary: seq<Byte>, paks: seq<seq<Byte>>, n: nat)
    requires n <= |paks|
    ensures |AppendAll(binary, paks[..n])| <= |AppendAll(binary, paks)| && AppendAll(binary, paks[..n]) <= AppendAll(binary, paks)
  {
    if n < |paks| {
      var front := paks[..|paks| - 1];
      AppendAllGrows(binary, front, n);
      assert front[..n] == paks[..n];
      assert AppendAll(binary, front) <= AppendAll(binary, paks);
    } else {
      assert paks[..n] == paks;
    }
  }

  /** Any number of non-empty paks: the reader finds exactly their data ranges, newest first, before what the binary held. */
  lemma {:induction false} ReadAfterAppendAll(binary: seq<Byte>, paks: seq<seq<Byte>>)
    requires |AppendAll(binary, paks)| < 0x8000_0000_0000_0000 && forall i :: 0 <= i < |paks| ==> |paks[i]| > 0
    ensures var f := AppendAll(binary, paks); ReadFrom(f, |f|) == Ranges(binary, paks) + ReadFrom(binary, |binary|)
  {
    hide Append, ReadFrom;
    if |paks| > 0 {
      var front, last := paks[..|paks| - 1], paks[|paks| - 1];
      AppendSize(AppendAll(binary, front), last);
      ReadAfterAppendAll(binary, front);
      ReadBehind(AppendAll(binary, front), last, Ranges(binary, front), ReadFrom(binary, |binary|));
    }
  }

  lemma ReadBehind(binary: seq<Byte>, pak: seq<Byte>, newer: seq<Pak>, older: seq<Pak>)
    requires |binary| + |pak| < LIMIT && |pak| > 0 && ReadFrom(binary, |binary|) == newer + older
    ensures var f := Append(binary, pak);
            ReadFrom(f, |f|) == ([Pak(|binary|, |binary| + |pak|)] + newer) + older
  {
    hide ReadFrom, Append;
    AppendSize(binary, pak);
    ReadAfterAppend(binary, pak);
    var newest := [Pak(|binary|, |binary| + |pak|)];
    assert newest + (newer + older) == (newest + newer) + older;
  }

  /** And those ranges hold the paks' bytes: the i-th range from the back is the i-th pak. */
  lemma {:induction false} RangesHoldPaks(binary: seq<Byte>, paks: seq<seq<Byte>>, i: nat)
    requires i < |paks|
    ensures |Ranges(binary, paks)| == |paks|
    ensures var f, r := AppendAll(binary, paks), Ranges(binary, paks)[|paks| - 1 - i];
            r.start <= r.end <= |f| && f[r.start..r.end] == paks[i]
  {
    hide Append;
    var front, last := paks[..|paks| - 1], paks[|paks| - 1];
    var f0, f := AppendAll(binary, front), AppendAll(binary, paks);
    AppendSize(f0, last);
    RangesCount(binary, front);
    if i < |front| {
      RangesHoldPaks(binary, front, i);
      var r := Ranges(binary, front)[|front| - 1 - i];
      AppendAllGrows(binary, paks, |front|);
      assert f[..|f0|] == f0 && f[r.start..r.end] == f0[r.start..r.end];
    }
  }

  lemma {:induction false} RangesCount(binary: seq<Byte>, paks: seq<seq<Byte>>)
    ensures |Ranges(binary, paks)| == |paks|
  {
    if |paks| > 0 { RangesCount(binary, paks[..|paks| - 1]); }
  }

  /** On any file the ranges are non-empty, lie inside it, and each lies, footer included, before the one read earlier. */
  lemma {:induction false} RangesOrdered(f: seq<Byte>, end: nat)
    requires end <= |f|
    ensures var r := ReadFrom(f, end);
            && (forall i :: 0 <= i < |r| ==> r[i].start < r[i].end && r[i].FullEnd() <= end)
            && (forall i, j :: 0 <= i < j < |r| ==> r[j].FullEnd() <= r[i].start)
    decreases end
  {
    var r := ReadFrom(f, end);
    if |r| > 0 {
      RangesOrdered(f, r[0].start);
      assert r[1..] == ReadFrom(f, r[0].start);
      forall i | 1 <= i < |r| ensures r[i].start < r[i].end && r[i].FullEnd() <= r[0].start { assert r[i] == r[1..][i - 1]; }
      forall i, j | 0 <= i < j < |r| ensures r[j].FullEnd() <= r[i].start {
        assert r[j] == r[1..][j - 1];
        if i > 0 { assert r[i] == r[1..][i - 1]; }
      }
    }
  }
}
