/**
 How many code points make up the next letter (horse64/widechar.c): once over a text of
 code points, and once incrementally over UTF-8 bytes. Both use the same rule for two
 neighbouring code points; the grapheme break table is a parameter.
 */
module Letters {
  import opened Options
  import opened WideChar

  datatype Break = NONE | CONTROL | L | V | T | LV | LVT | EXTEND | ZWJ | PREPEND | SPACINGMARK

  type Table = codepoint -> Break

  const CR: codepoint := 13
  const LF: codepoint := 10

  predicate IsRegion(c: codepoint) { 0x1F1E6 <= c <= 0x1F1FF }

  /**
   Whether the letter that has reached len code points goes on with the next one. The
   code point called minusOne is read from the same index as zero.
   */
  predicate Joins(s: seq<codepoint>, len: nat, gbt: Table)
    requires 1 <= len < |s|
  {
    var cp1, cp2 := s[len - 1], s[len];
    var b1, b2 := gbt(cp1), gbt(cp2);
    if cp2 == CR || (cp2 == LF && cp1 != CR) || cp1 == LF then false
    else if b1 == CONTROL || b2 == CONTROL then false
    else if b1 == L && (b2 == L || b2 == V || b2 == LV || b2 == LVT) then true
    else if (b1 == LV || b1 == V) && (b2 == V || b2 == T) then true
    else if (b1 == LVT || b1 == T) && b2 == T then true
    else if b2 == EXTEND || b2 == ZWJ then true
    else if b1 == PREPEND || b2 == SPACINGMARK then true
    else if IsRegion(cp1) && IsRegion(cp2) then
      var zero := if len > 1 then s[len - 2] else 0;
      var minusOne := if len > 2 then s[len - 2] else 0;
      !IsRegion(zero) || IsRegion(minusOne)
    else false
  }

  /** The code points up to the first place where the letter does not go on. */
  function LetterFrom(s: seq<codepoint>, len: nat, gbt: Table): (r: nat)
    requires 1 <= len <= |s|
    ensures len <= r <= |s|
    decreases |s| - len
  {
    if len < |s| && Joins(s, len, gbt) then LetterFrom(s, len + 1, gbt) else len
  }

  function LetterLen(s: seq<codepoint>, gbt: Table): (r: nat)
    ensures r <= |s| && (|s| > 0 ==> r > 0)
  {
    if |s| == 0 then 0 else LetterFrom(s, 1, gbt)
  }

  /** utf32_letter_len */
  method Utf32LetterLen(sdata: seq<codepoint>, gbt: Table) returns (len: nat)
    ensures len == LetterLen(sdata, gbt)
  {
    if |sdata| <= 0 {
      return 0;
    }
    len := 1;
    while len < |sdata|
      invariant 1 <= len <= |sdata|
      invariant LetterLen(sdata, gbt) == LetterFrom(sdata, len, gbt)
    {
      if !Joins(sdata, len, gbt) {
        break;
      }
      len := len + 1;
    }
  }

  /** The length is fixed by the joints: every one before it goes on, the one at it does not. */
  lemma {:induction false} LetterEndsAtFirstBreak(s: seq<codepoint>, len: nat, gbt: Table, n: nat)
    requires 1 <= len <= n <= |s|
    ensures LetterFrom(s, len, gbt) == n <==>
            (forall m :: len <= m < n ==> Joins(s, m, gbt)) && (n < |s| ==> !Joins(s, n, gbt))
    decreases n - len
  {
    if len < n {
      LetterEndsAtFirstBreak(s, len + 1, gbt, n);
    }
  }

  lemma JoinsInPrefix(s: seq<codepoint>, t: seq<codepoint>, len: nat, gbt: Table)
    requires 1 <= len < |s| && s <= t
    ensures Joins(s, len, gbt) == Joins(t, len, gbt)
  {
  }

  /** Cutting the text short cuts the letter short and does nothing else to it. */
  lemma {:induction false} LetterOfPrefix(s: seq<codepoint>, t: seq<codepoint>, len: nat, gbt: Table)
    requires 1 <= len <= |s| && s <= t
    ensures LetterFrom(s, len, gbt) == if LetterFrom(t, len, gbt) < |s| then LetterFrom(t, len, gbt) else |s|
    decreases |s| - len
  {
    if len < |s| {
      JoinsInPrefix(s, t, len, gbt);
      LetterOfPrefix(s, t, len + 1, gbt);
    }
  }

  /** The letter rule is stable: what a longer text adds behind a complete letter does not matter. */
  lemma LetterLenIsStable(s: seq<codepoint>, t: seq<codepoint>, gbt: Table)
    requires s <= t
    ensures LetterLen(s, gbt) == if LetterLen(t, gbt) < |s| then LetterLen(t, gbt) else |s|
  {
    if |s| > 0 { LetterOfPrefix(s, t, 1, gbt); }
  }

  /** Regional indicators from place i on, none of which has a break class. */
  predicate RegionsFrom(s: seq<codepoint>, i: nat, gbt: Table) {
    forall k :: i <= k < |s| ==> 0x1F1E6 <= s[k] <= 0x1F1FF && gbt(s[k]) == NONE
  }

  /**
   Where two regional indicators meet: the first two of a text join, a third does not join them, and with anything
   else in front, so that the letter is three long already, they join whatever comes before them.
   */
  lemma RegionsJoin(s: seq<codepoint>, len: nat, gbt: Table)
    requires 1 <= len < |s| && RegionsFrom(s, len - 1, gbt)
    ensures Joins(s, len, gbt) <==> len != 2 || !(0x1F1E6 <= s[0] <= 0x1F1FF)
  {
  }

  /** A text of regional indicators falls into pairs. */
  lemma RegionsPairUp(s: seq<codepoint>, gbt: Table)
    requires |s| >= 2 && RegionsFrom(s, 0, gbt)
    ensures LetterLen(s, gbt) == 2
  {
    RegionsJoin(s, 1, gbt);
    if |s| > 2 { RegionsJoin(s, 2, gbt); }
    LetterEndsAtFirstBreak(s, 1, gbt, 2);
  }

  /** But behind something prepended to the first of them, all of them are one letter, however many there are. */
  lemma RegionsRunOn(s: seq<codepoint>, gbt: Table)
    requires |s| >= 2 && RegionsFrom(s, 1, gbt) && !(0x1F1E6 <= s[0] <= 0x1F1FF) && gbt(s[0]) == PREPEND && s[0] != 10
    ensures LetterLen(s, gbt) == |s|
  {
    forall m | 1 <= m < |s| ensures Joins(s, m, gbt) {
      if m > 1 { RegionsJoin(s, m, gbt); }
    }
    LetterEndsAtFirstBreak(s, 1, gbt, |s|);
  }

  // ------------------------------------------------------------------ the rules, one by one

  /** Neither a line break nor a control character: nothing that stands alone. */
  predicate Plain(c: codepoint, gbt: Table) { c != 13 && c != 10 && gbt(c) != CONTROL }

  lemma OneLetter(s: seq<codepoint>, t: seq<codepoint>, gbt: Table)
    requires |s| > 0 && s <= t && forall m :: 1 <= m < |s| ==> Joins(s, m, gbt)
    ensures LetterLen(t, gbt) >= |s|
  {
    LetterEndsAtFirstBreak(s, 1, gbt, |s|);
    LetterLenIsStable(s, t, gbt);
  }

  lemma BreakAt(t: seq<codepoint>, n: nat, gbt: Table)
    requires 1 <= n < |t| && !Joins(t, n, gbt)
    ensures LetterLen(t, gbt) <= n
  {
    LetterEndsAtFirstBreak(t, 1, gbt, LetterLen(t, gbt));
  }

  /**
   A base that is neither control nor line feed, with any number of marks behind it that extend or space it or are
   joiners, is in one letter, whatever follows.
   */
  lemma MarksStayWithBase(base: codepoint, marks: seq<codepoint>, t: seq<codepoint>, gbt: Table)
    requires [base] + marks <= t && base != 10 && gbt(base) != CONTROL
    requires forall k :: 0 <= k < |marks| ==> marks[k] != 13 && marks[k] != 10 && gbt(marks[k]) in [EXTEND, ZWJ, SPACINGMARK]
    ensures LetterLen(t, gbt) >= 1 + |marks|
  {
    var s := [base] + marks;
    forall m | 1 <= m < |s| ensures Joins(s, m, gbt) {
      assert s[m] == marks[m - 1] && (m > 1 ==> s[m - 1] == marks[m - 2]);
    }
    OneLetter(s, t, gbt);
  }

  /** What is prepended takes the next code point with it, and that one the next, up to one that is not prepended. */
  lemma PrependedStays(before: seq<codepoint>, c: codepoint, t: seq<codepoint>, gbt: Table)
    requires before + [c] <= t && Plain(c, gbt)
    requires forall k :: 0 <= k < |before| ==> Plain(before[k], gbt) && gbt(before[k]) == PREPEND
    ensures LetterLen(t, gbt) >= |before| + 1
  {
    var s := before + [c];
    forall m | 1 <= m < |s| ensures Joins(s, m, gbt) {
      assert s[m - 1] == before[m - 1] && (m < |before| ==> s[m] == before[m]);
    }
    OneLetter(s, t, gbt);
  }

  ghost predicate AllAre(s: seq<codepoint>, b: Break, gbt: Table) {
    forall k :: 0 <= k < |s| ==> gbt(s[k]) == b && s[k] != 13 && s[k] != 10
  }

  /** The middle of a Hangul syllable: vowels, perhaps a syllable without a final consonant first, or a whole syllable. */
  ghost predicate Vowels(s: seq<codepoint>, gbt: Table) {
    |s| > 0 && s[0] != 13 && s[0] != 10 &&
    if gbt(s[0]) == LVT then |s| == 1 else gbt(s[0]) in [V, LV] && AllAre(s[1..], V, gbt)
  }

  /** Leading consonants, a middle and trailing consonants are in one letter; so are consonants of one kind alone. */
  lemma HangulSyllable(leading: seq<codepoint>, middle: seq<codepoint>, trailing: seq<codepoint>, t: seq<codepoint>, gbt: Table)
    requires leading + middle + trailing <= t && AllAre(leading, L, gbt) && AllAre(trailing, T, gbt)
    requires Vowels(middle, gbt) || (middle == [] && (leading == [] || trailing == []))
    ensures LetterLen(t, gbt) >= |leading| + |middle| + |trailing|
  {
    var s, v := leading + middle + trailing, |leading| + |middle|;
    forall m | 1 <= m < |s| ensures Joins(s, m, gbt) {
      if m < |leading| {
        assert s[m] == leading[m] && s[m - 1] == leading[m - 1];
      } else if m < v {
        assert s[m] == middle[m - |leading|];
        if m == |leading| {
          assert s[m - 1] == leading[m - 1];
        } else {
          assert s[m - 1] == middle[m - 1 - |leading|];
          assert middle[1..][m - |leading| - 1] == middle[m - |leading|];
          if m - 1 > |leading| { assert middle[1..][m - |leading| - 2] == middle[m - 1 - |leading|]; }
        }
      } else {
        assert s[m] == trailing[m - v];
        if m > v {
          assert s[m - 1] == trailing[m - 1 - v];
        } else if |middle| > 0 {
          assert s[m - 1] == middle[|middle| - 1];
          if |middle| > 1 { assert middle[1..][|middle| - 2] == middle[|middle| - 1]; }
        }
      }
    }
    if |s| > 0 { OneLetter(s, t, gbt); }
  }

  /** Line breaks and control characters stand alone. */
  lemma BreaksAtLineAndControl(t: seq<codepoint>, n: nat, gbt: Table)
    requires 1 <= n < |t|
    requires t[n] == 13 || t[n - 1] == 10 || (t[n] == 10 && t[n - 1] != 13) || gbt(t[n]) == CONTROL || gbt(t[n - 1]) == CONTROL
    ensures LetterLen(t, gbt) <= n
  {
    BreakAt(t, n, gbt);
  }

  /** But for a line feed behind a carriage return the table decides, as for any other code point. */
  lemma LineFeedAsMark(t: seq<codepoint>, gbt: Table)
    requires [13, 10] <= t && gbt(13) != CONTROL && gbt(10) in [EXTEND, ZWJ, SPACINGMARK]
    ensures LetterLen(t, gbt) >= 2
  {
    OneLetter([13, 10], t, gbt);
  }

  ghost predicate IsHangul(b: Break) { b in [L, V, T, LV, LVT] }

  /** After a vowel no consonant can lead and after a trailing consonant no vowel can follow. */
  lemma HangulBreaks(t: seq<codepoint>, n: nat, gbt: Table)
    requires 1 <= n < |t|
    requires match gbt(t[n - 1])
             case L => gbt(t[n]) == T
             case V | LV => gbt(t[n]) in [L, LV, LVT]
             case T | LVT => gbt(t[n]) in [L, V, LV, LVT]
             case _ => false
    requires !(0x1F1E6 <= t[n - 1] <= 0x1F1FF && 0x1F1E6 <= t[n] <= 0x1F1FF)
    ensures LetterLen(t, gbt) <= n
  {
    BreakAt(t, n, gbt);
  }

  /**
   Nothing else joins: without a mark behind it or something prepended to it, a code point that is not Hangul, or is
   followed by one that is not, ends its letter, regional indicators aside. A carriage return and a line feed are two.
   */
  lemma OthersBreak(t: seq<codepoint>, n: nat, gbt: Table)
    requires 1 <= n < |t|
    requires gbt(t[n]) !in [EXTEND, ZWJ, SPACINGMARK] && gbt(t[n - 1]) != PREPEND
    requires !IsHangul(gbt(t[n])) || !IsHangul(gbt(t[n - 1]))
    requires !(0x1F1E6 <= t[n - 1] <= 0x1F1FF && 0x1F1E6 <= t[n] <= 0x1F1FF)
    ensures LetterLen(t, gbt) <= n
  {
    BreakAt(t, n, gbt);
  }

  // ------------------------------------------------------------- the incremental scanner

  /** strlen of the bytes copied to a terminated buffer. */
  function CStrLen(s: seq<byte>): (n: nat)
    ensures n <= |s|
  {
    if |s| == 0 || s[0] == 0 then 0 else 1 + CStrLen(s[1..])
  }

  lemma {:induction false} CStrLenFull(s: seq<byte>)
    requires forall i :: 0 <= i < |s| ==> s[i] != 0
    ensures CStrLen(s) == |s|
  {
    if |s| > 0 { CStrLenFull(s[1..]); }
  }

  /** A char converted to a code point keeps its sign. */
  function SignExtended(b: byte): codepoint { if b < 128 then b as bv32 else 0xFFFFFF00 | (b as bv32) }

  /** The code point the scanner appends for the front of s, and the bytes it moves on by. */
  function ReadChar(s: seq<byte>): (r: Read)
    requires |s| > 0
    ensures 1 <= r.size <= |s|
  {
    var size := if CharLen(s[0]) > |s| then |s| else CharLen(s[0]);
    var tmp := s[..size];
    var g := Get(tmp[..CStrLen(tmp)]);
    if g.None? then Read(SignExtended(s[0]), 1) else Read(g.value.cp, size)
  }

  /** On encoded text the scanner reads the code point that was encoded. */
  lemma ReadsEncoded(c: codepoint, rest: seq<byte>)
    requires Scalar(c)
    ensures Put(c, false, false).Some?
    ensures var p := Put(c, false, false).value; |p| > 0 && ReadChar(p + rest) == Read(c, |p|)
  {
    GetAfterPut(c, false, false, []);
    var p := Put(c, false, false).value;
    var s := p + rest;
    assert s[0] == p[0] && s[..|p|] == p && p + [] == p;
    if c == 0 {
      assert p == [0];
      assert CharLen(p[0]) == 1 && CStrLen(p) == 0;
      assert p[..0] == [];
    } else {
      PutHasNoZero(c);
      CStrLenFull(p);
      assert p[..|p|] == p;
    }
  }

  /** A byte that neither begins a sequence nor is ASCII is read alone, as if it were a negative number. */
  lemma ReadsStrayByte(b: byte, rest: seq<byte>)
    requires 0x80 <= b < 0xC0 || 0xF8 <= b
    ensures ReadChar([b] + rest) == Read(0xFFFF_FF00 + (b as bv32), 1)
  {
    var s := [b] + rest;
    StrayKinds(b);
    assert CharLen(s[0]) == 1;
    assert s[..1] == [b] && [b][1..] == [];
    assert CStrLen([b]) == 1 && [b][..1] == [b];
  }

  lemma StrayKinds(b: byte)
    requires 0x80 <= b < 0xC0 || 0xF8 <= b
    ensures !IsStart(b) && CharLen(b) == 1 && b > 127 && SignExtended(b) == 0xFFFF_FF00 + (b as bv32)
  {
  }

  /** All that the scanner reads of a text. */
  function Scan(s: seq<byte>): (rs: seq<Read>)
    ensures |s| > 0 ==> |rs| > 0
  {
    if |s| == 0 then [] else [ReadChar(s)] + Scan(s[ReadChar(s).size..])
  }

  function CodePoints(rs: seq<Read>): (cps: seq<codepoint>)
    ensures |cps| == |rs|
  {
    seq(|rs|, i requires 0 <= i < |rs| => rs[i].cp)
  }

  /** The bytes these reads took. */
  function Size(rs: seq<Read>): nat {
    if |rs| == 0 then 0 else Size(rs[..|rs| - 1]) + rs[|rs| - 1].size
  }

  lemma {:induction false} SizeOfFirst(r: Read, rs: seq<Read>)
    ensures Size([r] + rs) == r.size + Size(rs)
  {
    if |rs| > 0 {
      SizeOfFirst(r, rs[..|rs| - 1]);
      assert ([r] + rs)[..|rs|] == [r] + rs[..|rs| - 1];
    } else {
      assert ([r] + rs)[..0] == [];
    }
  }

  /** Of encoded text the scanner reads the code points that were encoded, each from its own bytes. */
  lemma {:induction false} ScansEncoded(cps: seq<codepoint>, s: seq<byte>, n: nat)
    requires AllScalar(cps) && Encode(cps, false, false) == Some(s) && n <= |cps|
    ensures CodePoints(Scan(s)) == cps && Size(Scan(s)[..n]) <= |s|
    ensures Encode(cps[..n], false, false) == Some(s[..Size(Scan(s)[..n])])
  {
    hide Put, Encode, ReadChar;
    EncodeNothing();
    if |cps| > 0 {
      var c, tail := cps[0], cps[1..];
      assert cps == [c] + tail;
      EncodeCons(c, tail, false, false);
      var p, rest := Put(c, false, false).value, Encode(tail, false, false).value;
      ReadsEncoded(c, rest);
      assert s[|p|..] == rest && s[..|p|] == p;
      var m := if n > 0 then n - 1 else 0;
      ScansEncoded(tail, rest, m);
      if n > 0 {
        assert Scan(s)[..n] == [ReadChar(s)] + Scan(rest)[..m];
        SizeOfFirst(ReadChar(s), Scan(rest)[..m]);
        assert cps[..n] == [c] + tail[..m];
        EncodeCons(c, tail[..m], false, false);
        assert s[..|p| + Size(Scan(rest)[..m])] == p + rest[..Size(Scan(rest)[..m])];
      }
    }
    if n == 0 { assert cps[..0] == [] && s[..0] == []; }
  }

  lemma ScanNext(s: seq<byte>, pos: nat, done: seq<Read>)
    requires pos < |s| && Scan(s) == done + Scan(s[pos..]) && pos == Size(done)
    ensures var r := ReadChar(s[pos..]);
            && pos + r.size <= |s| && Scan(s) == (done + [r]) + Scan(s[pos + r.size..]) && pos + r.size == Size(done + [r])
            && CodePoints(done + [r]) == CodePoints(done) + [r.cp]
  {
    hide ReadChar;
    var r := ReadChar(s[pos..]);
    assert s[pos..][r.size..] == s[pos + r.size..];
    assert done + ([r] + Scan(s[pos + r.size..])) == (done + [r]) + Scan(s[pos + r.size..]);
    assert (done + [r])[..|done|] == done;
  }

  lemma PrefixOfScan(all: seq<Read>, done: seq<Read>, rest: seq<Read>, gbt: Table)
    requires all == done + rest
    ensures CodePoints(done) <= CodePoints(all)
    ensures LetterLen(CodePoints(done), gbt) ==
            if LetterLen(CodePoints(all), gbt) < |done| then LetterLen(CodePoints(all), gbt) else |done|
    ensures all[..|done|] == done
  {
    LetterLenIsStable(CodePoints(done), CodePoints(all), gbt);
  }

  /**
   utf32_next_letter_byteslen_in_utf8: on any text the bytes of the reads that make up the first letter of all reads. On
   valid UTF-8 this is the encoded size of the first letter of the decoded text.
   */
  method NextLetterBytesLen(sdata: seq<byte>, gbt: Table) returns (r: nat)
    ensures r <= |sdata| && (|sdata| > 0 ==> r > 0)
    ensures r == Size(Scan(sdata)[..LetterLen(CodePoints(Scan(sdata)), gbt)])
    ensures var d := Decode(sdata, Abort);
            d.Some? ==> Encode(d.value[..LetterLen(d.value, gbt)], false, false) == Some(sdata[..r])
  {
    hide ReadChar, Decode, Encode, LetterLen, CodePoints, Scan, Size;
    ghost var all, done: seq<Read> := Scan(sdata), [];
    FirstLetterOfValid(sdata, gbt);
    var tempbuf: seq<codepoint> := [];
    var pos := 0;
    ScansNothing(gbt);
    assert sdata[0..] == sdata && all == done + all;
    while true
      invariant 0 <= pos <= |sdata| && pos == Size(done) && (pos == 0 <==> |tempbuf| == 0)
      invariant tempbuf == CodePoints(done) && all == done + Scan(sdata[pos..])
      invariant LetterLen(tempbuf, gbt) == |tempbuf|
      decreases |sdata| - pos
    {
      PrefixOfScan(all, done, Scan(sdata[pos..]), gbt);
      if pos == |sdata| {
        ScansNothing(gbt);
        assert sdata[pos..] == [] && all == done;
        return |sdata|;
      }
      var c := ReadChar(sdata[pos..]);
      ScanNext(sdata, pos, done);
      PrefixOfScan(all, done + [c], Scan(sdata[pos + c.size..]), gbt);
      tempbuf := tempbuf + [c.cp];
      var currentLen := Utf32LetterLen(tempbuf, gbt);
      if currentLen < |tempbuf| {
        return pos;
      }
      pos, done := pos + c.size, done + [c];
    }
  }

  lemma ScansNothing(gbt: Table)
    ensures Scan([]) == [] && CodePoints([]) == [] && Size([]) == 0 && LetterLen([], gbt) == 0
  {
  }

  /** On valid text the reads of the first letter are the bytes of the first letter of the decoded text. */
  lemma FirstLetterOfValid(s: seq<byte>, gbt: Table)
    ensures var d := Decode(s, Abort);
            d.Some? ==>
              var n := Size(Scan(s)[..LetterLen(CodePoints(Scan(s)), gbt)]);
              n <= |s| && Encode(d.value[..LetterLen(d.value, gbt)], false, false) == Some(s[..n])
  {
    hide Decode, Encode, LetterLen, Scan, CodePoints;
    var d := Decode(s, Abort);
    if d.Some? {
      StrictDecodesValid(s);
      ScansEncoded(d.value, s, LetterLen(d.value, gbt));
    }
  }
}
