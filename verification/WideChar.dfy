/**
 UTF-8 to UTF-32 and back with escaped bytes (horse64/widechar.c).

 Code points are 32-bit words. A byte b that is not part of valid UTF-8 is decoded
 as the code point 0xDC80 + b, which no valid sequence decodes to, and unescaped
 again when encoding. Four-byte sequences are accepted up to 0x1FFFFF.
 */
module WideChar {
  import opened Options

  type byte = bv8
  type codepoint = bv32

  /** A decoded code point and the number of bytes it took. */
  datatype Read = Read(cp: codepoint, size: nat)

  const ESCAPE_BASE: codepoint := 0xDC80
  const REPLACEMENT: codepoint := 0xFFFD

  // ------------------------------------------------------------------ one code point

  predicate IsStart(c: byte) { c & 0xE0 == 0xC0 || c & 0xF0 == 0xE0 || c & 0xF8 == 0xF0 }

  predicate IsContinuation(c: byte) { c & 0xC0 == 0x80 }

  function CharLen(c: byte): nat {
    if c & 0xE0 == 0xC0 then 2 else if c & 0xF0 == 0xE0 then 3 else if c & 0xF8 == 0xF0 then 4 else 1
  }

  function Join2(a: byte, b: byte): codepoint { (((a as bv32) & 0x1F) << 6) + ((b as bv32) & 0x3F) }

  function Join3(a: byte, b: byte, c: byte): codepoint {
    (((a as bv32) & 0xF) << 12) + (((b as bv32) & 0x3F) << 6) + ((c as bv32) & 0x3F)
  }

  function Join4(a: byte, b: byte, c: byte, d: byte): codepoint {
    (((a as bv32) & 0x7) << 18) + (((b as bv32) & 0x3F) << 12) + (((c as bv32) & 0x3F) << 6) + ((d as bv32) & 0x3F)
  }

  /** get_utf8_codepoint: what the front of s decodes to, if it is valid. One continuation byte too many is not. */
  function Get(s: seq<byte>): (r: Option<Read>)
    ensures r.Some? ==> 1 <= r.value.size <= 4 && r.value.size <= |s|
  {
    if |s| < 1 then None
    else if !IsStart(s[0]) then
      if s[0] > 127 then None else Some(Read(s[0] as bv32, 1))
    else if s[0] & 0xE0 == 0xC0 && |s| >= 2 then
      if !IsContinuation(s[1]) || (|s| >= 3 && IsContinuation(s[2])) || Join2(s[0], s[1]) <= 127 then None
      else Some(Read(Join2(s[0], s[1]), 2))
    else if s[0] & 0xF0 == 0xE0 && |s| >= 3 then
      if !IsContinuation(s[1]) || !IsContinuation(s[2]) || (|s| >= 4 && IsContinuation(s[3])) then None
      else
        var c := Join3(s[0], s[1], s[2]);
        if c <= 0x7FF || 0xD800 <= c <= 0xDFFF then None else Some(Read(c, 3))
    else if s[0] & 0xF8 == 0xF0 && |s| >= 4 then
      if !IsContinuation(s[1]) || !IsContinuation(s[2]) || !IsContinuation(s[3])
         || (|s| >= 5 && IsContinuation(s[4])) then None
      else
        var c := Join4(s[0], s[1], s[2], s[3]);
        if c <= 0xFFFF then None else Some(Read(c, 4))
    else None
  }

  function Split2(c: codepoint): seq<byte>
    requires 0x80 <= c < 0x800
  {
    [(((c & 0x7C0) >> 6) | 0xC0) as bv8, ((c & 0x3F) | 0x80) as bv8]
  }

  function Split3(c: codepoint): seq<byte>
    requires 0x800 <= c < 0x10000
  {
    [(((c & 0xF000) >> 12) | 0xE0) as bv8, (((c & 0xFC0) >> 6) | 0x80) as bv8, ((c & 0x3F) | 0x80) as bv8]
  }

  function Split4(c: codepoint): seq<byte>
    requires 0x10000 <= c < 0x200000
  {
    [(((c & 0x1C0000) >> 18) | 0xF0) as bv8, (((c & 0x3F000) >> 12) | 0x80) as bv8,
     (((c & 0xFC0) >> 6) | 0x80) as bv8, ((c & 0x3F) | 0x80) as bv8]
  }

  predicate IsEscape(c: codepoint) { ESCAPE_BASE <= c <= ESCAPE_BASE + 255 }

  /** The bytes write_codepoint_as_utf8 produces for c; None when it refuses the code point. */
  function Put(c: codepoint, unescape: bool, questionmark: bool): Option<seq<byte>> {
    if unescape && IsEscape(c) then Some([(c - ESCAPE_BASE) as bv8])
    else if c < 0x80 then Some([c as bv8])
    else if c < 0x800 then Some(Split2(c))
    else if c < 0x10000 then Some(Split3(c))
    else if c < 0x200000 then Some(Split4(c))
    else if questionmark then Some([0xEF, 0xBF, 0xBD])
    else None
  }

  /** Code points that valid sequences stand for. */
  predicate Scalar(c: codepoint) { c < 0x200000 && !(0xD800 <= c <= 0xDFFF) }

  lemma Split2Joins(c: codepoint)
    requires 0x80 <= c < 0x800
    ensures var s := Split2(c); s[0] & 0xE0 == 0xC0 && IsContinuation(s[1]) && Join2(s[0], s[1]) == c
  {
  }

  lemma Split3Joins(c: codepoint)
    requires 0x800 <= c < 0x10000
    ensures var s := Split3(c);
            s[0] & 0xF0 == 0xE0 && IsContinuation(s[1]) && IsContinuation(s[2]) && Join3(s[0], s[1], s[2]) == c
  {
  }

  lemma Split4Joins(c: codepoint)
    requires 0x10000 <= c < 0x200000
    ensures var s := Split4(c);
            s[0] & 0xF8 == 0xF0 && IsContinuation(s[1]) && IsContinuation(s[2]) && IsContinuation(s[3])
            && Join4(s[0], s[1], s[2], s[3]) == c
  {
  }

  lemma Join2Splits(a: byte, b: byte)
    requires a & 0xE0 == 0xC0 && IsContinuation(b) && Join2(a, b) > 127
    ensures Join2(a, b) < 0x800 && Split2(Join2(a, b)) == [a, b]
  {
  }

  lemma Join3Splits(a: byte, b: byte, c: byte)
    requires a & 0xF0 == 0xE0 && IsContinuation(b) && IsContinuation(c) && Join3(a, b, c) > 0x7FF
    ensures Join3(a, b, c) < 0x10000 && Split3(Join3(a, b, c)) == [a, b, c]
  {
  }

  lemma Join4Splits(a: byte, b: byte, c: byte, d: byte)
    requires a & 0xF8 == 0xF0 && IsContinuation(b) && IsContinuation(c) && IsContinuation(d) && Join4(a, b, c, d) > 0xFFFF
    ensures Join4(a, b, c, d) < 0x200000 && Split4(Join4(a, b, c, d)) == [a, b, c, d]
  {
  }

  lemma StartKinds(c: byte)
    ensures c & 0xE0 == 0xC0 ==> c & 0xF0 != 0xE0 && c & 0xF8 != 0xF0
    ensures c & 0xF0 == 0xE0 ==> c & 0xF8 != 0xF0
    ensures IsStart(c) ==> !IsContinuation(c) && c > 127
    ensures c <= 127 ==> !IsStart(c) && !IsContinuation(c)
  {
  }

  /** Bytes that make one valid sequence for c, with nothing behind them that would belong to it. */
  predicate Spells(p: seq<byte>, c: codepoint) {
    match |p|
    case 1 => c < 0x80 && p[0] <= 127 && p[0] as bv32 == c
    case 2 => 0x80 <= c < 0x800 && p[0] & 0xE0 == 0xC0 && IsContinuation(p[1]) && Join2(p[0], p[1]) == c
    case 3 =>
      && 0x800 <= c < 0x10000 && !(0xD800 <= c <= 0xDFFF) && p[0] & 0xF0 == 0xE0
      && IsContinuation(p[1]) && IsContinuation(p[2]) && Join3(p[0], p[1], p[2]) == c
    case 4 =>
      && 0x10000 <= c < 0x200000 && p[0] & 0xF8 == 0xF0
      && IsContinuation(p[1]) && IsContinuation(p[2]) && IsContinuation(p[3]) && Join4(p[0], p[1], p[2], p[3]) == c
    case _ => false
  }

  lemma PutSpells(c: codepoint, unescape: bool, questionmark: bool)
    requires Scalar(c)
    ensures var p := Put(c, unescape, questionmark); p.Some? && Spells(p.value, c)
  {
    hide Join2, Join3, Join4;
    if c < 0x80 {
      AsciiByte(c);
    } else if c < 0x800 {
      Split2Joins(c);
    } else if c < 0x10000 {
      Split3Joins(c);
    } else {
      Split4Joins(c);
    }
  }

  lemma AsciiByte(c: codepoint)
    requires c < 0x80
    ensures c as bv8 as bv32 == c && (c as bv8) <= 127
  {
  }

  lemma ThresholdsApart(c: codepoint)
    ensures 0x80 <= c ==> !(c <= 127)
    ensures 0x800 <= c ==> !(c <= 0x7FF)
    ensures 0x10000 <= c ==> !(c <= 0xFFFF)
  {
  }

  lemma SpelledIsRead(p: seq<byte>, c: codepoint, rest: seq<byte>)
    requires Spells(p, c) && (|rest| > 0 ==> !IsContinuation(rest[0]))
    ensures Get(p + rest) == Some(Read(c, |p|)) && !IsContinuation(p[0]) && CharLen(p[0]) == |p|
  {
    hide Join2, Join3, Join4, IsContinuation;
    StartKinds(p[0]);
    ThresholdsApart(c);
    var s := p + rest;
    assert |rest| > 0 ==> s[|p|] == rest[0];
  }

  /** What is read back is what was written, if no continuation byte follows. */
  lemma GetAfterPut(c: codepoint, unescape: bool, questionmark: bool, rest: seq<byte>)
    requires Scalar(c)
    requires |rest| > 0 ==> !IsContinuation(rest[0])
    ensures var p := Put(c, unescape, questionmark);
            p.Some? && 1 <= |p.value| <= 4 && Get(p.value + rest) == Some(Read(c, |p.value|))
    ensures var p := Put(c, unescape, questionmark).value; !IsContinuation(p[0]) && CharLen(p[0]) == |p|
  {
    hide Put, Get, CharLen, IsContinuation;
    PutSpells(c, unescape, questionmark);
    SpelledIsRead(Put(c, unescape, questionmark).value, c, rest);
  }

  /** Which bytes continue a sequence, which begin one, and how long the sequences are that they begin. */
  lemma ByteKinds(b: byte)
    ensures IsContinuation(b) <==> 0x80 <= b < 0xC0
    ensures IsStart(b) <==> 0xC0 <= b < 0xF8
    ensures CharLen(b) == if 0xC0 <= b < 0xE0 then 2 else if 0xE0 <= b < 0xF0 then 3 else if 0xF0 <= b < 0xF8 then 4 else 1
  {
  }

  /** One continuation byte too many, and what would be read is refused; only ASCII does not care. */
  lemma OneTooManyRefused(c: codepoint, unescape: bool, questionmark: bool, rest: seq<byte>)
    requires Scalar(c) && |rest| > 0 && 0x80 <= rest[0] < 0xC0
    ensures var p := Put(c, unescape, questionmark);
            p.Some? && Get(p.value + rest) == if c < 0x80 then Some(Read(c, 1)) else None
  {
    hide Join2, Join3, Join4, Put, CharLen;
    PutSpells(c, unescape, questionmark);
    var p := Put(c, unescape, questionmark).value;
    var s := p + rest;
    ByteKinds(rest[0]);
    StartKinds(p[0]);
    ThresholdsApart(c);
    assert s[|p|] == rest[0];
  }

  /**
   What is written for which code point: one to four bytes by size, an escaped byte as itself if asked to, and above
   0x1FFFFF nothing, or the three bytes of the replacement character if asked to.
   */
  lemma WrittenSizes(c: codepoint, unescape: bool, questionmark: bool)
    ensures var p := Put(c, unescape, questionmark);
            if unescape && 0xDC80 <= c <= 0xDD7F then p == Some([(c - 0xDC80) as bv8])
            else if c >= 0x200000 then p == if questionmark then Some([0xEF, 0xBF, 0xBD]) else None
            else p.Some? && |p.value| == if c < 0x80 then 1 else if c < 0x800 then 2 else if c < 0x10000 then 3 else 4
  {
  }

  /** A surrogate is written in three bytes that are not read back. */
  lemma SurrogateNotRead(c: codepoint, questionmark: bool, rest: seq<byte>)
    requires 0xD800 <= c <= 0xDFFF
    ensures var p := Put(c, false, questionmark); p.Some? && |p.value| == 3 && Get(p.value + rest).None?
  {
    hide Join3;
    Split3Joins(c);
    StartKinds(Split3(c)[0]);
    var p := Put(c, false, questionmark).value;
    var s := p + rest;
    assert s[0] == p[0] && s[1] == p[1] && s[2] == p[2];
  }

  lemma PutHasNoZero(c: codepoint)
    requires Scalar(c) && c != 0
    ensures var p := Put(c, false, false); p.Some? && forall i :: 0 <= i < |p.value| ==> p.value[i] != 0
  {
  }

  lemma Fronts(s: seq<byte>)
    ensures |s| >= 1 ==> s[..1] == [s[0]]
    ensures |s| >= 2 ==> s[..2] == [s[0], s[1]]
    ensures |s| >= 3 ==> s[..3] == [s[0], s[1], s[2]]
    ensures |s| >= 4 ==> s[..4] == [s[0], s[1], s[2], s[3]]
  {
  }

  lemma AsciiCopies(b: byte)
    requires b <= 127
    ensures (b as bv32) < 0x80 && (b as bv32) as bv8 == b
  {
  }

  /** What is read spells the code point it is read as. */
  lemma ReadIsSpelled(s: seq<byte>)
    requires |s| > 0
    ensures Get(s).None? ==> s[0] > 127
    ensures Get(s).Some? ==> Spells(s[..Get(s).value.size], Get(s).value.cp)
  {
    hide IsContinuation, Join2, Join3, Join4;
    StartKinds(s[0]);
    Fronts(s);
    if Get(s).Some? {
      var r := Get(s).value;
      if r.size == 1 {
        AsciiCopies(s[0]);
      } else if r.size == 2 {
        Join2Splits(s[0], s[1]);
      } else if r.size == 3 {
        Join3Splits(s[0], s[1], s[2]);
      } else {
        Join4Splits(s[0], s[1], s[2], s[3]);
      }
    }
  }

  /** A spelling is what is written for its code point. */
  lemma SpelledIsPut(p: seq<byte>, c: codepoint, unescape: bool, questionmark: bool)
    requires Spells(p, c)
    ensures Scalar(c) && Put(c, unescape, questionmark) == Some(p)
  {
    hide IsContinuation, Join2, Join3, Join4, Split2, Split3, Split4;
    Fronts(p);
    assert p == p[..|p|];
    if |p| == 1 {
      AsciiCopies(p[0]);
    } else if |p| == 2 {
      ThresholdsMeet(c);
      Join2Splits(p[0], p[1]);
    } else if |p| == 3 {
      ThresholdsMeet(c);
      Join3Splits(p[0], p[1], p[2]);
    } else {
      ThresholdsMeet(c);
      Join4Splits(p[0], p[1], p[2], p[3]);
    }
    NoEscape(c);
  }

  lemma ThresholdsMeet(c: codepoint)
    ensures 0x80 <= c ==> c > 127
    ensures 0x800 <= c ==> c > 0x7FF
    ensures 0x10000 <= c ==> c > 0xFFFF
  {
  }

  lemma NoEscape(c: codepoint)
    requires c < 0x200000 && !(0xD800 <= c <= 0xDFFF)
    ensures !IsEscape(c)
  {
  }

  /** What was read is written back as the same bytes; a byte that was not read is not ASCII. */
  lemma PutAfterGet(s: seq<byte>, unescape: bool, questionmark: bool)
    requires |s| > 0
    ensures Get(s).None? ==> s[0] > 127
    ensures Get(s).Some? ==> var r := Get(s).value; Scalar(r.cp) && Put(r.cp, unescape, questionmark) == Some(s[..r.size])
  {
    hide Get, Put, Spells, Scalar;
    ReadIsSpelled(s);
    if Get(s).Some? { SpelledIsPut(s[..Get(s).value.size], Get(s).value.cp, unescape, questionmark); }
  }

  lemma EscapeUnescapes(b: byte, questionmark: bool)
    ensures IsEscape(ESCAPE_BASE + (b as bv32)) && !Scalar(ESCAPE_BASE + (b as bv32))
    ensures Put(ESCAPE_BASE + (b as bv32), true, questionmark) == Some([b])
  {
  }

  // ------------------------------------------------------------------------ whole text

  /** What to do with a byte that does not decode: give up, escape it, or put the replacement character. */
  datatype OnInvalid = Abort | Escape | Replace

  function Mode(surrogatereplaceinvalid: bool, questionmarkinvalid: bool): OnInvalid {
    if questionmarkinvalid then Replace else if surrogatereplaceinvalid then Escape else Abort
  }

  /** utf8_to_utf32_ex; None when it aborts on an invalid byte. */
  function Decode(s: seq<byte>, mode: OnInvalid): Option<seq<codepoint>> {
    if |s| == 0 then Some([])
    else
      match Get(s)
      case Some(r) =>
        var tail := Decode(s[r.size..], mode);
        if tail.Some? then Some([r.cp] + tail.value) else None
      case None =>
        if mode.Abort? then None
        else
          var tail := Decode(s[1..], mode);
          var c := if mode.Replace? then REPLACEMENT else ESCAPE_BASE + (s[0] as bv32);
          if tail.Some? then Some([c] + tail.value) else None
  }

  /** utf32_to_utf8 with enough room; None when a code point is refused. */
  function Encode(cps: seq<codepoint>, unescape: bool, questionmark: bool): Option<seq<byte>> {
    if |cps| == 0 then Some([])
    else
      var head, tail := Put(cps[0], unescape, questionmark), Encode(cps[1..], unescape, questionmark);
      if head.Some? && tail.Some? then Some(head.value + tail.value) else None
  }

  lemma EncodeCons(c: codepoint, cps: seq<codepoint>, unescape: bool, questionmark: bool)
    ensures var head, tail := Put(c, unescape, questionmark), Encode(cps, unescape, questionmark);
            Encode([c] + cps, unescape, questionmark) == if head.Some? && tail.Some? then Some(head.value + tail.value) else None
  {
    assert ([c] + cps)[1..] == cps;
  }

  ghost predicate AllScalar(cps: seq<codepoint>) { forall i :: 0 <= i < |cps| ==> Scalar(cps[i]) }

  /** Escaping decodes every byte string, and unescaping gives exactly those bytes back. */
  lemma {:induction false} DecodingIsLossless(s: seq<byte>, questionmark: bool)
    ensures Decode(s, Escape).Some?
    ensures Encode(Decode(s, Escape).value, true, questionmark) == Some(s)
  {
    hide Get, Put;
    if |s| > 0 {
      PutAfterGet(s, true, questionmark);
      var cps := Decode(s, Escape);
      match Get(s) {
        case Some(r) =>
          DecodingIsLossless(s[r.size..], questionmark);
          EncodeCons(r.cp, Decode(s[r.size..], Escape).value, true, questionmark);
          assert s == s[..r.size] + s[r.size..];
        case None =>
          DecodingIsLossless(s[1..], questionmark);
          EscapeUnescapes(s[0], questionmark);
          EncodeCons(ESCAPE_BASE + (s[0] as bv32), Decode(s[1..], Escape).value, true, questionmark);
          assert s == [s[0]] + s[1..];
      }
    }
  }

  /** So no two byte strings decode to the same text. */
  lemma DecodingIsInjective(s: seq<byte>, t: seq<byte>)
    requires Decode(s, Escape) == Decode(t, Escape)
    ensures s == t
  {
    DecodingIsLossless(s, false);
    DecodingIsLossless(t, false);
  }

  /** Encoded text is decoded to the same code points in every mode. */
  lemma {:induction false} EncodingRoundTrips(cps: seq<codepoint>, unescape: bool, questionmark: bool, mode: OnInvalid)
    requires AllScalar(cps)
    ensures var e := Encode(cps, unescape, questionmark);
            e.Some? && Decode(e.value, mode) == Some(cps) && |cps| <= |e.value|
    ensures var e := Encode(cps, unescape, questionmark).value; |e| > 0 ==> !IsContinuation(e[0])
  {
    hide Get;
    if |cps| > 0 {
      EncodingRoundTrips(cps[1..], unescape, questionmark, mode);
      var head, tail := Put(cps[0], unescape, questionmark).value, Encode(cps[1..], unescape, questionmark).value;
      GetAfterPut(cps[0], unescape, questionmark, tail);
      assert (head + tail)[|head|..] == tail;
      assert cps == [cps[0]] + cps[1..];
    }
  }

  /** The strict decoder accepts exactly the encodings of scalar code points, and inverts them. */
  lemma {:induction false} StrictDecodesExactly(s: seq<byte>, cps: seq<codepoint>)
    ensures Decode(s, Abort) == Some(cps) <==> AllScalar(cps) && Encode(cps, false, false) == Some(s)
  {
    if Decode(s, Abort) == Some(cps) {
      StrictDecodesValid(s);
    }
    if AllScalar(cps) && Encode(cps, false, false) == Some(s) {
      EncodingRoundTrips(cps, false, false, Abort);
    }
  }

  lemma AllScalarCons(c: codepoint, cps: seq<codepoint>)
    requires Scalar(c) && AllScalar(cps)
    ensures AllScalar([c] + cps)
  {
  }

  /** On text the strict decoder accepts, the other modes decode the same. */
  lemma {:induction false} StrictDecodesAsOthers(s: seq<byte>, mode: OnInvalid)
    ensures Decode(s, Abort).Some? ==> Decode(s, mode) == Decode(s, Abort)
  {
    hide Get;
    if |s| > 0 && Get(s).Some? { StrictDecodesAsOthers(s[Get(s).value.size..], mode); }
  }

  lemma {:induction false} StrictDecodesValid(s: seq<byte>)
    ensures var d := Decode(s, Abort);
            d.Some? ==> AllScalar(d.value) && Encode(d.value, false, false) == Some(s)
  {
    hide Get, Put;
    if |s| > 0 && Decode(s, Abort).Some? {
      PutAfterGet(s, false, false);
      var r := Get(s).value;
      StrictDecodesValid(s[r.size..]);
      var tail := Decode(s[r.size..], Abort).value;
      EncodeCons(r.cp, tail, false, false);
      AllScalarCons(r.cp, tail);
      assert s == s[..r.size] + s[r.size..];
    }
  }

  /** Bytes that begin nothing: continuation bytes, and bytes above those of any sequence. */
  predicate Stray(s: seq<byte>) { forall i :: 0 <= i < |s| ==> 0x80 <= s[i] < 0xC0 || 0xF8 <= s[i] }

  lemma StrayNotRead(s: seq<byte>)
    requires Stray(s) && |s| > 0
    ensures Get(s).None?
  {
    StrayByte(s[0]);
  }

  lemma StrayByte(b: byte)
    requires 0x80 <= b < 0xC0 || 0xF8 <= b
    ensures !IsStart(b) && b > 127
  {
  }

  /** The code point that stands for a byte that is not part of valid text. */
  function StrayCode(b: byte): codepoint { 0xDC80 + (b as bv32) }

  /**
   Stray bytes in each mode: with question marks each becomes 0xFFFD, whether escapes are asked for or not, else with
   escapes byte b becomes 0xDC80 + b, and without either one of them is enough to give up.
   */
  lemma {:induction false} StrayBytesDecode(s: seq<byte>, surrogatereplaceinvalid: bool, questionmarkinvalid: bool)
    requires Stray(s)
    ensures var d := Decode(s, Mode(surrogatereplaceinvalid, questionmarkinvalid));
            if !questionmarkinvalid && !surrogatereplaceinvalid then d == if |s| == 0 then Some([]) else None
            else d.Some? && |d.value| == |s| && forall i :: 0 <= i < |s| ==>
                   d.value[i] == if questionmarkinvalid then 0xFFFD else StrayCode(s[i])
  {
    hide Get;
    if |s| > 0 {
      StrayNotRead(s);
      assert Stray(s[1..]);
      StrayBytesDecode(s[1..], surrogatereplaceinvalid, questionmarkinvalid);
    }
  }

  // ---------------------------------------------------------------------- the loops

  /** What a decoder that has produced done still returns when the rest decodes to d. */
  function Continued(done: seq<codepoint>, d: Option<seq<codepoint>>): Option<seq<codepoint>> {
    if d.Some? then Some(done + d.value) else None
  }

  lemma DecodeNothing(mode: OnInvalid)
    ensures Decode([], mode) == Some([])
  {
  }

  lemma ContinuedOne(done: seq<codepoint>, c: codepoint, tail: Option<seq<codepoint>>)
    ensures Continued(done, Continued([c], tail)) == Continued(done + [c], tail)
  {
    if tail.Some? { assert done + ([c] + tail.value) == (done + [c]) + tail.value; }
  }

  /** What one round of the decoder appends, and how many bytes that takes; nothing when it aborts. */
  function Front(s: seq<byte>, mode: OnInvalid): (r: Option<Read>)
    requires |s| > 0
    ensures r.Some? ==> 1 <= r.value.size <= |s|
  {
    match Get(s)
    case Some(r) => Some(r)
    case None =>
      match mode
      case Abort => None
      case Replace => Some(Read(REPLACEMENT, 1))
      case Escape => Some(Read(ESCAPE_BASE + (s[0] as bv32), 1))
  }

  lemma DecodeOne(done: seq<codepoint>, s: seq<byte>, mode: OnInvalid)
    requires |s| > 0
    ensures var f := Front(s, mode);
            if f.None? then Decode(s, mode).None?
            else Continued(done, Decode(s, mode)) == Continued(done + [f.value.cp], Decode(s[f.value.size..], mode))
  {
    hide Get;
    var f := Front(s, mode);
    if f.Some? { ContinuedOne(done, f.value.cp, Decode(s[f.value.size..], mode)); }
  }

  /**
   utf8_to_utf32_ex. The buffer has room for one code point per input byte, which is
   always enough.
   */
  method Utf8ToUtf32(input: seq<byte>, surrogatereplaceinvalid: bool, questionmarkinvalid: bool)
    returns (ok: bool, out: array<codepoint>, outLen: nat)
    ensures fresh(out) && outLen <= out.Length == |input|
    ensures var d := Decode(input, Mode(surrogatereplaceinvalid, questionmarkinvalid));
            ok == d.Some? && (ok ==> out[..outLen] == d.value)
  {
    hide Get, Decode, Continued;
    ghost var mode := Mode(surrogatereplaceinvalid, questionmarkinvalid);
    ghost var whole := Decode(input, mode);
    out := new codepoint[|input|](_ => 0);
    var k, i := 0, 0;
    ghost var done: seq<codepoint>, rest := [], input;
    ContinuedNothing(whole);
    while i < |input|
      invariant 0 <= k <= i <= |input|
      invariant done == out[..k] && rest == input[i..]
      invariant whole == Continued(done, Decode(rest, mode))
    {
      DecodeOne(done, rest, mode);
      ContinuedFails(done, Decode(rest, mode));
      var c, n := REPLACEMENT, 1;
      var r := Get(input[i..]);
      if r.Some? {
        c, n := r.value.cp, r.value.size;
      } else if !surrogatereplaceinvalid && !questionmarkinvalid {
        return false, out, 0;
      } else if !questionmarkinvalid {
        c := ESCAPE_BASE + (input[i] as bv32);
      }
      out[k] := c;
      DropMore(input, i, n);
      done, rest := done + [c], rest[n..];
      k, i := k + 1, i + n;
    }
    assert rest == [];
    DecodeNothing(mode);
    ContinuedFails(done, Decode(rest, mode));
    return true, out, k;
  }

  lemma ContinuedNothing(d: Option<seq<codepoint>>)
    ensures Continued([], d) == d
  {
    if d.Some? { assert [] + d.value == d.value; }
  }

  lemma ContinuedFails(done: seq<codepoint>, d: Option<seq<codepoint>>)
    ensures d.None? ==> Continued(done, d).None?
    ensures d == Some([]) ==> Continued(done, d) == Some(done)
  {
    assert done + [] == done;
  }

  lemma DropMore(s: seq<byte>, i: nat, n: nat)
    requires i + n <= |s|
    ensures s[i..][n..] == s[i + n..]
  {
  }

  lemma {:induction false} EncodeSplit(a: seq<codepoint>, b: seq<codepoint>, unescape: bool, questionmark: bool)
    ensures var ea, eb := Encode(a, unescape, questionmark), Encode(b, unescape, questionmark);
            Encode(a + b, unescape, questionmark) == if ea.Some? && eb.Some? then Some(ea.value + eb.value) else None
  {
    hide Put, Encode;
    if |a| == 0 {
      assert a == [] && a + b == b;
      EncodeNothing();
      var eb := Encode(b, unescape, questionmark);
      if eb.Some? { assert [] + eb.value == eb.value; }
    } else {
      EncodeSplit(a[1..], b, unescape, questionmark);
      EncodeCons(a[0], a[1..], unescape, questionmark);
      EncodeCons(a[0], a[1..] + b, unescape, questionmark);
      assert a == [a[0]] + a[1..] && a + b == [a[0]] + (a[1..] + b);
      var head, ea, eb := Put(a[0], unescape, questionmark), Encode(a[1..], unescape, questionmark), Encode(b, unescape, questionmark);
      if head.Some? && ea.Some? && eb.Some? {
        assert head.value + (ea.value + eb.value) == (head.value + ea.value) + eb.value;
      }
    }
  }

  lemma EncodeNothing()
    ensures forall unescape, questionmark :: Encode([], unescape, questionmark) == Some([])
  {
  }

  lemma PutNotEmpty(c: codepoint, unescape: bool, questionmark: bool)
    ensures var p := Put(c, unescape, questionmark); p.Some? ==> |p.value| > 0
  {
  }

  /** The code point at index i adds its bytes to those of the code points before it, and the whole has at least those. */
  lemma EncodeUpTo(cps: seq<codepoint>, i: nat, unescape: bool, questionmark: bool)
    requires i < |cps| && Encode(cps[..i], unescape, questionmark).Some?
    ensures var done, p := Encode(cps[..i], unescape, questionmark).value, Put(cps[i], unescape, questionmark);
            && (p.Some? ==> |p.value| > 0 && Encode(cps[..i + 1], unescape, questionmark) == Some(done + p.value))
            && var whole := Encode(cps, unescape, questionmark);
            whole.Some? ==> p.Some? && |done| + |p.value| <= |whole.value|
  {
    PutNotEmpty(cps[i], unescape, questionmark);
    assert cps == cps[..i] + cps[i..] && cps[..i + 1] == cps[..i] + ([cps[i]] + []);
    assert cps[i..] == [cps[i]] + cps[i + 1..];
    EncodeCons(cps[i], [], unescape, questionmark);
    EncodeCons(cps[i], cps[i + 1..], unescape, questionmark);
    EncodeSplit(cps[..i], cps[i..], unescape, questionmark);
    EncodeSplit(cps[..i], [cps[i]] + [], unescape, questionmark);
    var p := Put(cps[i], unescape, questionmark);
    if p.Some? { assert p.value + [] == p.value; }
  }

  /** Write bytes to out from index at on, and a terminator behind them if there is room. */
  method WriteBytes(bytes: seq<byte>, out: array<byte>, at: nat)
    requires at + |bytes| <= out.Length
    modifies out
    ensures out[..at] == old(out[..at]) && out[at..at + |bytes|] == bytes
    ensures at + |bytes| < out.Length ==> out[at + |bytes|] == 0
    ensures forall m :: at + |bytes| < m < out.Length ==> out[m] == old(out[m])
  {
    var n := |bytes|;
    for m := 0 to n
      invariant out[..at] == old(out[..at]) && out[at..at + m] == bytes[..m]
      invariant forall x :: at + m <= x < out.Length ==> out[x] == old(out[x])
    {
      out[at + m] := bytes[m];
      assert out[at..at + m + 1] == out[at..at + m] + [bytes[m]];
    }
    if at + n < out.Length {
      out[at + n] := 0;
    }
  }

  lemma WrittenBehind(out: seq<byte>, at: nat, done: seq<byte>, bytes: seq<byte>)
    requires at + |bytes| <= |out| && out[..at] == done && out[at..at + |bytes|] == bytes
    ensures out[..at + |bytes|] == done + bytes
  {
  }

  /**
   utf32_to_utf8: succeeds exactly when every code point can be written and the bytes fit,
   and then the buffer starts with them.
   */
  method Utf32ToUtf8(input: seq<codepoint>, out: array<byte>, unescape: bool, questionmark: bool)
    returns (ok: bool, totalLen: nat)
    modifies out
    ensures var e := Encode(input, unescape, questionmark);
            ok <==> e.Some? && |e.value| <= out.Length
    ensures ok ==> totalLen <= out.Length && Some(out[..totalLen]) == Encode(input, unescape, questionmark)
    ensures ok ==> forall m :: totalLen < m < out.Length ==> out[m] == old(out[m])
  {
    hide Put, Encode;
    EncodeNothing();
    assert input[..0] == [] && out[..0] == [];
    totalLen := 0;
    var i := 0;
    while i < |input|
      invariant 0 <= i <= |input| && totalLen <= out.Length
      invariant Encode(input[..i], unescape, questionmark) == Some(out[..totalLen])
      invariant forall m :: totalLen < m < out.Length ==> out[m] == old(out[m])
    {
      ghost var done := out[..totalLen];
      EncodeUpTo(input, i, unescape, questionmark);
      var p := Put(input[i], unescape, questionmark);
      if totalLen >= out.Length || p.None? || totalLen + |p.value| > out.Length {
        return false, totalLen;
      }
      WriteBytes(p.value, out, totalLen);
      WrittenBehind(out[..], totalLen, done, p.value);
      totalLen := totalLen + |p.value|;
      i := i + 1;
    }
    assert input[..i] == input;
    ok := true;
  }
}
