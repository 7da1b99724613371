/**
 Percent encoding of paths and the in-place decoder (horse64/uri32.c), on code points and without the Windows branches.
 */
module Uri {
  import opened Options
  import NonLocale
  import WideChar

  type CodePoint = n: int | 0 <= n < 0x1_0000_0000

  type Path = seq<CodePoint>

  const PERCENT: CodePoint := '%' as int
  const QUESTION: CodePoint := '?' as int
  const SLASH: CodePoint := '/' as int
  const BACKSLASH: CodePoint := '\\' as int

  predicate Between(lo: char, c: CodePoint, hi: char) { lo as int <= c <= hi as int }

  // ------------------------------------------------------------------ encoding

  /** Code points that are not written as they are. */
  predicate Reserved(c: CodePoint) {
    || c == PERCENT || c == BACKSLASH || c <= 32 || c == '[' as int || c == ']' as int || c == ':' as int
    || c == QUESTION || c == '&' as int || c == '=' as int || c == '\'' as int || c == '"' as int || c == '@' as int
    || c == '#' as int
  }

  function HexDigit(n: nat): (c: CodePoint)
    requires n < 16
    ensures Between('0', c, '9') || Between('a', c, 'f')
  {
    if n < 10 then '0' as int + n else 'a' as int + (n - 10)
  }

  /** The digits of n in the format "%x". */
  function Hex(n: nat): (h: Path)
    requires n < 128
    ensures 1 <= |h| <= 2
  {
    if n < 16 then [HexDigit(n)] else [HexDigit(n / 16), HexDigit(n % 16)]
  }

  function EncodeOne(c: CodePoint): (e: Path)
    ensures |e| == if Reserved(c) then 3 else 1
  {
    if Reserved(c) then [PERCENT] + (if |Hex(c)| < 2 then ['0' as int] + Hex(c) else Hex(c)) else [c]
  }

  /** uriencode */
  function Encode(path: Path): (e: Path)
    ensures |path| <= |e| <= 3 * |path|
  {
    if |path| == 0 then [] else EncodeOne(path[0]) + Encode(path[1..])
  }

  lemma {:induction false} EncodeNext(path: Path, i: nat)
    requires i < |path|
    ensures Encode(path[..i + 1]) == Encode(path[..i]) + EncodeOne(path[i])
  {
    hide EncodeOne;
    if i == 0 {
      assert path[..1][1..] == [];
    } else {
      EncodeNext(path[1..], i - 1);
      assert path[..i + 1][1..] == path[1..][..i];
      assert path[..i][1..] == path[1..][..i - 1];
    }
  }

  lemma ReservedIsAscii(c: CodePoint)
    requires Reserved(c)
    ensures c < 128
  {
  }

  /** Bytes go behind what the buffer holds. */
  method Write(buf: array<CodePoint>, fill: nat, text: Path) returns (end: nat)
    requires fill + |text| <= buf.Length
    modifies buf
    ensures end == fill + |text| && buf[..end] == old(buf[..fill]) + text
  {
    end := fill;
    for z := 0 to |text|
      invariant end == fill + z && buf[..end] == old(buf[..fill]) + text[..z]
    {
      buf[end] := text[z];
      end := end + 1;
    }
  }

  /** The inner part of uriencode for one code point. */
  method WriteOne(buf: array<CodePoint>, fill: nat, c: CodePoint) returns (end: nat)
    requires fill + 3 <= buf.Length
    modifies buf
    ensures end == fill + |EncodeOne(c)| && buf[..end] == old(buf[..fill]) + EncodeOne(c)
  {
    hide Reserved, Hex;
    ghost var before := buf[..fill];
    if Reserved(c) {
      ReservedIsAscii(c);
      var hexval := Hex(c);
      end := Write(buf, fill, [PERCENT]);
      if |hexval| < 2 {
        end := Write(buf, end, ['0' as int]);
      }
      end := Write(buf, end, hexval);
      assert (before + [PERCENT]) + hexval == before + ([PERCENT] + hexval);
      assert ((before + [PERCENT]) + ['0' as int]) + hexval == before + ([PERCENT] + (['0' as int] + hexval));
    } else {
      end := Write(buf, fill, [c]);
    }
  }

  /** uriencode: the buffer of three times the length is never overrun. */
  method UriEncode(path: Path) returns (e: Path)
    ensures e == Encode(path)
  {
    hide EncodeOne;
    var buf := new CodePoint[3 * |path|];
    var fill, i := 0, 0;
    while i < |path|
      invariant 0 <= i <= |path| && 0 <= fill <= 3 * i
      invariant buf[..fill] == Encode(path[..i])
    {
      EncodeNext(path, i);
      fill := WriteOne(buf, fill, path[i]);
      i := i + 1;
    }
    assert path[..i] == path;
    return buf[..fill];
  }

  // ------------------------------------------------------------------ one escape

  /** uri32_ExtractSingleURIEscape: its ranges of digits are odd, and zero reads as a question mark. */
  function Escape(s: Path): (v: Option<nat>)
    ensures v.Some? ==> 0 < v.value < 256 && |s| >= 3 && s[0] == PERCENT
  {
    if |s| < 3 then None
    else if && s[0] == PERCENT
            && (Between('0', s[1], '9') || s[1] == 'a' as int || Between('A', s[1], 'Z'))
            && (Between('0', s[2], '9') || Between('a', s[2], 'z') || Between('A', s[2], 'Z')) then
      var n := NonLocale.ReadSigned([s[1] as char, s[2] as char], 16);
      Some(if n > 255 || n == 0 then QUESTION else n)
    else None
  }

  // ------------------------------------------------------------------ escaped UTF-8

  /** A code point and how many code points of text it was read from. */
  datatype Escaped = Escaped(cp: CodePoint, size: nat)

  /** Up to wanted bytes of escapes in a row; text that is too short ends them, anything else is an error. */
  function Bytes(s: Path, wanted: nat): (r: Option<seq<WideChar.byte>>)
    ensures r.Some? ==> |r.value| <= wanted && 3 * |r.value| <= |s|
  {
    if wanted == 0 || |s| < 3 then Some([])
    else match Escape(s)
      case None => None
      case Some(v) =>
        match Bytes(s[3..], wanted - 1)
        case None => None
        case Some(more) => Some([v as bv8] + more)
  }

  function Joined(first: seq<WideChar.byte>, more: Option<seq<WideChar.byte>>): Option<seq<WideChar.byte>> {
    match more case None => None case Some(m) => Some(first + m)
  }

  /** uri32_ExtractUtf8URIEscape */
  function Utf8Escape(s: Path): (r: Option<Escaped>)
    ensures r.Some? ==> 3 <= r.value.size <= |s|
  {
    match Escape(s)
    case None => None
    case Some(v) =>
      var length := WideChar.CharLen(v as bv8);
      if length < 2 then None
      else
        match Joined([v as bv8], Bytes(s[3..], length - 1))
        case None => None
        case Some(bytes) =>
          match WideChar.Get(bytes)
          case None => None
          case Some(read) => Some(Escaped(read.cp as int, 3 * |bytes|))
  }

  lemma JoinedStep(first: seq<WideChar.byte>, s: Path, wanted: nat)
    requires |s| >= 3 && wanted > 0 && Escape(s).Some?
    ensures Joined(first, Bytes(s, wanted)) == Joined(first + [Escape(s).value as bv8], Bytes(s[3..], wanted - 1))
  {
    hide Escape;
    match Bytes(s[3..], wanted - 1)
    case None =>
    case Some(more) => assert first + ([Escape(s).value as bv8] + more) == (first + [Escape(s).value as bv8]) + more;
  }

  /** The loop of uri32_ExtractUtf8URIEscape. */
  method CollectBytes(first: WideChar.byte, s: Path, wanted: nat) returns (bytes: Option<seq<WideChar.byte>>)
    ensures bytes == Joined([first], Bytes(s, wanted))
  {
    hide Escape;
    var found: seq<bv8>, at, left := [first], 0, wanted;
    assert s[0..] == s;
    while |s| - at >= 3 && left > 0
      invariant 0 <= at <= |s|
      invariant Joined([first], Bytes(s, wanted)) == Joined(found, Bytes(s[at..], left))
      decreases |s| - at
    {
      var next := Escape(s[at..]);
      if next.None? { return None; }
      JoinedStep(found, s[at..], left);
      assert s[at..][3..] == s[at + 3..];
      found, at, left := found + [next.value as bv8], at + 3, left - 1;
    }
    assert found + [] == found;
    return Some(found);
  }

  method ExtractUtf8UriEscape(s: Path) returns (r: Option<Escaped>)
    ensures r == Utf8Escape(s)
  {
    hide Escape, Bytes, WideChar.Get, WideChar.CharLen;
    var value := Escape(s);
    if value.None? { return None; }
    var length := WideChar.CharLen(value.value as bv8);
    if length < 2 { return None; }
    var bytes := CollectBytes(value.value as bv8, s[3..], length - 1);
    if bytes.None? { return None; }
    var read := WideChar.Get(bytes.value);
    if read.None? { return None; }
    return Some(Escaped(read.value.cp as int, 3 * |bytes.value|));
  }

  lemma LoneByteFails(b: WideChar.byte)
    requires b > 127
    ensures WideChar.Get([b]).None?
  {
  }

  /** The assertion of the decoder: a non-ASCII code point takes at least two escapes. */
  lemma TwoEscapesAtLeast(s: Path)
    requires Escape(s).Some? && Escape(s).value > 127 && Utf8Escape(s).Some?
    ensures Utf8Escape(s).value.size >= 6
  {
    hide Escape;
    var b := Escape(s).value as bv8;
    LoneByteFails(b);
  }

  // ------------------------------------------------------------------ decoding

  /** What the decoder puts for the front of s, and how much of s that stands for. */
  function DecodeOne(s: Path): (r: Escaped)
    requires |s| > 0
    ensures 1 <= r.size <= |s|
  {
    match Escape(s)
    case None => Escaped(s[0], 1)
    case Some(v) =>
      if v <= 127 then Escaped(v, 3)
      else match Utf8Escape(s)
        case Some(e) => e
        case None => Escaped(0xDC80 + v, 3)
  }

  /** Decoded text is never looked at again. */
  function Decode(s: Path): (d: Path) {
    if |s| == 0 then [] else [DecodeOne(s).cp] + Decode(s[DecodeOne(s).size..])
  }

  function WithLeadingSlash(d: Path): (r: Path) {
    if |d| == 0 || (d[0] != SLASH && d[0] != BACKSLASH) then [SLASH] + d else d
  }

  lemma ShiftedSlice(before: Path, after: Path, to: nat, from: nat, end: nat)
    requires to <= from <= end <= |before| == |after|
    requires forall j :: 0 <= j < to ==> after[j] == before[j]
    requires forall j :: to <= j < to + (end - from) ==> after[j] == before[j + (from - to)]
    ensures after[..to] == before[..to] && after[to..to + (end - from)] == before[from..end]
  {
  }

  /** memmove to a lower place. */
  method Shift(buf: array<CodePoint>, to: nat, from: nat, end: nat)
    requires to <= from <= end <= buf.Length
    modifies buf
    ensures buf[..to] == old(buf[..to])
    ensures buf[to..to + (end - from)] == old(buf[from..end])
  {
    ghost var before, gap := buf[..], from - to;
    var k := 0;
    while k < end - from
      invariant 0 <= k <= end - from
      invariant forall j :: 0 <= j < to ==> buf[j] == before[j]
      invariant forall j :: to <= j < to + k ==> buf[j] == before[j + gap]
      invariant forall j :: from + k <= j < end ==> buf[j] == before[j]
    {
      buf[to + k] := buf[from + k];
      k := k + 1;
    }
    ShiftedSlice(before, buf[..], to, from, end);
  }

  /** The branches of the decoder at one place. */
  method ReadFront(rest: Path) returns (e: Escaped)
    requires |rest| > 0
    ensures e == DecodeOne(rest)
  {
    hide Escape, Utf8Escape;
    var value := Escape(rest);
    if rest[0] == PERCENT && value.Some? {
      if value.value <= 127 { return Escaped(value.value, 3); }
      var utf8 := ExtractUtf8UriEscape(rest);
      if utf8.Some? {
        TwoEscapesAtLeast(rest);
        assert utf8.value.size >= 6;
        return utf8.value;
      }
      return Escaped(0xDC80 + value.value, 3);
    }
    return Escaped(rest[0], 1);
  }

  /** Put a decoded code point in place of what it was read from; the text behind it moves up. */
  method Contract(buf: array<CodePoint>, i: nat, e: Escaped, length: nat) returns (shorter: nat)
    requires i < i + e.size <= length <= buf.Length
    modifies buf
    ensures shorter == length - (e.size - 1)
    ensures buf[..i + 1] == old(buf[..i]) + [e.cp]
    ensures buf[i + 1..shorter] == old(buf[i + e.size..length])
  {
    buf[i] := e.cp;
    assert buf[..i + 1] == old(buf[..i]) + [e.cp] && buf[i + e.size..length] == old(buf[i + e.size..length]);
    if i + e.size < length {
      Shift(buf, i + 1, i + e.size, length);
    }
    shorter := length - (e.size - 1);
  }

  /** uri32_ParsePath: the text shrinks inside its buffer while it is walked. */
  method ParsePath(escaped: Path, enforceLeadingSlash: bool) returns (r: Path)
    ensures r == if enforceLeadingSlash then WithLeadingSlash(Decode(escaped)) else Decode(escaped)
  {
    hide DecodeOne, Decode;
    var buf := new CodePoint[|escaped|](k requires 0 <= k < |escaped| => escaped[k]);
    var length, i := |escaped|, 0;
    ghost var done, rest := [], escaped;
    assert buf[..] == escaped;
    while i < length
      invariant 0 <= i <= length <= buf.Length
      invariant done == buf[..i] && rest == buf[i..length]
      invariant Decode(escaped) == done + Decode(rest)
      decreases length - i
    {
      var e := ReadFront(buf[i..length]);
      length := Contract(buf, i, e, length);
      i := i + 1;
      DecodeStep(done, rest);
      done, rest := done + [e.cp], rest[e.size..];
    }
    DecodedAll(done, rest);
    r := buf[..length];
    if enforceLeadingSlash && (length == 0 || (buf[0] != SLASH && buf[0] != BACKSLASH)) {
      r := [SLASH] + r;
    }
  }

  lemma DecodedAll(done: Path, rest: Path)
    requires rest == []
    ensures done + Decode(rest) == done
  {
  }

  lemma DecodeStep(done: Path, rest: Path)
    requires |rest| > 0
    ensures done + Decode(rest) == (done + [DecodeOne(rest).cp]) + Decode(rest[DecodeOne(rest).size..])
  {
    hide DecodeOne;
  }

  // ------------------------------------------------------------------ round trip

  lemma HexReadsBack(c: CodePoint)
    requires c < 128
    ensures NonLocale.ReadSigned([HexDigit(c / 16) as char, HexDigit(c % 16) as char], 16) == c
  {
    var s := [HexDigit(c / 16) as char, HexDigit(c % 16) as char];
    assert NonLocale.ParseDigit(s[0]) == c / 16 && NonLocale.ParseDigit(s[1]) == c % 16;
    assert s[1..] == [s[1]] && s[1..][1..] == [];
    assert NonLocale.Value(s, 16, 0) == NonLocale.Value(s[1..], 16, c / 16) == NonLocale.Value(s[1..][1..], 16, c);
    NonLocale.ReadsExactlyWhatFits(s, 16);
  }

  /** What becomes of a path that is encoded and decoded: only code point 0 is lost. */
  function Masked(path: Path): (m: Path)
    ensures |m| == |path|
  {
    seq(|path|, i requires 0 <= i < |path| => if path[i] == 0 then QUESTION else path[i])
  }

  lemma EncodedOneDecodes(c: CodePoint, rest: Path)
    ensures DecodeOne(EncodeOne(c) + rest) == Escaped(if c == 0 then QUESTION else c, |EncodeOne(c)|)
  {
    if Reserved(c) {
      HexReadsBack(c);
      assert EncodeOne(c) == [PERCENT, HexDigit(c / 16), HexDigit(c % 16)];
      assert c / 16 < 6;
    }
  }

  lemma {:induction false} EncodedDecodes(path: Path)
    ensures Decode(Encode(path)) == Masked(path)
  {
    hide EncodeOne, DecodeOne, Masked;
    MaskedFront(path);
    if |path| > 0 {
      EncodedDecodes(path[1..]);
      EncodedOneDecodes(path[0], Encode(path[1..]));
      DecodeFront(EncodeOne(path[0]), Encode(path[1..]));
    }
  }

  lemma MaskedFront(path: Path)
    ensures Masked([]) == []
    ensures |path| > 0 ==> Masked(path) == [if path[0] == 0 then QUESTION else path[0]] + Masked(path[1..])
  {
  }

  /** A front that is decoded as one leaves the rest to be decoded. */
  lemma DecodeFront(front: Path, rest: Path)
    requires |front| > 0 && DecodeOne(front + rest).size == |front|
    ensures Decode(front + rest) == [DecodeOne(front + rest).cp] + Decode(rest)
  {
    hide DecodeOne;
    assert (front + rest)[|front|..] == rest;
  }

  /** Decoding an encoded path gives the path back exactly when it holds no code point 0. */
  lemma {:induction false} RoundTrip(path: Path)
    ensures Decode(Encode(path)) == path <==> 0 !in path
  {
    EncodedDecodes(path);
    if 0 in path {
      var i :| 0 <= i < |path| && path[i] == 0;
      assert Masked(path)[i] != path[i];
    }
  }

  /** Code point 0 comes back as a question mark. */
  lemma ZeroIsLost()
    ensures Decode(Encode([0])) == ['?' as int] != [0]
  {
    hide Decode, Encode;
    EncodedDecodes([0]);
    assert Masked([0]) == [QUESTION];
  }

  /** An enforced slash is put in front exactly where neither slash nor backslash is, and nothing else changes. */
  lemma SlashEnforced(d: Path)
    ensures var r := WithLeadingSlash(d);
            && |r| > 0 && r[0] in ['/' as int, '\\' as int]
            && r == if |d| > 0 && d[0] in ['/' as int, '\\' as int] then d else ['/' as int] + d
  {
  }

  /** With a leading slash enforced, the path must have had one. */
  lemma {:induction false} RoundTripWithSlash(path: Path)
    ensures WithLeadingSlash(Decode(Encode(path))) == path <==>
            0 !in path && |path| > 0 && path[0] in ['/' as int, '\\' as int]
  {
    hide Encode, Decode, Masked;
    EncodedDecodes(path);
    RoundTrip(path);
    FirstMasked(path);
  }

  lemma FirstMasked(path: Path)
    ensures |path| > 0 ==> Masked(path)[0] == if path[0] == 0 then QUESTION else path[0]
  {
  }

  /** The code points that are not written as they are: blanks and control characters, and twelve others. */
  predicate NeedsEscape(c: CodePoint) { c <= 32 || (c < 128 && c as char in "%\\[]:?&=\'\"@#") }

  /** Each of them is written as a percent sign and two hexadecimal digits, everything else as it is. */
  lemma EscapedExactly(c: CodePoint)
    ensures EncodeOne(c) == [c] <==> !NeedsEscape(c)
    ensures NeedsEscape(c) ==> EncodeOne(c) == ['%' as int, HexDigit(c / 16), HexDigit(c % 16)]
  {
  }

  /** So encoded text holds none of them but the percent signs of its escapes. */
  lemma {:induction false} EncodedIsPlain(path: Path, c: CodePoint)
    requires c in Encode(path) && NeedsEscape(c)
    ensures c == '%' as int
  {
    hide Reserved, EncodeOne;
    EscapedExactly(path[0]);
    if c in EncodeOne(path[0]) {
      assert forall n: nat :: n < 16 ==> !NeedsEscape(HexDigit(n));
    } else {
      EncodedIsPlain(path[1..], c);
    }
  }

  // ------------------------------------------------------------------ escapes, digit by digit

  /** The character of a digit, with capital or small letters. */
  function DigitChar(d: nat, capital: bool): (c: CodePoint)
    requires d < 36
  {
    if d < 10 then '0' as int + d else (if capital then 'A' as int else 'a' as int) + (d - 10)
  }

  /**
   What an escape of two digits stands for, beyond hexadecimal ones too: a first small letter other than a is refused, a
   digit too large is read as nothing, and what comes to 0 reads as a question mark.
   */
  lemma EscapeOfDigits(a: nat, b: nat, capitalA: bool, capitalB: bool, rest: Path)
    requires a < 36 && b < 36
    ensures Escape(['%' as int, DigitChar(a, capitalA), DigitChar(b, capitalB)] + rest) ==
            if a > 10 && !capitalA then None
            else
              var n := if a >= 16 then 0 else 16 * a + if b >= 16 then 0 else b;
              Some(if n == 0 then '?' as int else n)
  {
    var text := ['%' as int, DigitChar(a, capitalA), DigitChar(b, capitalB)] + rest;
    var digits := [text[1] as char, text[2] as char];
    assert text[0] == '%' as int && text[1] == DigitChar(a, capitalA) && text[2] == DigitChar(b, capitalB);
    if !(a > 10 && !capitalA) { TwoDigitsRead(a, b, digits); }
  }

  /** Nothing else is an escape: without a percent sign and two letters or digits there is none. */
  lemma OthersAreNoEscape(s: Path)
    requires |s| < 3 || s[0] != '%' as int
             || exists k :: 1 <= k <= 2 && !(48 <= s[k] <= 57 || 65 <= s[k] <= 90 || 97 <= s[k] <= 122)
    ensures Escape(s) == None
  {
  }

  lemma TwoDigitsRead(a: nat, b: nat, digits: string)
    requires |digits| == 2 && NonLocale.ParseDigit(digits[0]) == a < 36 && NonLocale.ParseDigit(digits[1]) == b < 36
    requires digits[0] != '-'
    ensures NonLocale.ReadSigned(digits, 16) == if a >= 16 then 0 else 16 * a + if b >= 16 then 0 else b
  {
    hide NonLocale.ParseDigit, NonLocale.ReadUnsigned;
    var last := digits[1..];
    if a >= 16 {
      NonLocale.StopsAtOnce(digits, 16, 0);
    } else {
      NonLocale.OneDigitRead(digits, 16, 0);
      if b >= 16 {
        NonLocale.StopsAtOnce(last, 16, a);
      } else {
        NonLocale.OneDigitRead(last, 16, a);
        NonLocale.ReadsNothing(last[1..], 16, 16 * a + b);
      }
    }
  }

  // ------------------------------------------------------------------ escaped UTF-8

  /** The text begins with an escape of that byte. */
  predicate EscapeOf(s: Path, b: WideChar.byte) { Escape(s).Some? && Escape(s).value as bv8 == b }

  /** The text begins with escapes of these bytes. */
  ghost predicate Spelled(s: Path, p: seq<WideChar.byte>) {
    forall k: nat :: k < |p| ==> 3 * k + 3 <= |s| && EscapeOf(s[3 * k..], p[k])
  }

  /** The text begins with escapes of the UTF-8 sequence p of a code point beyond ASCII. */
  ghost predicate SpelledSequence(s: Path, c: WideChar.codepoint, p: seq<WideChar.byte>) {
    c >= 0x80 && WideChar.Scalar(c) && WideChar.Put(c, false, false) == Some(p) && Spelled(s, p)
  }

  lemma SpelledTail(s: Path, p: seq<WideChar.byte>)
    requires Spelled(s, p) && |p| > 0
    ensures |s| >= 3 && Spelled(s[3..], p[1..]) && EscapeOf(s, p[0])
  {
    hide EscapeOf;
    assert s[3 * 0..] == s;
    forall k: nat | k < |p| - 1 ensures 3 * k + 3 <= |s[3..]| && EscapeOf(s[3..][3 * k..], p[1..][k]) {
      assert 3 * (k + 1) + 3 <= |s| && EscapeOf(s[3 * (k + 1)..], p[k + 1]);
      assert s[3..][3 * k..] == s[3 * (k + 1)..];
    }
  }

  lemma SpelledCons(s: Path, b: WideChar.byte, p: seq<WideChar.byte>)
    requires |s| >= 3 && EscapeOf(s, b) && Spelled(s[3..], p)
    ensures Spelled(s, [b] + p)
  {
    hide EscapeOf;
    forall k: nat | k < |p| + 1 ensures 3 * k + 3 <= |s| && EscapeOf(s[3 * k..], ([b] + p)[k]) {
      if k > 0 {
        assert 3 * (k - 1) + 3 <= |s[3..]| && EscapeOf(s[3..][3 * (k - 1)..], p[k - 1]);
        assert s[3..][3 * (k - 1)..] == s[3 * k..];
      } else {
        assert s[3 * 0..] == s;
      }
    }
  }

  lemma ByteKept(b: WideChar.byte)
    ensures (b as int) as bv8 == b
  {
    hide *;
  }

  lemma {:induction false} SpelledBytes(s: Path, p: seq<WideChar.byte>)
    requires Spelled(s, p)
    ensures Bytes(s, |p|) == Some(p)
  {
    hide *;
    if |p| > 0 {
      SpelledTail(s, p);
      SpelledBytes(s[3..], p[1..]);
      BytesNext(s, p);
    } else {
      BytesOfNothing(s, p);
    }
  }

  lemma BytesNext(s: Path, p: seq<WideChar.byte>)
    requires |s| >= 3 && |p| > 0 && EscapeOf(s, p[0]) && Bytes(s[3..], |p| - 1) == Some(p[1..])
    ensures Bytes(s, |p|) == Some(p)
  {
    hide Escape;
    assert p == [p[0]] + p[1..];
  }

  lemma BytesOfNothing(s: Path, p: seq<WideChar.byte>)
    requires p == []
    ensures Bytes(s, |p|) == Some(p)
  {
  }

  lemma {:induction false} BytesAreSpelled(s: Path, wanted: nat)
    requires Bytes(s, wanted).Some?
    ensures Spelled(s, Bytes(s, wanted).value)
  {
    hide Escape;
    if wanted > 0 && |s| >= 3 {
      var v := Escape(s).value;
      BytesAreSpelled(s[3..], wanted - 1);
      SpelledCons(s, v as bv8, Bytes(s[3..], wanted - 1).value);
    }
  }

  /** What the steps of the reader come to. */
  lemma Utf8EscapeJoins(s: Path, p: seq<WideChar.byte>, c: WideChar.codepoint)
    requires |p| >= 2 && EscapeOf(s, p[0]) && WideChar.CharLen(p[0]) == |p|
    requires |s| >= 3 && Bytes(s[3..], |p| - 1) == Some(p[1..]) && WideChar.Get(p) == Some(WideChar.Read(c, |p|))
    ensures Utf8Escape(s) == Some(Escaped(c as int, 3 * |p|))
  {
    hide Escape, Bytes, WideChar.Get, WideChar.CharLen;
    assert [p[0]] + p[1..] == p;
  }

  lemma DecodeJoined(s: Path, e: Escaped)
    requires |s| > 0 && Escape(s).Some? && Escape(s).value > 127 && Utf8Escape(s) == Some(e)
    ensures DecodeOne(s) == e
  {
    hide Escape, Utf8Escape;
  }

  /** The bytes of a code point beyond ASCII are read as it, and the first one announces their number. */
  lemma LongSequence(c: WideChar.codepoint, p: seq<WideChar.byte>)
    requires c >= 0x80 && WideChar.Scalar(c) && WideChar.Put(c, false, false) == Some(p)
    ensures |p| >= 2 && WideChar.CharLen(p[0]) == |p| && WideChar.Get(p) == Some(WideChar.Read(c, |p|))
  {
    hide *;
    WideChar.GetAfterPut(c, false, false, []);
    assert p + [] == p;
    NotOneByte(c, p);
  }

  lemma NotOneByte(c: WideChar.codepoint, p: seq<WideChar.byte>)
    requires c >= 0x80 && WideChar.Scalar(c) && WideChar.Put(c, false, false) == Some(p)
    ensures |p| >= 2
  {
  }

  /** An escaped UTF-8 sequence is read as the code point it encodes, whatever follows. */
  lemma SequenceIsJoined(s: Path, c: WideChar.codepoint, p: seq<WideChar.byte>)
    requires |s| > 0 && SpelledSequence(s, c, p)
    ensures DecodeOne(s) == Escaped(c as int, 3 * |p|)
  {
    hide *;
    SequenceParts(s, c, p);
    LongSequence(c, p);
    SpelledTail(s, p);
    SpelledBytes(s[3..], p[1..]);
    Utf8EscapeJoins(s, p, c);
    EscapeOfLong(s, p[0]);
    DecodeJoined(s, Escaped(c as int, 3 * |p|));
  }

  lemma SequenceParts(s: Path, c: WideChar.codepoint, p: seq<WideChar.byte>)
    requires SpelledSequence(s, c, p)
    ensures c >= 0x80 && WideChar.Scalar(c) && WideChar.Put(c, false, false) == Some(p) && Spelled(s, p)
  {
    hide WideChar.Scalar, WideChar.Put, Spelled;
  }

  lemma EscapeOfLong(s: Path, b: WideChar.byte)
    requires EscapeOf(s, b) && WideChar.CharLen(b) >= 2
    ensures Escape(s).Some? && Escape(s).value > 127
  {
    hide Escape;
    LongIsNotAscii(Escape(s).value, b);
  }

  lemma LongIsNotAscii(v: nat, b: WideChar.byte)
    requires v < 256 && v as bv8 == b && WideChar.CharLen(b) >= 2
    ensures v > 127
  {
  }

  lemma GetTakesCharLen(s: seq<WideChar.byte>)
    requires |s| > 0 && WideChar.Get(s).Some?
    ensures WideChar.Get(s).value.size == WideChar.CharLen(s[0])
    ensures s[0] > 127 ==> WideChar.Get(s).value.cp >= 0x80
  {
    hide WideChar.Join2, WideChar.Join3, WideChar.Join4, WideChar.IsContinuation;
    WideChar.StartKinds(s[0]);
  }

  /** What reads as escaped UTF-8 is an escaped sequence. */
  lemma JoinedIsSequence(s: Path) returns (c: WideChar.codepoint, p: seq<WideChar.byte>)
    requires Escape(s).Some? && Escape(s).value > 127 && Utf8Escape(s).Some?
    ensures SpelledSequence(s, c, p)
  {
    hide Escape, Bytes, WideChar.Get, WideChar.Put, WideChar.CharLen, WideChar.Scalar, Spelled;
    var v := Escape(s).value;
    p := EscapedBytes(s);
    c := WideChar.Get(p).value.cp;
    LargeByte(v);
    GetTakesCharLen(p);
    WideChar.PutAfterGet(p, false, false);
    assert p[..|p|] == p;
  }

  /** The bytes that were read. */
  lemma EscapedBytes(s: Path) returns (p: seq<WideChar.byte>)
    requires Escape(s).Some? && Escape(s).value > 127 && Utf8Escape(s).Some?
    ensures Spelled(s, p) && 0 < |p| <= WideChar.CharLen(p[0]) && p[0] == Escape(s).value as bv8
    ensures WideChar.Get(p).Some?
  {
    hide *;
    var b := Escape(s).value as bv8;
    Utf8EscapeSteps(s, b);
    var more := Bytes(s[3..], WideChar.CharLen(b) - 1).value;
    p := [b] + more;
    BytesAreSpelled(s[3..], WideChar.CharLen(b) - 1);
    SpelledCons(s, b, more);
  }

  lemma Utf8EscapeSteps(s: Path, b: WideChar.byte)
    requires Escape(s).Some? && Utf8Escape(s).Some? && b == Escape(s).value as bv8
    ensures WideChar.CharLen(b) >= 2 && |s| >= 3 && EscapeOf(s, b)
    ensures var more := Bytes(s[3..], WideChar.CharLen(b) - 1); more.Some? && WideChar.Get([b] + more.value).Some?
  {
    hide Escape, Bytes, WideChar.Get, WideChar.CharLen;
  }

  lemma LargeByte(v: nat)
    requires 127 < v < 256
    ensures (v as bv8) > 127
  {
  }

  /** An escaped byte above 127 that begins no such sequence becomes a surrogate of its own. */
  lemma StrayEscapeKept(s: Path)
    requires Escape(s).Some? && Escape(s).value > 127 && forall c, p :: !SpelledSequence(s, c, p)
    ensures DecodeOne(s) == Escaped(0xDC80 + Escape(s).value, 3)
  {
    hide Escape, Utf8Escape, SpelledSequence;
    if Utf8Escape(s).Some? {
      var c, p := JoinedIsSequence(s);
    }
  }

  /** The escape of a byte with capital letters. */
  function EscapeByte(b: WideChar.byte): (e: Path)
    ensures |e| == 3
  {
    ['%' as int, DigitChar(b as int / 16, true), DigitChar(b as int % 16, true)]
  }

  /** The escapes of bytes in a row. */
  function EscapeBytes(bytes: seq<WideChar.byte>): (e: Path)
    ensures |e| == 3 * |bytes|
  {
    if |bytes| == 0 then [] else EscapeByte(bytes[0]) + EscapeBytes(bytes[1..])
  }

  function Numbers(cps: seq<WideChar.codepoint>): Path {
    if |cps| == 0 then [] else [cps[0] as int] + Numbers(cps[1..])
  }

  lemma {:induction false} EscapeBytesOfBoth(a: seq<WideChar.byte>, b: seq<WideChar.byte>)
    ensures EscapeBytes(a + b) == EscapeBytes(a) + EscapeBytes(b)
  {
    hide EscapeByte;
    if |a| == 0 {
      assert a + b == b;
    } else {
      EscapeBytesOfBoth(a[1..], b);
      assert (a + b)[1..] == a[1..] + b && (a + b)[0] == a[0];
    }
  }

  lemma EscapeByteRead(b: WideChar.byte, rest: Path)
    requires b != 0
    ensures Escape(EscapeByte(b) + rest) == Some(b as int) && EscapeOf(EscapeByte(b) + rest, b)
  {
    hide Escape, DigitChar;
    EscapeOfDigits(b as int / 16, b as int % 16, true, true, rest);
    NotZero(b);
    ByteKept(b);
  }

  lemma NotZero(b: WideChar.byte)
    requires b != 0
    ensures 0 < b as int < 256
  {
  }

  lemma {:induction false} EscapeBytesSpell(p: seq<WideChar.byte>, rest: Path)
    requires forall i :: 0 <= i < |p| ==> p[i] != 0
    ensures Spelled(EscapeBytes(p) + rest, p)
  {
    hide EscapeByte, EscapeOf, Spelled;
    if |p| > 0 {
      var head, tail := EscapeByte(p[0]), EscapeBytes(p[1..]) + rest;
      EscapeByteRead(p[0], tail);
      EscapeBytesSpell(p[1..], rest);
      assert EscapeBytes(p) + rest == head + tail;
      assert (head + tail)[3..] == tail;
      SpelledCons(head + tail, p[0], p[1..]);
      assert p == [p[0]] + p[1..];
    } else {
      SpellsNothing(EscapeBytes(p) + rest);
    }
  }

  lemma SpellsNothing(s: Path)
    ensures Spelled(s, [])
  {
  }

  lemma EscapedCodePoint(c: WideChar.codepoint, p: seq<WideChar.byte>, rest: Path)
    requires WideChar.Scalar(c) && c != 0 && WideChar.Put(c, false, false) == Some(p)
    ensures DecodeOne(EscapeBytes(p) + rest) == Escaped(c as int, 3 * |p|)
  {
    hide *;
    WideChar.PutNotEmpty(c, false, false);
    if c >= 0x80 {
      WideChar.PutHasNoZero(c);
      EscapeBytesSpell(p, rest);
      IsSequence(EscapeBytes(p) + rest, c, p);
      SequenceIsJoined(EscapeBytes(p) + rest, c, p);
    } else {
      AsciiSequence(c, p, rest);
    }
  }

  lemma IsSequence(s: Path, c: WideChar.codepoint, p: seq<WideChar.byte>)
    requires c >= 0x80 && WideChar.Scalar(c) && WideChar.Put(c, false, false) == Some(p) && Spelled(s, p)
    ensures SpelledSequence(s, c, p)
  {
    hide WideChar.Put, WideChar.Scalar, Spelled;
  }

  lemma AsciiSequence(c: WideChar.codepoint, p: seq<WideChar.byte>, rest: Path)
    requires 0 < c < 0x80 && WideChar.Put(c, false, false) == Some(p)
    ensures DecodeOne(EscapeBytes(p) + rest) == Escaped(c as int, 3 * |p|)
  {
    hide Escape, EscapeByte;
    AsciiByte(c, p);
    EscapeByteRead(p[0], rest);
    assert EscapeBytes(p) == EscapeByte(p[0]) + [] == EscapeByte(p[0]);
  }

  lemma AsciiByte(c: WideChar.codepoint, p: seq<WideChar.byte>)
    requires 0 < c < 0x80 && WideChar.Put(c, false, false) == Some(p)
    ensures |p| == 1 && p[0] != 0 && p[0] as int == c as int <= 127
  {
  }

  /** Any text without code point 0, as UTF-8 and every byte of it escaped, decodes to itself. */
  lemma {:induction false} EscapedUtf8Decodes(cps: seq<WideChar.codepoint>)
    requires WideChar.AllScalar(cps) && 0 !in cps
    ensures WideChar.Encode(cps, false, false).Some?
    ensures Decode(EscapeBytes(WideChar.Encode(cps, false, false).value)) == Numbers(cps)
  {
    hide DecodeOne, WideChar.Put, EscapeBytes;
    if |cps| > 0 {
      var c, tail := cps[0], cps[1..];
      EscapedUtf8Decodes(tail);
      WideChar.PutSpells(c, false, false);
      WideChar.WrittenSizes(c, false, false);
      var p, rest := WideChar.Put(c, false, false).value, WideChar.Encode(tail, false, false).value;
      EscapeBytesOfBoth(p, rest);
      EscapedCodePoint(c, p, EscapeBytes(rest));
      DecodeFront(EscapeBytes(p), EscapeBytes(rest));
    } else {
      assert EscapeBytes([]) == [];
    }
  }
}
