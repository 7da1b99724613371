/**
 The JSON printer and the depth-limited parser (horse64/json.c).

 Texts are C strings of 7-bit characters: reading at the end yields the terminator. The parser accepts more than the
 printer writes: white space, // comments, single quotes and trailing commas.
 */
module Json {
  import NonLocale
  import opened Options

  datatype Value =
    | Null
    | Bool(b: bool)
    | Int(n: int)
    | Float(text: string) // the text handed to h64atof
    | Str(s: string)
    | List(items: seq<Value>)
    | Object(entries: seq<Entry>)

  datatype Entry = Entry(key: string, value: Value)

  /** A parsed value and the position behind it, white space and comments included. */
  datatype Parsed = Parsed(value: Value, end: nat)

  datatype Text = Text(s: string, end: nat)

  datatype Number = Number(end: nat, dots: nat)

  datatype Items = Items(values: seq<Value>, end: nat)

  datatype Entries = Entries(entries: seq<Entry>, end: nat)

  const MAX_DEPTH: nat := 20

  // --------------------------------------------------------------------- characters

  /** The character at position i, or the terminator. */
  function At(s: string, i: nat): char { if i < |s| then s[i] else '\0' }

  predicate IsSpace(c: char) { c == ' ' || c == '\n' || c == '\r' || c == '\t' }

  predicate IsDigit(c: char) { '0' <= c <= '9' }

  predicate CommentAt(s: string, i: nat) { At(s, i) == '/' && At(s, i + 1) == '/' }

  /** The position behind a comment, at its line end or the end of the text. */
  function LineEnd(s: string, i: nat): (e: nat)
    requires i <= |s|
    ensures i <= e <= |s|
    decreases |s| - i
  {
    if i < |s| && s[i] != '\0' && s[i] != '\r' && s[i] != '\n' then LineEnd(s, i + 1) else i
  }

  /** skipwhitespace */
  function Skip(s: string, i: nat): (e: nat)
    requires i <= |s|
    ensures i <= e <= |s|
    decreases |s| - i
  {
    if i < |s| && IsSpace(s[i]) then Skip(s, i + 1)
    else if CommentAt(s, i) then Skip(s, LineEnd(s, i + 2))
    else i
  }

  method SkipWhitespace(s: string, start: nat) returns (i: nat)
    requires start <= |s|
    ensures i == Skip(s, start)
  {
    i := start;
    while true
      invariant start <= i <= |s| && Skip(s, start) == Skip(s, i)
      decreases |s| - i
    {
      if IsSpace(At(s, i)) {
        i := i + 1;
      } else if At(s, i) == '/' && At(s, i + 1) == '/' {
        i := i + 2;
        ghost var from := i;
        while At(s, i) != '\0' && At(s, i) != '\r' && At(s, i) != '\n'
          invariant from <= i <= |s| && LineEnd(s, from) == LineEnd(s, i)
          decreases |s| - i
        {
          i := i + 1;
        }
      } else {
        break;
      }
    }
  }

  // ------------------------------------------------------------------------ scalars

  /** A digit that ends a number is followed by one of these. */
  predicate NumberEndsAt(s: string, i: nat) {
    i >= |s| || IsSpace(s[i]) || CommentAt(s, i) || s[i] == ']' || s[i] == '}' || s[i] == ','
  }

  predicate DotAt(s: string, i: nat, start: nat) {
    At(s, i) == '.' && i > start && IsDigit(At(s, i + 1)) && IsDigit(At(s, i - 1))
  }

  /** From position i inside a number that starts at start: its end, and the dots in it. */
  function ScanNumber(s: string, start: nat, i: nat, dots: nat): (r: Option<Number>)
    requires start <= i <= |s|
    ensures r.Some? ==> i < r.value.end <= |s|
    decreases |s| - i
  {
    if i >= |s| then None
    else if DotAt(s, i, start) then if dots + 1 > 1 then None else ScanNumber(s, start, i + 1, dots + 1)
    else if IsDigit(s[i]) && NumberEndsAt(s, i + 1) then Some(Number(i + 1, dots))
    else if IsDigit(s[i]) then ScanNumber(s, start, i + 1, dots)
    else None
  }

  function NumberValue(text: string, dots: nat): Value {
    if dots <= 0 then Int(NonLocale.ReadSigned(text, 10)) else Float(text)
  }

  /** The text up to the closing quote, escapes undone, and the position of that quote. */
  function ScanString(s: string, i: nat, quote: char): (r: Option<Text>)
    requires i <= |s|
    ensures r.Some? ==> i <= r.value.end < |s|
    decreases |s| - i
  {
    if At(s, i) == '\0' then None
    else if s[i] == quote then Some(Text("", i))
    else
      var j := if s[i] == '\\' then i + 1 else i;
      if At(s, j) == '\0' then None
      else
        var rest := ScanString(s, j + 1, quote);
        if rest.None? then None else Some(Text([s[j]] + rest.value.s, rest.value.end))
  }

  /** What has to follow the words true, false and null. */
  predicate WordEndsAt(s: string, i: nat) {
    var c := At(s, i);
    c == '\0' || c == ',' || IsSpace(c) || c == '/' || c == ']' || c == '}' || c == ':'
  }

  predicate HasWord(s: string, i: nat, word: string) { i + |word| <= |s| && s[i..i + |word|] == word }

  // ------------------------------------------------------------------------- parser

  /**
   json_ParseEx on the text from position p on. Where the code goes on after the end of
   the text inside a list or an object, having freed what it built, the model rejects.
   */
  function Parse(s: string, p: nat, depth: nat): (r: Option<Parsed>)
    requires p <= |s|
    ensures r.Some? ==> p < r.value.end <= |s|
    decreases depth, |s| - p, 0
  {
    if p == |s| || depth == 0 then None
    else
      var i := Skip(s, p);
      if IsDigit(At(s, i)) || (At(s, i) == '-' && IsDigit(At(s, i + 1))) then
        var r := ScanNumber(s, i, if s[i] == '-' then i + 1 else i, 0);
        if r.None? then None
        else Some(Parsed(NumberValue(s[i..r.value.end], r.value.dots), Skip(s, r.value.end)))
      else if HasWord(s, i, "true") then ParseWord(s, i + 4, Bool(true))
      else if HasWord(s, i, "false") then ParseWord(s, i + 5, Bool(false))
      else if HasWord(s, i, "null") then ParseWord(s, i + 4, Null)
      else if At(s, i) == '\"' || At(s, i) == '\'' then
        var r := ScanString(s, i + 1, s[i]);
        if r.None? then None else Some(Parsed(Str(r.value.s), Skip(s, r.value.end + 1)))
      else if At(s, i) == '[' then
        var r := ParseItems(s, i + 1, depth - 1);
        if r.None? then None else Some(Parsed(List(r.value.values), Skip(s, r.value.end)))
      else if At(s, i) == '{' then
        var r := ParseEntries(s, i + 1, depth - 1);
        if r.None? then None else Some(Parsed(Object(r.value.entries), Skip(s, r.value.end)))
      else None
  }

  function ParseWord(s: string, i: nat, v: Value): (r: Option<Parsed>)
    requires i <= |s|
    ensures r.Some? ==> i <= r.value.end <= |s|
  {
    if WordEndsAt(s, i) then Some(Parsed(v, Skip(s, i))) else None
  }

  /** The rest of a list: its values, and the position behind the closing bracket. */
  function ParseItems(s: string, p: nat, depth: nat): (r: Option<Items>)
    requires p <= |s|
    ensures r.Some? ==> p < r.value.end <= |s|
    decreases depth, |s| - p, 1
  {
    if At(s, p) == '\0' then None
    else if s[p] == ']' then Some(Items([], p + 1))
    else
      var item := Parse(s, Skip(s, p), depth);
      if item.None? then None
      else
        var q := Skip(s, item.value.end);
        if At(s, q) != ',' && At(s, q) != ']' then None
        else
          var rest := ParseItems(s, if s[q] == ',' then q + 1 else q, depth);
          if rest.None? then None else Some(Items([item.value.value] + rest.value.values, rest.value.end))
  }

  /** The rest of an object. */
  function ParseEntries(s: string, p: nat, depth: nat): (r: Option<Entries>)
    requires p <= |s|
    ensures r.Some? ==> p < r.value.end <= |s|
    decreases depth, |s| - p, 1
  {
    if At(s, p) == '\0' then None
    else if s[p] == '}' then Some(Entries([], p + 1))
    else
      var key := Parse(s, Skip(s, p), depth);
      if key.None? || !key.value.value.Str? then None
      else
        var colon := Skip(s, key.value.end);
        if At(s, colon) != ':' then None
        else
          var item := Parse(s, Skip(s, colon + 1), depth);
          if item.None? then None
          else
            var q := Skip(s, item.value.end);
            if At(s, q) != ',' && At(s, q) != '}' then None
            else
              var rest := ParseEntries(s, if s[q] == ',' then q + 1 else q, depth);
              if rest.None? then None
              else Some(Entries([Entry(key.value.value.s, item.value.value)] + rest.value.entries, rest.value.end))
  }

  /** json_Parse: the whole text has to be consumed. */
  function ParseText(s: string): Option<Value> {
    var r := Parse(s, 0, MAX_DEPTH);
    if r.None? || r.value.end < |s| then None else Some(r.value.value)
  }

  // ------------------------------------------------------------------------ printer

  function HexDigit(d: nat): char
    requires d < 16
  {
    if d < 10 then '0' + d as char else 'a' + (d - 10) as char
  }

  /** The two hexadecimal digits of a 7-bit character. */
  function Hex(c: char): string
    requires c < 128 as char
  {
    [HexDigit(c as int / 16), HexDigit(c as int % 16)]
  }

  /** The escaped form of one character; 7-bit characters only. */
  function EscapeChar(c: char): string {
    if c == '\\' || c == '\"' then ['\\', c]
    else if c == '\n' then "\\n"
    else if c == '\r' then "\\r"
    else if c < ' ' then "\\u" + ("00" + Hex(c))
    else [c]
  }

  function Escape(s: string): string {
    if |s| == 0 then "" else EscapeChar(s[0]) + Escape(s[1..])
  }

  function Digits(n: nat): (s: string)
    ensures |s| > 0 && forall i :: 0 <= i < |s| ==> IsDigit(s[i])
  {
    var last := '0' + (n % 10) as char;
    if n < 10 then [last] else Digits(n / 10) + [last]
  }

  function Decimal(n: int): string { if n < 0 then "-" + Digits(-n) else Digits(n) }

  /** json_Dump; what it prints for a floating point number is not modelled. */
  function Dump(v: Value): string
    decreases v, 0
  {
    match v
    case Null => "null"
    case Bool(b) => if b then "true" else "false"
    case Int(n) => Decimal(n)
    case Float(text) => text
    case Str(s) => DumpString(s)
    case List(items) => "[" + DumpItems(items)
    case Object(entries) => "{" + DumpEntries(entries)
  }

  function DumpString(s: string): string { "\"" + Escape(s) + "\"" }

  function DumpItems(items: seq<Value>): string
    decreases items, 1
  {
    if |items| == 0 then "]"
    else Dump(items[0]) + (if |items| > 1 then "," + DumpItems(items[1..]) else "]")
  }

  function DumpEntries(entries: seq<Entry>): string
    decreases entries, 1
  {
    if |entries| == 0 then "}"
    else DumpString(entries[0].key)
         + (":" + (Dump(entries[0].value) + (if |entries| > 1 then "," + DumpEntries(entries[1..]) else "}")))
  }

  // ---------------------------------------------------------- the parser as it is written

  /** A scan that read w before what r read. */
  function Prefixed(w: string, r: Option<Text>): Option<Text> {
    match r
    case None => None
    case Some(t) => Some(Text(w + t.s, t.end))
  }

  lemma PrefixedTwice(a: string, b: string, r: Option<Text>)
    ensures Prefixed(a, Prefixed(b, r)) == Prefixed(a + b, r)
  {
    if r.Some? { assert a + (b + r.value.s) == (a + b) + r.value.s; }
  }

  function ConsItem(v: Value, r: Option<Items>): Option<Items> {
    match r
    case None => None
    case Some(rest) => Some(Items([v] + rest.values, rest.end))
  }

  function ConsEntry(key: string, v: Value, r: Option<Entries>): Option<Entries> {
    match r
    case None => None
    case Some(rest) => Some(Entries([Entry(key, v)] + rest.entries, rest.end))
  }

  lemma ConsItems(a: seq<Value>, v: Value, r: Option<Items>)
    ensures PrependItems(a, ConsItem(v, r)) == PrependItems(a + [v], r)
  {
    if r.Some? { assert a + ([v] + r.value.values) == (a + [v]) + r.value.values; }
  }

  lemma ConsEntries(a: seq<Entry>, key: string, v: Value, r: Option<Entries>)
    ensures PrependEntries(a, ConsEntry(key, v, r)) == PrependEntries(a + [Entry(key, v)], r)
  {
    if r.Some? { assert a + ([Entry(key, v)] + r.value.entries) == (a + [Entry(key, v)]) + r.value.entries; }
  }

  function PrependItems(a: seq<Value>, r: Option<Items>): Option<Items> {
    match r
    case None => None
    case Some(rest) => Some(Items(a + rest.values, rest.end))
  }

  function PrependEntries(a: seq<Entry>, r: Option<Entries>): Option<Entries> {
    match r
    case None => None
    case Some(rest) => Some(Entries(a + rest.entries, rest.end))
  }

  /** The loop over the characters of a number; first is the position of its first digit. */
  method ReadNumber(s: string, start: nat, first: nat) returns (r: Option<Number>)
    requires start <= first <= |s|
    ensures r == ScanNumber(s, start, first, 0)
  {
    var dotsfound, k := 0, first;
    while k < |s|
      invariant first <= k <= |s|
      invariant ScanNumber(s, start, first, 0) == ScanNumber(s, start, k, dotsfound)
    {
      if DotAt(s, k, start) {
        dotsfound := dotsfound + 1;
        if dotsfound > 1 {
          return None;
        }
        k := k + 1;
      } else if IsDigit(s[k]) && NumberEndsAt(s, k + 1) {
        return Some(Number(k + 1, dotsfound));
      } else if IsDigit(s[k]) {
        k := k + 1;
      } else {
        return None;
      }
    }
    return None;
  }

  /** The loop over the characters of a string, from behind its opening quote. */
  method ReadString(s: string, first: nat, quote: char) returns (r: Option<Text>)
    requires first <= |s| && quote != '\\' && quote != '\0'
    ensures r == ScanString(s, first, quote)
  {
    var strbuf, escaped, p := "", false, first;
    assert Prefixed("", ScanString(s, first, quote)) == ScanString(s, first, quote) by {
      var t := ScanString(s, first, quote);
      if t.Some? { assert "" + t.value.s == t.value.s; }
    }
    while (At(s, p) != quote || escaped) && At(s, p) != '\0'
      invariant first <= p <= |s|
      invariant escaped ==> first < p && s[p - 1] == '\\'
      invariant ScanString(s, first, quote) == Prefixed(strbuf, ScanString(s, if escaped then p - 1 else p, quote))
      decreases |s| - p
    {
      if !escaped && s[p] == '\\' {
        escaped := true;
        p := p + 1;
        continue;
      }
      PrefixedTwice(strbuf, [s[p]], ScanString(s, p + 1, quote));
      escaped := false;
      strbuf := strbuf + [s[p]];
      p := p + 1;
    }
    if At(s, p) != quote {
      return None;
    }
    assert strbuf + "" == strbuf;
    return Some(Text(strbuf, p));
  }

  /** json_ParseEx on the text from position start on. */
  method ParseEx(s: string, start: nat, maxDepth: nat) returns (r: Option<Parsed>)
    requires start <= |s|
    ensures r == Parse(s, start, maxDepth)
    decreases maxDepth, |s| - start, 0
  {
    hide Skip, ScanNumber, ScanString, ParseItems, ParseEntries, NonLocale.ReadSigned;
    if start == |s| || maxDepth == 0 {
      return None;
    }
    var i := SkipWhitespace(s, start);
    if IsDigit(At(s, i)) || (At(s, i) == '-' && IsDigit(At(s, i + 1))) {
      var n := ReadNumber(s, i, if s[i] == '-' then i + 1 else i);
      if n.None? {
        return None;
      }
      var v: Value;
      if n.value.dots <= 0 {
        var number := NonLocale.StrToLL(s[i..n.value.end], 10);
        v := Int(number);
      } else {
        v := Float(s[i..n.value.end]);
      }
      var e := SkipWhitespace(s, n.value.end);
      return Some(Parsed(v, e));
    } else if HasWord(s, i, "true") || HasWord(s, i, "false") {
      var isTrue := s[i] == 't';
      var e := if isTrue then i + 4 else i + 5;
      TrueOrFalse(s, i);
      if WordEndsAt(s, e) {
        var e' := SkipWhitespace(s, e);
        return Some(Parsed(Bool(isTrue), e'));
      }
      return None;
    } else if HasWord(s, i, "null") {
      if WordEndsAt(s, i + 4) {
        var e := SkipWhitespace(s, i + 4);
        return Some(Parsed(Null, e));
      }
      return None;
    } else if At(s, i) == '\"' || At(s, i) == '\'' {
      var t := ReadString(s, i + 1, s[i]);
      if t.None? {
        return None;
      }
      var e := SkipWhitespace(s, t.value.end + 1);
      return Some(Parsed(Str(t.value.s), e));
    } else if At(s, i) == '[' {
      var items := ParseListBody(s, i + 1, maxDepth - 1);
      if items.None? {
        return None;
      }
      var e := SkipWhitespace(s, items.value.end);
      return Some(Parsed(List(items.value.values), e));
    } else if At(s, i) == '{' {
      var entries := ParseObjectBody(s, i + 1, maxDepth - 1);
      if entries.None? {
        return None;
      }
      var e := SkipWhitespace(s, entries.value.end);
      return Some(Parsed(Object(entries.value.entries), e));
    }
    return None;
  }

  lemma TrueOrFalse(s: string, i: nat)
    ensures HasWord(s, i, "true") ==> s[i] == 't' && i + 4 <= |s|
    ensures HasWord(s, i, "false") ==> s[i] == 'f' && i + 5 <= |s|
  {
    if HasWord(s, i, "true") { assert s[i..i + 4][0] == 't'; }
    if HasWord(s, i, "false") { assert s[i..i + 5][0] == 'f'; }
  }

  /** The loop over the values of a list, from behind the opening bracket. */
  method ParseListBody(s: string, first: nat, maxDepth: nat) returns (r: Option<Items>)
    requires first <= |s|
    ensures r == ParseItems(s, first, maxDepth)
    decreases maxDepth, |s| - first, 1
  {
    hide Parse, Skip;
    var contents: seq<Value>, p := [], first;
    assert PrependItems([], ParseItems(s, first, maxDepth)) == ParseItems(s, first, maxDepth) by {
      var t := ParseItems(s, first, maxDepth);
      if t.Some? { assert [] + t.value.values == t.value.values; }
    }
    while At(s, p) != ']' && At(s, p) != '\0'
      invariant first <= p <= |s|
      invariant ParseItems(s, first, maxDepth) == PrependItems(contents, ParseItems(s, p, maxDepth))
      decreases |s| - p
    {
      ghost var rest := ParseItems(s, p, maxDepth);
      var q := SkipWhitespace(s, p);
      var item := ParseEx(s, q, maxDepth);
      if item.None? {
        return None;
      }
      q := SkipWhitespace(s, item.value.end);
      if At(s, q) != ',' && At(s, q) != ']' {
        return None;
      }
      if At(s, q) == ',' {
        q := q + 1;
      }
      assert rest == ConsItem(item.value.value, ParseItems(s, q, maxDepth));
      ConsItems(contents, item.value.value, ParseItems(s, q, maxDepth));
      contents := contents + [item.value.value];
      p := q;
    }
    if At(s, p) != ']' {
      return None;
    }
    assert contents + [] == contents;
    return Some(Items(contents, p + 1));
  }

  lemma PrependNoEntries(r: Option<Entries>)
    ensures PrependEntries([], r) == r
  {
    if r.Some? { assert [] + r.value.entries == r.value.entries; }
  }

  /** The loop over the members of an object, from behind the opening brace. */
  method ParseObjectBody(s: string, first: nat, maxDepth: nat) returns (r: Option<Entries>)
    requires first <= |s|
    ensures r == ParseEntries(s, first, maxDepth)
    decreases maxDepth, |s| - first, 1
  {
    hide Parse, Skip;
    var entries: seq<Entry>, p := [], first;
    PrependNoEntries(ParseEntries(s, first, maxDepth));
    while At(s, p) != '}' && At(s, p) != '\0'
      invariant first <= p <= |s|
      invariant ParseEntries(s, first, maxDepth) == PrependEntries(entries, ParseEntries(s, p, maxDepth))
      decreases |s| - p
    {
      ghost var rest := ParseEntries(s, p, maxDepth);
      var q := SkipWhitespace(s, p);
      var key := ParseEx(s, q, maxDepth);
      if key.None? || !key.value.value.Str? {
        return None;
      }
      q := SkipWhitespace(s, key.value.end);
      if At(s, q) != ':' {
        return None;
      }
      q := SkipWhitespace(s, q + 1);
      var item := ParseEx(s, q, maxDepth);
      if item.None? {
        return None;
      }
      q := SkipWhitespace(s, item.value.end);
      if At(s, q) != ',' && At(s, q) != '}' {
        return None;
      }
      if At(s, q) == ',' {
        q := q + 1;
      }
      assert rest == ConsEntry(key.value.value.s, item.value.value, ParseEntries(s, q, maxDepth));
      ConsEntries(entries, key.value.value.s, item.value.value, ParseEntries(s, q, maxDepth));
      entries := entries + [Entry(key.value.value.s, item.value.value)];
      p := q;
    }
    if At(s, p) != '}' {
      return None;
    }
    assert entries + [] == entries;
    return Some(Entries(entries, p + 1));
  }

  /** json_Parse */
  method JsonParse(s: string) returns (r: Option<Value>)
    ensures r == ParseText(s)
  {
    var parsed := ParseEx(s, 0, MAX_DEPTH);
    if parsed.None? || parsed.value.end < |s| {
      return None;
    }
    return Some(parsed.value.value);
  }

  // --------------------------------------------------------- the printer as it is written

  method DumpStringValue(s: string) returns (resultbuf: string)
    ensures resultbuf == DumpString(s)
  {
    hide EscapeChar;
    resultbuf := "\"";
    var i := 0;
    assert s[0..] == s && "\"" + Escape(s) == resultbuf + Escape(s);
    while i < |s|
      invariant 0 <= i <= |s| && resultbuf + Escape(s[i..]) == "\"" + Escape(s)
    {
      assert s[i..][0] == s[i] && s[i..][1..] == s[i + 1..];
      assert resultbuf + (EscapeChar(s[i]) + Escape(s[i + 1..])) == (resultbuf + EscapeChar(s[i])) + Escape(s[i + 1..]);
      resultbuf := resultbuf + EscapeChar(s[i]);
      i := i + 1;
    }
    assert s[i..] == "" && resultbuf + "" == resultbuf;
    resultbuf := resultbuf + "\"";
  }

  /** json_Dump */
  method JsonDump(v: Value) returns (resultbuf: string)
    ensures resultbuf == Dump(v)
    decreases v, 0
  {
    match v
    case Null => resultbuf := "null";
    case Bool(b) => resultbuf := if b then "true" else "false";
    case Int(n) => resultbuf := Decimal(n);
    case Float(text) => resultbuf := text;
    case Str(s) => resultbuf := DumpStringValue(s);
    case List(items) => resultbuf := DumpList(items);
    case Object(entries) => resultbuf := DumpObject(entries);
  }

  method DumpList(items: seq<Value>) returns (resultbuf: string)
    ensures resultbuf == "[" + DumpItems(items)
    decreases items, 1
  {
    resultbuf := "[";
    var i := 0;
    assert items[0..] == items;
    while i < |items|
      invariant 0 <= i <= |items| && resultbuf + DumpItems(items[i..]) == "[" + DumpItems(items)
    {
      var s := JsonDump(items[i]);
      ghost var before, tail := resultbuf, DumpItems(items[i + 1..]);
      assert items[i..][0] == items[i] && items[i..][1..] == items[i + 1..];
      resultbuf := resultbuf + s;
      if i + 1 < |items| {
        assert before + (s + ("," + tail)) == ((before + s) + ",") + tail;
        resultbuf := resultbuf + ",";
      } else {
        assert before + (s + "]") == (before + s) + "]";
      }
      i := i + 1;
    }
    assert items[i..] == [];
    resultbuf := resultbuf + "]";
  }

  method DumpObject(entries: seq<Entry>) returns (resultbuf: string)
    ensures resultbuf == "{" + DumpEntries(entries)
    decreases entries, 1
  {
    resultbuf := "{";
    var i := 0;
    assert entries[0..] == entries;
    while i < |entries|
      invariant 0 <= i <= |entries| && resultbuf + DumpEntries(entries[i..]) == "{" + DumpEntries(entries)
    {
      var keys := DumpStringValue(entries[i].key);
      var s := JsonDump(entries[i].value);
      ghost var before, tail := resultbuf, DumpEntries(entries[i + 1..]);
      assert entries[i..][0] == entries[i] && entries[i..][1..] == entries[i + 1..];
      resultbuf := resultbuf + keys + ":" + s;
      if i + 1 < |entries| {
        Regroup(before, keys, s, ",", tail);
        resultbuf := resultbuf + ",";
      } else {
        Regroup(before, keys, s, "}", "");
        assert "}" + "" == "}";
      }
      i := i + 1;
    }
    assert entries[i..] == [];
    resultbuf := resultbuf + "}";
  }

  lemma Regroup(before: string, keys: string, s: string, sep: string, tail: string)
    ensures before + (keys + (":" + (s + (sep + tail)))) == (before + keys + ":" + s) + sep + tail
  {
  }
}
