/**
 What the JSON parser makes of what the JSON printer writes: for every value, every
 depth limit and every legal continuation of the text.
 */
module JsonRoundTrip {
  import NonLocale
  import opened Options
  import opened Json

  // ------------------------------------------------------------- which values, and how deep

  predicate SevenBit(s: string) { forall i :: 0 <= i < |s| ==> '\0' < s[i] <= 127 as char }

  /** No control characters: quotes and backslashes are fine. */
  predicate Printable(s: string) { forall i :: 0 <= i < |s| ==> ' ' <= s[i] <= 127 as char }

  /** Values the round trip is about: no floating point numbers, 64-bit integers, 7-bit strings. */
  predicate Ok(v: Value) {
    match v
    case Int(n) => NonLocale.INT64_MIN <= n <= NonLocale.INT64_MAX
    case Float(_) => false
    case Str(s) => SevenBit(s)
    case List(items) => forall i :: 0 <= i < |items| ==> Ok(items[i])
    case Object(entries) => forall i :: 0 <= i < |entries| ==> SevenBit(entries[i].key) && Ok(entries[i].value)
    case _ => true
  }

  function Height(v: Value): (h: nat)
    ensures h >= 1
    decreases v, 0
  {
    match v
    case List(items) => 1 + ItemsHeight(items)
    case Object(entries) => 1 + EntriesHeight(entries)
    case _ => 1
  }

  function ItemsHeight(items: seq<Value>): nat
    decreases items, 1
  {
    if |items| == 0 then 0
    else var a, b := Height(items[0]), ItemsHeight(items[1..]); if a > b then a else b
  }

  function EntriesHeight(entries: seq<Entry>): nat
    decreases entries, 1
  {
    if |entries| == 0 then 0
    else var a, b := Height(entries[0].value), EntriesHeight(entries[1..]); if a > b then a else b
  }

  // --------------------------------------------------------- what comes back for a value

  /** The parser undoes an escape by dropping the backslash, whatever follows it. */
  function ReadBackChar(c: char): string {
    if c == '\n' then "n"
    else if c == '\r' then "r"
    else if c < ' ' then "u" + ("00" + Hex(c))
    else [c]
  }

  function ReadBackString(s: string): string {
    if |s| == 0 then "" else ReadBackChar(s[0]) + ReadBackString(s[1..])
  }

  function ReadBack(v: Value): Value
    decreases v, 0
  {
    match v
    case Str(s) => Str(ReadBackString(s))
    case List(items) => List(ReadBackItems(items))
    case Object(entries) => Object(ReadBackEntries(entries))
    case _ => v
  }

  function ReadBackItems(items: seq<Value>): seq<Value>
    decreases items, 1
  {
    if |items| == 0 then [] else [ReadBack(items[0])] + ReadBackItems(items[1..])
  }

  function ReadBackEntries(entries: seq<Entry>): seq<Entry>
    decreases entries, 1
  {
    if |entries| == 0 then []
    else [Entry(ReadBackString(entries[0].key), ReadBack(entries[0].value))] + ReadBackEntries(entries[1..])
  }

  /** No string and no key anywhere in the value has a control character. */
  predicate AllPrintable(v: Value) {
    match v
    case Str(s) => Printable(s)
    case List(items) => forall i :: 0 <= i < |items| ==> AllPrintable(items[i])
    case Object(entries) => forall i :: 0 <= i < |entries| ==> Printable(entries[i].key) && AllPrintable(entries[i].value)
    case _ => true
  }

  lemma {:induction false} StringComesBack(s: string)
    requires SevenBit(s)
    ensures ReadBackString(s) == s <==> Printable(s)
  {
    if |s| > 0 {
      StringComesBack(s[1..]);
      assert s == [s[0]] + s[1..];
      if ReadBackString(s) == s {
        assert ReadBackString(s)[0] == ReadBackChar(s[0])[0];
        assert s[0] >= ' ';
        assert ReadBackString(s)[1..] == ReadBackString(s[1..]);
      }
    }
  }

  /** A value comes back unchanged exactly when it holds no control character. */
  lemma {:induction false} ValueComesBack(v: Value)
    requires Ok(v)
    ensures ReadBack(v) == v <==> AllPrintable(v)
    decreases v, 0
  {
    match v
    case Str(s) => StringComesBack(s);
    case List(items) => ItemsComeBack(items);
    case Object(entries) => EntriesComeBack(entries);
    case _ =>
  }

  lemma {:induction false} ItemsComeBack(items: seq<Value>)
    requires forall i :: 0 <= i < |items| ==> Ok(items[i])
    ensures ReadBackItems(items) == items <==> forall i :: 0 <= i < |items| ==> AllPrintable(items[i])
    decreases items, 1
  {
    if |items| > 0 {
      ValueComesBack(items[0]);
      ItemsComeBack(items[1..]);
      assert items == [items[0]] + items[1..];
      assert ReadBackItems(items)[0] == ReadBack(items[0]) && ReadBackItems(items)[1..] == ReadBackItems(items[1..]);
    }
  }

  lemma {:induction false} EntriesComeBack(entries: seq<Entry>)
    requires forall i :: 0 <= i < |entries| ==> SevenBit(entries[i].key) && Ok(entries[i].value)
    ensures ReadBackEntries(entries) == entries <==>
            forall i :: 0 <= i < |entries| ==> Printable(entries[i].key) && AllPrintable(entries[i].value)
    decreases entries, 1
  {
    if |entries| > 0 {
      StringComesBack(entries[0].key);
      ValueComesBack(entries[0].value);
      EntriesComeBack(entries[1..]);
      assert entries == [entries[0]] + entries[1..];
      var back := ReadBackEntries(entries);
      assert back[0] == Entry(ReadBackString(entries[0].key), ReadBack(entries[0].value));
      assert back[1..] == ReadBackEntries(entries[1..]);
    }
  }

  // ------------------------------------------------------------------ pieces of a text

  lemma WordSplits(s: string, i: nat, a: string, b: string)
    requires HasWord(s, i, a + b)
    ensures HasWord(s, i, a) && HasWord(s, i + |a|, b) && i + |a| + |b| <= |s|
  {
    assert s[i..i + |a|] == (a + b)[..|a|] == a;
    assert s[i + |a|..i + |a| + |b|] == (a + b)[|a|..] == b;
  }

  lemma WordStarts(s: string, i: nat, w: string)
    requires HasWord(s, i, w) && |w| > 0
    ensures At(s, i) == w[0] && i < |s| && i + |w| <= |s|
  {
    assert s[i..i + |w|][0] == w[0];
  }

  /** Two pieces in a row, both at their places and with their first characters. */
  lemma TwoPieces(s: string, i: nat, a: string, b: string)
    requires HasWord(s, i, a + b) && |a| > 0 && |b| > 0
    ensures HasWord(s, i, a) && HasWord(s, i + |a|, b)
    ensures i + |a| < |s| && At(s, i) == a[0] && At(s, i + |a|) == b[0]
  {
    WordSplits(s, i, a, b);
    WordStarts(s, i, a);
    WordStarts(s, i + |a|, b);
  }

  /** The text behind a value: at its end, or a character that may follow inside a list or object. */
  predicate Follow(s: string, e: nat) {
    e == |s| || (e < |s| && (s[e] == ',' || s[e] == ']' || s[e] == '}'))
  }

  lemma NothingToSkip(s: string, i: nat)
    requires i <= |s| && !IsSpace(At(s, i)) && At(s, i) != '/'
    ensures Skip(s, i) == i
  {
  }

  // --------------------------------------------------------------------------- strings

  /** One plain character: neither quote, backslash nor terminator. */
  lemma ScanPlain(s: string, i: nat)
    requires i < |s| && s[i] != '\0' && s[i] != '\"' && s[i] != '\\'
    ensures ScanString(s, i, '\"') == Prefixed([s[i]], ScanString(s, i + 1, '\"'))
  {
  }

  lemma ScanEscaped(s: string, i: nat)
    requires i + 1 < |s| && s[i] == '\\' && s[i + 1] != '\0'
    ensures ScanString(s, i, '\"') == Prefixed([s[i + 1]], ScanString(s, i + 2, '\"'))
  {
  }

  predicate PlainWord(w: string) { forall k :: 0 <= k < |w| ==> w[k] != '\0' && w[k] != '\"' && w[k] != '\\' }

  /** The characters of a word without quotes, backslashes and terminators are scanned as they are. */
  lemma {:induction false} ScanPlainWord(s: string, i: nat, w: string)
    requires HasWord(s, i, w) && PlainWord(w)
    ensures ScanString(s, i, '\"') == Prefixed(w, ScanString(s, i + |w|, '\"'))
    decreases |w|
  {
    hide ScanString;
    if |w| == 0 {
      var r := ScanString(s, i, '\"');
      if r.Some? { assert w + r.value.s == r.value.s; }
    } else {
      assert w == [w[0]] + w[1..];
      WordStarts(s, i, w);
      WordSplits(s, i, [w[0]], w[1..]);
      ScanPlain(s, i);
      ScanPlainWord(s, i + 1, w[1..]);
      PrefixedTwice([w[0]], w[1..], ScanString(s, i + |w|, '\"'));
    }
  }

  lemma HexIsPlain(c: char)
    requires c < ' '
    ensures PlainWord("00" + Hex(c)) && |Hex(c)| == 2
  {
  }

  /** A control character is printed as six characters, of which the parser drops the first. */
  lemma ScanControl(s: string, i: nat, hex: string)
    requires HasWord(s, i, "\\u" + hex) && PlainWord(hex)
    ensures ScanString(s, i, '\"') == Prefixed("u" + hex, ScanString(s, i + 2 + |hex|, '\"'))
  {
    hide ScanString;
    WordSplits(s, i, "\\u", hex);
    WordSplits(s, i, "\\", "u");
    WordStarts(s, i, "\\");
    WordStarts(s, i + 1, "u");
    ScanEscaped(s, i);
    ScanPlainWord(s, i + 2, hex);
    PrefixedTwice(['u'], hex, ScanString(s, i + 2 + |hex|, '\"'));
  }

  lemma ScanEscapeChar(s: string, i: nat, c: char)
    requires '\0' < c <= 127 as char && HasWord(s, i, EscapeChar(c))
    ensures ScanString(s, i, '\"') == Prefixed(ReadBackChar(c), ScanString(s, i + |EscapeChar(c)|, '\"'))
  {
    hide ScanString, Hex;
    var w := EscapeChar(c);
    WordStarts(s, i, w);
    if c < ' ' && c != '\n' && c != '\r' {
      HexIsPlain(c);
      ScanControl(s, i, "00" + Hex(c));
    } else if w[0] == '\\' {
      assert s[i + 1] == s[i..i + |w|][1] == w[1];
      ScanEscaped(s, i);
    } else {
      ScanPlain(s, i);
    }
  }

  lemma ScanClosingQuote(s: string, i: nat)
    requires HasWord(s, i, "\"")
    ensures ScanString(s, i, '\"') == Some(Text("", i))
  {
    WordStarts(s, i, "\"");
  }

  /** An escaped text is scanned up to its closing quote. */
  lemma {:induction false} ScanDumpedString(s: string, i: nat, t: string)
    requires SevenBit(t) && HasWord(s, i, Escape(t) + "\"")
    ensures ScanString(s, i, '\"') == Some(Text(ReadBackString(t), i + |Escape(t)|))
    decreases |t|
  {
    hide ScanString, EscapeChar, ReadBackChar;
    if |t| == 0 {
      assert Escape(t) + "\"" == "\"";
      ScanClosingQuote(s, i);
    } else {
      var head, tail := EscapeChar(t[0]), Escape(t[1..]);
      assert Escape(t) + "\"" == head + (tail + "\"");
      WordSplits(s, i, head, tail + "\"");
      ScanEscapeChar(s, i, t[0]);
      ScanDumpedString(s, i + |head|, t[1..]);
    }
  }

  // --------------------------------------------------------------------------- numbers

  lemma {:induction false} ValueOfAppended(s: string, c: char, base: nat, n: nat)
    ensures NonLocale.Value(s + [c], base, n) == NonLocale.Value(s, base, n) * base + NonLocale.ParseDigit(c)
    decreases |s|
  {
    if |s| > 0 {
      ValueOfAppended(s[1..], c, base, n * base + NonLocale.ParseDigit(s[0]));
      assert (s + [c])[1..] == s[1..] + [c];
    } else {
      assert s + [c] == [c];
    }
  }

  lemma {:induction false} ValueOfDigits(n: nat)
    ensures NonLocale.Value(Digits(n), 10, 0) == n && NonLocale.AllDigits(Digits(n), 10)
  {
    var last := '0' + (n % 10) as char;
    assert NonLocale.ParseDigit(last) == n % 10;
    if n < 10 {
      assert Digits(n) == [last];
    } else {
      ValueOfDigits(n / 10);
      ValueOfAppended(Digits(n / 10), last, 10, 0);
    }
  }

  /** Every 64-bit integer is read back from its decimal form. */
  lemma IntegerComesBack(n: int)
    requires NonLocale.INT64_MIN <= n <= NonLocale.INT64_MAX
    ensures NonLocale.ReadSigned(Decimal(n), 10) == n
  {
    var m := if n < 0 then -n else n;
    ValueOfDigits(m);
    if n < 0 {
      assert Decimal(n)[1..] == Digits(m);
      assert NonLocale.SignedValue(Decimal(n), 10) == n;
    } else {
      assert IsDigit(Digits(m)[0]);
    }
    NonLocale.ReadsExactlyWhatFitsSigned(Decimal(n), 10);
  }

  /** A run of digits ends where something follows that ends a number. */
  lemma {:induction false} ScanDigits(s: string, start: nat, i: nat, w: string)
    requires start <= i && HasWord(s, i, w) && |w| > 0 && forall k :: 0 <= k < |w| ==> IsDigit(w[k])
    requires Follow(s, i + |w|)
    ensures ScanNumber(s, start, i, 0) == Some(Number(i + |w|, 0))
    decreases |w|
  {
    WordStarts(s, i, w);
    if |w| > 1 {
      assert s[i + 1] == s[i..i + |w|][1] == w[1];
      assert w == [w[0]] + w[1..];
      WordSplits(s, i, [w[0]], w[1..]);
      ScanDigits(s, start, i + 1, w[1..]);
    }
  }

  // ---------------------------------------------------------------------- whole values

  /** The parse of a dumped value: it comes back unless it is nested too deeply. */
  function Expected(v: Value, depth: nat, end: nat): Option<Parsed> {
    if Height(v) <= depth then Some(Parsed(ReadBack(v), end)) else None
  }

  /** How a printed value can begin. */
  predicate Begins(c: char) {
    IsDigit(c) || c == '-' || c == '\"' || c == '[' || c == '{' || c == 't' || c == 'f' || c == 'n'
  }

  lemma DumpBegins(v: Value)
    requires Ok(v)
    ensures |Dump(v)| > 0 && Begins(Dump(v)[0])
  {
    match v
    case Int(n) => if n >= 0 { assert IsDigit(Digits(n)[0]); }
    case _ =>
  }

  lemma ParseDumpedInt(s: string, p: nat, n: int, depth: nat)
    requires NonLocale.INT64_MIN <= n <= NonLocale.INT64_MAX && depth > 0
    requires HasWord(s, p, Decimal(n)) && Follow(s, p + |Decimal(n)|)
    ensures Parse(s, p, depth) == Some(Parsed(Int(n), p + |Decimal(n)|))
  {
    hide ScanNumber, NonLocale.ReadSigned, Digits;
    var w, m := Decimal(n), if n < 0 then -n else n;
    var end := p + |w|;
    WordStarts(s, p, w);
    NothingToSkip(s, p);
    NothingToSkip(s, end);
    IntegerComesBack(n);
    if n < 0 {
      WordSplits(s, p, "-", Digits(m));
      WordStarts(s, p + 1, Digits(m));
      ScanDigits(s, p, p + 1, Digits(m));
    } else {
      ScanDigits(s, p, p, w);
    }
  }

  lemma NoWordAt(s: string, p: nat)
    requires At(s, p) != 't' && At(s, p) != 'f' && At(s, p) != 'n'
    ensures !HasWord(s, p, "true") && !HasWord(s, p, "false") && !HasWord(s, p, "null")
  {
    if HasWord(s, p, "true") { WordStarts(s, p, "true"); }
    if HasWord(s, p, "false") { WordStarts(s, p, "false"); }
    if HasWord(s, p, "null") { WordStarts(s, p, "null"); }
  }

  lemma ParseDumpedString(s: string, p: nat, t: string, depth: nat)
    requires SevenBit(t) && depth > 0 && HasWord(s, p, DumpString(t))
    requires var e := p + |DumpString(t)|; Follow(s, e) || At(s, e) == ':'
    ensures Parse(s, p, depth) == Some(Parsed(Str(ReadBackString(t)), p + |DumpString(t)|))
  {
    hide ScanString, Escape, ReadBackString, HasWord, Skip, SevenBit;
    assert DumpString(t) == "\"" + (Escape(t) + "\"");
    WordSplits(s, p, "\"", Escape(t) + "\"");
    WordStarts(s, p, "\"");
    NothingToSkip(s, p);
    ScanDumpedString(s, p + 1, t);
    NothingToSkip(s, p + |DumpString(t)|);
    NoWordAt(s, p);
  }

  lemma ParseDumpedWord(s: string, p: nat, v: Value, depth: nat)
    requires (v.Null? || v.Bool?) && depth > 0 && HasWord(s, p, Dump(v)) && Follow(s, p + |Dump(v)|)
    ensures Parse(s, p, depth) == Some(Parsed(v, p + |Dump(v)|))
  {
    WordStarts(s, p, Dump(v));
    NothingToSkip(s, p);
    NothingToSkip(s, p + |Dump(v)|);
    if HasWord(s, p, "true") { WordStarts(s, p, "true"); }
    if HasWord(s, p, "false") { WordStarts(s, p, "false"); }
  }

  lemma ParseOpens(s: string, p: nat, depth: nat)
    requires p < |s| && depth > 0
    ensures s[p] == '[' ==> Parse(s, p, depth) == match ParseItems(s, p + 1, depth - 1)
                                                  case None => None
                                                  case Some(r) => Some(Parsed(List(r.values), Skip(s, r.end)))
    ensures s[p] == '{' ==> Parse(s, p, depth) == match ParseEntries(s, p + 1, depth - 1)
                                                  case None => None
                                                  case Some(r) => Some(Parsed(Object(r.entries), Skip(s, r.end)))
  {
    if s[p] == '[' || s[p] == '{' {
      NothingToSkip(s, p);
      NoWordAt(s, p);
    }
  }

  /** One round of the list loop where no white space is in the way. */
  lemma ItemRound(s: string, p: nat, depth: nat, item: Option<Parsed>)
    requires p < |s| && Begins(s[p]) && item == Parse(s, p, depth)
    requires item.Some? ==> At(s, item.value.end) == ',' || At(s, item.value.end) == ']'
    ensures ParseItems(s, p, depth) ==
            if item.None? then None
            else ConsItem(item.value.value,
                          ParseItems(s, if At(s, item.value.end) == ',' then item.value.end + 1 else item.value.end, depth))
  {
    hide Parse, Skip;
    NothingToSkip(s, p);
    if item.Some? { NothingToSkip(s, item.value.end); }
  }

  lemma ListCloses(s: string, p: nat, depth: nat)
    requires At(s, p) == ']' && p < |s|
    ensures ParseItems(s, p, depth) == Some(Items([], p + 1))
  {
  }

  /** One round of the object loop where no white space is in the way. */
  lemma EntryRound(s: string, p: nat, depth: nat, key: Option<Parsed>, item: Option<Parsed>)
    requires p < |s| && Begins(s[p]) && key == Parse(s, p, depth)
    requires key.Some? ==> key.value.value.Str? && At(s, key.value.end) == ':' && key.value.end < |s|
    requires key.Some? ==> Begins(At(s, key.value.end + 1)) && item == Parse(s, key.value.end + 1, depth)
    requires key.Some? && item.Some? ==> At(s, item.value.end) == ',' || At(s, item.value.end) == '}'
    ensures ParseEntries(s, p, depth) ==
            if key.None? || item.None? then None
            else ConsEntry(key.value.value.s, item.value.value,
                           ParseEntries(s, if At(s, item.value.end) == ',' then item.value.end + 1 else item.value.end, depth))
  {
    hide Parse, Skip;
    NothingToSkip(s, p);
    if key.Some? {
      NothingToSkip(s, key.value.end);
      NothingToSkip(s, key.value.end + 1);
      if item.Some? { NothingToSkip(s, item.value.end); }
    }
  }

  lemma ObjectCloses(s: string, p: nat, depth: nat)
    requires At(s, p) == '}' && p < |s|
    ensures ParseEntries(s, p, depth) == Some(Entries([], p + 1))
  {
  }

  /** Where the pieces of a printed list are: the first value, what follows it, and the rest. */
  lemma ItemsLayout(s: string, p: nat, items: seq<Value>)
    requires |items| > 0 && (forall i :: 0 <= i < |items| ==> Ok(items[i])) && HasWord(s, p, DumpItems(items))
    ensures var head, tail := Dump(items[0]), DumpItems(items[1..]);
            var e := p + |head|;
            && HasWord(s, p, head) && Follow(s, e) && p < |s| && Begins(s[p])
            && (if |items| > 1 then At(s, e) == ',' && HasWord(s, e + 1, tail) else At(s, e) == ']' && HasWord(s, e, tail))
            && |DumpItems(items)| == |head| + |tail| + (if |items| > 1 then 1 else 0)
  {
    hide HasWord, Dump, DumpItems;
    ItemsUnfold(items);
    DumpBegins(items[0]);
    if |items| > 1 { ItemsNotEmpty(items[1..]); }
    hide Ok;
    ListPieces(s, p, Dump(items[0]), |items| > 1, DumpItems(items[1..]));
  }

  lemma ItemsUnfold(items: seq<Value>)
    requires |items| > 0
    ensures DumpItems(items) == Dump(items[0]) + (if |items| > 1 then "," + DumpItems(items[1..]) else "]")
    ensures |items| == 1 ==> DumpItems(items[1..]) == "]"
  {
    hide Dump;
  }

  lemma ListPieces(s: string, p: nat, head: string, more: bool, tail: string)
    requires HasWord(s, p, head + (if more then "," + tail else "]")) && |head| > 0 && (more ==> |tail| > 0)
    ensures var e := p + |head|;
            && HasWord(s, p, head) && e < |s| && At(s, p) == head[0]
            && (if more then At(s, e) == ',' && HasWord(s, e + 1, tail) else At(s, e) == ']' && HasWord(s, e, "]"))
  {
    hide HasWord;
    if more {
      TwoPieces(s, p, head, "," + tail);
      TwoPieces(s, p + |head|, ",", tail);
    } else {
      TwoPieces(s, p, head, "]");
    }
  }

  lemma ItemsNotEmpty(items: seq<Value>)
    requires forall i :: 0 <= i < |items| ==> Ok(items[i])
    ensures |DumpItems(items)| > 0
  {
    if |items| > 0 { DumpBegins(items[0]); }
  }

  /** The same for a printed object. */
  lemma EntriesLayout(s: string, p: nat, entries: seq<Entry>)
    requires |entries| > 0 && (forall i :: 0 <= i < |entries| ==> SevenBit(entries[i].key) && Ok(entries[i].value))
    requires HasWord(s, p, DumpEntries(entries))
    ensures var key, head, tail := DumpString(entries[0].key), Dump(entries[0].value), DumpEntries(entries[1..]);
            var c := p + |key|;
            var e := c + 1 + |head|;
            && HasWord(s, p, key) && p < |s| && Begins(s[p]) && c < |s| && At(s, c) == ':'
            && HasWord(s, c + 1, head) && Begins(At(s, c + 1)) && Follow(s, e)
            && (if |entries| > 1 then At(s, e) == ',' && HasWord(s, e + 1, tail) else At(s, e) == '}' && HasWord(s, e, tail))
            && |DumpEntries(entries)| == |key| + 1 + |head| + |tail| + (if |entries| > 1 then 1 else 0)
  {
    hide HasWord, Dump, DumpString, DumpEntries;
    EntriesUnfold(entries);
    KeyBegins(entries[0].key);
    DumpBegins(entries[0].value);
    if |entries| > 1 { EntriesNotEmpty(entries[1..]); }
    hide Ok, SevenBit;
    ObjectPieces(s, p, DumpString(entries[0].key), Dump(entries[0].value), |entries| > 1, DumpEntries(entries[1..]));
  }

  lemma EntriesUnfold(entries: seq<Entry>)
    requires |entries| > 0
    ensures DumpEntries(entries) ==
            DumpString(entries[0].key)
            + (":" + (Dump(entries[0].value) + (if |entries| > 1 then "," + DumpEntries(entries[1..]) else "}")))
    ensures |entries| == 1 ==> DumpEntries(entries[1..]) == "}"
  {
    hide Dump, DumpString;
  }

  lemma ObjectPieces(s: string, p: nat, key: string, head: string, more: bool, tail: string)
    requires HasWord(s, p, key + (":" + (head + (if more then "," + tail else "}"))))
    requires |key| > 0 && |head| > 0 && (more ==> |tail| > 0)
    ensures var c := p + |key|;
            var e := c + 1 + |head|;
            && HasWord(s, p, key) && At(s, p) == key[0] && At(s, c) == ':'
            && HasWord(s, c + 1, head) && At(s, c + 1) == head[0] && e < |s|
            && (if more then At(s, e) == ',' && HasWord(s, e + 1, tail) else At(s, e) == '}' && HasWord(s, e, "}"))
  {
    hide HasWord;
    var c, behind := p + |key|, if more then "," + tail else "}";
    TwoPieces(s, p, key, ":" + (head + behind));
    TwoPieces(s, c, ":", head + behind);
    TwoPieces(s, c + 1, head, behind);
    if more { TwoPieces(s, c + 1 + |head|, ",", tail); }
  }

  lemma EntriesNotEmpty(entries: seq<Entry>)
    ensures |DumpEntries(entries)| > 0
  {
    if |entries| > 0 { KeyBegins(entries[0].key); }
  }

  lemma KeyBegins(key: string)
    ensures |DumpString(key)| > 0 && Begins(DumpString(key)[0])
  {
  }

  /**
   The parser on a dumped value inside any text: with enough depth it yields what comes back for the value
   and stops exactly behind it, with less it rejects.
   */
  lemma {:induction false} ParseDumped(s: string, p: nat, v: Value, depth: nat)
    requires Ok(v) && HasWord(s, p, Dump(v)) && Follow(s, p + |Dump(v)|)
    ensures Parse(s, p, depth) == Expected(v, depth, p + |Dump(v)|)
    decreases v, 0
  {
    hide Parse, ParseItems, ParseEntries, Skip, DumpItems, DumpEntries;
    DumpBegins(v);
    WordStarts(s, p, Dump(v));
    if depth == 0 {
      ParseNoDepth(s, p);
    } else {
      match v
      case Int(n) => ParseDumpedInt(s, p, n, depth);
      case Str(t) => ParseDumpedString(s, p, t, depth);
      case List(items) => ParseDumpedList(s, p, items, depth);
      case Object(entries) => ParseDumpedObject(s, p, entries, depth);
      case _ => ParseDumpedWord(s, p, v, depth);
    }
  }

  lemma ParseNoDepth(s: string, p: nat)
    requires p <= |s|
    ensures Parse(s, p, 0) == None
  {
  }

  lemma {:induction false} ParseDumpedList(s: string, p: nat, items: seq<Value>, depth: nat)
    requires (forall i :: 0 <= i < |items| ==> Ok(items[i])) && depth > 0
    requires HasWord(s, p, Dump(List(items))) && Follow(s, p + |Dump(List(items))|)
    ensures Parse(s, p, depth) == Expected(List(items), depth, p + |Dump(List(items))|)
    decreases items, 2
  {
    hide Parse, ParseItems, Skip, HasWord, Ok;
    assert Dump(List(items)) == "[" + DumpItems(items);
    WordSplits(s, p, "[", DumpItems(items));
    WordStarts(s, p, "[");
    ParseOpens(s, p, depth);
    ParseDumpedItems(s, p + 1, items, depth - 1);
    NothingToSkip(s, p + |Dump(List(items))|);
  }

  lemma {:induction false} ParseDumpedObject(s: string, p: nat, entries: seq<Entry>, depth: nat)
    requires (forall i :: 0 <= i < |entries| ==> SevenBit(entries[i].key) && Ok(entries[i].value)) && depth > 0
    requires HasWord(s, p, Dump(Object(entries))) && Follow(s, p + |Dump(Object(entries))|)
    ensures Parse(s, p, depth) == Expected(Object(entries), depth, p + |Dump(Object(entries))|)
    decreases entries, 2
  {
    hide Parse, ParseEntries, Skip, HasWord, SevenBit, Ok, DumpEntries, ReadBackEntries, EntriesHeight;
    EntriesNotEmpty(entries);
    assert Dump(Object(entries)) == "{" + DumpEntries(entries);
    WordSplits(s, p, "{", DumpEntries(entries));
    WordStarts(s, p, "{");
    ParseOpens(s, p, depth);
    ParseDumpedEntries(s, p + 1, entries, depth - 1);
    NothingToSkip(s, p + |Dump(Object(entries))|);
  }

  /** The same for the rest of a list. */
  lemma {:induction false} ParseDumpedItems(s: string, p: nat, items: seq<Value>, depth: nat)
    requires (forall i :: 0 <= i < |items| ==> Ok(items[i])) && HasWord(s, p, DumpItems(items))
    ensures ParseItems(s, p, depth) ==
            if ItemsHeight(items) <= depth then Some(Items(ReadBackItems(items), p + |DumpItems(items)|)) else None
    decreases items, 1
  {
    hide Parse, ParseItems, Dump, Height, ReadBack, Ok, HasWord;
    if |items| == 0 {
      WordStarts(s, p, "]");
      ListCloses(s, p, depth);
    } else {
      ItemsLayout(s, p, items);
      ParseDumped(s, p, items[0], depth);
      ItemRound(s, p, depth, Parse(s, p, depth));
      var e := p + |Dump(items[0])|;
      ParseDumpedItems(s, if |items| > 1 then e + 1 else e, items[1..], depth);
    }
  }

  /** The same for the rest of an object. */
  lemma {:induction false} ParseDumpedEntries(s: string, p: nat, entries: seq<Entry>, depth: nat)
    requires (forall i :: 0 <= i < |entries| ==> SevenBit(entries[i].key) && Ok(entries[i].value))
    requires HasWord(s, p, DumpEntries(entries))
    ensures ParseEntries(s, p, depth) ==
            if EntriesHeight(entries) <= depth then Some(Entries(ReadBackEntries(entries), p + |DumpEntries(entries)|)) else None
    decreases entries, 1
  {
    hide Parse, ParseEntries, Dump, DumpString, Height, ReadBack, ReadBackString, Ok, SevenBit, HasWord;
    if |entries| == 0 {
      WordStarts(s, p, "}");
      ObjectCloses(s, p, depth);
    } else {
      EntriesLayout(s, p, entries);
      var c := p + |DumpString(entries[0].key)|;
      ParseDumped(s, c + 1, entries[0].value, depth);
      var e := c + 1 + |Dump(entries[0].value)|;
      if depth > 0 {
        ParseDumpedString(s, p, entries[0].key, depth);
        EntryRound(s, p, depth, Parse(s, p, depth), Parse(s, c + 1, depth));
        ParseDumpedEntries(s, if |entries| > 1 then e + 1 else e, entries[1..], depth);
      } else {
        ParseNoDepth(s, p);
        EntryRound(s, p, depth, None, None);
      }
    }
  }

  // ---------------------------------------------------------------------- main results

  /** json_Parse on json_Dump: what comes back, or nothing if the value is nested more than 20 deep. */
  lemma ParseOfDump(v: Value)
    requires Ok(v)
    ensures ParseText(Dump(v)) == if Height(v) <= MAX_DEPTH then Some(ReadBack(v)) else None
  {
    hide Parse, Dump;
    var s := Dump(v);
    assert s[0..|s|] == s;
    ParseDumped(s, 0, v, MAX_DEPTH);
  }

  /** A value survives printing and parsing exactly when it is at most 20 deep and holds no control character. */
  lemma RoundTrip(v: Value)
    requires Ok(v)
    ensures ParseText(Dump(v)) == Some(v) <==> Height(v) <= MAX_DEPTH && AllPrintable(v)
  {
    hide ParseText, Dump, ReadBack, Height, AllPrintable;
    ParseOfDump(v);
    ValueComesBack(v);
  }

  /** A line feed is printed as an escape, and the parser keeps the letter of it. */
  lemma LineFeedIsLost()
    ensures ParseText(Dump(Str("\n"))) == Some(Str("n")) != Some(Str("\n"))
  {
    ParseOfDump(Str("\n"));
    assert ReadBackString("\n") == ReadBackChar('\n') + ReadBackString("\n"[1..]);
    assert ReadBackString("\n") == "n";
  }

  /** Lists inside each other, with an empty one inside of all. */
  function Nested(n: nat): Value {
    if n == 0 then List([]) else List([Nested(n - 1)])
  }

  lemma {:induction false} NestedIsDeep(n: nat)
    ensures Ok(Nested(n)) && Height(Nested(n)) == n + 1
  {
    if n > 0 {
      NestedIsDeep(n - 1);
      assert [Nested(n - 1)][1..] == [];
      assert ItemsHeight([Nested(n - 1)]) == Height(Nested(n - 1));
    }
  }

  /** Twenty lists inside each other are read back, one more is rejected. */
  lemma TwentyOneIsTooDeep()
    ensures ParseText(Dump(Nested(19))).Some? && ParseText(Dump(Nested(20))) == None
  {
    hide Nested, Dump;
    NestedIsDeep(19);
    NestedIsDeep(20);
    ParseOfDump(Nested(19));
    ParseOfDump(Nested(20));
  }

  /** So printing is injective on the values that survive. */
  lemma DumpIsInjective(v: Value, w: Value)
    requires Ok(v) && Ok(w) && Height(v) <= MAX_DEPTH && Height(w) <= MAX_DEPTH && AllPrintable(v) && AllPrintable(w)
    requires Dump(v) == Dump(w)
    ensures v == w
  {
    hide *;
    RoundTrip(v);
    RoundTrip(w);
  }
}
