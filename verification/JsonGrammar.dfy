/**
 Which texts the JSON parser accepts, and as what (horse64/json.c): white space, comments, numbers, strings and
 nesting character by character, and the parser as exactly that grammar. Texts are C strings, without a terminator in
 them.
 */
module JsonGrammar {
  import NonLocale
  import opened Options
  import opened Json

  predicate CText(s: string) { '\0' !in s }

  // ---------------------------------------------------------------------- between tokens

  predicate Blank(c: char) { c in " \t\r\n" }

  /** A comment from two slashes to the end of its line, or of the text. */
  predicate Comment(s: string, i: nat, k: nat) {
    && i + 2 <= k <= |s| && s[i] == '/' && s[i + 1] == '/'
    && (forall m :: i + 2 <= m < k ==> s[m] != '\r' && s[m] != '\n')
    && (k < |s| ==> s[k] == '\r' || s[k] == '\n')
  }

  /** From i to j there is nothing but white space and comments. */
  ghost predicate Gap(s: string, i: nat, j: nat)
    decreases j - i
  {
    && i <= j <= |s|
    && (i == j || (Blank(s[i]) && Gap(s, i + 1, j)) || exists k: nat :: k <= j && Comment(s, i, k) && Gap(s, k, j))
  }

  /** And at j there is something else. */
  ghost predicate WholeGap(s: string, i: nat, j: nat) {
    Gap(s, i, j) && (j < |s| ==> !Blank(s[j]) && !(s[j] == '/' && j + 1 < |s| && s[j + 1] == '/'))
  }

  lemma {:induction false} LineEndOfComment(s: string, i: nat, k: nat)
    requires CText(s) && i <= k <= |s| && (k < |s| ==> s[k] == '\r' || s[k] == '\n')
    requires forall m :: i <= m < k ==> s[m] != '\r' && s[m] != '\n'
    ensures LineEnd(s, i) == k
    decreases k - i
  {
    if i < k {
      assert s[i] in s;
      LineEndOfComment(s, i + 1, k);
    }
  }

  lemma {:induction false} LineEndEndsComment(s: string, i: nat)
    requires CText(s) && i <= |s|
    ensures var k := LineEnd(s, i);
            (k < |s| ==> s[k] == '\r' || s[k] == '\n') && forall m :: i <= m < k ==> s[m] != '\r' && s[m] != '\n'
    decreases |s| - i
  {
    if i < |s| {
      assert s[i] in s;
      if s[i] != '\r' && s[i] != '\n' { LineEndEndsComment(s, i + 1); }
    }
  }

  lemma {:induction false} GapIsSkipped(s: string, i: nat, j: nat)
    requires CText(s) && Gap(s, i, j)
    ensures Skip(s, i) == Skip(s, j)
    decreases j - i
  {
    if i < j {
      if Blank(s[i]) && Gap(s, i + 1, j) {
        GapIsSkipped(s, i + 1, j);
      } else {
        var k: nat :| k <= j && Comment(s, i, k) && Gap(s, k, j);
        LineEndOfComment(s, i + 2, k);
        GapIsSkipped(s, k, j);
      }
    }
  }

  lemma {:induction false} SkippedIsGap(s: string, i: nat)
    requires CText(s) && i <= |s|
    ensures WholeGap(s, i, Skip(s, i))
    decreases |s| - i
  {
    if i < |s| && Blank(s[i]) {
      SkippedIsGap(s, i + 1);
    } else if CommentAt(s, i) {
      LineEndEndsComment(s, i + 2);
      var k := LineEnd(s, i + 2);
      assert Comment(s, i, k);
      SkippedIsGap(s, k);
    }
  }

  /** What is passed over between tokens is all the white space and comments there are, and nothing else. */
  lemma SkipsExactly(s: string, i: nat, j: nat)
    requires CText(s) && i <= |s|
    ensures Skip(s, i) == j <==> WholeGap(s, i, j)
  {
    SkippedIsGap(s, i);
    if WholeGap(s, i, j) {
      GapIsSkipped(s, i, j);
    }
  }

  // ------------------------------------------------------------------------------ numbers

  predicate DigitsFrom(s: string, i: nat, e: nat) {
    i < e <= |s| && forall m :: i <= m < e ==> '0' <= s[m] <= '9'
  }

  /** What may stand behind a number: white space, a comment, a closing bracket, a comma or the end. */
  predicate NumberMayEnd(s: string, e: nat) {
    e < |s| ==> s[e] in " \t\r\n]}," || (s[e] == '/' && e + 1 < |s| && s[e + 1] == '/')
  }

  predicate Integer(s: string, i: nat, e: nat) {
    i < |s| && DigitsFrom(s, if s[i] == '-' then i + 1 else i, e) && NumberMayEnd(s, e)
  }

  /** Digits, a dot at k, and digits. */
  predicate Fraction(s: string, i: nat, k: nat, e: nat) {
    && i < |s| && DigitsFrom(s, if s[i] == '-' then i + 1 else i, k) && k < |s| && s[k] == '.'
    && DigitsFrom(s, k + 1, e) && NumberMayEnd(s, e)
  }

  lemma {:induction false} DigitsScanned(s: string, start: nat, i: nat, e: nat)
    requires start <= i < |s| && IsDigit(s[i])
    ensures ScanNumber(s, start, i, 1) == Some(Number(e, 1)) <==> DigitsFrom(s, i, e) && NumberMayEnd(s, e)
    ensures var r := ScanNumber(s, start, i, 1); r.Some? ==> r.value.dots == 1
    decreases |s| - i
  {
    if !NumberEndsAt(s, i + 1) && IsDigit(s[i + 1]) {
      DigitsScanned(s, start, i + 1, e);
    }
  }

  /** From a digit on: what is scanned is digits, or digits, a dot and digits. */
  lemma {:induction false} ScannedNumber(s: string, start: nat, i: nat) returns (k: nat)
    requires start <= i < |s| && IsDigit(s[i]) && ScanNumber(s, start, i, 0).Some?
    ensures var n := ScanNumber(s, start, i, 0).value;
            && NumberMayEnd(s, n.end) && n.dots <= 1
            && (n.dots == 0 ==> DigitsFrom(s, i, n.end))
            && (n.dots == 1 ==> DigitsFrom(s, i, k) && k < |s| && s[k] == '.' && DigitsFrom(s, k + 1, n.end))
    decreases |s| - i
  {
    k := i + 1;
    if !NumberEndsAt(s, i + 1) {
      if IsDigit(s[i + 1]) {
        k := ScannedNumber(s, start, i + 1);
      } else {
        assert DotAt(s, i + 1, start);
        DigitsScanned(s, start, i + 2, ScanNumber(s, start, i, 0).value.end);
      }
    }
  }

  lemma {:induction false} IntegerScanned(s: string, start: nat, i: nat, e: nat)
    requires start <= i && DigitsFrom(s, i, e) && NumberMayEnd(s, e)
    ensures ScanNumber(s, start, i, 0) == Some(Number(e, 0))
    decreases e - i
  {
    if i + 1 < e { IntegerScanned(s, start, i + 1, e); }
  }

  lemma {:induction false} FractionScanned(s: string, start: nat, i: nat, k: nat, e: nat)
    requires start <= i && DigitsFrom(s, i, k) && k < |s| && s[k] == '.' && DigitsFrom(s, k + 1, e) && NumberMayEnd(s, e)
    ensures ScanNumber(s, start, i, 0) == Some(Number(e, 1))
    decreases k - i
  {
    if i + 1 < k {
      FractionScanned(s, start, i + 1, k, e);
    } else {
      assert DotAt(s, k, start) && !NumberEndsAt(s, k);
      DigitsScanned(s, start, k + 1, e);
    }
  }

  // ------------------------------------------------------------------------------ strings

  /** The characters w between the quotes stand for t: each for itself, and behind a backslash whatever is there. */
  predicate Unescaped(w: string, quote: char, t: string) {
    if |w| == 0 then t == ""
    else if w[0] == '\\' then |w| >= 2 && |t| > 0 && t[0] == w[1] && Unescaped(w[2..], quote, t[1..])
    else w[0] != quote && |t| > 0 && t[0] == w[0] && Unescaped(w[1..], quote, t[1..])
  }

  lemma {:induction false} StringScanned(s: string, i: nat, quote: char, e: nat, t: string)
    requires CText(s) && i <= e < |s| && s[e] == quote && quote != '\\' && Unescaped(s[i..e], quote, t)
    ensures ScanString(s, i, quote) == Some(Text(t, e))
    decreases e - i
  {
    assert s[i] in s;
    if i < e {
      var w := s[i..e];
      assert t == [t[0]] + t[1..];
      if w[0] == '\\' {
        assert w[1] == s[i + 1] && s[i + 1] in s && w[2..] == s[i + 2..e];
        StringScanned(s, i + 2, quote, e, t[1..]);
      } else {
        assert w[1..] == s[i + 1..e];
        StringScanned(s, i + 1, quote, e, t[1..]);
      }
    }
  }

  lemma {:induction false} ScannedString(s: string, i: nat, quote: char)
    requires CText(s) && i <= |s| && quote != '\\' && ScanString(s, i, quote).Some?
    ensures var r := ScanString(s, i, quote).value; s[r.end] == quote && Unescaped(s[i..r.end], quote, r.s)
    decreases |s| - i
  {
    var r := ScanString(s, i, quote).value;
    if s[i] == quote {
      assert s[i..r.end] == "";
    } else {
      var j := if s[i] == '\\' then i + 1 else i;
      ScannedString(s, j + 1, quote);
      assert s[i..r.end][j + 1 - i..] == s[j + 1..r.end] && r.s[1..] == ScanString(s, j + 1, quote).value.s;
    }
  }

  // ------------------------------------------------------------------------------- values

  /** What may stand behind true, false and null. */
  predicate WordMayEnd(s: string, e: nat) { e < |s| ==> s[e] in ", \t\r\n/]}:" }

  predicate WordFrom(s: string, i: nat, w: string, e: nat) {
    e == i + |w| <= |s| && s[i..e] == w && WordMayEnd(s, e)
  }

  /** A string in double or single quotes. */
  predicate StringFrom(s: string, i: nat, t: string, e: nat) {
    i + 1 < e <= |s| && s[i] in "\"\'" && s[e - 1] == s[i] && Unescaped(s[i + 1..e - 1], s[i], t)
  }

  /** The same with all the white space and comments around it, from p to c. */
  ghost predicate KeyStands(s: string, p: nat, key: string, c: nat, depth: nat) {
    depth > 0 && exists i: nat, e: nat :: WholeGap(s, p, i) && StringFrom(s, i, key, e) && WholeGap(s, e, c)
  }

  /** From i to e the text is a text of v, with no more than depth values inside each other. */
  ghost predicate Written(s: string, i: nat, v: Value, e: nat, depth: nat)
    decreases v, 0
  {
    && depth > 0 && i < e <= |s|
    && match v
       case Null => WordFrom(s, i, "null", e)
       case Bool(b) => WordFrom(s, i, if b then "true" else "false", e)
       case Int(n) => Integer(s, i, e) && n == NonLocale.ReadSigned(s[i..e], 10)
       case Float(text) => text == s[i..e] && exists k: nat :: Fraction(s, i, k, e)
       case Str(t) => StringFrom(s, i, t, e)
       case List(items) => s[i] == '[' && ItemsWritten(s, i + 1, items, e, depth - 1)
       case Object(entries) => s[i] == '{' && EntriesWritten(s, i + 1, entries, e, depth - 1)
  }

  /** A text of v with all the white space and comments around it, from p to q. */
  ghost predicate Stands(s: string, p: nat, v: Value, q: nat, depth: nat)
    decreases v, 1
  {
    exists i: nat, e: nat :: WholeGap(s, p, i) && Written(s, i, v, e, depth) && WholeGap(s, e, q)
  }

  /** Behind the opening bracket or a comma: values with commas between them, perhaps one more comma, and the bracket. */
  ghost predicate ItemsWritten(s: string, p: nat, items: seq<Value>, e: nat, depth: nat)
    decreases items, 2
  {
    if |items| == 0 then p < |s| && s[p] == ']' && e == p + 1
    else exists q: nat ::
      && Stands(s, p, items[0], q, depth) && q < |s|
      && if s[q] == ']' then |items| == 1 && e == q + 1 else s[q] == ',' && ItemsWritten(s, q + 1, items[1..], e, depth)
  }

  /** A member of an object from p to q: a string, a colon at c and a value. */
  ghost predicate EntryStands(s: string, p: nat, entry: Entry, c: nat, q: nat, depth: nat)
    decreases entry, 0
  {
    KeyStands(s, p, entry.key, c, depth) && c < |s| && s[c] == ':' && Stands(s, c + 1, entry.value, q, depth) && q < |s|
  }

  /** Behind the opening brace or a comma: members with commas between them, perhaps one more comma, and the brace. */
  ghost predicate EntriesWritten(s: string, p: nat, entries: seq<Entry>, e: nat, depth: nat)
    decreases entries, 2
  {
    if |entries| == 0 then p < |s| && s[p] == '}' && e == p + 1
    else exists c: nat, q: nat ::
      && EntryStands(s, p, entries[0], c, q, depth) && q < |s|
      && if s[q] == '}' then |entries| == 1 && e == q + 1
         else s[q] == ',' && EntriesWritten(s, q + 1, entries[1..], e, depth)
  }

  // ----------------------------------------------------------------- the parser, case by case

  predicate IsNumberStart(s: string, i: nat) {
    i < |s| && (IsDigit(s[i]) || (s[i] == '-' && i + 1 < |s| && IsDigit(s[i + 1])))
  }

  lemma NoOtherWord(s: string, i: nat, w: string)
    requires HasWord(s, i, w) && |w| > 0
    ensures i < |s| && s[i] == w[0]
  {
    assert s[i..i + |w|][0] == w[0];
  }

  lemma ParseNumber(s: string, p: nat, depth: nat, i: nat)
    requires p <= |s| && depth > 0 && i == Skip(s, p) && IsNumberStart(s, i)
    ensures Parse(s, p, depth) == match ScanNumber(s, i, if s[i] == '-' then i + 1 else i, 0)
                                  case None => None
                                  case Some(n) => Some(Parsed(NumberValue(s[i..n.end], n.dots), Skip(s, n.end)))
  {
    hide Skip, ScanNumber, NumberValue;
  }

  lemma ParseQuoted(s: string, p: nat, depth: nat, i: nat)
    requires p <= |s| && depth > 0 && i == Skip(s, p) && i < |s| && (s[i] == '\"' || s[i] == '\'')
    ensures Parse(s, p, depth) == match ScanString(s, i + 1, s[i])
                                  case None => None
                                  case Some(r) => Some(Parsed(Str(r.s), Skip(s, r.end + 1)))
  {
    hide Skip, ScanString, HasWord;
    WordsBegin(s, i);
  }

  lemma ParseOpened(s: string, p: nat, depth: nat, i: nat)
    requires p <= |s| && depth > 0 && i == Skip(s, p) && i < |s|
    ensures s[i] == '[' ==> Parse(s, p, depth) == match ParseItems(s, i + 1, depth - 1)
                                                  case None => None
                                                  case Some(r) => Some(Parsed(List(r.values), Skip(s, r.end)))
    ensures s[i] == '{' ==> Parse(s, p, depth) == match ParseEntries(s, i + 1, depth - 1)
                                                  case None => None
                                                  case Some(r) => Some(Parsed(Object(r.entries), Skip(s, r.end)))
  {
    hide Skip, ParseItems, ParseEntries, HasWord;
    WordsBegin(s, i);
  }

  lemma WordsBegin(s: string, i: nat)
    ensures HasWord(s, i, "true") ==> i < |s| && s[i] == 't'
    ensures HasWord(s, i, "false") ==> i < |s| && s[i] == 'f'
    ensures HasWord(s, i, "null") ==> i < |s| && s[i] == 'n'
  {
    hide HasWord;
    if HasWord(s, i, "true") { NoOtherWord(s, i, "true"); }
    if HasWord(s, i, "false") { NoOtherWord(s, i, "false"); }
    if HasWord(s, i, "null") { NoOtherWord(s, i, "null"); }
  }

  lemma ParseWords(s: string, p: nat, depth: nat, i: nat)
    requires p <= |s| && depth > 0 && i == Skip(s, p)
    ensures HasWord(s, i, "true") ==> Parse(s, p, depth) == ParseWord(s, i + 4, Bool(true))
    ensures HasWord(s, i, "false") ==> Parse(s, p, depth) == ParseWord(s, i + 5, Bool(false))
    ensures HasWord(s, i, "null") ==> Parse(s, p, depth) == ParseWord(s, i + 4, Null)
  {
    hide Skip, ParseWord;
    if p == |s| { WordsBegin(s, i); }
    WordsBegin(s, i);
  }

  lemma ParseNothing(s: string, p: nat, depth: nat, i: nat)
    requires p <= |s| && i == Skip(s, p)
    requires depth == 0 || i == |s| || (!IsNumberStart(s, i) && s[i] !in "tfn\"\'[{")
    ensures Parse(s, p, depth) == None
  {
    hide Skip, HasWord;
    WordsBegin(s, i);
  }

  lemma WordEnds(s: string, e: nat)
    requires CText(s) && e <= |s|
    ensures WordEndsAt(s, e) <==> WordMayEnd(s, e)
  {
    if e < |s| { assert s[e] in s; }
  }

  // ------------------------------------------------------ what is in the grammar is accepted

  lemma NumberAccepted(s: string, p: nat, i: nat, v: Value, e: nat, q: nat, depth: nat)
    requires CText(s) && p <= |s| && WholeGap(s, p, i) && Written(s, i, v, e, depth) && WholeGap(s, e, q)
    requires v.Int? || v.Float?
    ensures Parse(s, p, depth) == Some(Parsed(v, q))
  {
    hide Parse, ScanNumber, NonLocale.ReadSigned, WholeGap;
    SkipsExactly(s, p, i);
    SkipsExactly(s, e, q);
    ParseNumber(s, p, depth, i);
    var first := if s[i] == '-' then i + 1 else i;
    if v.Int? {
      IntegerScanned(s, i, first, e);
    } else {
      var k: nat :| Fraction(s, i, k, e);
      FractionScanned(s, i, first, k, e);
    }
  }

  lemma StringAccepted(s: string, p: nat, i: nat, t: string, e: nat, q: nat, depth: nat)
    requires CText(s) && p <= |s| && WholeGap(s, p, i) && depth > 0 && StringFrom(s, i, t, e) && WholeGap(s, e, q)
    ensures Parse(s, p, depth) == Some(Parsed(Str(t), q))
  {
    hide Parse, ScanString, WholeGap;
    SkipsExactly(s, p, i);
    SkipsExactly(s, e, q);
    ParseQuoted(s, p, depth, i);
    StringScanned(s, i + 1, s[i], e - 1, t);
  }

  lemma WordAccepted(s: string, p: nat, i: nat, v: Value, e: nat, q: nat, depth: nat)
    requires CText(s) && p <= |s| && depth > 0 && WholeGap(s, p, i) && WholeGap(s, e, q)
    requires match v
             case Null => WordFrom(s, i, "null", e)
             case Bool(b) => WordFrom(s, i, if b then "true" else "false", e)
             case _ => false
    ensures Parse(s, p, depth) == Some(Parsed(v, q))
  {
    hide Parse, WholeGap, WordMayEnd, WordEndsAt;
    SkipsExactly(s, p, i);
    SkipsExactly(s, e, q);
    ParseWords(s, p, depth, i);
    WordEnds(s, e);
  }

  lemma {:induction false} Accepted(s: string, p: nat, v: Value, q: nat, depth: nat)
    requires CText(s) && p <= |s| && Stands(s, p, v, q, depth)
    ensures Parse(s, p, depth) == Some(Parsed(v, q))
    decreases v, 1
  {
    hide Parse, ParseItems, ParseEntries, WholeGap, Integer, Fraction, StringFrom, WordFrom;
    var i: nat, e: nat :| WholeGap(s, p, i) && Written(s, i, v, e, depth) && WholeGap(s, e, q);
    match v
    case List(items) =>
      ItemsAccepted(s, i + 1, items, e, depth - 1);
      SkipsExactly(s, p, i);
      SkipsExactly(s, e, q);
      ParseOpened(s, p, depth, i);
    case Object(entries) =>
      EntriesAccepted(s, i + 1, entries, e, depth - 1);
      SkipsExactly(s, p, i);
      SkipsExactly(s, e, q);
      ParseOpened(s, p, depth, i);
    case Str(t) => StringAccepted(s, p, i, t, e, q, depth);
    case Int(_) => NumberAccepted(s, p, i, v, e, q, depth);
    case Float(_) => NumberAccepted(s, p, i, v, e, q, depth);
    case _ => WordAccepted(s, p, i, v, e, q, depth);
  }

  lemma SkipTwice(s: string, i: nat)
    requires CText(s) && i <= |s|
    ensures Skip(s, Skip(s, i)) == Skip(s, i)
  {
    SkippedIsGap(s, i);
    SkipsExactly(s, Skip(s, i), Skip(s, i));
  }

  /** Skipping twice is skipping once, so the parser may be asked at either place, and there is no gap behind a value. */
  lemma ParseAfterSkip(s: string, p: nat, depth: nat)
    requires CText(s) && p <= |s|
    ensures Parse(s, Skip(s, p), depth) == Parse(s, p, depth)
    ensures Parse(s, p, depth).Some? ==> Skip(s, Parse(s, p, depth).value.end) == Parse(s, p, depth).value.end
  {
    hide Skip, ScanNumber, ScanString, NumberValue, ParseItems, ParseEntries, HasWord;
    forall i: nat | i <= |s| ensures Skip(s, Skip(s, i)) == Skip(s, i) { SkipTwice(s, i); }
    if p == |s| || Skip(s, p) == |s| { WordsBegin(s, Skip(s, p)); SkipAtEnd(s); }
  }

  lemma SkipAtEnd(s: string)
    ensures Skip(s, |s|) == |s|
  {
  }

  /** Where a value stands, the text goes on with neither bracket nor its end. */
  lemma NotClosing(s: string, p: nat, depth: nat)
    requires CText(s) && p <= |s| && Parse(s, p, depth).Some?
    ensures p < |s| && s[p] != ']' && s[p] != '}' && s[p] != '\0'
  {
    if p < |s| {
      assert s[p] in s;
      if s[p] == ']' || s[p] == '}' { ParseNothing(s, p, depth, p); }
    }
  }

  lemma ItemRound(s: string, p: nat, depth: nat, item: Parsed)
    requires CText(s) && p <= |s| && Parse(s, p, depth) == Some(item) && item.end < |s|
    ensures s[item.end] == ']' ==> ParseItems(s, p, depth) == Some(Items([item.value], item.end + 1))
    ensures s[item.end] == ',' ==> ParseItems(s, p, depth) == ConsItem(item.value, ParseItems(s, item.end + 1, depth))
    ensures s[item.end] != ']' && s[item.end] != ',' ==> ParseItems(s, p, depth) == None
  {
    hide Parse, Skip;
    NotClosing(s, p, depth);
    ParseAfterSkip(s, p, depth);
    if s[item.end] == ']' { assert ParseItems(s, item.end, depth) == Some(Items([], item.end + 1)) && [item.value] + [] == [item.value]; }
  }

  lemma {:induction false} ItemsAccepted(s: string, p: nat, items: seq<Value>, e: nat, depth: nat)
    requires CText(s) && p <= |s| && ItemsWritten(s, p, items, e, depth)
    ensures ParseItems(s, p, depth) == Some(Items(items, e))
    decreases items, 2
  {
    hide Parse, Stands;
    if |items| > 0 {
      var q: nat :|
        && Stands(s, p, items[0], q, depth) && q < |s|
        && if s[q] == ']' then |items| == 1 && e == q + 1 else s[q] == ',' && ItemsWritten(s, q + 1, items[1..], e, depth);
      Accepted(s, p, items[0], q, depth);
      hide ParseItems;
      ItemRound(s, p, depth, Parsed(items[0], q));
      if s[q] == ',' { ItemsAccepted(s, q + 1, items[1..], e, depth); }
      assert items == [items[0]] + items[1..];
    }
  }

  /** One round of the object loop. */
  lemma EntryRound(s: string, p: nat, depth: nat, key: Parsed, item: Parsed)
    requires CText(s) && p <= |s| && Parse(s, p, depth) == Some(key) && key.value.Str? && key.end < |s| && s[key.end] == ':'
    requires Parse(s, key.end + 1, depth) == Some(item) && item.end < |s|
    ensures s[item.end] == '}' ==> ParseEntries(s, p, depth) == Some(Entries([Entry(key.value.s, item.value)], item.end + 1))
    ensures s[item.end] == ',' ==>
              ParseEntries(s, p, depth) == ConsEntry(key.value.s, item.value, ParseEntries(s, item.end + 1, depth))
    ensures s[item.end] != '}' && s[item.end] != ',' ==> ParseEntries(s, p, depth) == None
  {
    hide Parse, Skip;
    NotClosing(s, p, depth);
    ParseAfterSkip(s, p, depth);
    ParseAfterSkip(s, key.end + 1, depth);
    var entry := [Entry(key.value.s, item.value)];
    if s[item.end] == '}' { assert ParseEntries(s, item.end, depth) == Some(Entries([], item.end + 1)) && entry + [] == entry; }
  }

  lemma KeyAccepted(s: string, p: nat, key: string, c: nat, depth: nat)
    requires CText(s) && p <= |s| && KeyStands(s, p, key, c, depth)
    ensures Parse(s, p, depth) == Some(Parsed(Str(key), c))
  {
    hide Parse, WholeGap, StringFrom;
    var i: nat, e: nat :| WholeGap(s, p, i) && StringFrom(s, i, key, e) && WholeGap(s, e, c);
    StringAccepted(s, p, i, key, e, c, depth);
  }

  lemma {:induction false} EntryAccepted(s: string, p: nat, entry: Entry, c: nat, q: nat, depth: nat)
    requires CText(s) && p <= |s| && EntryStands(s, p, entry, c, q, depth)
    ensures c < |s| && s[c] == ':' && q < |s|
    ensures Parse(s, p, depth) == Some(Parsed(Str(entry.key), c)) && Parse(s, c + 1, depth) == Some(Parsed(entry.value, q))
    decreases entry, 2
  {
    hide Parse, Stands, KeyStands;
    KeyAccepted(s, p, entry.key, c, depth);
    Accepted(s, c + 1, entry.value, q, depth);
  }

  /** Where the first member of a written object is. */
  lemma FirstEntry(s: string, p: nat, entries: seq<Entry>, e: nat, depth: nat) returns (c: nat, q: nat)
    requires |entries| > 0 && EntriesWritten(s, p, entries, e, depth)
    ensures EntryStands(s, p, entries[0], c, q, depth) && q < |s|
    ensures if s[q] == '}' then |entries| == 1 && e == q + 1
            else s[q] == ',' && EntriesWritten(s, q + 1, entries[1..], e, depth)
  {
    hide EntryStands;
    c, q :|
      && EntryStands(s, p, entries[0], c, q, depth) && q < |s|
      && if s[q] == '}' then |entries| == 1 && e == q + 1
         else s[q] == ',' && EntriesWritten(s, q + 1, entries[1..], e, depth);
  }

  lemma NoEntries(s: string, p: nat, e: nat, depth: nat)
    requires p <= |s| && EntriesWritten(s, p, [], e, depth)
    ensures ParseEntries(s, p, depth) == Some(Entries([], e))
  {
  }

  lemma {:induction false} EntriesAccepted(s: string, p: nat, entries: seq<Entry>, e: nat, depth: nat)
    requires CText(s) && p <= |s| && EntriesWritten(s, p, entries, e, depth)
    ensures ParseEntries(s, p, depth) == Some(Entries(entries, e))
    decreases entries, 3
  {
    hide Parse, EntryStands, ParseEntries, EntriesWritten;
    if |entries| > 0 {
      var c, q := FirstEntry(s, p, entries, e, depth);
      EntryAccepted(s, p, entries[0], c, q, depth);
      EntryRound(s, p, depth, Parsed(Str(entries[0].key), c), Parsed(entries[0].value, q));
      if s[q] == ',' { EntriesAccepted(s, q + 1, entries[1..], e, depth); }
      assert entries == [entries[0]] + entries[1..] && (|entries| == 1 ==> entries == [entries[0]]);
    } else {
      NoEntries(s, p, e, depth);
    }
  }

  // ------------------------------------------------------ what is accepted is in the grammar

  lemma AcceptedNumber(s: string, p: nat, i: nat, depth: nat)
    requires CText(s) && p <= |s| && i == Skip(s, p) && depth > 0 && IsNumberStart(s, i) && Parse(s, p, depth).Some?
    ensures var r := Parse(s, p, depth).value; Stands(s, p, r.value, r.end, depth)
  {
    hide Parse, ScanNumber, NonLocale.ReadSigned, Gap;
    ParseNumber(s, p, depth, i);
    var first := if s[i] == '-' then i + 1 else i;
    var k := ScannedNumber(s, i, first);
    var e := ScanNumber(s, i, first, 0).value.end;
    var r := Parse(s, p, depth).value;
    if r.value.Float? { assert Fraction(s, i, k, e); }
    SkipsExactly(s, p, i);
    SkipsExactly(s, e, r.end);
    assert Written(s, i, r.value, e, depth);
  }

  lemma AcceptedString(s: string, p: nat, i: nat, depth: nat)
    requires CText(s) && p <= |s| && i == Skip(s, p) && depth > 0 && i < |s| && (s[i] == '\"' || s[i] == '\'')
    requires Parse(s, p, depth).Some?
    ensures var r := Parse(s, p, depth).value;
            r.value.Str? && Stands(s, p, r.value, r.end, depth) && KeyStands(s, p, r.value.s, r.end, depth)
  {
    hide Parse, ScanString, Gap;
    ParseQuoted(s, p, depth, i);
    ScannedString(s, i + 1, s[i]);
    var t, r := ScanString(s, i + 1, s[i]).value, Parse(s, p, depth).value;
    SkipsExactly(s, p, i);
    SkipsExactly(s, t.end + 1, r.end);
    assert StringFrom(s, i, t.s, t.end + 1);
    assert Written(s, i, r.value, t.end + 1, depth);
  }

  lemma AcceptedWord(s: string, p: nat, i: nat, depth: nat)
    requires CText(s) && p <= |s| && i == Skip(s, p) && depth > 0
    requires HasWord(s, i, "true") || HasWord(s, i, "false") || HasWord(s, i, "null")
    requires Parse(s, p, depth).Some?
    ensures var r := Parse(s, p, depth).value; Stands(s, p, r.value, r.end, depth)
  {
    hide Parse, Gap;
    WordsBegin(s, i);
    ParseWords(s, p, depth, i);
    var e := if HasWord(s, i, "false") then i + 5 else i + 4;
    var r := Parse(s, p, depth).value;
    WordEnds(s, e);
    SkipsExactly(s, p, i);
    SkipsExactly(s, e, r.end);
    assert Written(s, i, r.value, e, depth);
  }

  lemma NoWord(s: string, p: nat, i: nat, depth: nat)
    requires p <= |s| && i == Skip(s, p) && i < |s| && s[i] in "tfn" && Parse(s, p, depth).Some?
    ensures HasWord(s, i, "true") || HasWord(s, i, "false") || HasWord(s, i, "null")
  {
    hide Skip, HasWord;
  }

  lemma {:induction false} AcceptedIsWritten(s: string, p: nat, depth: nat)
    requires CText(s) && p <= |s| && Parse(s, p, depth).Some?
    ensures var r := Parse(s, p, depth).value; Stands(s, p, r.value, r.end, depth)
    decreases depth, |s| - p, 1
  {
    hide Parse, ParseItems, ParseEntries, Skip, HasWord, Gap;
    var i := Skip(s, p);
    if depth == 0 || i == |s| || (!IsNumberStart(s, i) && s[i] !in "tfn\"\'[{") {
      ParseNothing(s, p, depth, i);
    } else if IsNumberStart(s, i) {
      AcceptedNumber(s, p, i, depth);
    } else if s[i] == '\"' || s[i] == '\'' {
      AcceptedString(s, p, i, depth);
    } else if s[i] == '[' {
      AcceptedList(s, p, i, depth);
    } else if s[i] == '{' {
      AcceptedObject(s, p, i, depth);
    } else {
      NoWord(s, p, i, depth);
      AcceptedWord(s, p, i, depth);
    }
  }

  lemma {:induction false} AcceptedList(s: string, p: nat, i: nat, depth: nat)
    requires CText(s) && p <= |s| && i == Skip(s, p) && depth > 0 && i < |s| && s[i] == '[' && Parse(s, p, depth).Some?
    ensures var r := Parse(s, p, depth).value; Stands(s, p, r.value, r.end, depth)
    decreases depth, |s| - p, 0
  {
    hide Parse, ParseItems, Gap, ItemsWritten;
    ParseOpened(s, p, depth, i);
    AcceptedItems(s, i + 1, depth - 1);
    var e, r := ParseItems(s, i + 1, depth - 1).value.end, Parse(s, p, depth).value;
    SkipsExactly(s, p, i);
    SkipsExactly(s, e, r.end);
    assert Written(s, i, r.value, e, depth);
  }

  lemma {:induction false} AcceptedObject(s: string, p: nat, i: nat, depth: nat)
    requires CText(s) && p <= |s| && i == Skip(s, p) && depth > 0 && i < |s| && s[i] == '{' && Parse(s, p, depth).Some?
    ensures var r := Parse(s, p, depth).value; Stands(s, p, r.value, r.end, depth)
    decreases depth, |s| - p, 0
  {
    hide Parse, ParseEntries, Gap, EntriesWritten;
    ParseOpened(s, p, depth, i);
    AcceptedEntries(s, i + 1, depth - 1);
    var e, r := ParseEntries(s, i + 1, depth - 1).value.end, Parse(s, p, depth).value;
    SkipsExactly(s, p, i);
    SkipsExactly(s, e, r.end);
    assert Written(s, i, r.value, e, depth);
  }

  lemma ItemsBegin(s: string, p: nat, depth: nat)
    requires CText(s) && p <= |s| && ParseItems(s, p, depth).Some?
    ensures p < |s|
    ensures s[p] == ']' ==> ParseItems(s, p, depth) == Some(Items([], p + 1))
    ensures s[p] != ']' ==>
              var item := Parse(s, p, depth);
              item.Some? && item.value.end < |s| && (s[item.value.end] == ',' || s[item.value.end] == ']')
  {
    hide Parse, Skip;
    ParseAfterSkip(s, p, depth);
  }

  lemma {:induction false} AcceptedItems(s: string, p: nat, depth: nat)
    requires CText(s) && p <= |s| && ParseItems(s, p, depth).Some?
    ensures var r := ParseItems(s, p, depth).value; ItemsWritten(s, p, r.values, r.end, depth)
    decreases depth, |s| - p, 2
  {
    hide Parse, ParseItems, Stands;
    ItemsBegin(s, p, depth);
    if s[p] != ']' {
      var item := Parse(s, p, depth).value;
      ItemRound(s, p, depth, item);
      AcceptedIsWritten(s, p, depth);
      if s[item.end] == ',' { AcceptedItems(s, item.end + 1, depth); }
      var values := ParseItems(s, p, depth).value.values;
      assert values[0] == item.value && Stands(s, p, values[0], item.end, depth);
    }
  }

  lemma EntriesBegin(s: string, p: nat, depth: nat)
    requires CText(s) && p <= |s| && ParseEntries(s, p, depth).Some?
    ensures p < |s|
    ensures s[p] == '}' ==> ParseEntries(s, p, depth) == Some(Entries([], p + 1))
    ensures s[p] != '}' ==>
              var key := Parse(s, p, depth);
              && key.Some? && key.value.value.Str? && key.value.end < |s| && s[key.value.end] == ':'
              && var item := Parse(s, key.value.end + 1, depth);
              item.Some? && item.value.end < |s| && (s[item.value.end] == ',' || s[item.value.end] == '}')
  {
    hide Parse, Skip;
    ParseAfterSkip(s, p, depth);
    if p < |s| && s[p] != '}' {
      var key := Parse(s, p, depth);
      if key.Some? && key.value.end < |s| { ParseAfterSkip(s, key.value.end + 1, depth); }
    }
  }

  lemma AcceptedKey(s: string, p: nat, depth: nat)
    requires CText(s) && p <= |s| && Parse(s, p, depth).Some? && Parse(s, p, depth).value.value.Str?
    ensures var r := Parse(s, p, depth).value; KeyStands(s, p, r.value.s, r.end, depth)
  {
    hide Parse, Skip, HasWord, Gap, KeyStands, Stands;
    var i := Skip(s, p);
    if i < |s| && (s[i] == '\"' || s[i] == '\'') {
      if depth > 0 { AcceptedString(s, p, i, depth); } else { ParseNothing(s, p, depth, i); }
    } else {
      NoStringElse(s, p, i, depth);
    }
  }

  lemma NoStringElse(s: string, p: nat, i: nat, depth: nat)
    requires p <= |s| && i == Skip(s, p) && !(i < |s| && (s[i] == '\"' || s[i] == '\''))
    ensures Parse(s, p, depth).Some? ==> !Parse(s, p, depth).value.value.Str?
  {
    hide Skip, HasWord, ScanNumber, ParseItems, ParseEntries;
  }

  lemma {:induction false} AcceptedEntries(s: string, p: nat, depth: nat)
    requires CText(s) && p <= |s| && ParseEntries(s, p, depth).Some?
    ensures var r := ParseEntries(s, p, depth).value; EntriesWritten(s, p, r.entries, r.end, depth)
    decreases depth, |s| - p, 2
  {
    hide Parse, ParseEntries, Stands, KeyStands;
    EntriesBegin(s, p, depth);
    if s[p] != '}' {
      var key := Parse(s, p, depth).value;
      var item := Parse(s, key.end + 1, depth).value;
      EntryRound(s, p, depth, key, item);
      AcceptedKey(s, p, depth);
      AcceptedIsWritten(s, key.end + 1, depth);
      if s[item.end] == ',' { AcceptedEntries(s, item.end + 1, depth); }
      var entries := ParseEntries(s, p, depth).value.entries;
      assert entries[0] == Entry(key.value.s, item.value);
      assert EntryStands(s, p, entries[0], key.end, item.end, depth);
    }
  }

  // ------------------------------------------------------------------------- main results

  /** The parser is the grammar: from any place on, at any depth, it accepts exactly what is written there, as what it is. */
  lemma ParsesExactly(s: string, p: nat, v: Value, q: nat, depth: nat)
    requires CText(s) && p <= |s|
    ensures Parse(s, p, depth) == Some(Parsed(v, q)) <==> Stands(s, p, v, q, depth)
  {
    hide Parse, Stands;
    if Stands(s, p, v, q, depth) { Accepted(s, p, v, q, depth); }
    if Parse(s, p, depth) == Some(Parsed(v, q)) { AcceptedIsWritten(s, p, depth); }
  }

  /** A whole text is parsed as a value if and only if it is a text of that value, at most 20 deep, and nothing else. */
  lemma TextIsParsed(s: string, v: Value)
    requires CText(s)
    ensures ParseText(s) == Some(v) <==> Stands(s, 0, v, |s|, 20)
  {
    hide Parse, Stands;
    ParsesExactly(s, 0, v, |s|, 20);
  }

  /** So no text is a text of two values. */
  lemma OneMeaning(s: string, v: Value, w: Value)
    requires CText(s) && Stands(s, 0, v, |s|, 20) && Stands(s, 0, w, |s|, 20)
    ensures v == w
  {
    hide Stands;
    TextIsParsed(s, v);
    TextIsParsed(s, w);
  }

  lemma OneRead()
    ensures NonLocale.ReadSigned("1", 10) == 1
  {
    assert "1"[1..] == "";
    assert NonLocale.Value("1", 10, 0) == NonLocale.Value("", 10, 1) == 1;
    NonLocale.ReadsExactlyWhatFitsSigned("1", 10);
  }

  lemma OneStands(s: string)
    requires s == "[1,]"
    ensures Stands(s, 1, Int(1), 2, 19)
  {
    hide NonLocale.ReadSigned;
    OneRead();
    assert s[1..2] == "1";
    assert WholeGap(s, 1, 1) && Written(s, 1, Int(1), 2, 19) && WholeGap(s, 2, 2);
  }

  lemma CommaStands(s: string)
    requires s == "[1,]"
    ensures Stands(s, 0, List([Int(1)]), 4, 20)
  {
    hide Stands;
    OneStands(s);
    hide Written;
    var one := [Int(1)];
    assert ItemsWritten(s, 3, one[1..], 4, 19);
    assert ItemsWritten(s, 1, one, 4, 19);
    ListStands(s, one);
  }

  lemma ListStands(s: string, one: seq<Value>)
    requires |s| == 4 && s[0] == '[' && ItemsWritten(s, 1, one, 4, 19)
    ensures Stands(s, 0, List(one), 4, 20)
  {
    hide ItemsWritten;
    assert WholeGap(s, 0, 0) && Written(s, 0, List(one), 4, 20) && WholeGap(s, 4, 4);
  }

  /** A comma may stand in front of the closing bracket, but in an empty list not even a blank. */
  lemma CommaButNoBlank()
    ensures ParseText("[1,]") == Some(List([Int(1)])) && ParseText("[ ]") == None
  {
    hide *;
    CommaStands("[1,]");
    NoTerminator();
    TextIsParsed("[1,]", List([Int(1)]));
    BlankRefused();
  }

  lemma NoTerminator()
    ensures CText("[1,]") && |"[1,]"| == 4
  {
  }

  lemma BlankRefused()
    ensures ParseText("[ ]") == None
  {
    hide Parse, ParseItems;
    var s := "[ ]";
    assert Skip(s, 0) == 0 && Skip(s, 1) == 2 && Skip(s, 2) == 2;
    ParseOpened(s, 0, 20, 0);
    ParseNothing(s, 2, 19, 2);
    if ParseItems(s, 1, 19).Some? {
      ItemsBegin(s, 1, 19);
      ParseAfterSkip(s, 1, 19);
    }
  }

  // ------------------------------------------------------------- printed strings by the standard

  function HexValue(c: char): (d: nat)
    ensures d <= 16
  {
    if '0' <= c <= '9' then c as int - 48
    else if 'a' <= c <= 'f' then 10 + (c as int - 97)
    else if 'A' <= c <= 'F' then 10 + (c as int - 65)
    else 16
  }

  /** What section 7 of RFC 8259 says the characters between two quotes stand for; nothing if it does not allow them. */
  function StandardString(w: string): Option<string> {
    if |w| == 0 then Some("")
    else if w[0] < ' ' || w[0] == '\"' then None
    else if w[0] != '\\' then Behind(w[0], StandardString(w[1..]))
    else if |w| < 2 then None
    else
      match w[1]
      case '\"' => Behind('\"', StandardString(w[2..]))
      case '\\' => Behind('\\', StandardString(w[2..]))
      case '/' => Behind('/', StandardString(w[2..]))
      case 'b' => Behind(8 as char, StandardString(w[2..]))
      case 'f' => Behind(12 as char, StandardString(w[2..]))
      case 'n' => Behind('\n', StandardString(w[2..]))
      case 'r' => Behind('\r', StandardString(w[2..]))
      case 't' => Behind('\t', StandardString(w[2..]))
      case 'u' =>
        if |w| < 6 || !(forall k :: 2 <= k < 6 ==> HexValue(w[k]) < 16) then None
        else
          var code := ((HexValue(w[2]) * 16 + HexValue(w[3])) * 16 + HexValue(w[4])) * 16 + HexValue(w[5]);
          if code >= 0xD800 then None else Behind(code as char, StandardString(w[6..]))
      case _ => None
  }

  function Behind(c: char, rest: Option<string>): Option<string> {
    match rest case None => None case Some(t) => Some([c] + t)
  }

  lemma StandardHead(c: char, rest: string)
    requires c <= 127 as char
    ensures StandardString(EscapeChar(c) + rest) == Behind(c, StandardString(rest))
  {
    if c < ' ' && c != '\n' && c != '\r' {
      StandardControl(c, rest);
    } else {
      var w := EscapeChar(c) + rest;
      assert w[|EscapeChar(c)|..] == rest;
    }
  }

  lemma StandardControl(c: char, rest: string)
    requires c < ' ' && c != '\n' && c != '\r'
    ensures StandardString(EscapeChar(c) + rest) == Behind(c, StandardString(rest))
  {
    var w := EscapeChar(c) + rest;
    assert EscapeChar(c) == "\\u00" + Hex(c);
    assert w[6..] == rest;
    assert w[0] == '\\' && w[1] == 'u' && w[2] == '0' && w[3] == '0';
    assert w[4] == HexDigit(c as int / 16) && w[5] == HexDigit(c as int % 16);
    HexValues(c as int / 16);
    HexValues(c as int % 16);
    hide HexDigit, EscapeChar;
    assert HexValue('0') == 0;
  }

  lemma HexValues(d: nat)
    requires d < 16
    ensures HexValue(HexDigit(d)) == d
  {
  }

  /** A printed string means the string by the standard, control characters included. */
  lemma {:induction false} PrintedAsStandard(t: string)
    requires forall i :: 0 <= i < |t| ==> t[i] <= 127 as char
    ensures StandardString(Escape(t)) == Some(t)
    ensures DumpString(t) == "\"" + Escape(t) + "\""
  {
    hide EscapeChar, StandardString;
    if |t| > 0 {
      PrintedAsStandard(t[1..]);
      StandardHead(t[0], Escape(t[1..]));
      assert t == [t[0]] + t[1..];
    } else {
      StandardNothing();
    }
  }

  lemma StandardNothing()
    ensures StandardString("") == Some("")
  {
  }

  /** The buffer of six characters for each one and three more is never overrun, terminator included. */
  lemma {:induction false} PrintedFits(t: string)
    requires forall i :: 0 <= i < |t| ==> t[i] <= 127 as char
    ensures |DumpString(t)| + 1 <= 3 + 6 * |t|
  {
    if |t| > 0 {
      PrintedFits(t[1..]);
      assert |EscapeChar(t[0])| <= 6;
    }
  }
}
