/** The quoting tokenizer of src/policy.rs (`split_command_words`), after the quoting rules of section 2.2
  * of POSIX.1-2017 XCU, and the printers it inverts. */
module CommandWords {
  import opened Wrappers

  datatype SplitError =
    | UnterminatedSingleQuote
    | UnterminatedDoubleQuote
    | TrailingBackslash
    | TrailingBackslashInsideDoubleQuotes

  /** White space as Unicode defines it. */
  predicate IsWhitespace(c: char) {
    || '\t' <= c <= '\r' || c == ' ' || c == '\U{85}' || c == '\U{A0}' || c == '\U{1680}'
    || '\U{2000}' <= c <= '\U{200A}' || c == '\U{2028}' || c == '\U{2029}' || c == '\U{202F}'
    || c == '\U{205F}' || c == '\U{3000}'
  }

  /** The characters a backslash escapes inside double quotes. */
  predicate EscapableInDouble(c: char) { c == '"' || c == '\\' || c == '$' || c == '`' }

  /** Where the scanner stands. */
  datatype Mode = Outside | InSingle | InDouble | AfterBackslash | AfterBackslashInDouble

  type Words = Result<seq<string>, SplitError>

  function Prepend(words: seq<string>, rest: Words): Words {
    match rest
    case Err(e) => Err(e)
    case Ok(more) => Ok(words + more)
  }

  lemma PrependLaws(a: seq<string>, b: seq<string>, rest: Words)
    ensures Prepend([], rest) == rest
    ensures Prepend(a, Prepend(b, rest)) == Prepend(a + b, rest)
  {
    match rest
    case Err(_) =>
    case Ok(more) => assert a + (b + more) == a + b + more && [] + more == more;
  }

  /** The words of `s`, read from `mode` with `current` already collected for the open word. */
  function Scan(s: string, mode: Mode, current: string, hasWord: bool): Words
    decreases |s|
  {
    if s == [] then
      match mode
      case Outside => Ok(if hasWord then [current] else [])
      case InSingle => Err(UnterminatedSingleQuote)
      case InDouble => Err(UnterminatedDoubleQuote)
      case AfterBackslash => Err(TrailingBackslash)
      case AfterBackslashInDouble => Err(TrailingBackslashInsideDoubleQuotes)
    else
      var c, rest := s[0], s[1..];
      match mode
      case Outside =>
        if IsWhitespace(c) then Prepend(if hasWord then [current] else [], Scan(rest, Outside, [], false))
        else if c == '\'' then Scan(rest, InSingle, current, true)
        else if c == '"' then Scan(rest, InDouble, current, true)
        else if c == '\\' then Scan(rest, AfterBackslash, current, true)
        else Scan(rest, Outside, current + [c], true)
      case InSingle =>
        if c == '\'' then Scan(rest, Outside, current, true) else Scan(rest, InSingle, current + [c], true)
      case InDouble =>
        if c == '"' then Scan(rest, Outside, current, true)
        else if c == '\\' then Scan(rest, AfterBackslashInDouble, current, true)
        else Scan(rest, InDouble, current + [c], true)
      case AfterBackslash =>
        // backslash-newline is a line continuation and vanishes
        Scan(rest, Outside, if c == '\n' then current else current + [c], true)
      case AfterBackslashInDouble =>
        Scan(rest, InDouble,
             if EscapableInDouble(c) then current + [c] else if c == '\n' then current else current + ['\\', c], true)
  }

  function Split(input: string): Words { Scan(input, Outside, [], false) }

  // ---------------------------------------------------------------- the loops

  /** The characters after an opening single quote, up to and including the closing one. */
  method ScanSingle(input: string, start: nat, current: string) returns (r: Result<(nat, string), SplitError>)
    requires start <= |input|
    ensures r.Ok? ==> start < r.value.0 <= |input|
    ensures Scan(input[start..], InSingle, current, true)
         == match r { case Err(e) => Err(e) case Ok((i, word)) => Scan(input[i..], Outside, word, true) }
  {
    var i, word := start, current;
    while i < |input|
      invariant start <= i <= |input|
      invariant Scan(input[start..], InSingle, current, true) == Scan(input[i..], InSingle, word, true)
    {
      var c := input[i];
      assert input[i..][1..] == input[i + 1..];
      i := i + 1;
      if c == '\'' { return Ok((i, word)); }
      word := word + [c];
    }
    assert input[i..] == [];
    return Err(UnterminatedSingleQuote);
  }

  /** The characters after an opening double quote, up to and including the closing one. */
  method ScanDouble(input: string, start: nat, current: string) returns (r: Result<(nat, string), SplitError>)
    requires start <= |input|
    ensures r.Ok? ==> start < r.value.0 <= |input|
    ensures Scan(input[start..], InDouble, current, true)
         == match r { case Err(e) => Err(e) case Ok((i, word)) => Scan(input[i..], Outside, word, true) }
  {
    var i, word := start, current;
    while i < |input|
      invariant start <= i <= |input|
      invariant Scan(input[start..], InDouble, current, true) == Scan(input[i..], InDouble, word, true)
    {
      var c := input[i];
      assert input[i..][1..] == input[i + 1..];
      i := i + 1;
      if c == '"' {
        return Ok((i, word));
      } else if c == '\\' {
        if i == |input| {
          assert input[i..] == [];
          return Err(TrailingBackslashInsideDoubleQuotes);
        }
        var escaped := input[i];
        assert input[i..][1..] == input[i + 1..];
        i := i + 1;
        if EscapableInDouble(escaped) {
          word := word + [escaped];
        } else if escaped != '\n' {
          word := word + ['\\', escaped];
        }
      } else {
        word := word + [c];
      }
    }
    assert input[i..] == [];
    return Err(UnterminatedDoubleQuote);
  }

  method SplitCommandWords(input: string) returns (r: Words)
    ensures r == Split(input)
  {
    var words: seq<string>, current: string, hasWord := [], [], false;
    var i := 0;
    assert input[0..] == input;
    PrependLaws([], [], Split(input));
    while i < |input|
      invariant 0 <= i <= |input|
      invariant hasWord || current == []
      invariant Split(input) == Prepend(words, Scan(input[i..], Outside, current, hasWord))
      decreases |input| - i
    {
      var c := input[i];
      assert input[i..][1..] == input[i + 1..];
      i := i + 1;
      if IsWhitespace(c) {
        ghost var ended := if hasWord then [current] else [];
        PrependLaws(words, ended, Scan(input[i..], Outside, [], false));
        assert hasWord || words + ended == words;
        if hasWord { words, current, hasWord := words + [current], [], false; }
      } else if c == '\'' {
        hasWord := true;
        var quoted := ScanSingle(input, i, current);
        if quoted.Err? { return Err(quoted.error); }
        i, current := quoted.value.0, quoted.value.1;
      } else if c == '"' {
        hasWord := true;
        var quoted := ScanDouble(input, i, current);
        if quoted.Err? { return Err(quoted.error); }
        i, current := quoted.value.0, quoted.value.1;
      } else if c == '\\' {
        hasWord := true;
        if i == |input| {
          assert input[i..] == [];
          return Err(TrailingBackslash);
        }
        assert input[i..][1..] == input[i + 1..];
        if input[i] != '\n' { current := current + [input[i]]; }
        i := i + 1;
      } else {
        hasWord, current := true, current + [c];
      }
    }
    assert input[i..] == [] && words + [] == words;
    if hasWord { words := words + [current]; }
    return Ok(words);
  }

  // ---------------------------------------------------------------- printing words back

  /** One way of writing a stretch between double quotes: a character as it is, one that a backslash escapes, one
      before which the backslash is kept, and a line continuation, which vanishes. */
  datatype Item =
    | AsIs(c: char)
    | Protected(c: char)
    | Kept(c: char)
    | Joined

  predicate LegalItem(t: Item) {
    match t
    case AsIs(c) => c != '"' && c != '\\'
    case Protected(c) => c == '"' || c == '\\' || c == '$' || c == '`'
    case Kept(c) => c != '"' && c != '\\' && c != '$' && c != '`' && c != '\n'
    case Joined => true
  }

  predicate LegalItems(items: seq<Item>) { forall i :: 0 <= i < |items| ==> LegalItem(items[i]) }

  function RenderItem(t: Item): string {
    match t
    case AsIs(c) => [c]
    case Protected(c) => ['\\', c]
    case Kept(c) => ['\\', c]
    case Joined => ['\\', '\n']
  }

  function ItemMeaning(t: Item): string {
    match t
    case AsIs(c) => [c]
    case Protected(c) => [c]
    case Kept(c) => ['\\', c]
    case Joined => []
  }

  function RenderItems(items: seq<Item>): string { if items == [] then [] else RenderItem(items[0]) + RenderItems(items[1..]) }

  function ItemsMeaning(items: seq<Item>): string { if items == [] then [] else ItemMeaning(items[0]) + ItemsMeaning(items[1..]) }

  /** One way of writing a stretch of a word. */
  datatype Piece =
    | Plain(c: char)
    | Escaped(c: char)
    | Continued
    | SingleQuoted(text: string)
    | DoubleQuoted(items: seq<Item>)

  predicate Legal(p: Piece) {
    match p
    case Plain(c) => !IsWhitespace(c) && c != '\'' && c != '"' && c != '\\'
    case Escaped(c) => c != '\n'
    case Continued => true
    case SingleQuoted(text) => '\'' !in text
    case DoubleQuoted(items) => LegalItems(items)
  }

  function Render(p: Piece): string {
    match p
    case Plain(c) => [c]
    case Escaped(c) => ['\\', c]
    case Continued => ['\\', '\n']
    case SingleQuoted(text) => "'" + text + "'"
    case DoubleQuoted(items) => "\"" + RenderItems(items) + "\""
  }

  function Meaning(p: Piece): string {
    match p
    case Plain(c) => [c]
    case Escaped(c) => [c]
    case Continued => []
    case SingleQuoted(text) => text
    case DoubleQuoted(items) => ItemsMeaning(items)
  }

  /** A word is written as one or more pieces side by side. */
  type Word = seq<Piece>

  predicate LegalWord(w: Word) { w != [] && forall i :: 0 <= i < |w| ==> Legal(w[i]) }

  function RenderWord(w: Word): string { if w == [] then [] else Render(w[0]) + RenderWord(w[1..]) }

  function WordMeaning(w: Word): string { if w == [] then [] else Meaning(w[0]) + WordMeaning(w[1..]) }

  /** Words separated by any white space. */
  function RenderLine(words: seq<Word>, space: string): string {
    if words == [] then []
    else if |words| == 1 then RenderWord(words[0])
    else RenderWord(words[0]) + space + RenderLine(words[1..], space)
  }

  function LineMeaning(words: seq<Word>): seq<string> {
    if words == [] then [] else [WordMeaning(words[0])] + LineMeaning(words[1..])
  }

  lemma {:induction false} ScanSingleText(text: string, rest: string, current: string)
    requires '\'' !in text
    ensures Scan(text + "'" + rest, InSingle, current, true) == Scan(rest, Outside, current + text, true)
    decreases |text|
  {
    var s := text + "'" + rest;
    if text == [] {
      assert s[1..] == rest && current + text == current;
    } else {
      assert s[1..] == text[1..] + "'" + rest && current + [text[0]] + text[1..] == current + text;
      ScanSingleText(text[1..], rest, current + [text[0]]);
    }
  }

  lemma {:induction false} ScanItem(t: Item, rest: string, current: string)
    requires LegalItem(t)
    ensures Scan(RenderItem(t) + rest, InDouble, current, true) == Scan(rest, InDouble, current + ItemMeaning(t), true)
  {
    var s := RenderItem(t) + rest;
    if t.AsIs? {
      assert s[1..] == rest;
    } else {
      assert s[0] == '\\' && s[1..][0] == RenderItem(t)[1] && s[1..][1..] == rest;
      assert current + [] == current;
      assert Scan(s, InDouble, current, true) == Scan(s[1..], AfterBackslashInDouble, current, true);
    }
  }

  lemma {:induction false} ScanItems(items: seq<Item>, rest: string, current: string)
    requires LegalItems(items)
    ensures Scan(RenderItems(items) + rest, InDouble, current, true)
         == Scan(rest, InDouble, current + ItemsMeaning(items), true)
    decreases |items|
  {
    if items == [] {
      assert RenderItems(items) + rest == rest && current + ItemsMeaning(items) == current;
    } else {
      var first, more := items[0], RenderItems(items[1..]) + rest;
      assert RenderItems(items) + rest == RenderItem(first) + more;
      ScanItem(first, more, current);
      ScanItems(items[1..], rest, current + ItemMeaning(first));
      Rejoin(current, ItemMeaning(first), ItemsMeaning(items[1..]));
    }
  }

  lemma {:induction false} ScanEscaped(c: char, rest: string, current: string, hasWord: bool)
    requires c != '\n'
    ensures Scan(['\\', c] + rest, Outside, current, hasWord) == Scan(rest, Outside, current + [c], true)
  {
    var s := ['\\', c] + rest;
    assert s[1..] == [c] + rest && s[1..][0] == c && s[1..][1..] == rest;
    assert Scan(s, Outside, current, hasWord) == Scan(s[1..], AfterBackslash, current, true);
  }

  lemma {:induction false} ScanSingleQuoted(text: string, rest: string, current: string, hasWord: bool)
    requires '\'' !in text
    ensures Scan("'" + text + "'" + rest, Outside, current, hasWord) == Scan(rest, Outside, current + text, true)
  {
    var s := "'" + text + "'" + rest;
    assert s[1..] == text + "'" + rest;
    assert Scan(s, Outside, current, hasWord) == Scan(s[1..], InSingle, current, true);
    ScanSingleText(text, rest, current);
  }

  lemma {:induction false} ScanDoubleQuoted(items: seq<Item>, rest: string, current: string, hasWord: bool)
    requires LegalItems(items)
    ensures Scan("\"" + RenderItems(items) + "\"" + rest, Outside, current, hasWord)
         == Scan(rest, Outside, current + ItemsMeaning(items), true)
  {
    var s := "\"" + RenderItems(items) + "\"" + rest;
    var close := "\"" + rest;
    assert s[1..] == RenderItems(items) + close && close[1..] == rest;
    assert Scan(s, Outside, current, hasWord) == Scan(s[1..], InDouble, current, true);
    ScanItems(items, close, current);
  }

  lemma {:induction false} ScanContinued(rest: string, current: string, hasWord: bool)
    ensures Scan(['\\', '\n'] + rest, Outside, current, hasWord) == Scan(rest, Outside, current, true)
  {
    var s := ['\\', '\n'] + rest;
    assert s[1..] == ['\n'] + rest && s[1..][0] == '\n' && s[1..][1..] == rest;
    assert Scan(s, Outside, current, hasWord) == Scan(s[1..], AfterBackslash, current, true);
  }

  lemma {:induction false} ScanPiece(p: Piece, rest: string, current: string, hasWord: bool)
    requires Legal(p)
    ensures Scan(Render(p) + rest, Outside, current, hasWord) == Scan(rest, Outside, current + Meaning(p), true)
  {
    match p
    case Plain(c) => assert ([c] + rest)[1..] == rest;
    case Escaped(c) => ScanEscaped(c, rest, current, hasWord);
    case Continued =>
      ScanContinued(rest, current, hasWord);
      assert current + [] == current;
    case SingleQuoted(text) => ScanSingleQuoted(text, rest, current, hasWord);
    case DoubleQuoted(items) => ScanDoubleQuoted(items, rest, current, hasWord);
  }

  lemma Rejoin(current: string, first: string, more: string)
    ensures current + (first + more) == current + first + more
  {
  }

  lemma {:induction false} ScanWord(w: Word, rest: string, current: string, hasWord: bool)
    requires LegalWord(w)
    ensures Scan(RenderWord(w) + rest, Outside, current, hasWord) == Scan(rest, Outside, current + WordMeaning(w), true)
    decreases |w|
  {
    var first, tail, word := Render(w[0]), RenderWord(w[1..]), current + Meaning(w[0]);
    assert RenderWord(w) + rest == first + (tail + rest);
    ScanPiece(w[0], tail + rest, current, hasWord);
    Rejoin(current, Meaning(w[0]), WordMeaning(w[1..]));
    if |w| == 1 {
      assert tail + rest == rest && word + WordMeaning(w[1..]) == word;
    } else {
      ScanWord(w[1..], rest, word, true);
    }
  }

  predicate AllWhitespace(space: string) { forall i :: 0 <= i < |space| ==> IsWhitespace(space[i]) }

  lemma {:induction false} ScanSpaceOutside(space: string, rest: string)
    requires AllWhitespace(space)
    ensures Scan(space + rest, Outside, [], false) == Scan(rest, Outside, [], false)
    decreases |space|
  {
    if space == [] {
      assert space + rest == rest;
    } else {
      assert (space + rest)[1..] == space[1..] + rest;
      ScanSpaceOutside(space[1..], rest);
      PrependLaws([], [], Scan(space[1..] + rest, Outside, [], false));
    }
  }

  /** A word, then white space, then more. */
  lemma {:induction false} ScanWordAndSpace(w: Word, space: string, tail: string)
    requires LegalWord(w)
    requires space != [] && AllWhitespace(space)
    ensures Split(RenderWord(w) + (space + tail)) == Prepend([WordMeaning(w)], Split(tail))
  {
    var more := space + tail;
    ScanWord(w, more, [], false);
    assert [] + WordMeaning(w) == WordMeaning(w);
    assert more[1..] == space[1..] + tail;
    ScanSpaceOutside(space[1..], tail);
  }

  lemma {:induction false} ScanLastWord(w: Word)
    requires LegalWord(w)
    ensures Split(RenderWord(w)) == Ok([WordMeaning(w)])
  {
    assert RenderWord(w) + [] == RenderWord(w) && [] + WordMeaning(w) == WordMeaning(w);
    ScanWord(w, [], [], false);
  }

  lemma {:induction false} PrintedOnce(words: seq<Word>, space: string)
    requires words != []
    ensures |words| == 1 ==> RenderLine(words, space) == RenderWord(words[0])
    ensures |words| == 1 ==> LineMeaning(words) == [WordMeaning(words[0])]
    ensures |words| > 1 ==> RenderLine(words, space) == RenderWord(words[0]) + (space + RenderLine(words[1..], space))
    ensures LineMeaning(words) == [WordMeaning(words[0])] + LineMeaning(words[1..])
  {
    if |words| > 1 {
      var w, tail := RenderWord(words[0]), RenderLine(words[1..], space);
      assert w + space + tail == w + (space + tail);
    } else {
      assert words[1..] == [] && LineMeaning(words[1..]) == [];
    }
  }

  /** Splitting a printed line gives its words back, however each word is quoted and whatever white
      space separates them; empty words and embedded quotes included. */
  lemma {:induction false} SplitInvertsPrinting(words: seq<Word>, space: string)
    requires forall i :: 0 <= i < |words| ==> LegalWord(words[i])
    requires space != [] && AllWhitespace(space)
    ensures Split(RenderLine(words, space)) == Ok(LineMeaning(words))
    decreases |words|
  {
    if |words| == 1 {
      PrintedOnce(words, space);
      ScanLastWord(words[0]);
    } else if |words| > 1 {
      PrintedOnce(words, space);
      ScanWordAndSpace(words[0], space, RenderLine(words[1..], space));
      SplitInvertsPrinting(words[1..], space);
    }
  }

  // ---------------------------------------------------------------- what is left open

  /** Words that are closed by white space come out first, whatever follows. */
  function RenderClosed(words: seq<Word>, space: string): string {
    if words == [] then [] else RenderWord(words[0]) + (space + RenderClosed(words[1..], space))
  }

  lemma {:induction false} ClosedWordsComeFirst(words: seq<Word>, space: string, tail: string)
    requires forall i :: 0 <= i < |words| ==> LegalWord(words[i])
    requires space != [] && AllWhitespace(space)
    ensures Split(RenderClosed(words, space) + tail) == Prepend(LineMeaning(words), Split(tail))
    decreases |words|
  {
    if words == [] {
      assert RenderClosed(words, space) + tail == tail;
      PrependLaws([], [], Split(tail));
    } else {
      var more := RenderClosed(words[1..], space) + tail;
      assert RenderClosed(words, space) + tail == RenderWord(words[0]) + (space + more);
      ScanWordAndSpace(words[0], space, more);
      ClosedWordsComeFirst(words[1..], space, tail);
      PrependLaws([WordMeaning(words[0])], LineMeaning(words[1..]), Split(tail));
    }
  }

  /** The pieces of a word so far; there may be none. */
  predicate LegalStart(w: Word) { forall i :: 0 <= i < |w| ==> Legal(w[i]) }

  lemma {:induction false} ScanStart(w: Word, rest: string)
    requires LegalStart(w) && rest != [] && !IsWhitespace(rest[0])
    ensures Split(RenderWord(w) + rest) == Scan(rest, Outside, WordMeaning(w), w != [])
  {
    if w == [] {
      assert RenderWord(w) + rest == rest;
    } else {
      ScanWord(w, rest, [], false);
      assert [] + WordMeaning(w) == WordMeaning(w);
    }
  }

  lemma {:induction false} NeverClosed(text: string, current: string)
    requires '\'' !in text
    ensures Scan(text, InSingle, current, true) == Err(UnterminatedSingleQuote)
    decreases |text|
  {
    if text != [] { NeverClosed(text[1..], current + [text[0]]); }
  }

  /** A line whose last quote or escape is left open is refused, with the error that says which it was, after any
      number of complete words and pieces. */
  lemma {:induction false} OpenEndsAreRefused(words: seq<Word>, space: string, w: Word, text: string, items: seq<Item>)
    requires forall i :: 0 <= i < |words| ==> LegalWord(words[i])
    requires space != [] && AllWhitespace(space) && LegalStart(w) && '\'' !in text && LegalItems(items)
    ensures Split(RenderClosed(words, space) + (RenderWord(w) + ("'" + text))) == Err(UnterminatedSingleQuote)
    ensures Split(RenderClosed(words, space) + (RenderWord(w) + ("\"" + RenderItems(items)))) == Err(UnterminatedDoubleQuote)
    ensures Split(RenderClosed(words, space) + (RenderWord(w) + ("\"" + RenderItems(items) + "\\")))
         == Err(TrailingBackslashInsideDoubleQuotes)
    ensures Split(RenderClosed(words, space) + (RenderWord(w) + "\\")) == Err(TrailingBackslash)
  {
    OpenSingle(w, text);
    OpenDouble(w, items, []);
    OpenDouble(w, items, "\\");
    OpenBackslash(w);
    ClosedWordsComeFirst(words, space, RenderWord(w) + ("'" + text));
    ClosedWordsComeFirst(words, space, RenderWord(w) + ("\"" + RenderItems(items)));
    ClosedWordsComeFirst(words, space, RenderWord(w) + ("\"" + RenderItems(items) + "\\"));
    ClosedWordsComeFirst(words, space, RenderWord(w) + "\\");
    assert "\"" + RenderItems(items) + [] == "\"" + RenderItems(items);
  }

  lemma {:induction false} OpenSingle(w: Word, text: string)
    requires LegalStart(w) && '\'' !in text
    ensures Split(RenderWord(w) + ("'" + text)) == Err(UnterminatedSingleQuote)
  {
    var rest := "'" + text;
    ScanStart(w, rest);
    assert rest[1..] == text;
    NeverClosed(text, WordMeaning(w));
  }

  lemma {:induction false} OpenDouble(w: Word, items: seq<Item>, end: string)
    requires LegalStart(w) && LegalItems(items) && (end == [] || end == "\\")
    ensures Split(RenderWord(w) + ("\"" + RenderItems(items) + end))
         == Err(if end == [] then UnterminatedDoubleQuote else TrailingBackslashInsideDoubleQuotes)
  {
    var rest, current := "\"" + RenderItems(items) + end, WordMeaning(w);
    ScanStart(w, rest);
    assert rest[1..] == RenderItems(items) + end;
    ScanItems(items, end, current);
    if end != [] {
      assert end[1..] == [];
      assert Scan(end, InDouble, current + ItemsMeaning(items), true)
          == Scan([], AfterBackslashInDouble, current + ItemsMeaning(items), true);
    }
  }

  lemma {:induction false} OpenBackslash(w: Word)
    requires LegalStart(w)
    ensures Split(RenderWord(w) + "\\") == Err(TrailingBackslash)
  {
    var rest := "\\";
    ScanStart(w, rest);
    assert rest[1..] == [];
    assert Scan(rest, Outside, WordMeaning(w), w != []) == Scan([], AfterBackslash, WordMeaning(w), true);
  }

  // ---------------------------------------------------------------- every list of words

  function ItemsOf(text: string): seq<Item> {
    if text == [] then []
    else [if EscapableInDouble(text[0]) then Protected(text[0]) else AsIs(text[0])] + ItemsOf(text[1..])
  }

  lemma {:induction false} ItemsOfMean(text: string)
    ensures LegalItems(ItemsOf(text)) && ItemsMeaning(ItemsOf(text)) == text
    decreases |text|
  {
    if text != [] {
      ItemsOfMean(text[1..]);
      var items := ItemsOf(text);
      assert items[1..] == ItemsOf(text[1..]) && text == [text[0]] + text[1..];
      forall i | 0 <= i < |items| ensures LegalItem(items[i]) { if i > 0 { assert items[i] == items[1..][i - 1]; } }
    }
  }

  /** The printer that double-quotes every word. */
  function QuoteAll(words: seq<string>): seq<Word> {
    seq(|words|, i requires 0 <= i < |words| => [DoubleQuoted(ItemsOf(words[i]))])
  }

  lemma {:induction false} QuoteAllMeans(words: seq<string>)
    ensures LineMeaning(QuoteAll(words)) == words
    decreases |words|
  {
    if words != [] {
      var w := [DoubleQuoted(ItemsOf(words[0]))];
      assert QuoteAll(words)[0] == w && QuoteAll(words)[1..] == QuoteAll(words[1..]);
      QuoteAllMeans(words[1..]);
      ItemsOfMean(words[0]);
      assert w[1..] == [] && WordMeaning(w) == words[0] + [] == words[0];
      assert words == [words[0]] + words[1..];
    }
  }

  /** Every list of words whatsoever survives quoting, joining with spaces and splitting. */
  lemma AnyWordsSurviveQuoting(words: seq<string>)
    ensures Split(RenderLine(QuoteAll(words), " ")) == Ok(words)
  {
    forall i | 0 <= i < |words| ensures LegalWord(QuoteAll(words)[i]) { ItemsOfMean(words[i]); }
    SplitInvertsPrinting(QuoteAll(words), " ");
    QuoteAllMeans(words);
  }

  // ---------------------------------------------------------------- the first word

  lemma {:induction false} OpenWordIsKept(s: string, mode: Mode, current: string)
    ensures Scan(s, mode, current, true).Ok? ==> Scan(s, mode, current, true).value != []
    decreases |s|
  {
    if s != [] {
      var c, rest := s[0], s[1..];
      match mode
      case Outside =>
        if c == '\'' { OpenWordIsKept(rest, InSingle, current); }
        else if c == '"' { OpenWordIsKept(rest, InDouble, current); }
        else if c == '\\' { OpenWordIsKept(rest, AfterBackslash, current); }
        else { OpenWordIsKept(rest, Outside, current + [c]); }
      case InSingle =>
        OpenWordIsKept(rest, Outside, current);
        OpenWordIsKept(rest, InSingle, current + [c]);
      case InDouble =>
        OpenWordIsKept(rest, Outside, current);
        OpenWordIsKept(rest, AfterBackslashInDouble, current);
        OpenWordIsKept(rest, InDouble, current + [c]);
      case AfterBackslash => OpenWordIsKept(rest, Outside, if c == '\n' then current else current + [c]);
      case AfterBackslashInDouble =>
        OpenWordIsKept(rest, InDouble,
                       if EscapableInDouble(c) then current + [c] else if c == '\n' then current else current + ['\\', c]);
    }
  }

  /** A result has no words exactly when the input is blank. */
  lemma {:induction false} NoWordsIffBlank(s: string)
    ensures Split(s) == Ok([]) <==> AllWhitespace(s)
    decreases |s|
  {
    if s != [] {
      var c, rest := s[0], s[1..];
      if IsWhitespace(c) {
        PrependLaws([], [], Split(rest));
        NoWordsIffBlank(rest);
        assert AllWhitespace(s) <==> AllWhitespace(rest);
      } else {
        OpenWordIsKept(rest, InSingle, []);
        OpenWordIsKept(rest, InDouble, []);
        OpenWordIsKept(rest, AfterBackslash, []);
        OpenWordIsKept(rest, Outside, [] + [c]);
      }
    }
  }

  function TrimStart(s: string): string { if s != [] && IsWhitespace(s[0]) then TrimStart(s[1..]) else s }

  function TrimEnd(s: string): string
    decreases |s|
  {
    if s != [] && IsWhitespace(s[|s| - 1]) then TrimEnd(s[..|s| - 1]) else s
  }

  datatype ParseError = Empty | Unsplittable(error: SplitError) | NotAbsolute | Forbidden

  datatype NotifyCommand = NotifyCommand(program: string, args: seq<string>)

  /** `NotifyCommand::parse`: taking the first word never fails, because trimmed text is not blank. */
  method Parse(raw: string, forbidden: string -> bool) returns (r: Result<NotifyCommand, ParseError>)
    ensures r == Err(Empty) <==> AllWhitespace(raw)
    ensures !AllWhitespace(raw) && Split(TrimEnd(TrimStart(raw))).Err? <==> r.Err? && r.error.Unsplittable?
    ensures r.Ok? <==>
              Split(TrimEnd(TrimStart(raw))).Ok? && !AllWhitespace(raw)
              && var words := Split(TrimEnd(TrimStart(raw))).value;
                 words != [] && words[0] != [] && words[0][0] == '/' && !forbidden(words[0])
    ensures r.Ok? ==> Split(TrimEnd(TrimStart(raw))) == Ok([r.value.program] + r.value.args)
  {
    var trimmed := TrimEnd(TrimStart(raw));
    TrimmedIsBlankIff(raw);
    if trimmed == [] { return Err(Empty); }
    var split := SplitCommandWords(trimmed);
    if split.Err? { return Err(Unsplittable(split.error)); }
    NoWordsIffBlank(trimmed);
    var words := split.value;
    var program, args := words[0], words[1..];
    if program == [] || program[0] != '/' { return Err(NotAbsolute); }
    if forbidden(program) { return Err(Forbidden); }
    assert words == [program] + args;
    return Ok(NotifyCommand(program, args));
  }

  lemma {:induction false} TrimStartKeeps(s: string)
    ensures TrimStart(s) == [] || !IsWhitespace(TrimStart(s)[0])
    ensures TrimStart(s) == [] <==> AllWhitespace(s)
    decreases |s|
  {
    if s != [] && IsWhitespace(s[0]) {
      TrimStartKeeps(s[1..]);
      assert AllWhitespace(s) <==> AllWhitespace(s[1..]);
    }
  }

  lemma {:induction false} TrimEndKeeps(s: string)
    requires s != [] && !IsWhitespace(s[0])
    ensures TrimEnd(s) != [] && !IsWhitespace(TrimEnd(s)[0])
    decreases |s|
  {
    if IsWhitespace(s[|s| - 1]) { TrimEndKeeps(s[..|s| - 1]); }
  }

  /** Trimming takes white space from both ends, and no more than there is. */
  lemma TrimTakesTheEnds(raw: string) returns (before: string, after: string)
    ensures raw == before + TrimEnd(TrimStart(raw)) + after && AllWhitespace(before) && AllWhitespace(after)
    ensures var t := TrimEnd(TrimStart(raw)); t != [] ==> !IsWhitespace(t[0]) && !IsWhitespace(t[|t| - 1])
  {
    before := TrimStartTakes(raw);
    after := TrimEndTakes(TrimStart(raw));
    assert raw == before + (TrimEnd(TrimStart(raw)) + after);
    TrimStartKeeps(raw);
    if TrimStart(raw) != [] { TrimEndKeeps(TrimStart(raw)); }
  }

  lemma {:induction false} TrimStartTakes(s: string) returns (before: string)
    ensures s == before + TrimStart(s) && AllWhitespace(before)
    decreases |s|
  {
    if s != [] && IsWhitespace(s[0]) {
      before := TrimStartTakes(s[1..]);
      before := [s[0]] + before;
    } else {
      before := [];
    }
  }

  lemma {:induction false} TrimEndTakes(s: string) returns (after: string)
    ensures s == TrimEnd(s) + after && AllWhitespace(after)
    ensures TrimEnd(s) != [] ==> !IsWhitespace(TrimEnd(s)[|TrimEnd(s)| - 1])
    decreases |s|
  {
    if s != [] && IsWhitespace(s[|s| - 1]) {
      after := TrimEndTakes(s[..|s| - 1]);
      after := after + [s[|s| - 1]];
    } else {
      after := [];
    }
  }

  lemma TrimmedIsBlankIff(raw: string)
    ensures var t := TrimEnd(TrimStart(raw)); (t == [] <==> AllWhitespace(raw)) && (t != [] ==> !AllWhitespace(t))
  {
    TrimStartKeeps(raw);
    if TrimStart(raw) != [] { TrimEndKeeps(TrimStart(raw)); }
  }
}
