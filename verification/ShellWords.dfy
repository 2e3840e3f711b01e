/**
  How a command is written: blanks, bare characters, backslash pairs and quoted stretches. Every text is
  written in this way up to an unfinished end, and the splitter reads from a writing exactly its words.
 */
module ShellWords {
  import opened Wrappers
  import opened QuotedText
  import opened StartupTemplate

  datatype Atom =
    | Blank(c: char)
    | Bare(c: char)
    | Backslash(c: char)
    | Single(text: string)
    | Double(bits: seq<Bit>)

  /** What a text ends in that is cut off: nothing, an open quote, or a backslash with nothing behind it. */
  datatype Tail =
    | Whole
    | OpenSingle(text: string)
    | OpenDouble(bits: seq<Bit>)
    | BareBackslash
    | DoubleBackslash(bits: seq<Bit>)

  // ---------------------------------------------------------------- writing

  predicate PlainIn(text: string, q: char) {
    forall k | 0 <= k < |text| :: text[k] != q
  }

  predicate GoodAtom(a: Atom) {
    match a
    case Blank(c) => c == ' ' || c == '\t' || c == '\r' || c == '\n'
    case Bare(c) => c != ' ' && c != '\t' && c != '\r' && c != '\n' && c != '\'' && c != '"' && c != '\\'
    case Backslash(_) => true
    case Single(text) => PlainIn(text, '\'')
    case Double(bits) => GoodBits(bits)
  }

  predicate Good(atoms: seq<Atom>) {
    forall k | 0 <= k < |atoms| :: GoodAtom(atoms[k])
  }

  predicate GoodTail(tail: Tail) {
    match tail
    case OpenSingle(text) => PlainIn(text, '\'')
    case OpenDouble(bits) => GoodBits(bits)
    case DoubleBackslash(bits) => GoodBits(bits)
    case _ => true
  }

  function AtomWritten(a: Atom): string {
    match a
    case Blank(c) => [c]
    case Bare(c) => [c]
    case Backslash(c) => ['\\', c]
    case Single(text) => ['\''] + text + ['\'']
    case Double(bits) => ['"'] + BitsWritten(bits) + ['"']
  }

  function TailWritten(tail: Tail): string {
    match tail
    case Whole => ""
    case OpenSingle(text) => ['\''] + text
    case OpenDouble(bits) => ['"'] + BitsWritten(bits)
    case BareBackslash => ['\\']
    case DoubleBackslash(bits) => ['"'] + BitsWritten(bits) + ['\\']
  }

  function Written(atoms: seq<Atom>, tail: Tail): string {
    if atoms == [] then TailWritten(tail) else AtomWritten(atoms[0]) + Written(atoms[1..], tail)
  }

  // ---------------------------------------------------------------- reading

  /** Inside double quotes a backslash escapes the quote and itself; before anything else it stays. */
  function BitText(bit: Bit): string {
    match bit
    case Char(c) => [c]
    case Pair(c) => if c == '"' || c == '\\' then [c] else ['\\', c]
  }

  function BitsText(bits: seq<Bit>): string {
    if bits == [] then "" else BitText(bits[0]) + BitsText(bits[1..])
  }

  /** What an atom adds to its word. */
  function AtomText(a: Atom): string {
    match a
    case Blank(_) => ""
    case Bare(c) => [c]
    case Backslash(c) => [c]
    case Single(text) => text
    case Double(bits) => BitsText(bits)
  }

  /** The words: what stands between blanks. A word that is open keeps its text even when that is empty. */
  function Words(atoms: seq<Atom>, open: Option<string>): seq<string> {
    if atoms == [] then (if open.Some? then [open.value] else [])
    else if atoms[0].Blank? then (if open.Some? then [open.value] else []) + Words(atoms[1..], None)
    else Words(atoms[1..], Some((if open.Some? then open.value else "") + AtomText(atoms[0])))
  }

  /** What the splitter makes of a writing. */
  function Reading(atoms: seq<Atom>, tail: Tail): Result<seq<string>, SplitError> {
    match tail
    case Whole => Ok(Words(atoms, None))
    case OpenSingle(_) => Err(NoClosingQuotation)
    case OpenDouble(_) => Err(NoClosingQuotation)
    case BareBackslash => Err(NoEscapedCharacter)
    case DoubleBackslash(_) => Err(NoEscapedCharacter)
  }

  // ---------------------------------------------------------------- the splitter on a writing

  /** The characters at the kept positions. */
  function Text(s: string, w: Word): (t: string)
    ensures |t| == |w|
  {
    seq(|w|, k requires 0 <= k < |w| => if w[k] < |s| then s[w[k]] else ' ')
  }

  function TextsOf(s: string, ws: seq<Word>): (r: seq<string>)
    ensures |r| == |ws|
  {
    seq(|ws|, k requires 0 <= k < |ws| => Text(s, ws[k]))
  }

  function Shown(s: string, r: Result<seq<Word>, SplitError>): Result<seq<string>, SplitError> {
    match r
    case Ok(ws) => Ok(TextsOf(s, ws))
    case Err(e) => Err(e)
  }

  lemma TextGrows(s: string, w: Word, i: nat)
    requires i < |s|
    ensures Text(s, w + [i]) == Text(s, w) + [s[i]]
  {
  }

  lemma TextsCons(s: string, w: Word, ws: seq<Word>)
    ensures TextsOf(s, [w] + ws) == [Text(s, w)] + TextsOf(s, ws)
  {
  }

  /** From position `i` and `x` the splitter comes to position `j` and `y` without finishing a word. */
  ghost predicate Leads(s: string, i: nat, x: Splitter, j: nat, y: Splitter)
    requires i <= j <= |s|
    decreases j - i
  {
    if i == j then x == y else Step(s, i, x).1 == [] && Leads(s, i + 1, Step(s, i, x).0, j, y)
  }

  lemma {:induction false} LeadsOn(s: string, i: nat, x: Splitter, j: nat, y: Splitter, k: nat, z: Splitter)
    requires i <= j <= k <= |s| && Leads(s, i, x, j, y) && Leads(s, j, y, k, z)
    ensures Leads(s, i, x, k, z)
    decreases j - i
  {
    if i < j {
      LeadsOn(s, i + 1, Step(s, i, x).0, j, y, k, z);
    }
  }

  lemma OneStep(s: string, i: nat, x: Splitter)
    requires i < |s| && Step(s, i, x).1 == []
    ensures Leads(s, i, x, i + 1, Step(s, i, x).0)
  {
    assert Leads(s, i + 1, Step(s, i, x).0, i + 1, Step(s, i, x).0);
  }

  lemma {:induction false} LeadsToSplit(s: string, i: nat, x: Splitter, j: nat, y: Splitter)
    requires i <= j <= |s| && Leads(s, i, x, j, y)
    ensures SplitFrom(s, i, x) == SplitFrom(s, j, y)
    decreases j - i
  {
    if i < j {
      LeadsToSplit(s, i + 1, Step(s, i, x).0, j, y);
      SilentStep(s, i, x);
    }
  }

  /** A character that finishes no word. */
  lemma SilentStep(s: string, i: nat, x: Splitter)
    requires i < |s| && Step(s, i, x).1 == []
    ensures SplitFrom(s, i, x) == SplitFrom(s, i + 1, Step(s, i, x).0)
  {
    var rest := SplitFrom(s, i + 1, Step(s, i, x).0);
    if rest.Ok? {
      assert [] + rest.value == rest.value;
    }
  }

  /** The part stands in the text from `i` on. */
  ghost predicate At(s: string, i: nat, part: string)
    decreases |part|
  {
    i + |part| <= |s| && (part == "" || (s[i] == part[0] && At(s, i + 1, part[1..])))
  }

  lemma {:induction false} AtSelf(s: string, i: nat)
    requires i <= |s|
    ensures At(s, i, s[i..])
    decreases |s| - i
  {
    if i < |s| {
      AtSelf(s, i + 1);
      assert s[i..][1..] == s[i + 1..];
    }
  }

  lemma {:induction false} AtParts(s: string, i: nat, a: string, b: string)
    requires At(s, i, a + b)
    ensures At(s, i, a) && At(s, i + |a|, b)
    decreases |a|
  {
    if a == "" {
      assert a + b == b;
    } else {
      assert (a + b)[0] == a[0] && (a + b)[1..] == a[1..] + b;
      AtParts(s, i + 1, a[1..], b);
    }
  }

  lemma AtSplit(s: string, i: nat, whole: string, first: string, rest: string) returns (n: nat)
    requires whole == first + rest && At(s, i, whole)
    ensures n == i + |first| && At(s, i, first) && At(s, n, rest) && n + |rest| == i + |whole|
  {
    AtParts(s, i, first, rest);
    n := i + |first|;
  }

  lemma AtPair(s: string, i: nat, c: char, d: char)
    requires At(s, i, [c, d])
    ensures i + 1 < |s| && s[i] == c && s[i + 1] == d
  {
    assert [c, d][1..] == [d];
  }

  /** Inside single quotes everything is kept. */
  lemma {:induction false} ReadSingles(s: string, i: nat, x: Splitter, text: string) returns (y: Splitter)
    requires At(s, i, text) && x.state == InQuotes('\'') && PlainIn(text, '\'')
    ensures Leads(s, i, x, i + |text|, y)
    ensures y.state == x.state && y.quoted == x.quoted && Text(s, y.word) == Text(s, x.word) + text
    decreases |text|
  {
    if text == "" {
      y := x;
      assert Text(s, x.word) + text == Text(s, x.word);
    } else {
      OneStep(s, i, x);
      TextGrows(s, x.word, i);
      y := ReadSingles(s, i + 1, Step(s, i, x).0, text[1..]);
      LeadsOn(s, i, x, i + 1, Step(s, i, x).0, i + |text|, y);
      assert Text(s, x.word) + [text[0]] + text[1..] == Text(s, x.word) + text;
    }
  }

  /** One character or pair inside double quotes. */
  lemma ReadBit(s: string, i: nat, x: Splitter, bit: Bit) returns (y: Splitter)
    requires At(s, i, BitWritten(bit)) && x.state == InQuotes('"') && GoodBit(bit)
    ensures Leads(s, i, x, i + |BitWritten(bit)|, y)
    ensures y.state == x.state && y.quoted == x.quoted && Text(s, y.word) == Text(s, x.word) + BitText(bit)
  {
    OneStep(s, i, x);
    y := Step(s, i, x).0;
    match bit
    case Char(c) =>
      TextGrows(s, x.word, i);
    case Pair(c) =>
      AtPair(s, i, '\\', c);
      OneStep(s, i + 1, y);
      LeadsOn(s, i, x, i + 1, y, i + 2, Step(s, i + 1, y).0);
      y := Step(s, i + 1, y).0;
      if c == '"' || c == '\\' {
        TextGrows(s, x.word, i + 1);
      } else {
        TextGrows(s, x.word, i);
        TextGrows(s, x.word + [i], i + 1);
        assert x.word + [i] + [i + 1] == x.word + [i, i + 1];
        assert Text(s, x.word) + ['\\'] + [c] == Text(s, x.word) + ['\\', c];
      }
  }

  lemma AtFirstBit(s: string, i: nat, bits: seq<Bit>) returns (n: nat)
    requires bits != [] && At(s, i, BitsWritten(bits))
    ensures n == i + |BitWritten(bits[0])| && At(s, i, BitWritten(bits[0])) && At(s, n, BitsWritten(bits[1..]))
    ensures n + |BitsWritten(bits[1..])| == i + |BitsWritten(bits)|
  {
    n := AtSplit(s, i, BitsWritten(bits), BitWritten(bits[0]), BitsWritten(bits[1..]));
  }

  lemma FirstBit(bits: seq<Bit>)
    requires bits != [] && GoodBits(bits)
    ensures GoodBit(bits[0]) && GoodBits(bits[1..]) && BitsText(bits) == BitText(bits[0]) + BitsText(bits[1..])
  {
  }

  /** From `x` to `y` nothing but the text of the open word changes, by so much. */
  ghost predicate Keeps(s: string, i: nat, x: Splitter, j: nat, y: Splitter, text: string) {
    && i <= j <= |s| && Leads(s, i, x, j, y)
    && y.state == x.state && y.quoted == x.quoted && Text(s, y.word) == Text(s, x.word) + text
  }

  lemma KeepsOn(s: string, i: nat, x: Splitter, j: nat, y: Splitter, k: nat, z: Splitter, a: string, b: string)
    requires Keeps(s, i, x, j, y, a) && Keeps(s, j, y, k, z, b)
    ensures Keeps(s, i, x, k, z, a + b)
  {
    LeadsOn(s, i, x, j, y, k, z);
    JoinThree(Text(s, x.word), a, b);
  }

  lemma KeepsNothing(s: string, i: nat, x: Splitter)
    requires i <= |s|
    ensures Keeps(s, i, x, i, x, "")
  {
    assert Text(s, x.word) + "" == Text(s, x.word);
  }

  lemma {:induction false} ReadBits(s: string, i: nat, j: nat, x: Splitter, bits: seq<Bit>) returns (y: Splitter)
    requires At(s, i, BitsWritten(bits)) && j == i + |BitsWritten(bits)|
    requires x.state == InQuotes('"') && GoodBits(bits)
    ensures Keeps(s, i, x, j, y, BitsText(bits))
    decreases |bits|
  {
    if bits == [] {
      y := x;
      KeepsNothing(s, i, x);
    } else {
      var n := AtFirstBit(s, i, bits);
      FirstBit(bits);
      var z := ReadBit(s, i, x, bits[0]);
      y := ReadBits(s, n, j, z, bits[1..]);
      KeepsOn(s, i, x, n, z, j, y, BitText(bits[0]), BitsText(bits[1..]));
    }
  }

  /** Between words, or in a word that is there for good. */
  predicate Resting(x: Splitter) {
    x == Splitter(Between, [], false) || (x.state == InWord && (x.word != [] || x.quoted))
  }

  function Open(s: string, x: Splitter): Option<string> {
    if x.state == InWord then Some(Text(s, x.word)) else None
  }

  function OpenText(s: string, x: Splitter): string {
    if Open(s, x).Some? then Open(s, x).value else ""
  }

  lemma OpenQuote(s: string, i: nat, x: Splitter, q: char) returns (y: Splitter)
    requires i < |s| && s[i] == q && (q == '\'' || q == '"') && Resting(x)
    ensures Leads(s, i, x, i + 1, y)
    ensures y.state == InQuotes(q) && y.quoted && Text(s, y.word) == OpenText(s, x)
  {
    OneStep(s, i, x);
    y := Step(s, i, x).0;
    assert x.state == Between ==> Text(s, []) == "";
  }

  lemma CloseQuote(s: string, i: nat, x: Splitter)
    requires i < |s| && x.state.InQuotes? && s[i] == x.state.q
    ensures Leads(s, i, x, i + 1, x.(state := InWord))
  {
    OneStep(s, i, x);
  }

  lemma AtQuoted(s: string, i: nat, q: char, inside: string)
    requires At(s, i, [q] + inside + [q])
    ensures var n := i + 1 + |inside|;
            At(s, i + 1, inside) && n < |s| && s[i] == q && s[n] == q
  {
    AtParts(s, i, [q] + inside, [q]);
    AtParts(s, i, [q], inside);
  }

  /** From the opening quote through what is kept to the closing one. */
  lemma QuotedStretch(s: string, i: nat, x: Splitter, z: Splitter, n: nat, w: Splitter, q: char, text: string)
    returns (y: Splitter)
    requires n < |s| && s[n] == q && z.state == InQuotes(q) && z.quoted && Text(s, z.word) == OpenText(s, x)
    requires i + 1 <= n && Leads(s, i, x, i + 1, z) && Keeps(s, i + 1, z, n, w, text)
    ensures Leads(s, i, x, n + 1, y)
    ensures y.state == InWord && Resting(y) && Text(s, y.word) == OpenText(s, x) + text
  {
    CloseQuote(s, n, w);
    y := w.(state := InWord);
    LeadsOn(s, i, x, i + 1, z, n, w);
    LeadsOn(s, i, x, n, w, n + 1, y);
  }

  lemma ReadSingleQuoted(s: string, i: nat, x: Splitter, text: string) returns (y: Splitter)
    requires At(s, i, AtomWritten(Single(text))) && PlainIn(text, '\'') && Resting(x)
    ensures Leads(s, i, x, i + |AtomWritten(Single(text))|, y)
    ensures y.state == InWord && Resting(y) && Text(s, y.word) == OpenText(s, x) + text
  {
    AtQuoted(s, i, '\'', text);
    var z := OpenQuote(s, i, x, '\'');
    var w := ReadSingles(s, i + 1, z, text);
    y := QuotedStretch(s, i, x, z, i + 1 + |text|, w, '\'', text);
  }

  lemma ReadDoubleQuoted(s: string, i: nat, x: Splitter, bits: seq<Bit>) returns (y: Splitter)
    requires At(s, i, AtomWritten(Double(bits))) && GoodBits(bits) && Resting(x)
    ensures Leads(s, i, x, i + |AtomWritten(Double(bits))|, y)
    ensures y.state == InWord && Resting(y) && Text(s, y.word) == OpenText(s, x) + BitsText(bits)
  {
    var n := i + 1 + |BitsWritten(bits)|;
    AtQuoted(s, i, '"', BitsWritten(bits));
    var z := OpenQuote(s, i, x, '"');
    var w := ReadBits(s, i + 1, n, z, bits);
    y := QuotedStretch(s, i, x, z, n, w, '"', BitsText(bits));
  }

  /** A bare character, or one behind a backslash. */
  lemma ReadCharacter(s: string, i: nat, x: Splitter, a: Atom) returns (y: Splitter)
    requires At(s, i, AtomWritten(a)) && GoodAtom(a) && (a.Bare? || a.Backslash?) && Resting(x)
    ensures Leads(s, i, x, i + |AtomWritten(a)|, y)
    ensures y.state == InWord && Resting(y) && Text(s, y.word) == OpenText(s, x) + AtomText(a)
  {
    OneStep(s, i, x);
    y := Step(s, i, x).0;
    var before: Word := if x.state == InWord then x.word else [];
    assert Text(s, before) == OpenText(s, x);
    if a.Bare? {
      TextGrows(s, before, i);
    } else {
      AtPair(s, i, '\\', a.c);
      OneStep(s, i + 1, y);
      LeadsOn(s, i, x, i + 1, y, i + 2, Step(s, i + 1, y).0);
      TextGrows(s, before, i + 1);
      y := Step(s, i + 1, y).0;
    }
  }

  /** Whatever is not a blank makes the open word longer. */
  lemma ReadPart(s: string, i: nat, x: Splitter, a: Atom) returns (y: Splitter)
    requires At(s, i, AtomWritten(a)) && GoodAtom(a) && !a.Blank? && Resting(x)
    ensures Leads(s, i, x, i + |AtomWritten(a)|, y)
    ensures y.state == InWord && Resting(y) && Text(s, y.word) == OpenText(s, x) + AtomText(a)
  {
    match a
    case Single(text) => y := ReadSingleQuoted(s, i, x, text);
    case Double(bits) => y := ReadDoubleQuoted(s, i, x, bits);
    case _ => y := ReadCharacter(s, i, x, a);
  }

  /** The splitter from `i` on, with the texts of the words. */
  function Read(s: string, i: nat, x: Splitter): Result<seq<string>, SplitError>
    requires i <= |s|
  {
    Shown(s, SplitFrom(s, i, x))
  }

  lemma ReadAfterPart(s: string, i: nat, x: Splitter, a: Atom) returns (y: Splitter)
    requires At(s, i, AtomWritten(a)) && GoodAtom(a) && !a.Blank? && Resting(x)
    ensures Read(s, i, x) == Read(s, i + |AtomWritten(a)|, y)
    ensures Resting(y) && Open(s, y) == Some(OpenText(s, x) + AtomText(a))
  {
    y := ReadPart(s, i, x, a);
    LeadsToSplit(s, i, x, i + |AtomWritten(a)|, y);
  }

  lemma ReadBlank(s: string, i: nat, x: Splitter, c: char)
    requires i < |s| && s[i] == c && GoodAtom(Blank(c)) && Resting(x)
    ensures var rest := Read(s, i + 1, Splitter(Between, [], false));
            Read(s, i, x) ==
              if rest.Err? then rest
              else Ok((if Open(s, x).Some? then [Open(s, x).value] else []) + rest.value)
  {
    var rest := SplitFrom(s, i + 1, Splitter(Between, [], false));
    if x.state == InWord {
      if rest.Ok? {
        TextsCons(s, x.word, rest.value);
      }
    } else {
      SilentStep(s, i, x);
      if rest.Ok? {
        assert [] + TextsOf(s, rest.value) == TextsOf(s, rest.value);
      }
    }
  }

  lemma ReadEnd(s: string, x: Splitter)
    requires Resting(x)
    ensures Read(s, |s|, x) == Ok(if Open(s, x).Some? then [Open(s, x).value] else [])
  {
    if x.state == InWord {
      TextsCons(s, x.word, []);
      assert TextsOf(s, []) == [];
      assert [x.word] + [] == [x.word] && [Text(s, x.word)] + [] == [Text(s, x.word)];
    } else {
      assert TextsOf(s, []) == [];
    }
  }

  lemma ReadOpenSingle(s: string, i: nat, x: Splitter, text: string)
    requires At(s, i, ['\''] + text) && i + 1 + |text| == |s| && PlainIn(text, '\'') && Resting(x)
    ensures SplitFrom(s, i, x) == Err(NoClosingQuotation)
  {
    AtParts(s, i, ['\''], text);
    var y := OpenQuote(s, i, x, '\'');
    var z := ReadSingles(s, i + 1, y, text);
    LeadsOn(s, i, x, i + 1, y, |s|, z);
    LeadsToSplit(s, i, x, |s|, z);
  }

  /** Up to the end of an open stretch in double quotes. */
  lemma ReadOpenDouble(s: string, i: nat, x: Splitter, bits: seq<Bit>) returns (y: Splitter)
    requires At(s, i, ['"'] + BitsWritten(bits)) && GoodBits(bits) && Resting(x)
    ensures SplitFrom(s, i, x) == SplitFrom(s, i + 1 + |BitsWritten(bits)|, y) && y.state == InQuotes('"')
  {
    AtParts(s, i, ['"'], BitsWritten(bits));
    var z := OpenQuote(s, i, x, '"');
    var n := i + 1 + |BitsWritten(bits)|;
    y := ReadBits(s, i + 1, n, z, bits);
    LeadsOn(s, i, x, i + 1, z, n, y);
    LeadsToSplit(s, i, x, n, y);
  }

  /** A backslash with nothing behind it. */
  lemma ReadLastBackslash(s: string, i: nat, x: Splitter)
    requires i + 1 == |s| && s[i] == '\\' && (Resting(x) || x.state == InQuotes('"'))
    ensures SplitFrom(s, i, x) == Err(NoEscapedCharacter)
  {
    SilentStep(s, i, x);
  }

  /** The unfinished end. */
  lemma ReadTail(s: string, i: nat, x: Splitter, tail: Tail)
    requires At(s, i, TailWritten(tail)) && i + |TailWritten(tail)| == |s| && GoodTail(tail) && Resting(x)
    ensures Read(s, i, x) == ReadingFrom([], tail, Open(s, x))
  {
    match tail
    case Whole =>
      ReadEnd(s, x);
    case BareBackslash =>
      ReadLastBackslash(s, i, x);
    case OpenSingle(text) =>
      ReadOpenSingle(s, i, x, text);
    case OpenDouble(bits) =>
      var y := ReadOpenDouble(s, i, x, bits);
    case DoubleBackslash(bits) =>
      AtParts(s, i, ['"'] + BitsWritten(bits), ['\\']);
      var n := i + 1 + |BitsWritten(bits)|;
      var y := ReadOpenDouble(s, i, x, bits);
      ReadLastBackslash(s, n, y);
  }

  /** What is read from `i` on, with a word open or not. */
  function ReadingFrom(atoms: seq<Atom>, tail: Tail, open: Option<string>): Result<seq<string>, SplitError> {
    if tail.Whole? then Ok(Words(atoms, open)) else Reading([], tail)
  }

  /** The writing lies in the text from `i` on to its end, atom by atom. */
  ghost predicate Lies(s: string, i: nat, atoms: seq<Atom>, tail: Tail)
    decreases |atoms|
  {
    if atoms == [] then
      At(s, i, TailWritten(tail)) && i + |TailWritten(tail)| == |s| && GoodTail(tail)
    else
      && GoodAtom(atoms[0]) && At(s, i, AtomWritten(atoms[0]))
      && Lies(s, i + |AtomWritten(atoms[0])|, atoms[1..], tail)
  }

  lemma WrittenFirst(atoms: seq<Atom>, tail: Tail)
    requires atoms != []
    ensures Written(atoms, tail) == AtomWritten(atoms[0]) + Written(atoms[1..], tail)
  {
  }

  lemma GoodRest(atoms: seq<Atom>)
    requires Good(atoms) && atoms != []
    ensures GoodAtom(atoms[0]) && Good(atoms[1..])
  {
  }

  lemma LiesCons(s: string, i: nat, n: nat, atoms: seq<Atom>, tail: Tail)
    requires atoms != [] && GoodAtom(atoms[0]) && At(s, i, AtomWritten(atoms[0]))
    requires n == i + |AtomWritten(atoms[0])| && Lies(s, n, atoms[1..], tail)
    ensures Lies(s, i, atoms, tail)
  {
  }

  lemma WritingFirst(s: string, i: nat, atoms: seq<Atom>, tail: Tail) returns (n: nat)
    requires atoms != [] && At(s, i, Written(atoms, tail))
    ensures n == i + |AtomWritten(atoms[0])| && At(s, i, AtomWritten(atoms[0]))
    ensures At(s, n, Written(atoms[1..], tail))
    ensures n + |Written(atoms[1..], tail)| == i + |Written(atoms, tail)|
  {
    WrittenFirst(atoms, tail);
    n := AtSplit(s, i, Written(atoms, tail), AtomWritten(atoms[0]), Written(atoms[1..], tail));
  }

  lemma {:induction false} WritingLies(s: string, i: nat, atoms: seq<Atom>, tail: Tail)
    requires At(s, i, Written(atoms, tail)) && i + |Written(atoms, tail)| == |s| && Good(atoms) && GoodTail(tail)
    ensures Lies(s, i, atoms, tail)
    decreases |atoms|
  {
    if atoms != [] {
      GoodRest(atoms);
      var n := WritingFirst(s, i, atoms, tail);
      WritingLies(s, n, atoms[1..], tail);
      LiesCons(s, i, n, atoms, tail);
    }
  }

  lemma LiesFirst(s: string, i: nat, atoms: seq<Atom>, tail: Tail) returns (n: nat)
    requires atoms != [] && Lies(s, i, atoms, tail)
    ensures n == i + |AtomWritten(atoms[0])| <= |s| && GoodAtom(atoms[0]) && At(s, i, AtomWritten(atoms[0]))
    ensures Lies(s, n, atoms[1..], tail)
  {
    n := i + |AtomWritten(atoms[0])|;
  }

  /** What is read from an atom and what comes behind it, with a word open or not. */
  function WithAtom(a: Atom, open: Option<string>, rest: Result<seq<string>, SplitError>)
    : Result<seq<string>, SplitError>
  {
    if a.Blank? && open.Some? && rest.Ok? then Ok([open.value] + rest.value) else rest
  }

  function OpenBehind(a: Atom, open: Option<string>): Option<string> {
    if a.Blank? then None else Some((if open.Some? then open.value else "") + AtomText(a))
  }

  lemma ReadingStep(atoms: seq<Atom>, tail: Tail, open: Option<string>)
    requires atoms != []
    ensures ReadingFrom(atoms, tail, open) ==
              WithAtom(atoms[0], open, ReadingFrom(atoms[1..], tail, OpenBehind(atoms[0], open)))
  {
    if tail.Whole? && atoms[0].Blank? && open.None? {
      assert [] + Words(atoms[1..], None) == Words(atoms[1..], None);
    }
  }

  lemma ReadOne(s: string, i: nat, n: nat, x: Splitter, a: Atom) returns (y: Splitter)
    requires At(s, i, AtomWritten(a)) && GoodAtom(a) && Resting(x) && n == i + |AtomWritten(a)|
    ensures Resting(y) && Open(s, y) == OpenBehind(a, Open(s, x))
    ensures Read(s, i, x) == WithAtom(a, Open(s, x), Read(s, n, y))
  {
    if a.Blank? {
      ReadBlank(s, i, x, a.c);
      y := Splitter(Between, [], false);
      var rest := Read(s, i + 1, y);
      if rest.Ok? && Open(s, x).None? {
        assert [] + rest.value == rest.value;
      }
    } else {
      y := ReadAfterPart(s, i, x, a);
    }
  }

  lemma {:induction false} ReadAtoms(s: string, i: nat, x: Splitter, atoms: seq<Atom>, tail: Tail)
    requires i <= |s| && Lies(s, i, atoms, tail) && Resting(x)
    ensures Read(s, i, x) == ReadingFrom(atoms, tail, Open(s, x))
    decreases |atoms|
  {
    if atoms == [] {
      ReadTail(s, i, x, tail);
    } else {
      var n := LiesFirst(s, i, atoms, tail);
      var y := ReadOne(s, i, n, x, atoms[0]);
      ReadAtoms(s, n, y, atoms[1..], tail);
      ReadingStep(atoms, tail, Open(s, x));
    }
  }

  lemma ShownIsSplitTexts(v: string)
    ensures Shown(v, Split(v)) == SplitTexts(v)
  {
    if Split(v).Ok? {
      var ws, texts := Split(v).value, SplitTexts(v).value;
      forall k | 0 <= k < |ws| ensures Text(v, ws[k]) == texts[k] {
        assert WordOk(v, ws[k]);
      }
      assert TextsOf(v, ws) == texts;
    }
  }

  /** From every writing the splitter reads its words, and from an unfinished one the error of its end. */
  lemma SplitOfWriting(atoms: seq<Atom>, tail: Tail)
    requires Good(atoms) && GoodTail(tail)
    ensures SplitTexts(Written(atoms, tail)) == Reading(atoms, tail)
  {
    var v := Written(atoms, tail);
    AtSelf(v, 0);
    assert v[0..] == v;
    WritingLies(v, 0, atoms, tail);
    ReadAtoms(v, 0, Splitter(Between, [], false), atoms, tail);
    ShownIsSplitTexts(v);
  }

  // ---------------------------------------------------------------- every text is a writing

  lemma WrittenCons(a: Atom, atoms: seq<Atom>, tail: Tail)
    ensures Written([a] + atoms, tail) == AtomWritten(a) + Written(atoms, tail)
  {
    assert ([a] + atoms)[1..] == atoms;
  }

  lemma GoodCons(a: Atom, atoms: seq<Atom>)
    requires GoodAtom(a) && Good(atoms)
    ensures Good([a] + atoms)
  {
  }

  /** What stands behind an opening single quote. */
  lemma {:induction false} FindSingle(t: string) returns (text: string, rest: string)
    ensures PlainIn(text, '\'') && t == text + rest && (rest == "" || rest[0] == '\'')
    decreases |t|
  {
    if t == "" || t[0] == '\'' {
      text, rest := "", t;
    } else {
      text, rest := FindSingle(t[1..]);
      text := [t[0]] + text;
      assert t == [t[0]] + t[1..];
    }
  }

  /** What a text that is not empty begins with: an atom and the rest, or an unfinished end. */
  lemma FirstAtom(v: string) returns (first: Option<Atom>, tail: Tail, rest: string)
    requires v != ""
    ensures first.Some? ==> GoodAtom(first.value) && v == AtomWritten(first.value) + rest && |rest| < |v|
    ensures first.None? ==> GoodTail(tail) && v == TailWritten(tail)
  {
    var t := v[1..];
    assert v == [v[0]] + t;
    first, tail, rest := None, BareBackslash, t;
    if v[0] == '\'' {
      var text, more := FindSingle(t);
      if more == "" {
        tail := OpenSingle(text);
        assert text + more == text;
      } else {
        first, rest := Some(Single(text)), more[1..];
        assert more == ['\''] + rest;
        assert ['\''] + (text + (['\''] + rest)) == ['\''] + text + ['\''] + rest;
      }
    } else if v[0] == '"' {
      var bits, more := FindBits(t);
      if more == "" {
        tail := OpenDouble(bits);
        assert BitsWritten(bits) + more == BitsWritten(bits);
      } else if more == "\\" {
        tail := DoubleBackslash(bits);
        assert ['"'] + (BitsWritten(bits) + ['\\']) == ['"'] + BitsWritten(bits) + ['\\'];
      } else {
        first, rest := Some(Double(bits)), more[1..];
        assert more == ['"'] + rest;
        assert ['"'] + (BitsWritten(bits) + (['"'] + rest)) == ['"'] + BitsWritten(bits) + ['"'] + rest;
      }
    } else if v[0] == '\\' {
      if t != "" {
        first, rest := Some(Backslash(t[0])), t[1..];
      }
    } else {
      first := Some(if v[0] == ' ' || v[0] == '\t' || v[0] == '\r' || v[0] == '\n' then Blank(v[0]) else Bare(v[0]));
    }
  }

  /** Every text is a writing, up to an unfinished end. */
  lemma {:induction false} EveryTextIsWritten(v: string) returns (atoms: seq<Atom>, tail: Tail)
    ensures Good(atoms) && GoodTail(tail) && Written(atoms, tail) == v
    decreases |v|
  {
    atoms, tail := [], Whole;
    if v != "" {
      var first, end, rest := FirstAtom(v);
      if first.None? {
        tail := end;
      } else {
        var more;
        more, tail := EveryTextIsWritten(rest);
        atoms := [first.value] + more;
        WrittenCons(first.value, more, tail);
        GoodCons(first.value, more);
      }
    }
  }

  /** The splitter gives exactly the words of a writing of the text. */
  lemma SplitIff(v: string, texts: seq<string>)
    ensures SplitTexts(v) == Ok(texts) <==>
            exists atoms :: Good(atoms) && Written(atoms, Whole) == v && Words(atoms, None) == texts
  {
    var atoms, tail := EveryTextIsWritten(v);
    SplitOfWriting(atoms, tail);
    forall atoms | Good(atoms) && Written(atoms, Whole) == v ensures SplitTexts(v) == Ok(Words(atoms, None)) {
      SplitOfWriting(atoms, Whole);
    }
  }

  // ---------------------------------------------------------------- what that means for commands

  lemma {:induction false} WrittenConcat(a: seq<Atom>, b: seq<Atom>, tail: Tail)
    ensures Written(a + b, tail) == Written(a, Whole) + Written(b, tail)
    decreases |a|
  {
    if a == [] {
      assert a + b == b;
    } else {
      assert (a + b)[0] == a[0] && (a + b)[1..] == a[1..] + b;
      WrittenFirst(a + b, tail);
      WrittenFirst(a, Whole);
      WrittenConcat(a[1..], b, tail);
      JoinThree(AtomWritten(a[0]), Written(a[1..], Whole), Written(b, tail));
    }
  }

  lemma {:induction false} WordsConcat(a: seq<Atom>, c: char, b: seq<Atom>, open: Option<string>)
    ensures Words(a + ([Blank(c)] + b), open) == Words(a, open) + Words(b, None)
    decreases |a|
  {
    var all := a + ([Blank(c)] + b);
    if a == [] {
      assert all[0] == Blank(c) && all[1..] == b;
    } else {
      assert all[0] == a[0] && all[1..] == a[1..] + ([Blank(c)] + b);
      if a[0].Blank? {
        WordsConcat(a[1..], c, b, None);
        var done, x, y := if open.Some? then [open.value] else [], Words(a[1..], None), Words(b, None);
        assert done + (x + y) == done + x + y;
      } else {
        WordsConcat(a[1..], c, b, Some((if open.Some? then open.value else "") + AtomText(a[0])));
      }
    }
  }

  lemma WritingOf(v: string) returns (atoms: seq<Atom>)
    requires SplitTexts(v).Ok?
    ensures Good(atoms) && Written(atoms, Whole) == v && SplitTexts(v) == Ok(Words(atoms, None))
  {
    var tail;
    atoms, tail := EveryTextIsWritten(v);
    SplitOfWriting(atoms, tail);
  }

  /** An unquoted blank ends a word: two commands with a blank in between have the words of both. */
  lemma SplitAtBlank(a: string, c: char, b: string)
    requires SplitTexts(a).Ok? && SplitTexts(b).Ok? && (c == ' ' || c == '\t' || c == '\r' || c == '\n')
    ensures SplitTexts(a + [c] + b) == Ok(SplitTexts(a).value + SplitTexts(b).value)
  {
    var x := WritingOf(a);
    var y := WritingOf(b);
    WritingAtBlank(x, c, y);
    WordsConcat(x, c, y, None);
    SplitOfWriting(x + ([Blank(c)] + y), Whole);
  }

  lemma WritingAtBlank(x: seq<Atom>, c: char, y: seq<Atom>)
    requires Good(x) && Good(y) && GoodAtom(Blank(c))
    ensures Good(x + ([Blank(c)] + y))
    ensures Written(x + ([Blank(c)] + y), Whole) == Written(x, Whole) + [c] + Written(y, Whole)
  {
    WrittenCons(Blank(c), y, Whole);
    WrittenConcat(x, [Blank(c)] + y, Whole);
    JoinThree(Written(x, Whole), [c], Written(y, Whole));
  }

  lemma OneAtom(a: Atom)
    requires GoodAtom(a) && !a.Blank?
    ensures SplitTexts(AtomWritten(a)) == Ok([AtomText(a)])
  {
    SplitOfWriting([a], Whole);
    assert [a][1..] == [] && Written([], Whole) == "";
    assert AtomWritten(a) + "" == AtomWritten(a);
    assert "" + AtomText(a) == AtomText(a);
    assert Words([a], None) == Words([], Some(AtomText(a)));
  }

  /** Single quotes keep everything, blanks and backslashes included. */
  lemma SingleQuoted(text: string)
    requires '\'' !in text
    ensures SplitTexts("'" + text + "'") == Ok([text])
  {
    OneAtom(Single(text));
  }

  /** Double quotes keep everything but the two escapes. */
  lemma DoubleQuoted(bits: seq<Bit>)
    requires GoodBits(bits)
    ensures SplitTexts("\"" + BitsWritten(bits) + "\"") == Ok([BitsText(bits)])
  {
    OneAtom(Double(bits));
  }

  /** Outside quotes a backslash keeps the character behind it, whatever it is. */
  lemma BackslashKeeps(c: char)
    ensures SplitTexts(['\\', c]) == Ok([[c]])
  {
    OneAtom(Backslash(c));
  }

  lemma ResultsConcat(u: seq<string>, v: seq<string>, value: Lookup)
    ensures Results(u + v, value) == Results(u, value) + Results(v, value)
  {
  }

  lemma {:induction false} GatheredConcat(a: seq<Rendered>, b: seq<Rendered>)
    requires Gathered(a).Some? && Gathered(b).Some?
    ensures Gathered(a + b) == Some(Gathered(a).value + Gathered(b).value)
    decreases |a|
  {
    if a == [] {
      assert a + b == b && Gathered(a).value == [];
      assert Gathered(a).value + Gathered(b).value == Gathered(b).value;
    } else {
      assert (a + b)[0] == a[0] && (a + b)[1..] == a[1..] + b;
      GatheredConcat(a[1..], b);
      if a[0].Kept? {
        var t, p, q := [a[0].text], Gathered(a[1..]).value, Gathered(b).value;
        assert t + (p + q) == t + p + q;
      }
    }
  }

  lemma GatheredParts(u: seq<string>, v: seq<string>, value: Lookup)
    requires Gathered(Results(u, value)).Some? && Gathered(Results(v, value)).Some?
    ensures Gathered(Results(u + v, value)) ==
              Some(Gathered(Results(u, value)).value + Gathered(Results(v, value)).value)
  {
    ResultsConcat(u, v, value);
    GatheredConcat(Results(u, value), Results(v, value));
  }

  /** The arguments of two commands with a blank in between are those of the one and then those of the other. */
  lemma RenderedParts(a: string, c: char, b: string, x: Values)
    requires c == ' ' || c == '\t' || c == '\r' || c == '\n'
    requires Rendering(a, x).Argv? && Rendering(b, x).Argv?
    ensures Rendering(a + [c] + b, x) == Argv(Rendering(a, x).args + Rendering(b, x).args)
  {
    SplitAtBlank(a, c, b);
    GatheredParts(SplitTexts(a).value, SplitTexts(b).value, StartupLookup(x));
  }
}
