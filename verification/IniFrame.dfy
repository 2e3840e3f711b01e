/**
  What an edit of an INI file leaves alone: which line it writes, line by line for any file, and which
  one it drops. Sections and keys are read off the visible part of a line.
 */
module IniFrame {
  import opened Wrappers
  import opened PyText
  import opened IniEditor

  // ---------------------------------------------------------------- newlines

  lemma TranslatedCons(c: char, rest: string)
    requires c != '\r'
    ensures Translated([c] + rest) == [c] + Translated(rest)
  {
    assert ([c] + rest)[1..] == rest;
  }

  lemma FirstOf(a: string, rest: string)
    requires a != ""
    ensures a + rest == [a[0]] + (a[1..] + rest)
  {
  }

  lemma {:induction false} TranslatedBehind(a: string, rest: string)
    requires '\r' !in a
    ensures Translated(a + rest) == a + Translated(rest)
    decreases |a|
  {
    if a == "" {
      assert a + rest == rest && a + Translated(rest) == Translated(rest);
    } else {
      FirstOf(a, rest);
      TranslatedCons(a[0], a[1..] + rest);
      TranslatedBehind(a[1..], rest);
      FirstOf(a, Translated(rest));
    }
  }

  /** A carriage return becomes a newline, together with a newline behind it, and nothing else changes. */
  lemma TranslatedAt(a: string, b: string)
    requires '\r' !in a
    ensures Translated(a + ("\r\n" + b)) == a + ("\n" + Translated(b))
    ensures (b == "" || b[0] != '\n') ==> Translated(a + ("\r" + b)) == a + ("\n" + Translated(b))
  {
    var both, one := "\r\n" + b, "\r" + b;
    assert both[2..] == b && one[1..] == b;
    TranslatedBehind(a, both);
    TranslatedBehind(a, one);
  }

  lemma {:induction false} JoinedSnoc(ls: Lines, x: string)
    ensures Joined(ls + [x]) == Joined(ls) + x
  {
    if ls == [] {
      JoinedCons(x, []);
      assert ls + [x] == [x] + [] && x + "" == "" + x;
    } else {
      assert (ls + [x])[0] == ls[0] && (ls + [x])[1..] == ls[1..] + [x];
      JoinedSnoc(ls[1..], x);
      assert ls[0] + (Joined(ls[1..]) + x) == ls[0] + Joined(ls[1..]) + x;
    }
  }

  /** The text with a newline at its end, unless it is empty. */
  lemma TerminatedText(ls: Lines)
    requires WellCut(ls)
    ensures var t := Joined(ls);
            Joined(Terminated(ls)) == if t == "" || t[|t| - 1] == '\n' then t else t + "\n"
  {
    if ls != [] {
      var n := |ls| - 1;
      assert ls == ls[..n] + [ls[n]];
      JoinedSnoc(ls[..n], ls[n]);
      JoinedSnoc(ls[..n], ls[n] + "\n");
      assert ls[n] != "";
      if !EndsLine(ls) {
        assert Terminated(ls) == ls[..n] + [ls[n] + "\n"];
        assert Joined(ls[..n]) + (ls[n] + "\n") == Joined(ls) + "\n";
      }
    }
  }

  // ---------------------------------------------------------------- which line is written

  /** The visible part of the line is the header of the section. */
  predicate Titles(line: string, section: string) {
    Strip(line) == "[" + section + "]"
  }

  /** The visible part of the line stands in square brackets. */
  predicate Bracketed(line: string) {
    Strip(line) != "" && Strip(line)[0] == '[' && Strip(line)[|Strip(line)| - 1] == ']'
  }

  /** The visible part of the line begins with the key and an equals sign. */
  predicate Sets(line: string, key: string) {
    |Strip(line)| > |key| && Strip(line)[..|key|] == key && Strip(line)[|key|] == '='
  }

  lemma LineKinds(line: string, section: string, key: string)
    ensures KindOf(line, Header(section), key) ==
              if Titles(line, section) then OwnHeader
              else if Bracketed(line) then OtherHeader
              else if Sets(line, key) then KeyLine else OtherLine
  {
    var h := Header(section);
    assert h[0] == '[' && h[|h| - 1] == ']';
    var s := Strip(line);
    if |s| > |key| {
      assert s[..|key| + 1] == s[..|key|] + [s[|key|]];
      assert (s[..|key|] + [s[|key|]])[..|key|] == s[..|key|];
      assert (key + "=")[..|key|] == key && (key + "=")[|key|] == '=';
    }
  }

  /** The first block of the section: its header at `h`, and its end at the next header or the end of the file. */
  ghost predicate Block(ls: Lines, section: string, h: nat, e: nat) {
    && h < e <= |ls| && Titles(ls[h], section)
    && (forall i | 0 <= i < h :: !Titles(ls[i], section))
    && (forall i | h < i < e :: !Bracketed(ls[i]))
    && (e < |ls| ==> Bracketed(ls[e]))
  }

  lemma BlockLocated(ls: Lines, section: string, key: string, h: nat, e: nat, k: nat)
    requires Block(ls, section, h, e) && h < k <= e
    requires (forall i | h < i < k :: !Sets(ls[i], key)) && (k < e ==> Sets(ls[k], key))
    ensures Located(ls, Kinds(Header(section), key), h, e, k)
  {
    forall i | 0 <= i < |ls|
      ensures Kinds(Header(section), key)(ls[i]) ==
                if Titles(ls[i], section) then OwnHeader
                else if Bracketed(ls[i]) then OtherHeader
                else if Sets(ls[i], key) then KeyLine else OtherLine
    {
      LineKinds(ls[i], section, key);
    }
    forall i | h < i < e ensures !Titles(ls[i], section) {
      if Titles(ls[i], section) {
        TitlesAreBracketed(ls[i], section);
      }
    }
  }

  lemma TitlesAreBracketed(line: string, section: string)
    requires Titles(line, section)
    ensures Bracketed(line)
  {
    var h := "[" + section + "]";
    assert h[0] == '[' && h[|h| - 1] == ']';
  }

  /** The key is in the first block of the section: its first line there is replaced, and all others stay. */
  lemma SetReplaces(ls: Lines, section: string, key: string, value: string, h: nat, e: nat, k: nat)
    requires Block(ls, section, h, e) && h < k < e && Sets(ls[k], key) && forall i | h < i < k :: !Sets(ls[i], key)
    ensures SetLines(ls, section, key, value) == ls[k := key + "=" + value + "\n"]
  {
    BlockLocated(ls, section, key, h, e, k);
    SetLinesAt(ls, section, key, value, h, e, k);
    ReplaceAt(ls, k, Entry(key, value));
  }

  lemma ReplaceAt(ls: Lines, k: nat, line: string)
    requires k < |ls|
    ensures ls[..k] + [line] + ls[k + 1..] == ls[k := line]
  {
  }

  /** The key is not in the first block: it goes to the end of the block, and all lines stay. */
  lemma SetGoesBehind(ls: Lines, section: string, key: string, value: string, h: nat, e: nat)
    requires Block(ls, section, h, e) && forall i | h < i < e :: !Sets(ls[i], key)
    ensures SetLines(ls, section, key, value) ==
              if e < |ls| then ls[..e] + [key + "=" + value + "\n"] + ls[e..]
              else Terminated(ls) + [key + "=" + value + "\n"]
  {
    BlockLocated(ls, section, key, h, e, e);
    SetLinesAt(ls, section, key, value, h, e, e);
  }

  /** The section is missing: it comes at the end, behind a blank line unless the file ends with one. */
  lemma SetAddsSection(ls: Lines, section: string, key: string, value: string)
    requires forall i | 0 <= i < |ls| :: !Titles(ls[i], section)
    ensures var t := Terminated(ls);
            SetLines(ls, section, key, value) ==
            t + (if t == [] || Strip(t[|t| - 1]) == "" then [] else ["\n"]) +
            ["[" + section + "]\n", key + "=" + value + "\n"]
  {
    forall i | 0 <= i < |ls| ensures Kinds(Header(section), key)(ls[i]) != OwnHeader {
      LineKinds(ls[i], section, key);
    }
    SetLinesAt(ls, section, key, value, |ls|, |ls|, |ls|);
    assert Header(section) + "\n" == "[" + section + "]\n";
  }

  // ---------------------------------------------------------------- which line is dropped

  lemma {:induction false} DroppedLine(ls: Lines, cur: string, header: string, key: string)
    ensures var k := FirstKeyLine(ls, cur, header, key);
            k < |ls| ==>
              && !IsHeader(ls[k]) && HasKey(ls[k], key) && SectionAfter(ls[..k], cur) == header
              && LookupFrom(ls[..k], cur, header, key).None?
  {
    if ls != [] {
      var next := if IsHeader(ls[0]) then Strip(ls[0]) else cur;
      var k := FirstKeyLine(ls[1..], next, header, key);
      DroppedLine(ls[1..], next, header, key);
      if k < |ls[1..]| && FirstKeyLine(ls, cur, header, key) != 0 {
        assert ls[..k + 1][0] == ls[0] && ls[..k + 1][1..] == ls[1..][..k];
      }
    }
  }

  /** Without the key, and without the file, nothing happens: not even newlines are translated. */
  lemma RemoveNothing(text: Option<string>, section: string, key: string)
    requires text.Some? ==> Lookup(Cut(Translated(text.value)), section, key).None?
    ensures RemoveText(text, section, key) == text
  {
    if text.Some? {
      KeyLineIsLookup(Cut(Translated(text.value)), "", Header(section), key);
    }
  }

  /** The first line that sets the key in the section is dropped, and all others stay. */
  lemma RemoveDropsFirst(t: string, section: string, key: string) returns (k: nat)
    requires Lookup(Cut(Translated(t)), section, key).Some?
    ensures var ls := Cut(Translated(t));
            && k < |ls| && !Bracketed(ls[k]) && Sets(ls[k], key)
            && SectionAfter(ls[..k], "") == "[" + section + "]" && Lookup(ls[..k], section, key).None?
            && RemoveText(Some(t), section, key) == Some(Joined(ls[..k] + ls[k + 1..]))
  {
    var ls := Cut(Translated(t));
    KeyLineIsLookup(ls, "", Header(section), key);
    DroppedLine(ls, "", Header(section), key);
    k := FirstKeyLine(ls, "", Header(section), key);
    LineKinds(ls[k], section, key);
    assert KindOf(ls[k], Header(section), key) == KeyLine;
  }

  /** No other name is looked up differently after a removal. */
  lemma RemoveKeepsOthers(t: string, section: string, key: string, section': string, key': string)
    requires '=' !in key && '=' !in key' && !(section' == section && key' == key)
    ensures var after := RemoveText(Some(t), section, key);
            && after.Some?
            && Lookup(Cut(Translated(after.value)), section', key') == Lookup(Cut(Translated(t)), section', key')
  {
    var ls := Cut(Translated(t));
    if Lookup(ls, section, key).None? {
      RemoveNothing(Some(t), section, key);
    } else {
      var k := RemoveDropsFirst(t, section, key);
      CutClean(Translated(t));
      CleanWithout(ls, k);
      ReadBack(ls[..k] + ls[k + 1..]);
      LineKeepsOthers(ls, k, section, key, section', key');
    }
  }

  lemma LineKeepsOthers(ls: Lines, k: nat, section: string, key: string, section': string, key': string)
    requires '=' !in key && '=' !in key' && !(section' == section && key' == key)
    requires k < |ls| && SectionAfter(ls[..k], "") == "[" + section + "]" && !Bracketed(ls[k]) && Sets(ls[k], key)
    ensures Lookup(ls[..k] + ls[k + 1..], section', key') == Lookup(ls, section', key')
  {
    LineKinds(ls[k], section, key);
    if Titles(ls[k], section) {
      TitlesAreBracketed(ls[k], section);
    }
    LookupWithoutLine(ls[..k], ls[k], ls[k + 1..], section, key, section', key');
    assert ls == ls[..k] + [ls[k]] + ls[k + 1..];
  }

  /** After the removal the name has the value of its next line, if there is one. */
  lemma RemoveShowsNext(t: string, section: string, key: string) returns (k: nat)
    requires Lookup(Cut(Translated(t)), section, key).Some?
    ensures var ls, after := Cut(Translated(t)), RemoveText(Some(t), section, key);
            && k < |ls| && Sets(ls[k], key) && Lookup(ls[..k], section, key).None? && after.Some?
            && Lookup(Cut(Translated(after.value)), section, key) ==
               LookupFrom(ls[k + 1..], "[" + section + "]", "[" + section + "]", key)
  {
    var ls := Cut(Translated(t));
    k := RemoveDropsFirst(t, section, key);
    CutClean(Translated(t));
    CleanWithout(ls, k);
    ReadBack(ls[..k] + ls[k + 1..]);
    LookupConcat(ls[..k], ls[k + 1..], "", Header(section), key);
  }

  /** Which names are refused. */
  lemma NameCheckIff(v: string)
    ensures CheckName(v) <==> forall k | 0 <= k < |v| :: v[k] !in {'\0', '\n', '\r', '[', ']', '='}
  {
  }
}
