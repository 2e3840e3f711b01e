/**
  The line-based INI editor: `set_ini_value` and `remove_ini_key`.

  A file is its decoded text. Reading translates `\r\n` and `\r` to `\n` and cuts behind every `\n`;
  writing puts the lines back together.
 */
module IniEditor {
  import opened Wrappers
  import opened PyText

  type Lines = seq<string>

  // ---------------------------------------------------------------- text and lines

  /** Universal newlines, as a file opened for reading in text mode delivers them. */
  function Translated(t: string): (r: string)
    ensures '\r' !in r
    ensures '\r' !in t ==> r == t
  {
    if t == "" then ""
    else if t[0] == '\r' then ['\n'] + Translated(if |t| >= 2 && t[1] == '\n' then t[2..] else t[1..])
    else [t[0]] + Translated(t[1..])
  }

  /** `readlines()`: every line keeps its newline. */
  function Cut(t: string): Lines {
    if t == "" then []
    else
      var n := FirstIndex(t, '\n', 0);
      if n == |t| then [t] else [t[..n + 1]] + Cut(t[n + 1..])
  }

  /** `writelines` */
  function Joined(ls: Lines): string {
    if ls == [] then "" else ls[0] + Joined(ls[1..])
  }

  /** One newline, at the end. */
  predicate Whole(line: string) {
    line != "" && line[|line| - 1] == '\n' && forall k | 0 <= k < |line| - 1 :: line[k] != '\n'
  }

  /** What `readlines` can deliver: whole lines, and perhaps a last one without its newline. */
  predicate WellCut(ls: Lines) {
    forall i | 0 <= i < |ls| ::
      Whole(ls[i]) || (i == |ls| - 1 && ls[i] != "" && forall k | 0 <= k < |ls[i]| :: ls[i][k] != '\n')
  }

  lemma FirstLineWhole(t: string, n: nat)
    requires n < |t| && t[n] == '\n' && forall k | 0 <= k < n :: t[k] != '\n'
    ensures Whole(t[..n + 1])
  {
    var line := t[..n + 1];
    assert |line| == n + 1 && line[n] == t[n];
    assert forall k | 0 <= k < n :: line[k] == t[k];
  }

  lemma CutStep(t: string, n: nat)
    requires n < |t| && FirstIndex(t, '\n', 0) == n
    ensures Cut(t) == [t[..n + 1]] + Cut(t[n + 1..])
  {
  }

  lemma WellCutCons(line: string, rest: Lines)
    requires Whole(line) && WellCut(rest)
    ensures WellCut([line] + rest)
  {
    var ls := [line] + rest;
    forall i | 0 <= i < |ls| ensures ls[i] == if i == 0 then line else rest[i - 1] {}
  }

  lemma JoinedCons(line: string, rest: Lines)
    ensures Joined([line] + rest) == line + Joined(rest)
  {
    assert ([line] + rest)[1..] == rest;
  }

  lemma CutLast(t: string)
    requires t != "" && FirstIndex(t, '\n', 0) == |t|
    ensures Cut(t) == [t] && Joined([t]) == t && WellCut([t])
  {
    JoinedCons(t, []);
    assert [t] + [] == [t] && t + "" == t;
  }

  lemma JoinedStep(t: string, first: string, last: string, rest: Lines)
    requires t == first + last && Whole(first) && Joined(rest) == last && WellCut(rest)
    ensures Joined([first] + rest) == t && WellCut([first] + rest)
  {
    WellCutCons(first, rest);
    JoinedCons(first, rest);
  }

  lemma TakeAndDrop(t: string, n: nat)
    requires n <= |t|
    ensures t == t[..n] + t[n..]
  {
  }

  lemma {:induction false} JoinedCut(t: string)
    ensures Joined(Cut(t)) == t && WellCut(Cut(t))
  {
    if t != "" {
      var n := FirstIndex(t, '\n', 0);
      if n < |t| {
        var first, last := t[..n + 1], t[n + 1..];
        JoinedCut(last);
        CutStep(t, n);
        FirstLineWhole(t, n);
        TakeAndDrop(t, n + 1);
        JoinedStep(t, first, last, Cut(last));
      } else {
        CutLast(t);
      }
    }
  }

  lemma {:induction false} CutJoined(ls: Lines)
    requires WellCut(ls)
    ensures Cut(Joined(ls)) == ls
  {
    if ls != [] {
      var rest := ls[1..];
      assert forall i | 0 <= i < |rest| :: rest[i] == ls[i + 1];
      CutJoined(rest);
      var t := Joined(ls);
      var n := FirstIndex(t, '\n', 0);
      assert t == ls[0] + Joined(rest);
      if Whole(ls[0]) {
        assert t[|ls[0]| - 1] == '\n';
        assert forall k | 0 <= k < |ls[0]| - 1 :: t[k] == ls[0][k];
        assert n == |ls[0]| - 1;
        assert t[..n + 1] == ls[0] && t[n + 1..] == Joined(rest);
      } else {
        assert rest == [] && t == ls[0];
      }
    }
  }

  lemma JoinedInjective(a: Lines, b: Lines)
    requires WellCut(a) && WellCut(b)
    ensures Joined(a) == Joined(b) <==> a == b
  {
    CutJoined(a);
    CutJoined(b);
  }

  lemma {:induction false} JoinedHasNo(ls: Lines, c: char)
    ensures c in Joined(ls) <==> exists i | 0 <= i < |ls| :: c in ls[i]
  {
    if ls != [] {
      JoinedHasNo(ls[1..], c);
      if i :| 0 <= i < |ls| && c in ls[i] {
        assert i > 0 ==> ls[1..][i - 1] == ls[i];
      }
      if i :| 0 <= i < |ls[1..]| && c in ls[1..][i] {
        assert ls[i + 1] == ls[1..][i];
      }
    }
  }

  // ---------------------------------------------------------------- headers, keys, lookup

  /** `_check_ini_name` raises no error. */
  predicate CheckName(v: string) {
    '\0' !in v && '\n' !in v && '\r' !in v && '[' !in v && ']' !in v && '=' !in v
  }

  /** The value check of a configuration patch, as far as line breaks are concerned. */
  predicate CheckValue(v: string) {
    '\0' !in v && '\n' !in v && '\r' !in v
  }

  predicate LeadingBlank(key: string) {
    key != "" && IsSpace(key[0])
  }

  function Header(section: string): string {
    "[" + section + "]"
  }

  function Entry(key: string, value: string): string {
    key + "=" + value + "\n"
  }

  predicate IsHeader(line: string) {
    var s := Strip(line);
    s != "" && s[0] == '[' && s[|s| - 1] == ']'
  }

  predicate IsHeaderOf(line: string, header: string) {
    IsHeader(line) && Strip(line) == header
  }

  predicate HasKey(line: string, key: string) {
    StartsWith(Strip(line), key + "=")
  }

  /** The stripped header in force behind the lines, `cur` being in force before them. */
  function SectionAfter(ls: Lines, cur: string): string {
    if ls == [] then cur else SectionAfter(ls[1..], if IsHeader(ls[0]) then Strip(ls[0]) else cur)
  }

  /** The value of the first `key=` line under `header`, wherever that header is repeated. */
  function LookupFrom(ls: Lines, cur: string, header: string, key: string): Option<string> {
    if ls == [] then None
    else if IsHeader(ls[0]) then LookupFrom(ls[1..], Strip(ls[0]), header, key)
    else if cur == header && HasKey(ls[0], key) then Some(Strip(ls[0])[|key| + 1..])
    else LookupFrom(ls[1..], cur, header, key)
  }

  function Lookup(ls: Lines, section: string, key: string): Option<string> {
    LookupFrom(ls, "", Header(section), key)
  }

  lemma {:induction false} LookupConcat(a: Lines, b: Lines, cur: string, header: string, key: string)
    ensures SectionAfter(a + b, cur) == SectionAfter(b, SectionAfter(a, cur))
    ensures LookupFrom(a + b, cur, header, key) ==
              if LookupFrom(a, cur, header, key).Some? then LookupFrom(a, cur, header, key)
              else LookupFrom(b, SectionAfter(a, cur), header, key)
  {
    if a == [] {
      assert a + b == b;
    } else {
      assert (a + b)[0] == a[0] && (a + b)[1..] == a[1..] + b;
      LookupConcat(a[1..], b, if IsHeader(a[0]) then Strip(a[0]) else cur, header, key);
    }
  }

  // ---------------------------------------------------------------- stripping the lines the editor writes

  lemma {:induction false} RightStripBlank(s: string, t: string)
    requires forall k | 0 <= k < |t| :: IsSpace(t[k])
    ensures RightStrip(s + t) == RightStrip(s)
    decreases |t|
  {
    if t == "" {
      assert s + t == s;
    } else {
      assert (s + t)[..|s + t| - 1] == s + t[..|t| - 1];
      RightStripBlank(s, t[..|t| - 1]);
    }
  }

  lemma {:induction false} RightStripTail(s: string, t: string)
    requires s != "" && !IsSpace(s[|s| - 1])
    ensures RightStrip(s + t) == s + RightStrip(t)
    decreases |t|
  {
    if t == "" {
      assert s + t == s;
    } else if IsSpace(t[|t| - 1]) {
      assert (s + t)[..|s + t| - 1] == s + t[..|t| - 1];
      RightStripTail(s, t[..|t| - 1]);
    }
  }

  lemma HeaderLine(section: string)
    ensures Strip(Header(section) + "\n") == Header(section)
    ensures IsHeader(Header(section) + "\n")
  {
    var h := Header(section);
    assert (h + "\n")[0] == '[';
    assert h[|h| - 1] == ']';
    RightStripBlank(h, "\n");
  }

  lemma StripFromRight(s: string)
    requires s != "" && !IsSpace(s[0])
    ensures Strip(s) == RightStrip(s)
  {
  }

  lemma EntryStrip(key: string, value: string)
    requires !LeadingBlank(key)
    ensures Strip(Entry(key, value)) == key + "=" + RightStrip(value)
  {
    var k := key + "=";
    var e := Entry(key, value);
    assert e == k + (value + "\n");
    assert e[0] == k[0];
    StripFromRight(e);
    RightStripTail(k, value + "\n");
    RightStripBlank(value, "\n");
  }

  /** What a line says whose visible part is a key, an equals sign and a text. */
  lemma EntryParts(line: string, key: string, text: string)
    requires Strip(line) == key + "=" + text
    ensures HasKey(line, key) && Strip(line)[|key| + 1..] == text
    ensures '[' !in key ==> !IsHeader(line)
  {
    var k := key + "=";
    assert (k + text)[..|k|] == k && (k + text)[|k|..] == text;
    assert (k + text)[0] == k[0];
  }

  lemma EntryLine(key: string, value: string)
    requires !LeadingBlank(key)
    ensures Strip(Entry(key, value)) == key + "=" + RightStrip(value)
    ensures HasKey(Entry(key, value), key)
    ensures Strip(Entry(key, value))[|key| + 1..] == RightStrip(value)
    ensures '[' !in key ==> !IsHeader(Entry(key, value))
  {
    EntryStrip(key, value);
    EntryParts(Entry(key, value), key, RightStrip(value));
  }

  lemma HasKeyFirst(line: string, key: string)
    requires key != "" && HasKey(line, key)
    ensures Strip(line) != "" && Strip(line)[0] == key[0]
  {
    assert Strip(line)[..|key + "="|][0] == (key + "=")[0];
  }

  /** A key with a leading blank is never found: stripped lines do not start with a blank. */
  lemma BlankKeyNotFound(line: string, key: string)
    requires LeadingBlank(key)
    ensures !HasKey(line, key)
  {
    if HasKey(line, key) {
      HasKeyFirst(line, key);
      StripFirstVisible(line);
      assert false;
    }
  }

  lemma StripFirstVisible(s: string)
    ensures Strip(s) == "" || !IsSpace(Strip(s)[0])
  {
  }

  lemma KeyEndsAtEquals(line: string, key: string)
    requires '=' !in key && HasKey(line, key)
    ensures FirstIndex(Strip(line), '=', 0) == |key| && key == Strip(line)[..|key|]
  {
    var s := Strip(line);
    assert s[..|key| + 1] == key + "=";
    assert s[|key|] == '=';
    assert forall k | 0 <= k < |key| :: s[k] == key[k] && key[k] in key;
  }

  /** A line is a key line of at most one name without an equals sign. */
  lemma KeyIsUnique(line: string, a: string, b: string)
    requires '=' !in a && '=' !in b && HasKey(line, a) && HasKey(line, b)
    ensures a == b
  {
    KeyEndsAtEquals(line, a);
    KeyEndsAtEquals(line, b);
  }

  lemma HeadersDiffer(a: string, b: string)
    ensures Header(a) == Header(b) <==> a == b
  {
    assert Header(a)[1..|Header(a)| - 1] == a && Header(b)[1..|Header(b)| - 1] == b;
  }

  // ---------------------------------------------------------------- what the editor does to the lines

  /** The first header line of the section, or `|ls|`. */
  function HeaderIndex(ls: Lines, header: string, from: nat): (h: nat)
    requires from <= |ls|
    ensures from <= h <= |ls|
    ensures h < |ls| ==> IsHeaderOf(ls[h], header)
    ensures forall i | from <= i < h :: !IsHeaderOf(ls[i], header)
    decreases |ls| - from
  {
    if from == |ls| || IsHeaderOf(ls[from], header) then from else HeaderIndex(ls, header, from + 1)
  }

  /** The end of the block that starts at `from`: the next header of any section, or `|ls|`. */
  function BlockEnd(ls: Lines, from: nat): (e: nat)
    requires from <= |ls|
    ensures from <= e <= |ls|
    ensures e < |ls| ==> IsHeader(ls[e])
    ensures forall i | from <= i < e :: !IsHeader(ls[i])
    decreases |ls| - from
  {
    if from == |ls| || IsHeader(ls[from]) then from else BlockEnd(ls, from + 1)
  }

  /** The first line with the key in `from..end`, or `end`. */
  function KeyIndex(ls: Lines, key: string, from: nat, end: nat): (k: nat)
    requires from <= end <= |ls|
    ensures from <= k <= end
    ensures k < end ==> HasKey(ls[k], key)
    ensures forall i | from <= i < k :: !HasKey(ls[i], key)
    decreases end - from
  {
    if from == end || HasKey(ls[from], key) then from else KeyIndex(ls, key, from + 1, end)
  }

  predicate EndsLine(ls: Lines) {
    ls == [] || (ls[|ls| - 1] != "" && ls[|ls| - 1][|ls[|ls| - 1]| - 1] == '\n')
  }

  /** A missing newline behind the last line is added. */
  function Terminated(ls: Lines): (r: Lines)
    ensures |r| == |ls|
    ensures EndsLine(ls) ==> r == ls
  {
    if EndsLine(ls) then ls else ls[|ls| - 1 := ls[|ls| - 1] + "\n"]
  }

  /** The new section at the end of the file, behind a blank line unless the file ends with one. */
  function Appended(ls: Lines, section: string, entry: string): Lines {
    var t := Terminated(ls);
    t + (if t != [] && Strip(t[|t| - 1]) != "" then ["\n"] else []) + [Header(section) + "\n", entry]
  }

  /** Header at `h`, end of its block at `e`: the entry replaces line `k < e`, or goes to the end of the block. */
  function Edited(ls: Lines, section: string, entry: string, h: nat, e: nat, k: nat): Lines
    requires h <= |ls| && k <= e <= |ls|
  {
    if h == |ls| then Appended(ls, section, entry)
    else if k < e then ls[..k] + [entry] + ls[k + 1..]
    else if e < |ls| then ls[..e] + [entry] + ls[e..]
    else Terminated(ls) + [entry]
  }

  /** The lines after `set_ini_value`: only the first block of the section is ever touched. */
  function SetLines(ls: Lines, section: string, key: string, value: string): Lines {
    var h := HeaderIndex(ls, Header(section), 0);
    var e := if h == |ls| then h else BlockEnd(ls, h + 1);
    var k := if h == |ls| then h else KeyIndex(ls, key, h + 1, e);
    Edited(ls, section, Entry(key, value), h, e, k)
  }

  /** The first line `remove_ini_key` would drop, `cur` being in force before the lines, or `|ls|`. */
  function FirstKeyLine(ls: Lines, cur: string, header: string, key: string): (r: nat)
    ensures r <= |ls|
  {
    if ls == [] then 0
    else if !IsHeader(ls[0]) && cur == header && HasKey(ls[0], key) then 0
    else 1 + FirstKeyLine(ls[1..], if IsHeader(ls[0]) then Strip(ls[0]) else cur, header, key)
  }

  function RemoveLines(ls: Lines, section: string, key: string): Lines {
    var r := FirstKeyLine(ls, "", Header(section), key);
    if r == |ls| then ls else ls[..r] + ls[r + 1..]
  }

  lemma {:induction false} KeyLineIsLookup(ls: Lines, cur: string, header: string, key: string)
    ensures FirstKeyLine(ls, cur, header, key) < |ls| <==> LookupFrom(ls, cur, header, key).Some?
    ensures FirstKeyLine(ls, cur, header, key) < |ls| ==> HasKey(ls[FirstKeyLine(ls, cur, header, key)], key)
  {
    if ls != [] {
      KeyLineIsLookup(ls[1..], if IsHeader(ls[0]) then Strip(ls[0]) else cur, header, key);
    }
  }

  /** A prefix without the key shifts the first key line. */
  lemma {:induction false} KeyLineConcat(a: Lines, b: Lines, cur: string, header: string, key: string)
    requires LookupFrom(a, cur, header, key).None?
    ensures FirstKeyLine(a + b, cur, header, key) == |a| + FirstKeyLine(b, SectionAfter(a, cur), header, key)
  {
    if a == [] {
      assert a + b == b;
    } else {
      assert (a + b)[0] == a[0] && (a + b)[1..] == a[1..] + b;
      KeyLineConcat(a[1..], b, if IsHeader(a[0]) then Strip(a[0]) else cur, header, key);
    }
  }

  // ---------------------------------------------------------------- the two loops

  /** A configuration file: missing, or its text. */
  class IniFile {
    var text: Option<string>

    constructor (t: Option<string>)
      ensures text == t
    {
      text := t;
    }

    /** `set_ini_value` */
    method SetValue(section: string, key: string, value: string)
      modifies this
      ensures text == Some(SetText(old(text), section, key, value))
    {
      if text.None? {
        text := Some(Header(section) + "\n" + Entry(key, value));
        return;
      }
      var ls := Cut(Translated(text.value));
      var out := SetEdit(ls, section, key, value);
      text := Some(Joined(out));
    }

    /** `remove_ini_key`: the file is only written when a line was dropped. */
    method RemoveKey(section: string, key: string)
      modifies this
      ensures text == RemoveText(old(text), section, key)
    {
      if text.None? {
        return;
      }
      var ls := Cut(Translated(text.value));
      var out, removed := RemoveLoop(ls, section, key);
      if removed {
        text := Some(Joined(out));
      }
    }
  }

  function SetText(text: Option<string>, section: string, key: string, value: string): string {
    match text
    case None => Header(section) + "\n" + Entry(key, value)
    case Some(t) => Joined(SetLines(Cut(Translated(t)), section, key, value))
  }

  function RemoveText(text: Option<string>, section: string, key: string): Option<string> {
    match text
    case None => None
    case Some(t) =>
      var ls := Cut(Translated(t));
      if FirstKeyLine(ls, "", Header(section), key) < |ls| then Some(Joined(RemoveLines(ls, section, key))) else text
  }

  /** What the loops ask about a line: a header, of the section or not, or a line with or without the key. */
  datatype Kind = OwnHeader | OtherHeader | KeyLine | OtherLine

  function KindOf(line: string, header: string, key: string): Kind {
    if IsHeader(line) then (if Strip(line) == header then OwnHeader else OtherHeader)
    else if HasKey(line, key) then KeyLine else OtherLine
  }

  function Kinds(header: string, key: string): string -> Kind {
    (line: string) => KindOf(line, header, key)
  }

  /** What has been put out after `i` lines, when the entry replaces line `k < e`, or goes before line `k == e`. */
  function Done<T>(ls: seq<T>, i: nat, e: nat, k: nat, entry: T): seq<T>
    requires i <= |ls| && k <= e <= |ls|
  {
    if i <= k then ls[..i]
    else if k < e then ls[..k] + [entry] + ls[k + 1..i]
    else ls[..e] + [entry] + ls[e..i]
  }

  lemma DoneStep<T>(ls: seq<T>, i: nat, e: nat, k: nat, entry: T)
    requires i < |ls| && k <= e <= |ls|
    ensures i != k ==> Done(ls, i + 1, e, k, entry) == Done(ls, i, e, k, entry) + [ls[i]]
    ensures i == k < e ==> Done(ls, i + 1, e, k, entry) == Done(ls, i, e, k, entry) + [entry]
    ensures i == k == e ==> Done(ls, i + 1, e, k, entry) == Done(ls, i, e, k, entry) + [entry] + [ls[i]]
  {
    if k < i {
      var from := if k < e then k + 1 else e;
      assert ls[from..i + 1] == ls[from..i] + [ls[i]];
    }
  }

  /** `h` is the first header of the section, `e` the end of its block and `k` the first key line in it, or `e`. */
  ghost predicate Located<T>(ls: seq<T>, kind: T -> Kind, h: nat, e: nat, k: nat) {
    && h <= |ls| && (forall i | 0 <= i < h :: kind(ls[i]) != OwnHeader)
    && if h == |ls| then h == e == k
       else
         && kind(ls[h]) == OwnHeader && h < k <= e <= |ls|
         && (k < e ==> kind(ls[k]).KeyLine?)
         && (forall i | h < i < e :: kind(ls[i]).KeyLine? || kind(ls[i]).OtherLine?)
         && (forall i | h < i < k :: kind(ls[i]).OtherLine?)
         && (e < |ls| ==> kind(ls[e]).OwnHeader? || kind(ls[e]).OtherHeader?)
  }

  /** The loop of `set_ini_value` with its three flags. */
  method SetLoop<T>(ls: seq<T>, kind: T -> Kind, entry: T, ghost h: nat, ghost e: nat, ghost k: nat)
    returns (out: seq<T>, inSection: bool, foundSection: bool, wroteKey: bool)
    requires Located(ls, kind, h, e, k)
    ensures out == Done(ls, |ls|, e, k, entry)
    ensures foundSection == (h < |ls|) && wroteKey == (k < |ls|)
    ensures |ls| <= e ==> inSection == (h < |ls|)
  {
    inSection, foundSection, wroteKey := false, false, false;
    out := [];
    for i := 0 to |ls|
      invariant foundSection == (h < i) && wroteKey == (k < i)
      invariant i <= h ==> !inSection
      invariant h < i <= e ==> inSection
      invariant out == Done(ls, i, e, k, entry)
    {
      DoneStep(ls, i, e, k, entry);
      var what := kind(ls[i]);
      if what.OwnHeader? || what.OtherHeader? {
        if inSection && !wroteKey {
          out := out + [entry];
          wroteKey := true;
        }
        inSection := what.OwnHeader?;
        if inSection {
          foundSection := true;
        }
        out := out + [ls[i]];
      } else if inSection && !wroteKey && what.KeyLine? {
        out := out + [entry];
        wroteKey := true;
      } else {
        out := out + [ls[i]];
      }
    }
  }

  lemma LocatedIn(ls: Lines, section: string, key: string) returns (h: nat, e: nat, k: nat)
    ensures Located(ls, Kinds(Header(section), key), h, e, k)
    ensures h == HeaderIndex(ls, Header(section), 0)
    ensures h < |ls| ==> e == BlockEnd(ls, h + 1) && k == KeyIndex(ls, key, h + 1, e)
  {
    h := HeaderIndex(ls, Header(section), 0);
    if h == |ls| {
      e, k := h, h;
    } else {
      e := BlockEnd(ls, h + 1);
      k := KeyIndex(ls, key, h + 1, e);
    }
  }

  method AppendSection(ls: Lines, section: string, entry: string) returns (out: Lines)
    ensures out == Appended(ls, section, entry)
  {
    out := Terminated(ls);
    if out != [] && Strip(out[|out| - 1]) != "" {
      out := out + ["\n"];
    }
    out := out + [Header(section) + "\n", entry];
  }

  /** What `set_ini_value` does behind its loop. */
  method FinishEdit(out0: Lines, missing: bool, foundSection: bool, section: string, entry: string) returns (out: Lines)
    requires missing ==> foundSection
    ensures out == if !foundSection then Appended(out0, section, entry)
                   else if missing then Terminated(out0) + [entry] else out0
  {
    out := out0;
    if missing {
      out := Terminated(out) + [entry];
    }
    if !foundSection {
      out := AppendSection(out, section, entry);
    }
  }

  /** The edited lines, seen from what the loop has put out. */
  lemma EditedFromLoop(ls: Lines, section: string, entry: string, h: nat, e: nat, k: nat)
    requires h <= |ls| && k <= e <= |ls| && (h == |ls| ==> h == e == k)
    ensures var out := Done(ls, |ls|, e, k, entry);
            Edited(ls, section, entry, h, e, k) ==
              if h == |ls| then Appended(out, section, entry)
              else if k == |ls| then Terminated(out) + [entry] else out
  {
    assert ls[..|ls|] == ls;
  }

  /** The lines `set_ini_value` writes back. */
  method SetEdit(ls: Lines, section: string, key: string, value: string) returns (out: Lines)
    ensures out == SetLines(ls, section, key, value)
  {
    var entry := Entry(key, value);
    ghost var h, e, k := LocatedIn(ls, section, key);
    var inSection, foundSection, wroteKey;
    out, inSection, foundSection, wroteKey := SetLoop(ls, Kinds(Header(section), key), entry, h, e, k);
    SetLinesAt(ls, section, key, value, h, e, k);
    EditedFromLoop(ls, section, entry, h, e, k);
    out := FinishEdit(out, inSection && !wroteKey, foundSection, section, entry);
  }

  lemma TakeSteps<T>(ls: seq<T>, r: nat, i: nat)
    requires i < |ls|
    ensures ls[..i + 1] == ls[..i] + [ls[i]]
    ensures r < i ==> ls[..r] + ls[r + 1..i + 1] == ls[..r] + ls[r + 1..i] + [ls[i]]
    ensures r == i ==> ls[..r] + ls[r + 1..i + 1] == ls[..i]
  {
    if r < i {
      assert ls[r + 1..i + 1] == ls[r + 1..i] + [ls[i]];
    }
  }

  lemma KeyLineStep(ls: Lines, i: nat, cur: string, header: string, key: string)
    requires i < |ls|
    ensures FirstKeyLine(ls[i..], cur, header, key) ==
              if !IsHeader(ls[i]) && cur == header && HasKey(ls[i], key) then 0
              else 1 + FirstKeyLine(ls[i + 1..], if IsHeader(ls[i]) then Strip(ls[i]) else cur, header, key)
  {
    assert ls[i..][0] == ls[i] && ls[i..][1..] == ls[i + 1..];
  }

  /** The loop of `remove_ini_key`. */
  method RemoveLoop(ls: Lines, section: string, key: string) returns (out: Lines, removed: bool)
    ensures removed == (FirstKeyLine(ls, "", Header(section), key) < |ls|)
    ensures out == RemoveLines(ls, section, key)
  {
    var header := Header(section);
    var inSection := false;
    ghost var cur := "";
    removed := false;
    out := [];
    ghost var r := FirstKeyLine(ls, "", header, key);
    for i := 0 to |ls|
      invariant removed == (r < i) && inSection == (cur == header)
      invariant !removed ==> r == i + FirstKeyLine(ls[i..], cur, header, key)
      invariant out == if removed then ls[..r] + ls[r + 1..i] else ls[..i]
    {
      var line := ls[i];
      KeyLineStep(ls, i, cur, header, key);
      TakeSteps(ls, r, i);
      if IsHeader(line) {
        inSection := Strip(line) == header;
        cur := Strip(line);
        out := out + [line];
        continue;
      }
      if inSection && !removed && HasKey(line, key) {
        removed := true;
        continue;
      }
      out := out + [line];
    }
    assert ls[..|ls|] == ls;
  }

  // ---------------------------------------------------------------- set is a map update

  lemma LocatedUnique<T>(ls: seq<T>, kind: T -> Kind, h: nat, e: nat, k: nat, h': nat, e': nat, k': nat)
    requires Located(ls, kind, h, e, k) && Located(ls, kind, h', e', k')
    ensures h == h' && e == e' && k == k'
  {
  }

  /** `SetLines` with the three places given. */
  lemma SetLinesAt(ls: Lines, section: string, key: string, value: string, h: nat, e: nat, k: nat)
    requires Located(ls, Kinds(Header(section), key), h, e, k)
    ensures SetLines(ls, section, key, value) == Edited(ls, section, Entry(key, value), h, e, k)
  {
    var h', e', k' := LocatedIn(ls, section, key);
    LocatedUnique(ls, Kinds(Header(section), key), h, e, k, h', e', k');
  }

  lemma AppendLine(a: Lines, x: string, header: string, key: string)
    ensures SectionAfter(a + [x], "") == if IsHeader(x) then Strip(x) else SectionAfter(a, "")
    ensures LookupFrom(a, "", header, key).None? &&
              (IsHeader(x) || SectionAfter(a, "") != header || !HasKey(x, key)) ==>
              LookupFrom(a + [x], "", header, key).None?
  {
    LookupConcat(a, [x], "", header, key);
    var nothing: Lines := [];
    assert [x][0] == x && [x][1..] == nothing;
    assert forall c :: SectionAfter(nothing, c) == c && LookupFrom(nothing, c, header, key).None?;
  }

  lemma LocatedLine(ls: Lines, header: string, key: string, h: nat, e: nat, k: nat, i: nat)
    requires Located(ls, Kinds(header, key), h, e, k) && i < |ls|
    ensures i < h ==> !IsHeaderOf(ls[i], header)
    ensures i == h ==> IsHeaderOf(ls[i], header)
    ensures h < i < e ==> !IsHeader(ls[i])
    ensures h < i < k ==> !HasKey(ls[i], key)
  {
    assert Kinds(header, key)(ls[i]) == KindOf(ls[i], header, key);
  }

  /** One line more: whether the section is open, and that the key is still not met. */
  lemma PrefixStep(a: Lines, x: string, header: string, key: string)
    requires header != ""
    ensures SectionAfter(a + [x], "") == header <==>
              if IsHeader(x) then IsHeaderOf(x, header) else SectionAfter(a, "") == header
    ensures LookupFrom(a, "", header, key).None? && (SectionAfter(a, "") == header ==>
              IsHeader(x) || !HasKey(x, key)) ==>
              LookupFrom(a + [x], "", header, key).None?
  {
    AppendLine(a, x, header, key);
  }

  /** The same line by line: no header of the section before `h`, none at all behind it, and the key not before `k`. */
  ghost predicate Marked(ls: Lines, header: string, key: string, h: nat, e: nat, k: nat) {
    forall i | 0 <= i < |ls| ::
      && (i < h ==> !IsHeaderOf(ls[i], header))
      && (i == h ==> IsHeaderOf(ls[i], header))
      && (h < i < e ==> !IsHeader(ls[i]))
      && (h < i < k ==> !HasKey(ls[i], key))
  }

  lemma LocatedMarked(ls: Lines, header: string, key: string, h: nat, e: nat, k: nat)
    requires Located(ls, Kinds(header, key), h, e, k)
    ensures Marked(ls, header, key, h, e, k)
  {
    forall i | 0 <= i < |ls|
      ensures i < h ==> !IsHeaderOf(ls[i], header)
      ensures i == h ==> IsHeaderOf(ls[i], header)
      ensures h < i < e ==> !IsHeader(ls[i])
      ensures h < i < k ==> !HasKey(ls[i], key)
    {
      LocatedLine(ls, header, key, h, e, k, i);
    }
  }

  /** Before its block the section is not in force; inside, before the key, the key is not found. */
  lemma {:induction false} PrefixState(ls: Lines, header: string, key: string, h: nat, e: nat, k: nat, i: nat)
    requires Marked(ls, header, key, h, e, k) && header != "" && i <= e && i <= |ls|
    ensures SectionAfter(ls[..i], "") == header <==> h < i
    ensures i <= k ==> LookupFrom(ls[..i], "", header, key).None?
    decreases i
  {
    if i > 0 {
      PrefixState(ls, header, key, h, e, k, i - 1);
      var a, x := ls[..i - 1], ls[i - 1];
      assert ls[..i] == a + [x];
      PrefixStep(a, x, header, key);
    }
  }

  lemma LookupSkips(a: Lines, x: string, c: Lines, header: string, key: string)
    requires !IsHeader(x) && !(SectionAfter(a, "") == header && HasKey(x, key))
    ensures LookupFrom(a + [x] + c, "", header, key) == LookupFrom(a + c, "", header, key)
    ensures SectionAfter(a + [x], "") == SectionAfter(a, "")
  {
    LookupConcat(a, c, "", header, key);
    LookupConcat(a, [x], "", header, key);
    LookupConcat(a + [x], c, "", header, key);
  }

  lemma LookupFinds(a: Lines, x: string, c: Lines, header: string, key: string)
    requires !IsHeader(x) && SectionAfter(a, "") == header && HasKey(x, key)
    requires LookupFrom(a, "", header, key).None?
    ensures LookupFrom(a + [x] + c, "", header, key) == Some(Strip(x)[|key| + 1..])
  {
    LookupConcat(a, [x], "", header, key);
    LookupConcat(a + [x], c, "", header, key);
  }

  lemma {:induction false} LeftStripNewline(s: string)
    ensures LeftStrip(s + "\n") == if LeftStrip(s) == "" then "" else LeftStrip(s) + "\n"
  {
    if s == "" {
      assert s + "\n" == "\n";
      assert "\n"[1..] == "";
    } else if IsSpace(s[0]) {
      LeftStripNewline(s[1..]);
      assert (s + "\n")[1..] == s[1..] + "\n";
    }
  }

  lemma StripNewline(s: string)
    ensures Strip(s + "\n") == Strip(s)
  {
    LeftStripNewline(s);
    RightStripBlank(LeftStrip(s), "\n");
  }

  lemma SameLine(x: string, y: string, cur: string, header: string, key: string)
    requires Strip(x) == Strip(y)
    ensures LookupFrom([y], cur, header, key) == LookupFrom([x], cur, header, key)
    ensures SectionAfter([y], cur) == SectionAfter([x], cur)
  {
    assert [x][1..] == [] && [y][1..] == [];
  }

  /** Two last lines with the same visible part make no difference. */
  lemma SameLastLine(a: Lines, x: string, y: string, header: string, key: string)
    requires Strip(x) == Strip(y)
    ensures LookupFrom(a + [y], "", header, key) == LookupFrom(a + [x], "", header, key)
    ensures SectionAfter(a + [y], "") == SectionAfter(a + [x], "")
  {
    LookupConcat(a, [x], "", header, key);
    LookupConcat(a, [y], "", header, key);
    SameLine(x, y, SectionAfter(a, ""), header, key);
  }

  /** The added newline changes no lookup. */
  lemma LookupTerminated(ls: Lines, header: string, key: string)
    ensures LookupFrom(Terminated(ls), "", header, key) == LookupFrom(ls, "", header, key)
    ensures SectionAfter(Terminated(ls), "") == SectionAfter(ls, "")
    ensures forall i | 0 <= i < |ls| :: Strip(Terminated(ls)[i]) == Strip(ls[i])
  {
    if !EndsLine(ls) {
      var n := |ls| - 1;
      StripNewline(ls[n]);
      SameLastLine(ls[..n], ls[n], ls[n] + "\n", header, key);
      assert ls == ls[..n] + [ls[n]];
      assert Terminated(ls) == ls[..n] + [ls[n] + "\n"];
    }
  }

  lemma BlankLine()
    ensures Strip("\n") == "" && !IsHeader("\n")
    ensures forall key :: !HasKey("\n", key)
  {
    StripNewline("");
    assert "" + "\n" == "\n";
  }

  /** The part of `Appended` before the new header. */
  function BeforeNewHeader(ls: Lines): Lines {
    var t := Terminated(ls);
    t + if t != [] && Strip(t[|t| - 1]) != "" then ["\n"] else []
  }

  lemma AppendedIs(ls: Lines, section: string, entry: string)
    ensures Appended(ls, section, entry) == BeforeNewHeader(ls) + [Header(section) + "\n", entry]
  {
  }

  lemma LookupBeforeNewHeader(ls: Lines, header: string, key: string)
    ensures LookupFrom(BeforeNewHeader(ls), "", header, key) == LookupFrom(ls, "", header, key)
  {
    LookupTerminated(ls, header, key);
    BlankLine();
    var t := Terminated(ls);
    if BeforeNewHeader(ls) == t + ["\n"] {
      LookupSkips(t, "\n", [], header, key);
      assert t + ["\n"] + [] == t + ["\n"] && t + [] == t;
    } else {
      assert BeforeNewHeader(ls) == t;
    }
  }

  lemma LookupAppended(ls: Lines, section: string, entry: string, header: string, key: string)
    requires !IsHeader(entry)
    ensures LookupFrom(Appended(ls, section, entry), "", header, key) ==
              if LookupFrom(ls, "", header, key).Some? then LookupFrom(ls, "", header, key)
              else if header == Header(section) && HasKey(entry, key) then Some(Strip(entry)[|key| + 1..])
              else None
  {
    var h := Header(section) + "\n";
    AppendedIs(ls, section, entry);
    LookupBeforeNewHeader(ls, header, key);
    HeaderLine(section);
    LookupConcat(BeforeNewHeader(ls), [h, entry], "", header, key);
    LookupConcat([h], [entry], SectionAfter(BeforeNewHeader(ls), ""), header, key);
    assert [h, entry] == [h] + [entry];
  }

  /** The entry that is written is a line for its own key in its own section only. */
  lemma EntryServesOneName(section: string, key: string, value: string, section': string, key': string)
    requires CheckName(key) && !LeadingBlank(key) && '=' !in key'
    ensures !IsHeader(Entry(key, value))
    ensures Header(section) == Header(section') && HasKey(Entry(key, value), key') <==>
              section' == section && key' == key
    ensures HasKey(Entry(key, value), key) && Strip(Entry(key, value))[|key| + 1..] == RightStrip(value)
  {
    EntryLine(key, value);
    HeadersDiffer(section, section');
    if HasKey(Entry(key, value), key') {
      KeyIsUnique(Entry(key, value), key, key');
    }
  }

  /** The entry behind lines in whose section the key is missing: it is found, and no other name sees it. */
  lemma LookupWithEntry(a: Lines, c: Lines, section: string, key: string, value: string, section': string, key': string)
    requires CheckName(key) && !LeadingBlank(key) && '=' !in key'
    requires SectionAfter(a, "") == Header(section) && Lookup(a, section, key).None?
    ensures Lookup(a + [Entry(key, value)] + c, section', key') ==
              if section' == section && key' == key then Some(RightStrip(value)) else Lookup(a + c, section', key')
  {
    EntryServesOneName(section, key, value, section', key');
    if section' == section && key' == key {
      LookupFinds(a, Entry(key, value), c, Header(section), key);
    } else {
      LookupSkips(a, Entry(key, value), c, Header(section'), key');
    }
  }

  /** The replaced line served the same name as the entry that takes its place. */
  lemma LookupWithoutLine(a: Lines, x: string, c: Lines, section: string, key: string, section': string, key': string)
    requires '=' !in key && '=' !in key' && !(section' == section && key' == key)
    requires SectionAfter(a, "") == Header(section) && Kinds(Header(section), key)(x) == KeyLine
    ensures Lookup(a + [x] + c, section', key') == Lookup(a + c, section', key')
  {
    assert KindOf(x, Header(section), key) == KeyLine;
    HeadersDiffer(section, section');
    if HasKey(x, key') {
      KeyIsUnique(x, key, key');
    }
    LookupSkips(a, x, c, Header(section'), key');
  }

  /** What holds right before the place of the entry. */
  lemma BeforeEntry(ls: Lines, section: string, key: string, h: nat, e: nat, k: nat)
    requires Located(ls, Kinds(Header(section), key), h, e, k)
    ensures h == |ls| ==> Lookup(ls, section, key).None?
    ensures h < |ls| ==> SectionAfter(ls[..k], "") == Header(section) && Lookup(ls[..k], section, key).None?
  {
    LocatedMarked(ls, Header(section), key, h, e, k);
    PrefixState(ls, Header(section), key, h, e, k, k);
    assert h == |ls| ==> ls[..k] == ls;
  }

  lemma SetInserts(ls: Lines, section: string, key: string, value: string, section': string, key': string, e: nat)
    requires CheckName(key) && !LeadingBlank(key) && '=' !in key' && e <= |ls|
    requires SectionAfter(ls[..e], "") == Header(section) && Lookup(ls[..e], section, key).None?
    ensures Lookup(ls[..e] + [Entry(key, value)] + ls[e..], section', key') ==
              if section' == section && key' == key then Some(RightStrip(value)) else Lookup(ls, section', key')
  {
    LookupWithEntry(ls[..e], ls[e..], section, key, value, section', key');
    assert ls == ls[..e] + ls[e..];
  }

  lemma LocatedKeyLine(ls: Lines, header: string, key: string, h: nat, e: nat, k: nat)
    requires Located(ls, Kinds(header, key), h, e, k) && h < |ls| && k < e
    ensures Kinds(header, key)(ls[k]) == KeyLine
  {
  }

  lemma EditIsMapUpdate(ls: Lines, section: string, key: string, value: string, section': string, key': string,
      h: nat, e: nat, k: nat)
    requires CheckName(key) && !LeadingBlank(key) && '=' !in key'
    requires Located(ls, Kinds(Header(section), key), h, e, k)
    ensures Lookup(Edited(ls, section, Entry(key, value), h, e, k), section', key') ==
              if section' == section && key' == key then Some(RightStrip(value)) else Lookup(ls, section', key')
  {
    BeforeEntry(ls, section, key, h, e, k);
    if h == |ls| {
      SetAppends(ls, section, key, value, section', key');
    } else if k < e {
      LocatedKeyLine(ls, Header(section), key, h, e, k);
      SetOverwrites(ls, section, key, value, section', key', k);
    } else if e < |ls| {
      SetInserts(ls, section, key, value, section', key', e);
    } else {
      assert ls[..k] == ls;
      SetAtEnd(ls, section, key, value, section', key');
    }
  }

  /**
    `set_ini_value` is a map update: the key then has the new value (read back without trailing
    blanks), every other name keeps what it had, for repeated sections, duplicate keys, missing
    sections and files without a final newline alike.
   */
  lemma SetIsMapUpdate(ls: Lines, section: string, key: string, value: string, section': string, key': string)
    requires CheckName(key) && !LeadingBlank(key) && '=' !in key'
    ensures Lookup(SetLines(ls, section, key, value), section', key') ==
              if section' == section && key' == key then Some(RightStrip(value)) else Lookup(ls, section', key')
  {
    var h, e, k := LocatedIn(ls, section, key);
    SetLinesAt(ls, section, key, value, h, e, k);
    EditIsMapUpdate(ls, section, key, value, section', key', h, e, k);
  }

  lemma SetOverwrites(ls: Lines, section: string, key: string, value: string, section': string, key': string, k: nat)
    requires CheckName(key) && !LeadingBlank(key) && '=' !in key' && k < |ls|
    requires SectionAfter(ls[..k], "") == Header(section) && Lookup(ls[..k], section, key).None?
    requires Kinds(Header(section), key)(ls[k]) == KeyLine
    ensures Lookup(ls[..k] + [Entry(key, value)] + ls[k + 1..], section', key') ==
              if section' == section && key' == key then Some(RightStrip(value)) else Lookup(ls, section', key')
  {
    LookupWithEntry(ls[..k], ls[k + 1..], section, key, value, section', key');
    if !(section' == section && key' == key) {
      LookupWithoutLine(ls[..k], ls[k], ls[k + 1..], section, key, section', key');
      assert ls == ls[..k] + [ls[k]] + ls[k + 1..];
    }
  }

  lemma SetAppends(ls: Lines, section: string, key: string, value: string, section': string, key': string)
    requires CheckName(key) && !LeadingBlank(key) && '=' !in key' && Lookup(ls, section, key).None?
    ensures Lookup(Appended(ls, section, Entry(key, value)), section', key') ==
              if section' == section && key' == key then Some(RightStrip(value)) else Lookup(ls, section', key')
  {
    EntryServesOneName(section, key, value, section', key');
    LookupAppended(ls, section, Entry(key, value), Header(section'), key');
  }

  lemma SetAtEnd(ls: Lines, section: string, key: string, value: string, section': string, key': string)
    requires CheckName(key) && !LeadingBlank(key) && '=' !in key'
    requires SectionAfter(ls, "") == Header(section) && Lookup(ls, section, key).None?
    ensures Lookup(Terminated(ls) + [Entry(key, value)], section', key') ==
              if section' == section && key' == key then Some(RightStrip(value)) else Lookup(ls, section', key')
  {
    var t := Terminated(ls);
    LookupTerminated(ls, Header(section), key);
    LookupTerminated(ls, Header(section'), key');
    LookupWithEntry(t, [], section, key, value, section', key');
    assert t + [Entry(key, value)] + [] == t + [Entry(key, value)] && t + [] == t;
  }

  lemma {:induction false} BlankKeyNeverFound(ls: Lines, cur: string, header: string, key: string)
    requires LeadingBlank(key)
    ensures LookupFrom(ls, cur, header, key).None?
  {
    if ls != [] {
      BlankKeyNotFound(ls[0], key);
      BlankKeyNeverFound(ls[1..], if IsHeader(ls[0]) then Strip(ls[0]) else cur, header, key);
    }
  }

  /** The name check admits keys with a leading blank; for exactly those the written value is never found again. */
  lemma SetTakesEffectIff(ls: Lines, section: string, key: string, value: string)
    requires CheckName(key)
    ensures Lookup(SetLines(ls, section, key, value), section, key) == Some(RightStrip(value)) <==> !LeadingBlank(key)
  {
    if LeadingBlank(key) {
      BlankKeyNeverFound(SetLines(ls, section, key, value), "", Header(section), key);
    } else {
      SetIsMapUpdate(ls, section, key, value, section, key);
    }
  }

  // ---------------------------------------------------------------- set again

  lemma StepWhole(line: string)
    requires line != "" && forall k | 0 <= k < |line| :: line[k] != '\n'
    ensures Whole(line + "\n")
  {
  }

  /** Lines as reading delivers them. */
  predicate Clean(ls: Lines) {
    WellCut(ls) && forall i | 0 <= i < |ls| :: '\r' !in ls[i]
  }

  predicate AllWhole(ls: Lines) {
    forall i | 0 <= i < |ls| :: Whole(ls[i]) && '\r' !in ls[i]
  }

  lemma CleanConcat(a: Lines, b: Lines)
    requires AllWhole(a) && Clean(b)
    ensures Clean(a + b)
    ensures AllWhole(b) ==> AllWhole(a + b)
  {
    forall i | 0 <= i < |a + b| ensures (a + b)[i] == if i < |a| then a[i] else b[i - |a|] {}
  }

  lemma CleanParts(ls: Lines, k: nat)
    requires Clean(ls) && k <= |ls|
    ensures Clean(ls[k..]) && (k < |ls| ==> AllWhole(ls[..k]))
  {
    forall i | 0 <= i < |ls[k..]| ensures ls[k..][i] == ls[k + i] {}
  }

  lemma CleanTerminated(ls: Lines)
    requires Clean(ls)
    ensures AllWhole(Terminated(ls))
  {
    if !EndsLine(ls) {
      StepWhole(ls[|ls| - 1]);
    }
  }

  lemma WholeLines(section: string, key: string, value: string)
    requires CheckName(section) && CheckName(key) && CheckValue(value)
    ensures AllWhole([Header(section) + "\n", Entry(key, value)]) && AllWhole([Entry(key, value)]) && AllWhole(["\n"])
  {
    assert '\n' !in Header(section);
    StepWhole(Header(section));
    assert '\n' !in key + "=" + value;
    StepWhole(key + "=" + value);
  }

  /** What the editor writes is read back line by line. */
  lemma EditedClean(ls: Lines, section: string, key: string, value: string, h: nat, e: nat, k: nat)
    requires CheckName(section) && CheckName(key) && CheckValue(value)
    requires h <= |ls| && k <= e <= |ls| && Clean(ls)
    ensures Clean(Edited(ls, section, Entry(key, value), h, e, k))
  {
    var entry := Entry(key, value);
    WholeLines(section, key, value);
    CleanTerminated(ls);
    if h == |ls| {
      AppendedIs(ls, section, entry);
      CleanConcat(Terminated(ls), ["\n"]);
      CleanConcat(BeforeNewHeader(ls), [Header(section) + "\n", entry]);
    } else if k < e {
      CleanParts(ls, k);
      CleanParts(ls, k + 1);
      CleanConcat([entry], ls[k + 1..]);
      CleanConcat(ls[..k], [entry] + ls[k + 1..]);
      assert ls[..k] + ([entry] + ls[k + 1..]) == ls[..k] + [entry] + ls[k + 1..];
    } else if e < |ls| {
      CleanParts(ls, e);
      CleanConcat([entry], ls[e..]);
      CleanConcat(ls[..e], [entry] + ls[e..]);
      assert ls[..e] + ([entry] + ls[e..]) == ls[..e] + [entry] + ls[e..];
    } else {
      CleanConcat(Terminated(ls), [entry]);
    }
  }

  lemma OverwriteLocated<T>(ls: seq<T>, kind: T -> Kind, h: nat, e: nat, k: nat, entry: T)
    requires Located(ls, kind, h, e, k) && k < e && kind(entry) == KeyLine
    ensures Located(ls[..k] + [entry] + ls[k + 1..], kind, h, e, k)
  {
    var out := ls[..k] + [entry] + ls[k + 1..];
    forall i | 0 <= i < |out| ensures out[i] == if i == k then entry else ls[i] {}
  }

  lemma InsertLocated<T>(ls: seq<T>, kind: T -> Kind, h: nat, e: nat, entry: T)
    requires Located(ls, kind, h, e, e) && h < |ls| && kind(entry) == KeyLine
    ensures Located(ls[..e] + [entry] + ls[e..], kind, h, e + 1, e)
  {
    var out := ls[..e] + [entry] + ls[e..];
    forall i | 0 <= i < |out| ensures out[i] == if i < e then ls[i] else if i == e then entry else ls[i - 1] {}
  }

  lemma AppendLocated<T>(t: seq<T>, kind: T -> Kind, header: T, entry: T)
    requires forall i | 0 <= i < |t| :: kind(t[i]) != OwnHeader
    requires kind(header) == OwnHeader && kind(entry) == KeyLine
    ensures Located(t + [header, entry], kind, |t|, |t| + 2, |t| + 1)
  {
  }

  lemma SameKindsLocated<T>(ls: seq<T>, t: seq<T>, kind: T -> Kind, h: nat, e: nat, k: nat)
    requires Located(ls, kind, h, e, k) && |t| == |ls|
    requires forall i | 0 <= i < |ls| :: kind(t[i]) == kind(ls[i])
    ensures Located(t, kind, h, e, k)
  {
  }

  lemma TerminatedKinds(ls: Lines, header: string, key: string)
    ensures forall i | 0 <= i < |ls| :: Kinds(header, key)(Terminated(ls)[i]) == Kinds(header, key)(ls[i])
  {
    LookupTerminated(ls, header, key);
  }

  lemma NewHeaderKinds(ls: Lines, section: string, key: string)
    requires forall i | 0 <= i < |ls| :: Kinds(Header(section), key)(ls[i]) != OwnHeader
    ensures forall i | 0 <= i < |BeforeNewHeader(ls)| ::
              Kinds(Header(section), key)(BeforeNewHeader(ls)[i]) != OwnHeader
    ensures Kinds(Header(section), key)(Header(section) + "\n") == OwnHeader
  {
    TerminatedKinds(ls, Header(section), key);
    BlankLine();
    HeaderLine(section);
  }

  lemma EntryKind(section: string, key: string, value: string)
    requires CheckName(key) && !LeadingBlank(key)
    ensures Kinds(Header(section), key)(Entry(key, value)) == KeyLine
  {
    EntryLine(key, value);
  }

  lemma EntryAppended(ls: Lines, section: string, key: string, entry: string)
    requires forall i | 0 <= i < |ls| :: Kinds(Header(section), key)(ls[i]) != OwnHeader
    requires Kinds(Header(section), key)(entry) == KeyLine
    ensures var n := |BeforeNewHeader(ls)|;
            && Located(Appended(ls, section, entry), Kinds(Header(section), key), n, n + 2, n + 1)
            && |Appended(ls, section, entry)| == n + 2 && Appended(ls, section, entry)[n + 1] == entry
  {
    AppendedIs(ls, section, entry);
    NewHeaderKinds(ls, section, key);
    AppendLocated(BeforeNewHeader(ls), Kinds(Header(section), key), Header(section) + "\n", entry);
  }

  lemma EntryAtEnd(ls: Lines, section: string, key: string, entry: string, h: nat)
    requires Located(ls, Kinds(Header(section), key), h, |ls|, |ls|) && h < |ls|
    requires Kinds(Header(section), key)(entry) == KeyLine
    ensures Located(Terminated(ls) + [entry], Kinds(Header(section), key), h, |ls| + 1, |ls|)
  {
    var kind, t, e := Kinds(Header(section), key), Terminated(ls), |ls|;
    TerminatedKinds(ls, Header(section), key);
    SameKindsLocated(ls, t, kind, h, e, e);
    InsertLocated(t, kind, h, e, entry);
    assert t[..e] + [entry] + t[e..] == t + [entry];
  }

  /** In the edited lines the entry is the key line of the section's first block. */
  lemma EntryLocated(ls: Lines, section: string, key: string, value: string, h: nat, e: nat, k: nat)
    returns (h': nat, e': nat, k': nat)
    requires CheckName(key) && !LeadingBlank(key)
    requires Located(ls, Kinds(Header(section), key), h, e, k)
    ensures var out := Edited(ls, section, Entry(key, value), h, e, k);
            Located(out, Kinds(Header(section), key), h', e', k') && h' < |out| && k' < e' &&
                out[k'] == Entry(key, value)
    ensures k' == if h < |ls| then k else |BeforeNewHeader(ls)| + 1
  {
    var kind, entry := Kinds(Header(section), key), Entry(key, value);
    EntryKind(section, key, value);
    if h == |ls| {
      EntryAppended(ls, section, key, entry);
      var n := |BeforeNewHeader(ls)|;
      h', e', k' := n, n + 2, n + 1;
    } else if k < e {
      OverwriteLocated(ls, kind, h, e, k, entry);
      h', e', k' := h, e, k;
    } else if e < |ls| {
      InsertLocated(ls, kind, h, e, entry);
      h', e', k' := h, e + 1, e;
    } else {
      EntryAtEnd(ls, section, key, entry, h);
      h', e', k' := h, e + 1, e;
    }
  }

  lemma EditedSame(ls: Lines, section: string, entry: string, h: nat, e: nat, k: nat)
    requires h < |ls| && k < e <= |ls| && ls[k] == entry
    ensures Edited(ls, section, entry, h, e, k) == ls
  {
    assert ls == ls[..k] + [ls[k]] + ls[k + 1..];
  }

  /** Editing lines that hold the entry already changes nothing. */
  lemma SetLinesSame(ls: Lines, section: string, key: string, value: string, h: nat, e: nat, k: nat)
    requires Located(ls, Kinds(Header(section), key), h, e, k)
    requires h < |ls| && k < e && ls[k] == Entry(key, value)
    ensures SetLines(ls, section, key, value) == ls
  {
    SetLinesAt(ls, section, key, value, h, e, k);
    EditedSame(ls, section, Entry(key, value), h, e, k);
  }

  /** Editing the edited lines changes nothing. */
  lemma SetLinesAgain(ls: Lines, section: string, key: string, value: string)
    requires CheckName(key) && !LeadingBlank(key)
    ensures SetLines(SetLines(ls, section, key, value), section, key, value) == SetLines(ls, section, key, value)
  {
    var h, e, k := LocatedIn(ls, section, key);
    SetLinesAt(ls, section, key, value, h, e, k);
    var h', e', k' := EntryLocated(ls, section, key, value, h, e, k);
    SetLinesSame(Edited(ls, section, Entry(key, value), h, e, k), section, key, value, h', e', k');
  }

  /** With a leading blank the key is never found, so every edit adds a line. */
  lemma BlankKeyGrows(ls: Lines, section: string, key: string, value: string)
    requires LeadingBlank(key)
    ensures |SetLines(ls, section, key, value)| > |ls|
  {
    var h, e, k := LocatedIn(ls, section, key);
    SetLinesAt(ls, section, key, value, h, e, k);
    if h < |ls| && k < e {
      assert KindOf(ls[k], Header(section), key) == KeyLine;
      BlankKeyNotFound(ls[k], key);
      assert false;
    }
  }

  lemma CutClean(t: string)
    requires '\r' !in t
    ensures Clean(Cut(t)) && Joined(Cut(t)) == t
  {
    JoinedCut(t);
    JoinedHasNo(Cut(t), '\r');
  }

  lemma ReadBack(ls: Lines)
    requires Clean(ls)
    ensures Cut(Translated(Joined(ls))) == ls && '\r' !in Joined(ls)
  {
    JoinedHasNo(ls, '\r');
    CutJoined(ls);
  }

  lemma SetLinesClean(ls: Lines, section: string, key: string, value: string)
    requires CheckName(section) && CheckName(key) && CheckValue(value) && Clean(ls)
    ensures Clean(SetLines(ls, section, key, value))
  {
    var h, e, k := LocatedIn(ls, section, key);
    SetLinesAt(ls, section, key, value, h, e, k);
    EditedClean(ls, section, key, value, h, e, k);
  }

  /** A missing file is edited like an empty one. */
  lemma MissingIsEmpty(section: string, key: string, value: string)
    ensures SetText(None, section, key, value) == SetText(Some(""), section, key, value)
  {
    var hl, entry := Header(section) + "\n", Entry(key, value);
    assert Cut(Translated("")) == [];
    assert SetLines([], section, key, value) == [hl, entry];
    assert [hl, entry][1..] == [entry] && [entry][1..] == [];
    assert entry + "" == entry;
    assert Joined([entry]) == entry;
  }

  /** The same on the file text, which is read with universal newlines; a missing file holds no entry. */
  lemma SetTextIsMapUpdate(
    text: Option<string>, section: string, key: string, value: string, section': string, key': string
  )
    requires CheckName(section) && CheckName(key) && CheckValue(value) && !LeadingBlank(key) && '=' !in key'
    ensures var old' := Cut(Translated(if text.Some? then text.value else ""));
            Lookup(Cut(Translated(SetText(text, section, key, value))), section', key') ==
              if section' == section && key' == key then Some(RightStrip(value)) else Lookup(old', section', key')
  {
    var ls := Cut(Translated(if text.Some? then text.value else ""));
    MissingIsEmpty(section, key, value);
    CutClean(Translated(if text.Some? then text.value else ""));
    SetLinesClean(ls, section, key, value);
    ReadBack(SetLines(ls, section, key, value));
    SetIsMapUpdate(ls, section, key, value, section', key');
  }

  /** Setting the same value again leaves the file text alone, exactly when the key has no leading blank. */
  lemma SetTextIdempotent(text: Option<string>, section: string, key: string, value: string)
    requires CheckName(section) && CheckName(key) && CheckValue(value)
    ensures var once := SetText(text, section, key, value);
            SetText(Some(once), section, key, value) == once <==> !LeadingBlank(key)
  {
    MissingIsEmpty(section, key, value);
    var ls := Cut(Translated(if text.Some? then text.value else ""));
    CutClean(Translated(if text.Some? then text.value else ""));
    var out := SetLines(ls, section, key, value);
    SetLinesClean(ls, section, key, value);
    SetLinesClean(out, section, key, value);
    ReadBack(out);
    JoinedInjective(SetLines(out, section, key, value), out);
    if LeadingBlank(key) {
      BlankKeyGrows(out, section, key, value);
    } else {
      SetLinesAgain(ls, section, key, value);
    }
  }

  // ---------------------------------------------------------------- remove undoes set

  /** The first block of the section exists, lacks the key, and is not cut off by a missing final newline. */
  predicate PureInsertion(ls: Lines, section: string, key: string) {
    var h := HeaderIndex(ls, Header(section), 0);
    && h < |ls|
    && var e := BlockEnd(ls, h + 1);
       KeyIndex(ls, key, h + 1, e) == e && (e < |ls| || EndsLine(ls))
  }

  lemma SplitAt<T>(ls: seq<T>, k: nat)
    requires k < |ls|
    ensures ls == ls[..k] + ([ls[k]] + ls[k + 1..])
  {
  }

  lemma RemoveAtIndex(ls: Lines, section: string, key: string, k: nat)
    requires k < |ls| && FirstKeyLine(ls, "", Header(section), key) == k
    ensures RemoveLines(ls, section, key) == Without(ls, k)
  {
  }

  lemma KeyLineFirst(x: string, c: Lines, header: string, key: string)
    requires !IsHeader(x) && HasKey(x, key)
    ensures FirstKeyLine([x] + c, header, header, key) == 0
  {
  }

  lemma KeyLineAt(a: Lines, x: string, c: Lines, header: string, key: string)
    requires LookupFrom(a, "", header, key).None? && SectionAfter(a, "") == header && !IsHeader(x) && HasKey(x, key)
    ensures FirstKeyLine(a + ([x] + c), "", header, key) == |a|
  {
    KeyLineConcat(a, [x] + c, "", header, key);
    KeyLineFirst(x, c, header, key);
  }

  /** After an edit, the line that removal drops is the entry. */
  lemma RemoveDropsEntry(ls: Lines, section: string, key: string, value: string, h: nat, e: nat, k: nat)
    requires CheckName(key) && !LeadingBlank(key)
    requires Located(ls, Kinds(Header(section), key), h, e, k) && h < |ls| && k < e && ls[k] == Entry(key, value)
    ensures FirstKeyLine(ls, "", Header(section), key) == k
    ensures RemoveLines(ls, section, key) == Without(ls, k)
  {
    BeforeEntry(ls, section, key, h, e, k);
    EntryLine(key, value);
    KeyLineAt(ls[..k], ls[k], ls[k + 1..], Header(section), key);
    SplitAt(ls, k);
    RemoveAtIndex(ls, section, key, k);
  }

  function Without(ls: Lines, k: nat): Lines
    requires k < |ls|
  {
    ls[..k] + ls[k + 1..]
  }

  lemma WithoutInserted(a: Lines, x: string, c: Lines)
    ensures Without(a + [x] + c, |a|) == a + c
  {
  }

  /** What is left of the edited lines without the entry. */
  lemma EditedWithoutEntry(ls: Lines, section: string, entry: string, h: nat, e: nat, k: nat)
    requires h <= |ls| && k <= e <= |ls| && (h == |ls| ==> k == h)
    ensures var out := Edited(ls, section, entry, h, e, k);
            var k' := if h < |ls| then k else |BeforeNewHeader(ls)| + 1;
            && k' < |out|
            && Without(out, k') ==
                 if h == |ls| then BeforeNewHeader(ls) + [Header(section) + "\n"]
                 else if k < e then Without(ls, k)
                 else if e < |ls| then ls else Terminated(ls)
  {
    if h == |ls| {
      var a := BeforeNewHeader(ls) + [Header(section) + "\n"];
      AppendedIs(ls, section, entry);
      WithoutInserted(a, entry, []);
      assert a + [entry] + [] == Appended(ls, section, entry) && a + [] == a;
    } else if k < e {
      WithoutInserted(ls[..k], entry, ls[k + 1..]);
    } else if e < |ls| {
      WithoutInserted(ls[..e], entry, ls[e..]);
      assert ls == ls[..e] + ls[e..];
    } else {
      WithoutInserted(Terminated(ls), entry, []);
      assert Terminated(ls) + [entry] + [] == Terminated(ls) + [entry] && Terminated(ls) + [] == Terminated(ls);
    }
  }

  lemma TerminatedSame(ls: Lines)
    ensures Terminated(ls) == ls <==> EndsLine(ls)
  {
    if !EndsLine(ls) {
      assert |Terminated(ls)[|ls| - 1]| == |ls[|ls| - 1]| + 1;
    }
  }

  lemma PureInsertionAt(ls: Lines, section: string, key: string, h: nat, e: nat, k: nat)
    requires Located(ls, Kinds(Header(section), key), h, e, k)
    ensures PureInsertion(ls, section, key) <==> h < |ls| && k == e && (e < |ls| || EndsLine(ls))
  {
    var h', e', k' := LocatedIn(ls, section, key);
    LocatedUnique(ls, Kinds(Header(section), key), h, e, k, h', e', k');
  }

  /** Edit and removal cancel on the lines exactly for a pure insertion. */
  lemma RemovedLines(ls: Lines, section: string, key: string, value: string)
    requires CheckName(section) && CheckName(key) && CheckValue(value) && !LeadingBlank(key) && Clean(ls)
    ensures var out := SetLines(ls, section, key, value);
            && FirstKeyLine(out, "", Header(section), key) < |out|
            && Clean(RemoveLines(out, section, key))
            && (RemoveLines(out, section, key) == ls <==> PureInsertion(ls, section, key))
  {
    var h, e, k := LocatedIn(ls, section, key);
    SetLinesAt(ls, section, key, value, h, e, k);
    SetLinesClean(ls, section, key, value);
    PureInsertionAt(ls, section, key, h, e, k);
    RemovedAt(ls, section, key, value, h, e, k);
  }

  lemma RemovedAt(ls: Lines, section: string, key: string, value: string, h: nat, e: nat, k: nat)
    requires CheckName(key) && !LeadingBlank(key)
    requires Located(ls, Kinds(Header(section), key), h, e, k)
    requires Clean(Edited(ls, section, Entry(key, value), h, e, k))
    ensures var out := Edited(ls, section, Entry(key, value), h, e, k);
            && FirstKeyLine(out, "", Header(section), key) < |out|
            && Clean(RemoveLines(out, section, key))
            && (RemoveLines(out, section, key) == ls <==> h < |ls| && k == e && (e < |ls| || EndsLine(ls)))
  {
    var out := Edited(ls, section, Entry(key, value), h, e, k);
    var h', e', k' := EntryLocated(ls, section, key, value, h, e, k);
    RemoveDropsEntry(out, section, key, value, h', e', k');
    CleanWithout(out, k');
    EditedWithoutEntry(ls, section, Entry(key, value), h, e, k);
    TerminatedSame(ls);
  }

  lemma CleanWithout(ls: Lines, k: nat)
    requires Clean(ls) && k < |ls|
    ensures Clean(Without(ls, k))
  {
    CleanParts(ls, k);
    CleanParts(ls, k + 1);
    CleanConcat(ls[..k], ls[k + 1..]);
  }

  /**
    Removing the key after setting it gives the old file back, exactly when the key has no leading
    blank, the file was read without newline translation, and the edit was a pure insertion into
    the first block of the section.
   */
  lemma RemoveUndoesSet(t: string, section: string, key: string, value: string)
    requires CheckName(section) && CheckName(key) && CheckValue(value)
    ensures RemoveText(Some(SetText(Some(t), section, key, value)), section, key) == Some(t) <==>
              !LeadingBlank(key) && '\r' !in t && PureInsertion(Cut(t), section, key)
  {
    var ls := Cut(Translated(t));
    CutClean(Translated(t));
    var out := SetLines(ls, section, key, value);
    SetLinesClean(ls, section, key, value);
    ReadBack(out);
    if LeadingBlank(key) {
      BlankKeyNeverFound(out, "", Header(section), key);
      KeyLineIsLookup(out, "", Header(section), key);
      BlankKeyGrows(ls, section, key, value);
      JoinedInjective(out, ls);
    } else {
      RemovedLines(ls, section, key, value);
      ReadBack(RemoveLines(out, section, key));
      JoinedInjective(RemoveLines(out, section, key), ls);
    }
  }
}
