/** Python text primitives that several modules need: white space, `strip`, prefixes and first occurrences. */
module PyText {

  /** `str.isspace` for one character, which is also `\s` of the `re` module. */
  predicate IsSpace(c: char) {
    var n := c as int;
    || 0x09 <= n <= 0x0D || 0x1C <= n <= 0x20 || n == 0x85 || n == 0xA0 || n == 0x1680
    || 0x2000 <= n <= 0x200A || n == 0x2028 || n == 0x2029 || n == 0x202F || n == 0x205F || n == 0x3000
  }

  /** Among the ASCII characters: the blank, the controls from tab to carriage return, and four separators. */
  lemma AsciiSpace(c: char)
    requires c as int < 128
    ensures IsSpace(c) <==> c in {' ', '\t', '\n', '\r', 0x0B as char, 0x0C as char, 0x1C as char, 0x1D as char,
                                  0x1E as char, 0x1F as char}
  {
  }

  predicate StartsWith(s: string, prefix: string) {
    |prefix| <= |s| && s[..|prefix|] == prefix
  }

  predicate Contains(s: string, part: string) {
    exists i | 0 <= i <= |s| :: StartsWith(s[i..], part)
  }

  /** Index of the first `c` in `s` at or after `from`, or `|s|`. */
  function FirstIndex(s: string, c: char, from: nat): (r: nat)
    requires from <= |s|
    ensures from <= r <= |s|
    ensures r < |s| ==> s[r] == c
    ensures forall k | from <= k < r :: s[k] != c
    decreases |s| - from
  {
    if from == |s| || s[from] == c then from else FirstIndex(s, c, from + 1)
  }

  function LeftStrip(s: string): (r: string)
    ensures r == "" || !IsSpace(r[0])
  {
    if s != "" && IsSpace(s[0]) then LeftStrip(s[1..]) else s
  }

  function RightStrip(s: string): (r: string)
    ensures r == "" || !IsSpace(r[|r| - 1])
    ensures |r| <= |s| && r == s[..|r|]
    ensures forall k | |r| <= k < |s| :: IsSpace(s[k])
  {
    if s != "" && IsSpace(s[|s| - 1]) then RightStrip(s[..|s| - 1]) else s
  }

  /** `str.strip()` */
  function Strip(s: string): string {
    RightStrip(LeftStrip(s))
  }

  predicate Blank(s: string) {
    forall k | 0 <= k < |s| :: IsSpace(s[k])
  }

  lemma {:induction false} LeftStripDrops(s: string) returns (a: string)
    ensures s == a + LeftStrip(s) && Blank(a)
  {
    if s != "" && IsSpace(s[0]) {
      var more := LeftStripDrops(s[1..]);
      a := [s[0]] + more;
      JoinEnds([s[0]], more, LeftStrip(s));
    } else {
      a := "";
    }
  }

  lemma JoinEnds(a: string, middle: string, b: string)
    ensures a + (middle + b) == a + middle + b
  {
  }

  /** What `strip` leaves: white space goes at both ends, and only there. */
  lemma StripDropsEnds(s: string) returns (a: string, b: string)
    ensures s == a + Strip(s) + b && Blank(a) && Blank(b)
    ensures Strip(s) != "" ==> !IsSpace(Strip(s)[0]) && !IsSpace(Strip(s)[|Strip(s)| - 1])
  {
    a := LeftStripDrops(s);
    var middle := LeftStrip(s);
    b := middle[|RightStrip(middle)|..];
    JoinEnds(a, RightStrip(middle), b);
  }

  lemma StripEmptyIff(s: string)
    ensures Strip(s) == "" <==> Blank(s)
  {
    var a, b := StripDropsEnds(s);
    assert Strip(s) != "" ==> s[|a|] == Strip(s)[0];
  }
}
