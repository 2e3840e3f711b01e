/**
  How a text with comments is written: string literals, line comments, block comments and single
  characters. Every text is written in this way, and stripping removes exactly the comments.
 */
module CommentedText {
  import opened Wrappers
  import opened QuotedText
  import CommentStripper

  datatype Segment = Quoted(bits: seq<Bit>) | Line(text: string) | Block(text: string) | Plain(c: char)

  function Shown(segment: Segment): string {
    match segment
    case Quoted(bits) => "\"" + (BitsWritten(bits) + "\"")
    case Line(text) => "//" + text
    case Block(text) => "/*" + (text + "*/")
    case Plain(c) => [c]
  }

  function Written(segments: seq<Segment>): string {
    if segments == [] then "" else Shown(segments[0]) + Written(segments[1..])
  }

  /** The text without the comments. */
  function Kept(segments: seq<Segment>): string {
    if segments == [] then ""
    else (if segments[0].Line? || segments[0].Block? then "" else Shown(segments[0])) + Kept(segments[1..])
  }

  /** No star with a slash behind it. */
  predicate NoBlockEnd(t: string) {
    forall k | 0 <= k < |t| - 1 :: t[k] == '*' ==> t[k + 1] != '/'
  }

  /** A quote in front of this is never closed. */
  ghost predicate NeverClosed(rest: string) {
    exists bits :: GoodBits(bits) && (rest == BitsWritten(bits) || rest == BitsWritten(bits) + "\\")
  }

  /**
    A line comment goes on to the end of its line, a block comment to the first star-slash. A single quote
    character is one that is never closed, and a single slash one that begins no comment.
   */
  ghost predicate Fits(segment: Segment, rest: string) {
    match segment
    case Quoted(bits) => GoodBits(bits)
    case Line(text) => '\n' !in text && (rest == "" || rest[0] == '\n')
    case Block(text) => NoBlockEnd(text + "*")
    case Plain(c) =>
      && (c == '"' ==> NeverClosed(rest))
      && (c == '/' ==> rest == "" || (rest[0] != '/' && (rest[0] == '*' ==> NoBlockEnd(rest[1..]))))
  }

  ghost predicate Good(segments: seq<Segment>) {
    segments == [] || (Fits(segments[0], Written(segments[1..])) && Good(segments[1..]))
  }

  // ---------------------------------------------------------------- what the expression matches

  lemma {:induction false} LiteralEndOf(bits: seq<Bit>, rest: string)
    requires GoodBits(bits)
    ensures CommentStripper.LiteralEnd(BitsWritten(bits) + ("\"" + rest)) == Some(|BitsWritten(bits)| + 1)
    ensures CommentStripper.LiteralEnd(BitsWritten(bits)).None?
    ensures CommentStripper.LiteralEnd(BitsWritten(bits) + "\\").None?
    decreases |bits|
  {
    var closed, open := "\"" + rest, "\\";
    if bits == [] {
      assert "" + closed == closed && "" + open == open;
    } else {
      var bit, more := BitWritten(bits[0]), BitsWritten(bits[1..]);
      LiteralEndOf(bits[1..], rest);
      BehindBit(bits[0], more);
      BehindBit(bits[0], more + closed);
      BehindBit(bits[0], more + open);
      JoinThree(bit, more, closed);
      JoinThree(bit, more, open);
    }
  }

  lemma BehindBit(bit: Bit, rest: string)
    requires GoodBit(bit)
    ensures CommentStripper.LiteralEnd(BitWritten(bit) + rest) ==
              match CommentStripper.LiteralEnd(rest)
              case Some(n) => Some(|BitWritten(bit)| + n)
              case None => None
  {
    var t := BitWritten(bit) + rest;
    assert t[|BitWritten(bit)|..] == rest;
  }

  lemma {:induction false} LineEndOf(text: string, rest: string)
    requires '\n' !in text && (rest == "" || rest[0] == '\n')
    ensures CommentStripper.LineEnd(text + rest) == |text|
  {
    if text == "" {
      assert text + rest == rest;
    } else {
      assert (text + rest)[0] == text[0] && (text + rest)[1..] == text[1..] + rest;
      LineEndOf(text[1..], rest);
    }
  }

  lemma {:induction false} BlockEndOf(text: string, rest: string)
    requires NoBlockEnd(text + "*")
    ensures CommentStripper.BlockEnd(text + ("*/" + rest)) == Some(|text| + 2)
  {
    var t := text + ("*/" + rest);
    if text == "" {
      assert t[0] == '*' && t[1] == '/';
    } else {
      var more := text[1..] + "*";
      assert more == (text + "*")[1..];
      forall k | 0 <= k < |more| - 1 ensures more[k] == '*' ==> more[k + 1] != '/' {
        assert more[k] == (text + "*")[k + 1] && more[k + 1] == (text + "*")[k + 2];
      }
      BlockEndOf(text[1..], rest);
      assert t[1..] == text[1..] + ("*/" + rest);
      assert (text + "*")[0] == t[0] && (text + "*")[1] == t[1];
    }
  }

  lemma NoBlockEndIff(t: string)
    ensures CommentStripper.BlockEnd(t).None? <==> NoBlockEnd(t)
  {
    CommentStripper.BlockEndNone(t);
  }

  lemma NeverClosedEnd(rest: string)
    requires NeverClosed(rest)
    ensures CommentStripper.LiteralEnd(rest).None?
  {
    var bits :| GoodBits(bits) && (rest == BitsWritten(bits) || rest == BitsWritten(bits) + "\\");
    LiteralEndOf(bits, "");
  }

  // ---------------------------------------------------------------- stripping a writing

  lemma ClosedHead(inside: string, rest: string, n: nat)
    requires CommentStripper.LiteralEnd(inside + ("\"" + rest)) == Some(n)
    ensures CommentStripper.HeadOf("\"" + (inside + "\"") + rest) == CommentStripper.Literal(1 + n)
  {
    var t := "\"" + (inside + "\"") + rest;
    assert t[1..] == inside + ("\"" + rest);
  }

  lemma QuotedHead(bits: seq<Bit>, rest: string)
    requires GoodBits(bits)
    ensures var n := |BitsWritten(bits)| + 2;
            CommentStripper.HeadOf(Shown(Quoted(bits)) + rest) == CommentStripper.Literal(n)
  {
    LiteralEndOf(bits, rest);
    ClosedHead(BitsWritten(bits), rest, |BitsWritten(bits)| + 1);
  }

  lemma LineHead(text: string, rest: string)
    requires Fits(Line(text), rest)
    ensures CommentStripper.HeadOf(Shown(Line(text)) + rest) == CommentStripper.Comment(2 + |text|)
  {
    var t := Shown(Line(text)) + rest;
    LineEndOf(text, rest);
    assert t[2..] == text + rest;
  }

  lemma BlockHead(text: string, rest: string)
    requires Fits(Block(text), rest)
    ensures CommentStripper.HeadOf(Shown(Block(text)) + rest) == CommentStripper.Comment(|text| + 4)
  {
    var t := Shown(Block(text)) + rest;
    BlockEndOf(text, rest);
    assert t[2..] == text + ("*/" + rest);
  }

  lemma PlainHead(c: char, rest: string)
    requires Fits(Plain(c), rest)
    ensures CommentStripper.HeadOf([c] + rest).Plain?
  {
    var t := [c] + rest;
    assert t[1..] == rest;
    if c == '"' {
      NeverClosedEnd(rest);
    }
    if c == '/' && rest != "" {
      assert t[2..] == rest[1..];
      NoBlockEndIff(rest[1..]);
    }
  }

  /** The first segment is what the expression matches, and the rest is stripped by itself. */
  lemma StripSegment(segment: Segment, rest: string)
    requires Fits(segment, rest)
    ensures CommentStripper.Strip(Shown(segment) + rest) ==
              (if segment.Line? || segment.Block? then "" else Shown(segment)) + CommentStripper.Strip(rest)
  {
    var t, n := Shown(segment) + rest, |Shown(segment)|;
    assert t[..n] == Shown(segment) && t[n..] == rest;
    match segment
    case Quoted(bits) => QuotedHead(bits, rest);
    case Line(text) => LineHead(text, rest);
    case Block(text) => BlockHead(text, rest);
    case Plain(c) => PlainHead(c, rest);
  }

  /** Stripping a writing leaves its literals and single characters, and none of its comments. */
  lemma {:induction false} StripOfWriting(segments: seq<Segment>)
    requires Good(segments)
    ensures CommentStripper.Strip(Written(segments)) == Kept(segments)
  {
    if segments != [] {
      StripSegment(segments[0], Written(segments[1..]));
      StripOfWriting(segments[1..]);
    }
  }

  // ---------------------------------------------------------------- every text is a writing

  /** Up to the end of the line. */
  lemma {:induction false} FindLine(t: string) returns (text: string, rest: string)
    ensures t == text + rest && '\n' !in text && (rest == "" || rest[0] == '\n')
  {
    if t == "" || t[0] == '\n' {
      text, rest := "", t;
    } else {
      text, rest := FindLine(t[1..]);
      text := [t[0]] + text;
      assert t == [t[0]] + t[1..];
    }
  }

  /** Up to the first star-slash, if there is one. */
  lemma {:induction false} FindBlock(t: string) returns (text: string, rest: string)
    requires !NoBlockEnd(t)
    ensures t == text + ("*/" + rest) && NoBlockEnd(text + "*")
  {
    if t[0] == '*' && t[1] == '/' {
      text, rest := "", t[2..];
    } else {
      var k :| 0 <= k < |t| - 1 && t[k] == '*' && t[k + 1] == '/';
      assert t[1..][k - 1] == '*' && t[1..][k] == '/';
      var more;
      more, rest := FindBlock(t[1..]);
      text := [t[0]] + more;
      assert t == [t[0]] + t[1..];
      assert [t[0]] + (more + ("*/" + rest)) == text + ("*/" + rest);
      assert (text + "*")[1] == t[1];
      forall k | 0 <= k < |text + "*"| - 1 ensures (text + "*")[k] == '*' ==> (text + "*")[k + 1] != '/' {
        if k > 0 {
          assert (text + "*")[k] == (more + "*")[k - 1] && (text + "*")[k + 1] == (more + "*")[k];
        }
      }
    }
  }

  lemma FirstQuoted(t: string) returns (segment: Segment, rest: string)
    ensures Fits(segment, rest) && "\"" + t == Shown(segment) + rest
  {
    var bits, more := FindBits(t);
    if more != "" && more[0] == '"' {
      segment, rest := Quoted(bits), more[1..];
      assert more == "\"" + rest;
    } else {
      segment, rest := Plain('"'), t;
      assert BitsWritten(bits) + "" == BitsWritten(bits);
    }
  }

  lemma FirstSlash(t: string) returns (segment: Segment, rest: string)
    ensures Fits(segment, rest) && "/" + t == Shown(segment) + rest
  {
    segment, rest := Plain('/'), t;
    if t != "" && t[0] == '/' {
      var text;
      text, rest := FindLine(t[1..]);
      segment := Line(text);
      assert "/" + t == "//" + t[1..];
    } else if t != "" && t[0] == '*' && !NoBlockEnd(t[1..]) {
      var text;
      text, rest := FindBlock(t[1..]);
      segment := Block(text);
      assert "/" + t == "/*" + t[1..];
    }
  }

  lemma FirstSegment(s: string) returns (segment: Segment, rest: string)
    requires s != ""
    ensures Fits(segment, rest) && s == Shown(segment) + rest
  {
    assert s == [s[0]] + s[1..];
    if s[0] == '"' {
      segment, rest := FirstQuoted(s[1..]);
    } else if s[0] == '/' {
      segment, rest := FirstSlash(s[1..]);
    } else {
      segment, rest := Plain(s[0]), s[1..];
    }
  }

  /** Every text is a writing. */
  lemma {:induction false} EveryTextIsWritten(s: string) returns (segments: seq<Segment>)
    ensures Good(segments) && Written(segments) == s
    decreases |s|
  {
    segments := [];
    if s != "" {
      var first, rest := FirstSegment(s);
      var more := EveryTextIsWritten(rest);
      segments := [first] + more;
      assert segments[0] == first && segments[1..] == more;
    }
  }

  /** What is left of a text: its literals and single characters, however it is written. */
  lemma StripIff(s: string, t: string)
    ensures CommentStripper.Strip(s) == t <==>
            exists segments :: Good(segments) && Written(segments) == s && Kept(segments) == t
  {
    var segments := EveryTextIsWritten(s);
    StripOfWriting(segments);
    forall other | Good(other) && Written(other) == s ensures Kept(other) == CommentStripper.Strip(s) {
      StripOfWriting(other);
    }
  }

  // ---------------------------------------------------------------- one comment

  /** Whole literals, and characters that can begin neither a literal nor a comment. */
  predicate Quiet(segments: seq<Segment>) {
    forall k | 0 <= k < |segments| ::
      (segments[k].Quoted? && GoodBits(segments[k].bits)) ||
      (segments[k].Plain? && segments[k].c != '"' && segments[k].c != '/')
  }

  lemma {:induction false} QuietStays(a: seq<Segment>, t: string)
    requires Quiet(a)
    ensures CommentStripper.Strip(Written(a) + t) == Written(a) + CommentStripper.Strip(t)
  {
    var rest := CommentStripper.Strip(t);
    if a == [] {
      assert "" + t == t && "" + rest == rest;
    } else {
      JoinThree(Shown(a[0]), Written(a[1..]), t);
      StripSegment(a[0], Written(a[1..]) + t);
      QuietStays(a[1..], t);
      JoinThree(Shown(a[0]), Written(a[1..]), rest);
    }
  }

  /** A line comment goes, and its newline and everything behind it stay. */
  lemma LineCommentGoes(a: seq<Segment>, text: string, b: string)
    requires Quiet(a) && '\n' !in text
    ensures CommentStripper.Strip(Written(a) + ("//" + text + ("\n" + b))) ==
              Written(a) + ("\n" + CommentStripper.Strip(b))
  {
    QuietStays(a, "//" + text + ("\n" + b));
    StripSegment(Line(text), "\n" + b);
    StripSegment(Plain('\n'), b);
    var rest := "\n" + CommentStripper.Strip(b);
    assert "" + rest == rest;
  }

  /** A block comment goes with its end, and everything behind it stays. */
  lemma BlockCommentGoes(a: seq<Segment>, text: string, b: string)
    requires Quiet(a) && NoBlockEnd(text + "*")
    ensures CommentStripper.Strip(Written(a) + ("/*" + (text + "*/") + b)) == Written(a) + CommentStripper.Strip(b)
  {
    QuietStays(a, "/*" + (text + "*/") + b);
    StripSegment(Block(text), b);
    var rest := CommentStripper.Strip(b);
    assert "" + rest == rest;
  }
}
