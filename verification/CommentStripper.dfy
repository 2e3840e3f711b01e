/**
  The comment stripper for blueprint JSON: one regular expression that steps over string literals
  and removes line and block comments.
 */
module CommentStripper {
  import opened Wrappers

  /** Length of the rest of a literal after its opening quote, closing quote included; backslashes escape pairs. */
  function LiteralEnd(s: string): (r: Option<nat>)
    ensures r.Some? ==> 0 < r.value <= |s| && s[r.value - 1] == '"'
  {
    if s == "" then None
    else if s[0] == '"' then Some(1)
    else if s[0] == '\\' then
      if |s| < 2 then None
      else match LiteralEnd(s[2..]) case Some(n) => Some(n + 2) case None => None
    else match LiteralEnd(s[1..]) case Some(n) => Some(n + 1) case None => None
  }

  /** Number of characters up to the end of the line. */
  function LineEnd(s: string): (r: nat)
    ensures r <= |s| && (r < |s| ==> s[r] == '\n')
    ensures forall k | 0 <= k < r :: s[k] != '\n'
  {
    if s == "" || s[0] == '\n' then 0 else 1 + LineEnd(s[1..])
  }

  /** Number of characters up to and including the first star-slash. */
  function BlockEnd(s: string): (r: Option<nat>)
    ensures r.Some? ==> 2 <= r.value <= |s| && s[r.value - 2] == '*' && s[r.value - 1] == '/'
  {
    if |s| < 2 then None
    else if s[0] == '*' && s[1] == '/' then Some(2)
    else match BlockEnd(s[1..]) case Some(n) => Some(n + 1) case None => None
  }

  /** What the expression matches at the head of the text: a literal, a comment, or nothing. */
  datatype Head = Literal(len: nat) | Comment(len: nat) | Plain

  function HeadOf(s: string): (h: Head)
    requires s != ""
    ensures !h.Plain? ==> 2 <= h.len <= |s|
    ensures h.Literal? ==> s[0] == '"' && s[h.len - 1] == '"'
    ensures h.Comment? ==> s[0] == '/'
  {
    if s[0] == '"' && LiteralEnd(s[1..]).Some? then Literal(1 + LiteralEnd(s[1..]).value)
    else if |s| >= 2 && s[0] == '/' && s[1] == '/' then Comment(2 + LineEnd(s[2..]))
    else if |s| >= 2 && s[0] == '/' && s[1] == '*' && BlockEnd(s[2..]).Some? then Comment(2 + BlockEnd(s[2..]).value)
    else Plain
  }

  /** `_strip_json_comments` */
  function Strip(s: string): string {
    if s == "" then ""
    else
      match HeadOf(s)
      case Literal(n) => s[..n] + Strip(s[n..])
      case Comment(n) => Strip(s[n..])
      case Plain => [s[0]] + Strip(s[1..])
  }

  // ---------------------------------------------------------------- what is left alone

  /** Position `i` lies in a string literal; literals are read from left to right, comments play no part. */
  predicate InLiteral(s: string, i: nat)
    requires i < |s|
    decreases |s|
  {
    match HeadOf(s)
    case Literal(n) => i < n || InLiteral(s[n..], i - n)
    case _ => i > 0 && InLiteral(s[1..], i - 1)
  }

  lemma {:induction false} StripShortens(s: string)
    ensures |Strip(s)| <= |s|
  {
    if s != "" {
      match HeadOf(s)
      case Literal(n) => StripShortens(s[n..]);
      case Comment(n) => StripShortens(s[n..]);
      case Plain => StripShortens(s[1..]);
    }
  }

  /** Every comment of the text lies in a literal. */
  ghost predicate CommentsInLiterals(s: string) {
    forall i | 0 <= i < |s| && HeadOf(s[i..]).Comment? :: InLiteral(s, i)
  }

  lemma CommentsInSuffix(s: string, n: nat)
    requires s != "" && match HeadOf(s) case Literal(m) => n == m case _ => n == 1
    requires !HeadOf(s).Comment?
    ensures CommentsInLiterals(s) <==> CommentsInLiterals(s[n..])
  {
    if CommentsInLiterals(s) {
      forall i | 0 <= i < |s[n..]| && HeadOf(s[n..][i..]).Comment? ensures InLiteral(s[n..], i) {
        assert s[n..][i..] == s[n + i..];
        assert InLiteral(s, n + i);
      }
    }
    if CommentsInLiterals(s[n..]) {
      forall i | 0 <= i < |s| && HeadOf(s[i..]).Comment? ensures InLiteral(s, i) {
        if i >= n {
          assert s[n..][i - n..] == s[i..];
        } else {
          assert s[0..] == s;
        }
      }
    }
  }

  lemma CommonPrefix(s: string, t: string, n: nat)
    requires n <= |s|
    ensures s[..n] + t == s <==> t == s[n..]
  {
    assert s == s[..n] + s[n..];
    assert (s[..n] + t)[n..] == t;
  }

  /** A text is left unchanged exactly when all its comments lie in string literals. */
  lemma {:induction false} UnchangedIff(s: string)
    ensures Strip(s) == s <==> CommentsInLiterals(s)
  {
    if s != "" {
      assert s[0..] == s;
      match HeadOf(s)
      case Comment(n) =>
        StripShortens(s[n..]);
        assert !InLiteral(s, 0);
      case Literal(n) =>
        UnchangedIff(s[n..]);
        CommentsInSuffix(s, n);
        CommonPrefix(s, Strip(s[n..]), n);
      case Plain =>
        UnchangedIff(s[1..]);
        CommentsInSuffix(s, 1);
        CommonPrefix(s, Strip(s[1..]), 1);
        assert s[..1] == [s[0]];
    }
  }

  /** A comment marker, whether or not a comment follows. */
  predicate MarkerAt(s: string, i: nat) {
    i + 1 < |s| && s[i] == '/' && (s[i + 1] == '/' || s[i + 1] == '*')
  }

  /** In particular: when every comment marker lies in a literal, nothing changes. */
  lemma MarkersInLiterals(s: string)
    requires forall i | 0 <= i < |s| && MarkerAt(s, i) :: InLiteral(s, i)
    ensures Strip(s) == s
  {
    forall i | 0 <= i < |s| && HeadOf(s[i..]).Comment? ensures InLiteral(s, i) {
      assert MarkerAt(s, i);
    }
    UnchangedIff(s);
  }

  // ---------------------------------------------------------------- idempotence

  /** No star-slash anywhere. */
  predicate NoBlockEnd(s: string) {
    forall k | 0 <= k < |s| - 1 :: !(s[k] == '*' && s[k + 1] == '/')
  }

  lemma {:induction false} BlockEndNone(s: string)
    ensures BlockEnd(s).None? <==> NoBlockEnd(s)
  {
    if |s| >= 2 {
      BlockEndNone(s[1..]);
      if NoBlockEnd(s) {
        forall k | 0 <= k < |s[1..]| - 1 ensures !(s[1..][k] == '*' && s[1..][k + 1] == '/') {
          assert s[1..][k] == s[k + 1] && s[1..][k + 1] == s[k + 2];
        }
      } else if !(s[0] == '*' && s[1] == '/') {
        var k :| 0 <= k < |s| - 1 && s[k] == '*' && s[k + 1] == '/';
        assert s[1..][k - 1] == s[k] && s[1..][k] == s[k + 1];
      }
    }
  }

  lemma StripFirst(s: string)
    requires s != "" && !HeadOf(s).Comment?
    ensures Strip(s) != "" && Strip(s)[0] == s[0]
  {
  }

  /** Stripping cannot bring a star and a slash together that were apart. */
  lemma {:induction false} StripKeepsNoBlockEnd(s: string)
    requires NoBlockEnd(s)
    ensures NoBlockEnd(Strip(s))
  {
    if s != "" {
      match HeadOf(s)
      case Comment(n) =>
        SuffixNoBlockEnd(s, n);
        StripKeepsNoBlockEnd(s[n..]);
      case Literal(n) =>
        SuffixNoBlockEnd(s, n);
        StripKeepsNoBlockEnd(s[n..]);
        NoBlockEndAppend(s[..n], Strip(s[n..]));
      case Plain =>
        SuffixNoBlockEnd(s, 1);
        StripKeepsNoBlockEnd(s[1..]);
        if |s| > 1 && !HeadOf(s[1..]).Comment? {
          StripFirst(s[1..]);
        }
        NoBlockEndAppend([s[0]], Strip(s[1..]));
    }
  }

  lemma SuffixNoBlockEnd(s: string, n: nat)
    requires NoBlockEnd(s) && n <= |s|
    ensures NoBlockEnd(s[n..]) && NoBlockEnd(s[..n])
  {
    forall k | 0 <= k < |s[n..]| - 1 ensures !(s[n..][k] == '*' && s[n..][k + 1] == '/') {
      assert s[n..][k] == s[n + k] && s[n..][k + 1] == s[n + k + 1];
    }
  }

  lemma NoBlockEndAppend(a: string, b: string)
    requires NoBlockEnd(a) && NoBlockEnd(b)
    requires a != "" && b != "" ==> !(a[|a| - 1] == '*' && b[0] == '/')
    ensures NoBlockEnd(a + b)
  {
    forall k | 0 <= k < |a + b| - 1 ensures !((a + b)[k] == '*' && (a + b)[k + 1] == '/') {
      if k >= |a| {
        assert (a + b)[k] == b[k - |a|] && (a + b)[k + 1] == b[k + 1 - |a|];
      }
    }
  }

  /** A slash that starts no comment starts none after the rest has been stripped either. */
  lemma SlashStaysPlain(s: string)
    requires s != "" && s[0] == '/' && HeadOf(s).Plain?
    ensures HeadOf([s[0]] + Strip(s[1..])).Plain?
  {
    var t := [s[0]] + Strip(s[1..]);
    if |s| > 1 {
      assert !HeadOf(s[1..]).Comment?;
      StripFirst(s[1..]);
      if s[1] == '*' {
        BlockEndNone(s[2..]);
        StripKeepsNoBlockEnd(s[2..]);
        assert Strip(s[1..]) == ['*'] + Strip(s[2..]) by {
          assert s[1..][1..] == s[2..];
        }
        assert t[2..] == Strip(s[2..]);
        BlockEndNone(t[2..]);
      }
    }
  }

  /** A literal stays the same literal whatever follows it. */
  lemma {:induction false} LiteralEndPrefix(s: string, t: string)
    requires LiteralEnd(s).Some?
    ensures LiteralEnd(s[..LiteralEnd(s).value] + t) == LiteralEnd(s)
  {
    var n := LiteralEnd(s).value;
    var u := s[..n] + t;
    if s[0] == '"' {
    } else if s[0] == '\\' {
      LiteralEndPrefix(s[2..], t);
      assert u[2..] == s[2..][..n - 2] + t;
    } else {
      LiteralEndPrefix(s[1..], t);
      assert u[1..] == s[1..][..n - 1] + t;
    }
  }

  lemma LiteralStays(s: string, t: string)
    requires s != "" && HeadOf(s).Literal?
    ensures HeadOf(s[..HeadOf(s).len] + t) == HeadOf(s)
  {
    var n := HeadOf(s).len;
    LiteralEndPrefix(s[1..], t);
    assert (s[..n] + t)[1..] == s[1..][..n - 1] + t;
  }

  /** From every quote on, the text never closes the literal. */
  ghost predicate AllOpen(s: string) {
    forall q | 0 <= q < |s| && s[q] == '"' :: LiteralEnd(s[q + 1..]).None?
  }

  lemma {:induction false} UnclosedIsAllOpen(s: string)
    requires LiteralEnd(s).None?
    ensures AllOpen(s)
  {
    if s != "" {
      var step := if s[0] == '\\' && |s| >= 2 then 2 else 1;
      UnclosedIsAllOpen(s[step..]);
      forall q | 0 <= q < |s| && s[q] == '"' ensures LiteralEnd(s[q + 1..]).None? {
        if q >= step {
          assert s[step..][q - step] == s[q] && s[step..][q - step + 1..] == s[q + 1..];
        } else {
          assert s[q + 1..] == s[step..];
        }
      }
    }
  }

  ghost predicate NoComment(s: string) {
    forall i | 0 <= i < |s| :: !HeadOf(s[i..]).Comment?
  }

  lemma AllOpenSuffix(s: string, n: nat)
    requires AllOpen(s) && n <= |s|
    ensures AllOpen(s[n..])
  {
    forall q | 0 <= q < |s[n..]| && s[n..][q] == '"' ensures LiteralEnd(s[n..][q + 1..]).None? {
      assert s[n..][q + 1..] == s[n + q + 1..];
    }
  }

  /** Behind an unclosed quote there are no literals, so stripping leaves no comment at all. */
  lemma {:induction false} OpenTextLosesAllComments(s: string)
    requires AllOpen(s)
    ensures NoComment(Strip(s))
  {
    if s != "" {
      match HeadOf(s)
      case Comment(n) =>
        AllOpenSuffix(s, n);
        OpenTextLosesAllComments(s[n..]);
      case Literal(_) =>
        assert false;
      case Plain =>
        AllOpenSuffix(s, 1);
        OpenTextLosesAllComments(s[1..]);
        if s[0] == '/' {
          SlashStaysPlain(s);
        }
        var t := Strip(s);
        forall i | 0 <= i < |t| ensures !HeadOf(t[i..]).Comment? {
          if i > 0 {
            assert t[i..] == Strip(s[1..])[i - 1..];
          } else {
            assert t[0..] == t;
          }
        }
    }
  }

  lemma StripWithoutComments(s: string)
    requires NoComment(s)
    ensures Strip(s) == s
  {
    UnchangedIff(s);
  }

  /** Stripping twice is stripping once, for every text, unclosed literals and comments included. */
  lemma {:induction false} StripIdempotent(s: string)
    ensures Strip(Strip(s)) == Strip(s)
  {
    if s != "" {
      match HeadOf(s)
      case Comment(n) =>
        StripIdempotent(s[n..]);
      case Literal(n) =>
        StripIdempotent(s[n..]);
        LiteralStays(s, Strip(s[n..]));
        assert Strip(s)[..n] == s[..n] && Strip(s)[n..] == Strip(s[n..]);
      case Plain =>
        StripIdempotent(s[1..]);
        assert Strip(s)[1..] == Strip(s[1..]);
        if s[0] == '"' {
          UnclosedIsAllOpen(s[1..]);
          OpenTextLosesAllComments(s[1..]);
          QuoteBeforeNoComment(Strip(s[1..]));
          StripWithoutComments(Strip(s));
        } else if s[0] == '/' {
          SlashStaysPlain(s);
        }
    }
  }

  lemma QuoteBeforeNoComment(s: string)
    requires NoComment(s)
    ensures NoComment(['"'] + s)
  {
    var t := ['"'] + s;
    forall i | 0 <= i < |t| ensures !HeadOf(t[i..]).Comment? {
      if i > 0 {
        assert t[i..] == s[i - 1..];
      }
    }
  }
}
