/**
  What the validator accepts and what becomes of one argument, stated over the text itself: no search,
  no counters and no table of branches.
 */
module StartupMeaning {
  import opened Wrappers
  import opened PyText
  import opened TokenNames
  import opened StartupTemplate

  // ---------------------------------------------------------------- what the validator accepts

  /** Letters, digits and underscores behind the prefix; digits only. */
  ghost predicate NumberedPort(t: string) {
    exists digits: string :: digits != "" && AllDigits(digits) && t == "CUSTOM_PORT_" + digits
  }

  ghost predicate EnvironmentName(t: string) {
    exists key: string :: IsName(key) && t == "ENV." + key
  }

  predicate PortName(t: string) {
    || t == "GAME_PORT" || t == "QUERY_PORT" || t == "RCON_PORT" || t == "VOICE_PORT" || t == "WEB_PORT"
    || t == "PEER_PORT" || t == "DATABASE_PORT"
  }

  /** The names that are looked up before anything else. */
  predicate ServerName(t: string) {
    t == "INSTALL_DIR" || t == "MOD_ARG" || t == "BIND_IP" || t == "SERVER_NAME"
  }

  predicate StartupName(t: string) {
    PortName(t) || ServerName(t)
  }

  predicate EnvValueName(t: string) {
    || t == "GAME_PORT" || t == "QUERY_PORT" || t == "RCON_PORT" || t == "VOICE_PORT" || t == "WEB_PORT"
    || t == "PEER_PORT" || t == "BIND_IP"
  }

  lemma WhitelistIff(t: string)
    ensures t in STARTUP_TOKENS <==> StartupName(t)
    ensures t in ENV_VALUE_TOKENS <==> EnvValueName(t)
  {
  }

  lemma PortNameCharacters(t: string)
    requires PortName(t)
    ensures IsName(t) && |t| >= 4 && t[0] != 'E'
  {
  }

  lemma ServerNameCharacters(t: string)
    requires ServerName(t)
    ensures IsName(t) && |t| >= 4 && t[0] != 'E'
  {
  }

  lemma StartupNames(t: string)
    requires StartupName(t)
    ensures IsName(t) && |t| >= 4 && t[..4] != "ENV."
  {
    if PortName(t) {
      PortNameCharacters(t);
    } else {
      ServerNameCharacters(t);
    }
    assert t[..4][0] == t[0];
  }

  predicate AllDigits(digits: string) {
    forall k | 0 <= k < |digits| :: '0' <= digits[k] <= '9'
  }

  lemma CustomPortIsNumbered(t: string)
    requires IsCustomPort(t)
    ensures NumberedPort(t)
  {
    var digits := t[12..];
    assert t == "CUSTOM_PORT_" + digits;
    assert forall k | 0 <= k < |digits| :: digits[k] == t[12 + k];
  }

  lemma PrefixAndDigits(prefix: string, digits: string)
    requires IsName(prefix) && AllDigits(digits)
    ensures var t := prefix + digits;
            && IsName(t) && t[..|prefix|] == prefix && |t| == |prefix| + |digits|
            && forall k | |prefix| <= k < |t| :: IsDigit(t[k])
  {
  }

  lemma NumberedIsCustomPort(t: string)
    requires NumberedPort(t)
    ensures IsCustomPort(t) && IsName(t) && t[0] == 'C' && |t| >= 4
  {
    var digits: string :| digits != "" && AllDigits(digits) && t == "CUSTOM_PORT_" + digits;
    var prefix := "CUSTOM_PORT_";
    PrefixAndDigits(prefix, digits);
  }

  lemma CustomPortIff(t: string)
    ensures IsCustomPort(t) <==> NumberedPort(t)
    ensures NumberedPort(t) ==> IsName(t) && |t| >= 4 && t[..4] != "ENV."
  {
    if IsCustomPort(t) {
      CustomPortIsNumbered(t);
    }
    if NumberedPort(t) {
      NumberedIsCustomPort(t);
      assert t[..4][0] == 'C';
    }
  }

  lemma EnvironmentIff(t: string)
    ensures EnvironmentName(t) <==> StartsWith(t, "ENV.") && IsName(t[4..])
    ensures EnvironmentName(t) ==> IsTokenSyntax(t)
  {
    if StartsWith(t, "ENV.") && IsName(t[4..]) {
      assert t == "ENV." + t[4..];
    }
    if EnvironmentName(t) {
      var key :| IsName(key) && t == "ENV." + key;
      assert t[..4] == "ENV." && t[4..] == key;
      assert t[..3] == "ENV" && IsName("ENV") && t[3] == '.';
      assert forall k | 3 < k < |t| :: t[k] == key[k - 4];
    }
  }

  lemma AcceptedIsListed(t: string)
    requires StartupTokenAccepted(t)
    ensures StartupName(t) || NumberedPort(t) || EnvironmentName(t)
  {
    if StartsWith(t, ENV_PREFIX) {
      EnvironmentIff(t);
    } else {
      CustomPortIff(t);
      WhitelistIff(t);
    }
  }

  lemma NotEnvironment(t: string)
    requires |t| >= 4 && t[..4] != "ENV."
    ensures !StartsWith(t, ENV_PREFIX)
  {
  }

  lemma ListedIsAccepted(t: string)
    requires StartupName(t) || NumberedPort(t) || EnvironmentName(t)
    ensures StartupTokenAccepted(t)
  {
    if EnvironmentName(t) {
      EnvironmentIff(t);
    } else if NumberedPort(t) {
      CustomPortIff(t);
      NotEnvironment(t);
    } else {
      StartupNames(t);
      WhitelistIff(t);
      NotEnvironment(t);
    }
  }

  /** The names of the whitelist, custom ports with a number, and environment keys are accepted, and nothing else. */
  lemma AcceptedNamesIff(t: string)
    ensures StartupTokenAccepted(t) <==> StartupName(t) || NumberedPort(t) || EnvironmentName(t)
  {
    if StartupTokenAccepted(t) {
      AcceptedIsListed(t);
    }
    if StartupName(t) || NumberedPort(t) || EnvironmentName(t) {
      ListedIsAccepted(t);
    }
  }

  ghost predicate Adjacent(v: string, c: char, d: char) {
    exists i | 0 <= i < |v| - 1 :: v[i] == c && v[i + 1] == d
  }

  ghost predicate Twice(v: string, c: char) {
    Adjacent(v, c, c)
  }

  lemma ContainsOne(v: string, part: string)
    requires |part| == 1
    ensures Contains(v, part) <==> part[0] in v
  {
    if Contains(v, part) {
      var i :| 0 <= i <= |v| && StartsWith(v[i..], part);
      StartsHere(v, i, part);
    }
    if part[0] in v {
      var i :| 0 <= i < |v| && v[i] == part[0];
      assert v[i..][..1] == part;
    }
  }

  lemma ContainsTwo(v: string, part: string)
    requires |part| == 2
    ensures Contains(v, part) <==> Adjacent(v, part[0], part[1])
  {
    if Contains(v, part) {
      var i :| 0 <= i <= |v| && StartsWith(v[i..], part);
      assert v[i..][..2][0] == v[i] && v[i..][..2][1] == v[i + 1];
    }
    if i :| 0 <= i < |v| - 1 && v[i] == part[0] && v[i + 1] == part[1] {
      assert v[i..][..2] == part;
    }
  }

  lemma ForbiddenIff(v: string)
    ensures HasForbidden(v) <==> '$' in v || '`' in v || Twice(v, '&') || Twice(v, '|')
  {
    ContainsTwo(v, "$(");
    ContainsTwo(v, "${");
    ContainsTwo(v, "&&");
    ContainsTwo(v, "||");
    ContainsOne(v, "$");
    ContainsOne(v, "`");
    assert HasForbidden(v) <==>
      Contains(v, "$(") || Contains(v, "${") || Contains(v, "&&") || Contains(v, "||") || Contains(v, "$") ||
      Contains(v, "`") by {
      assert FORBIDDEN[0] == "$(" && FORBIDDEN[1] == "${" && FORBIDDEN[2] == "&&" && FORBIDDEN[3] == "||";
      assert FORBIDDEN[4] == "$" && FORBIDDEN[5] == "`" && |FORBIDDEN| == 6;
    }
  }

  /** The command of a startup profile: four pairs and three control characters are refused, and nothing else. */
  lemma ProfileCheckIff(v: string)
    ensures CheckProfileStartup(v) <==>
            && !Adjacent(v, '$', '(') && !Adjacent(v, '$', '{') && !Twice(v, '&') && !Twice(v, '|')
            && '\0' !in v && '\n' !in v && '\r' !in v
  {
    ContainsTwo(v, "$(");
    ContainsTwo(v, "${");
    ContainsTwo(v, "&&");
    ContainsTwo(v, "||");
    assert FORBIDDEN[0] == "$(" && FORBIDDEN[1] == "${" && FORBIDDEN[2] == "&&" && FORBIDDEN[3] == "||";
  }

  /** Braces around something without braces and white space: what the validator takes for a token. */
  predicate BracesAround(v: string, i: nat, j: nat) {
    i < j < |v| && v[i] == '{' && v[j] == '}' && IsLoose(v[i + 1..j])
  }

  lemma BracesAreMatch(v: string, i: nat, j: nat)
    requires i < |v|
    ensures BracesAround(v, i, j) <==> MatchEnd(IsLoose, v, i) == Some(j)
  {
    if BracesAround(v, i, j) {
      forall k | i < k < j ensures v[k] != '}' {
        assert v[i + 1..j][k - i - 1] == v[k];
      }
      assert FirstIndex(v, '}', i + 1) == j;
    }
  }

  lemma MatchesAreBraces(v: string, m: (nat, nat))
    ensures m in Matches(IsLoose, v, 0) <==> BracesAround(v, m.0, m.1)
  {
    if m.0 < |v| {
      BracesAreMatch(v, m.0, m.1);
      if MatchEnd(IsLoose, v, m.0) == Some(m.1) {
        MatchesComplete(v, 0, m.0);
      }
    }
  }

  /**
    A startup command is accepted exactly when it holds no dollar sign, no backtick, no two ampersands or bars
    in a row, and every name in braces is accepted.
   */
  lemma CheckStartupIff(v: string)
    ensures CheckStartup(v) <==>
            && '$' !in v && '`' !in v && !Twice(v, '&') && !Twice(v, '|')
            && forall i: nat, j: nat | BracesAround(v, i, j) ::
                 StartupName(v[i + 1..j]) || NumberedPort(v[i + 1..j]) || EnvironmentName(v[i + 1..j])
  {
    ForbiddenIff(v);
    forall m ensures m in Matches(IsLoose, v, 0) <==> BracesAround(v, m.0, m.1) {
      MatchesAreBraces(v, m);
    }
    forall t ensures StartupTokenAccepted(t) <==> StartupName(t) || NumberedPort(t) || EnvironmentName(t) {
      AcceptedNamesIff(t);
    }
    if TokensAccepted(v) {
      forall i: nat, j: nat | BracesAround(v, i, j) ensures StartupTokenAccepted(v[i + 1..j]) {
        assert (i, j) in Matches(IsLoose, v, 0);
      }
    }
  }

  lemma EnvValueNameIff(t: string)
    ensures IsTokenSyntax(t) && IsAllowedPortToken(t, ENV_VALUE_TOKENS) <==> EnvValueName(t) || NumberedPort(t)
  {
    CustomPortIff(t);
    WhitelistIff(t);
    if EnvValueName(t) {
      StartupNames(t);
    }
  }

  /** The same for one environment value, with a shorter whitelist and without environment keys. */
  lemma CheckEnvValueIff(v: string)
    ensures CheckEnvValue(v) <==>
            && '$' !in v && '`' !in v && !Twice(v, '&') && !Twice(v, '|')
            && forall i: nat, j: nat | BracesAround(v, i, j) ::
                 EnvValueName(v[i + 1..j]) || NumberedPort(v[i + 1..j])
  {
    ForbiddenIff(v);
    forall m ensures m in Matches(IsLoose, v, 0) <==> BracesAround(v, m.0, m.1) {
      MatchesAreBraces(v, m);
    }
    forall t
      ensures IsTokenSyntax(t) && IsAllowedPortToken(t, ENV_VALUE_TOKENS) <==> EnvValueName(t) || NumberedPort(t)
    {
      EnvValueNameIff(t);
    }
    if CheckEnvValue(v) {
      forall i: nat, j: nat | BracesAround(v, i, j)
        ensures EnvValueName(v[i + 1..j]) || NumberedPort(v[i + 1..j])
      {
        assert (i, j) in Matches(IsLoose, v, 0);
      }
    }
  }

  // ---------------------------------------------------------------- the value of a name

  /**
    Which value a name gets: the four of the server first, then the port table, even for a name that looks
    like an environment key, then the environment.
   */
  lemma ValueOfName(t: string, x: Values)
    ensures TokenValue("INSTALL_DIR", x) == Some(x.installDir) && TokenValue("MOD_ARG", x) == Some(x.modArg)
    ensures TokenValue("BIND_IP", x) == Some(x.bindIp) && TokenValue("SERVER_NAME", x) == Some(x.serverName)
    ensures t in x.portNames && !ServerName(t) ==> TokenValue(t, x) == Some(x.portNames[t])
  {
  }

  lemma EnvironmentValue(key: string, x: Values)
    requires "ENV." + key !in x.portNames
    ensures TokenValue("ENV." + key, x) == Some(if key in x.env then x.env[key] else "")
  {
    var t := "ENV." + key;
    assert t[3] == '.' && t[..4] == "ENV." && t[4..] == key;
    assert "INSTALL_DIR"[3] != '.' && "MOD_ARG"[3] != '.' && "BIND_IP"[3] != '.' && "SERVER_NAME"[3] != '.';
  }

  /** A port the server does not have is empty. */
  lemma MissingPort(t: string, x: Values)
    requires (StartupName(t) || NumberedPort(t)) && !ServerName(t) && t !in x.portNames
    ensures TokenValue(t, x) == Some("")
  {
    WhitelistIff(t);
    if NumberedPort(t) {
      CustomPortIff(t);
    } else {
      StartupNames(t);
    }
    NotEnvironment(t);
  }

  /** In environment values: the address, then the port table, and nothing for a port the server does not have. */
  lemma ValueInEnvironment(t: string, bindIp: string, portNames: map<string, string>)
    ensures EnvTokenValue(t, bindIp, portNames) ==
              if t == "BIND_IP" then Some(bindIp)
              else if !EnvValueName(t) && !IsCustomPort(t) then None
              else if t in portNames then Some(portNames[t]) else Some("")
  {
    WhitelistIff(t);
  }

  // ---------------------------------------------------------------- the text of an argument

  lemma FirstIndexBehind(s: string, c: char, i: nat, k: nat)
    requires i + k <= |s|
    ensures FirstIndex(s, c, i + k) == i + FirstIndex(s[i..], c, k)
  {
    var r, t := FirstIndex(s, c, i + k), s[i..];
    var q := FirstIndex(t, c, k);
    assert forall n | 0 <= n < |t| :: t[n] == s[i + n];
    assert forall n | i + k <= n < i + q :: s[n] == t[n - i];
  }

  /** The head of the pieces is the same wherever the text begins. */
  lemma HeadBehind(g: Grammar, s: string, t: string, i: nat, k: nat) returns (p: Piece, n: nat)
    requires i + k < |s| && t == s[i..]
    ensures k < n <= |t| && Begins(g, s, i + k, p, i + n) && Begins(g, t, k, p, n)
  {
    FirstIndexBehind(s, '}', i, k + 1);
    var j := FirstIndex(t, '}', k + 1);
    assert t[k] == s[i + k] && t[k + 1..j] == s[i + k + 1..i + j];
    p, n := HeadPiece(g, t, k), Behind(g, t, k);
  }

  ghost predicate Begins(g: Grammar, s: string, i: nat, p: Piece, n: nat) {
    i < |s| && HeadPiece(g, s, i) == p && Behind(g, s, i) == n
  }

  /** What stands at the head, and the pieces behind it. */
  ghost predicate Splits(g: Grammar, s: string, i: nat, p: Piece, n: nat) {
    i < n <= |s| && Pieces(g, s, i) == [p] + Pieces(g, s, n)
  }

  lemma BeginsSplits(g: Grammar, s: string, i: nat, p: Piece, n: nat)
    requires Begins(g, s, i, p, n)
    ensures Splits(g, s, i, p, n)
  {
  }

  lemma SplitsBehind(g: Grammar, s: string, t: string, i: nat, k: nat) returns (p: Piece, n: nat)
    requires i + k < |s| && t == s[i..]
    ensures Splits(g, s, i + k, p, i + n) && Splits(g, t, k, p, n)
  {
    p, n := HeadBehind(g, s, t, i, k);
    BeginsSplits(g, s, i + k, p, i + n);
    BeginsSplits(g, t, k, p, n);
  }

  /** The pieces of the rest do not depend on what stands in front of it. */
  lemma {:induction false} PiecesBehind(g: Grammar, s: string, t: string, i: nat, k: nat)
    requires i + k <= |s| && t == s[i..]
    ensures Pieces(g, s, i + k) == Pieces(g, t, k)
    decreases |s| - i - k
  {
    if i + k < |s| {
      var p, n := SplitsBehind(g, s, t, i, k);
      PiecesBehind(g, s, t, i, n);
    }
  }

  function Joined(first: string, rest: Option<string>): Option<string> {
    match rest
    case Some(text) => Some(first + text)
    case None => None
  }

  lemma JoinedTwice(a: string, b: string, rest: Option<string>)
    ensures Joined(a, Joined(b, rest)) == Joined(a + b, rest) && Joined("", rest) == rest
  {
    if rest.Some? {
      assert a + (b + rest.value) == a + b + rest.value && "" + rest.value == rest.value;
    }
  }

  lemma PieceThenRest(g: Grammar, s: string, value: Lookup)
    requires s != ""
    ensures Pieces(g, s, 0) == [HeadPiece(g, s, 0)] + Pieces(g, s[Behind(g, s, 0)..], 0)
    ensures var first, rest := PieceValue(HeadPiece(g, s, 0), value), Pieces(g, s[Behind(g, s, 0)..], 0);
            Substituted(Pieces(g, s, 0), value) ==
            if first.Some? then Joined(first.value, Substituted(rest, value)) else None
  {
    var n := Behind(g, s, 0);
    PiecesBehind(g, s, s[n..], n, 0);
    var rest := Pieces(g, s[n..], 0);
    assert ([HeadPiece(g, s, 0)] + rest)[1..] == rest;
  }

  lemma CharacterStays(g: Grammar, c: char, b: string, value: Lookup)
    requires c != '{'
    ensures Substituted(Pieces(g, [c] + b, 0), value) == Joined([c], Substituted(Pieces(g, b, 0), value))
  {
    var s := [c] + b;
    assert HeadPiece(g, s, 0) == Literal([c]) && s[Behind(g, s, 0)..] == b;
    PieceThenRest(g, s, value);
  }

  /** Text without an opening brace stays as it is. */
  lemma {:induction false} TextStays(g: Grammar, a: string, b: string, value: Lookup)
    requires '{' !in a
    ensures Substituted(Pieces(g, a + b, 0), value) == Joined(a, Substituted(Pieces(g, b, 0), value))
    decreases |a|
  {
    var rest := Substituted(Pieces(g, b, 0), value);
    if a == "" {
      assert a + b == b;
      JoinedTwice("", "", rest);
    } else {
      assert a + b == [a[0]] + (a[1..] + b) && [a[0]] + a[1..] == a;
      CharacterStays(g, a[0], a[1..] + b, value);
      TextStays(g, a[1..], b, value);
      JoinedTwice([a[0]], a[1..], rest);
    }
  }

  lemma TokenAtHead(g: Grammar, t: string, b: string)
    requires g(t) && '}' !in t
    ensures HeadPiece(g, Braced(t) + b, 0) == Token(t) && Behind(g, Braced(t) + b, 0) == |t| + 2
    ensures (Braced(t) + b)[|t| + 2..] == b
  {
    var s := Braced(t) + b;
    assert s[1..|t| + 1] == t && s[|t| + 1] == '}';
    assert forall k | 1 <= k < |t| + 1 :: s[k] == t[k - 1];
    assert FirstIndex(s, '}', 1) == |t| + 1;
  }

  /**
    What rendering does to the text: in front of the first name in braces it stays, the name is replaced by
    its value, and the rest is rendered by itself. A name without a value makes the whole argument fail.
   */
  lemma NameReplaced(g: Grammar, a: string, t: string, b: string, value: Lookup)
    requires '{' !in a && g(t) && '}' !in t
    ensures Substituted(Pieces(g, a + (Braced(t) + b), 0), value) ==
              if value(t).None? then None
              else Joined(a, Joined(value(t).value, Substituted(Pieces(g, b, 0), value)))
  {
    TextStays(g, a, Braced(t) + b, value);
    TokenAtHead(g, t, b);
    PieceThenRest(g, Braced(t) + b, value);
  }

  /** A name in the renderer's grammar stands in braces at `i`. */
  predicate NameAt(text: string, i: nat, t: string) {
    MatchNamed(IsTokenSyntax, text, i, t)
  }

  lemma NamesArePieces(text: string, t: string)
    ensures Token(t) in Pieces(IsTokenSyntax, text, 0) <==> exists i :: NameAt(text, i, t)
  {
    if Token(t) in Pieces(IsTokenSyntax, text, 0) {
      var i := PieceIsMatch(IsTokenSyntax, text, 0, t);
      assert NameAt(text, i, t);
    }
    if i :| NameAt(text, i, t) {
      TokensDisjoint(text);
      MatchIsPiece(IsTokenSyntax, text, 0, i, t);
    }
  }

  lemma TokensAmong(ps: seq<Piece>, value: Lookup)
    ensures AllTokensEmpty(ps, value) <==>
            (exists t :: Token(t) in ps) && forall t | Token(t) in ps :: value(t) == Some("")
  {
    AllTokensEmptyMeaning(ps, value);
    if k :| 0 <= k < |ps| && ps[k].Token? {
      assert Token(ps[k].name) in ps;
    }
    if t :| Token(t) in ps {
      var k :| 0 <= k < |ps| && ps[k] == Token(t);
    }
    if forall t | Token(t) in ps :: value(t) == Some("") {
      forall k | 0 <= k < |ps| && ps[k].Token? ensures value(ps[k].name) == Some("") {
        assert Token(ps[k].name) in ps;
      }
    }
  }

  lemma {:induction false} EmptyAsTokens(ps: seq<Piece>, value: Lookup)
    requires forall k | 0 <= k < |ps| && ps[k].Token? :: value(ps[k].name) == Some("")
    ensures Substituted(ps, value).Some?
  {
    SubstitutedNone(ps, value);
  }

  lemma InHeadOrRest(ps: seq<Piece>, t: string)
    requires ps != []
    ensures Token(t) in ps <==> ps[0] == Token(t) || Token(t) in ps[1..]
  {
  }

  lemma {:induction false} NothingLeft(ps: seq<Piece>, value: Lookup, t: string)
    requires Substituted(ps, value) == Some("") && Token(t) in ps
    ensures value(t) == Some("")
  {
    InHeadOrRest(ps, t);
    if ps[0] != Token(t) {
      NothingLeft(ps[1..], value, t);
    }
  }

  ghost predicate HasToken(ps: seq<Piece>) {
    exists t :: Token(t) in ps
  }

  lemma {:induction false} WithoutTokens(ps: seq<Piece>, value: Lookup)
    ensures !HasToken(ps) ==> Substituted(ps, value) == Some(Unparse(ps))
    ensures HasToken(ps) ==> Unparse(ps) != ""
  {
    if ps != [] {
      WithoutTokens(ps[1..], value);
      forall t ensures Token(t) in ps <==> ps[0] == Token(t) || Token(t) in ps[1..] {
        InHeadOrRest(ps, t);
      }
      if ps[0].Token? {
        assert ps[0] == Token(ps[0].name);
      }
    }
  }

  lemma LeftOutPieces(ps: seq<Piece>, value: Lookup)
    ensures RenderPieces(ps, value).Dropped? <==>
            Unparse(ps) == "" || (HasToken(ps) && forall t | Token(t) in ps :: value(t) == Some(""))
  {
    TokensAmong(ps, value);
    WithoutTokens(ps, value);
    if Substituted(ps, value) == Some("") {
      forall t | Token(t) in ps ensures value(t) == Some("") {
        NothingLeft(ps, value, t);
      }
    }
    if AllTokensEmpty(ps, value) {
      AllTokensEmptyMeaning(ps, value);
      EmptyAsTokens(ps, value);
    }
  }

  ghost predicate HasName(text: string) {
    exists t, i :: NameAt(text, i, t)
  }

  ghost predicate AllNamesEmpty(text: string, value: Lookup) {
    forall t, i | NameAt(text, i, t) :: value(t) == Some("")
  }

  lemma NamesAndTokens(text: string, value: Lookup)
    ensures var ps := Pieces(IsTokenSyntax, text, 0);
            && (HasToken(ps) <==> HasName(text))
            && ((forall t | Token(t) in ps :: value(t) == Some("")) <==> AllNamesEmpty(text, value))
  {
    var ps := Pieces(IsTokenSyntax, text, 0);
    forall t ensures Token(t) in ps <==> exists i :: NameAt(text, i, t) {
      NamesArePieces(text, t);
    }
    if HasToken(ps) {
      var t :| Token(t) in ps;
      var i :| NameAt(text, i, t);
    }
    if HasName(text) {
      var t, i :| NameAt(text, i, t);
      assert Token(t) in ps;
    }
    if forall t | Token(t) in ps :: value(t) == Some("") {
      forall t, i | NameAt(text, i, t) ensures value(t) == Some("") {
        assert Token(t) in ps;
      }
    }
    if AllNamesEmpty(text, value) {
      forall t | Token(t) in ps ensures value(t) == Some("") {
        var i :| NameAt(text, i, t);
      }
    }
  }

  /** An argument is left out exactly when it is empty, or holds names and all of them have empty values. */
  lemma LeftOutIff(text: string, value: Lookup)
    ensures RenderText(text, value).Dropped? <==> text == "" || (HasName(text) && AllNamesEmpty(text, value))
  {
    LeftOutPieces(Pieces(IsTokenSyntax, text, 0), value);
    UnparsePieces(IsTokenSyntax, text, 0);
    assert text[0..] == text;
    NamesAndTokens(text, value);
  }

  /** What is not left out and does not fail is kept with all names replaced. */
  lemma KeptText(text: string, value: Lookup)
    ensures Substituted(Pieces(IsTokenSyntax, text, 0), value).Some? && !RenderText(text, value).Dropped? ==>
              RenderText(text, value) == Kept(Substituted(Pieces(IsTokenSyntax, text, 0), value).value)
    ensures Substituted(Pieces(IsTokenSyntax, text, 0), value).None? <==> RenderText(text, value).UnknownToken?
  {
  }

  /** Without an opening brace an argument is kept as it is, unless it is empty. */
  lemma PlainArgument(text: string, value: Lookup)
    requires '{' !in text
    ensures RenderText(text, value) == if text == "" then Dropped else Kept(text)
  {
    LeftOutIff(text, value);
    TextStays(IsTokenSyntax, text, "", value);
    assert text + "" == text;
    assert Pieces(IsTokenSyntax, "", 0) == [];
  }

  /** One name alone: its value, or nothing at all when that is empty. */
  lemma NameAlone(t: string, value: Lookup)
    requires IsTokenSyntax(t)
    ensures RenderText(Braced(t), value) ==
              if value(t).None? then UnknownToken else if value(t).value == "" then Dropped else Kept(value(t).value)
  {
    TokenCharacters(t);
    TokenAtHead(IsTokenSyntax, t, "");
    assert Braced(t) + "" == Braced(t);
    PieceThenRest(IsTokenSyntax, Braced(t), value);
    JoinedTwice("", "", Some(""));
    assert Pieces(IsTokenSyntax, "", 0) == [];
    var ps: seq<Piece> := [Token(t)];
    assert Pieces(IsTokenSyntax, Braced(t), 0) == ps;
    TokensAmong(ps, value);
    if value(t).Some? {
      assert value(t).value + "" == value(t).value;
    }
  }
}
