/**
  Startup templates: the validator of `runtime.startup` scans the raw string, the renderer scans the
  arguments that POSIX word splitting makes of it, and the two look for tokens with different grammars.
 */
module StartupTemplate {
  import opened Wrappers
  import opened PyText
  import opened TokenNames

  // ---------------------------------------------------------------- token grammars

  /** `[A-Z][A-Z0-9_]*(\.[A-Z0-9_]+)?` */
  predicate IsTokenSyntax(t: string) {
    || IsName(t)
    || (exists d | 0 < d < |t| - 1 :: t[d] == '.' && IsName(t[..d]) && forall k | d < k < |t| :: IsTokenChar(t[k]))
  }

  /** `[^{}\s]+`, what the validator takes for a token. */
  predicate IsLoose(t: string) {
    t != "" && forall k | 0 <= k < |t| :: t[k] != '{' && t[k] != '}' && !IsSpace(t[k])
  }

  /** What a token search accepts between the braces: `IsLoose`, `IsTokenSyntax` or `IsName`. */
  type Grammar = string -> bool

  lemma NameIsLoose(t: string)
    requires IsName(t)
    ensures IsLoose(t) && !exists k | 0 <= k < |t| :: t[k] == '"' || t[k] == '\'' || t[k] == '\\'
  {
  }

  lemma TokenIsLoose(t: string)
    requires IsTokenSyntax(t)
    ensures IsLoose(t) && !exists k | 0 <= k < |t| :: t[k] == '"' || t[k] == '\'' || t[k] == '\\'
  {
    if !IsName(t) {
      var d :| 0 < d < |t| - 1 && t[d] == '.' && IsName(t[..d]) && forall k | d < k < |t| :: IsTokenChar(t[k]);
      forall k | 0 <= k < |t| ensures t[k] == '.' || IsTokenChar(t[k]) {
        if k < d { assert t[k] == t[..d][k]; }
      }
    }
  }

  /** The position of the closing brace when a token of the grammar starts at `i`; contents never hold a brace. */
  function MatchEnd(g: Grammar, s: string, i: nat): (r: Option<nat>)
    requires i < |s|
    ensures r.Some? ==> i < r.value < |s| && s[i] == '{' && s[r.value] == '}' && g(s[i + 1..r.value])
  {
    if s[i] != '{' then None
    else
      var j := FirstIndex(s, '}', i + 1);
      if j < |s| && g(s[i + 1..j]) then Some(j) else None
  }

  /** All matches from `i` on: leftmost first, the search going on behind each match. */
  function Matches(g: Grammar, s: string, i: nat): (r: seq<(nat, nat)>)
    requires i <= |s|
    ensures forall m | m in r :: i <= m.0 < m.1 < |s| && MatchEnd(g, s, m.0) == Some(m.1)
    decreases |s| - i
  {
    if i == |s| then []
    else
      match MatchEnd(g, s, i)
      case Some(j) => [(i, j)] + Matches(g, s, j + 1)
      case None => Matches(g, s, i + 1)
  }

  lemma NoBraceInside(s: string, i: nat, k: nat)
    requires i < |s| && MatchEnd(IsLoose, s, i).Some? && i < k <= MatchEnd(IsLoose, s, i).value
    ensures s[k] != '{'
  {
    var j := MatchEnd(IsLoose, s, i).value;
    if k < j {
      assert s[i + 1..j][k - i - 1] == s[k];
    }
  }

  /** The leftmost search of the validator skips no token: none can start inside another one. */
  lemma {:induction false} MatchesComplete(s: string, i: nat, k: nat)
    requires i <= k < |s| && MatchEnd(IsLoose, s, k).Some?
    ensures (k, MatchEnd(IsLoose, s, k).value) in Matches(IsLoose, s, i)
    decreases |s| - i
  {
    match MatchEnd(IsLoose, s, i)
    case Some(j) =>
      if i < k <= j {
        NoBraceInside(s, i, k);
        assert false;
      } else if j < k {
        MatchesComplete(s, j + 1, k);
      }
    case None =>
      MatchesComplete(s, i + 1, k);
  }

  // ---------------------------------------------------------------- the validator

  const STARTUP_TOKENS: set<string> := {
    "GAME_PORT", "QUERY_PORT", "RCON_PORT", "VOICE_PORT", "WEB_PORT", "PEER_PORT", "DATABASE_PORT",
    "INSTALL_DIR", "MOD_ARG", "BIND_IP", "SERVER_NAME"
  }

  const ENV_VALUE_TOKENS: set<string> := {
    "GAME_PORT", "QUERY_PORT", "RCON_PORT", "VOICE_PORT", "WEB_PORT", "PEER_PORT", "BIND_IP"
  }

  const CUSTOM_PREFIX := "CUSTOM_PORT_"
  const ENV_PREFIX := "ENV."

  /** `CUSTOM_PORT_` and digits. */
  predicate IsCustomPort(t: string) {
    StartsWith(t, CUSTOM_PREFIX) && |t| > |CUSTOM_PREFIX| && forall k | |CUSTOM_PREFIX| <= k < |t| :: IsDigit(t[k])
  }

  /** `_is_allowed_port_token`; tokens have passed a token grammar before, so a digit is an ASCII digit. */
  predicate IsAllowedPortToken(t: string, base: set<string>) {
    t in base || IsCustomPort(t)
  }

  const FORBIDDEN: seq<string> := ["$(", "${", "&&", "||", "$", "`"]

  predicate HasForbidden(v: string) {
    exists k | 0 <= k < |FORBIDDEN| :: Contains(v, FORBIDDEN[k])
  }

  predicate StartupTokenAccepted(t: string) {
    && IsTokenSyntax(t)
    && (if StartsWith(t, ENV_PREFIX) then IsName(t[|ENV_PREFIX|..]) else IsAllowedPortToken(t, STARTUP_TOKENS))
  }

  predicate TokensAccepted(v: string) {
    forall m | m in Matches(IsLoose, v, 0) :: StartupTokenAccepted(v[m.0 + 1..m.1])
  }

  /** `_check_startup` raises no error. */
  predicate CheckStartup(v: string) {
    !HasForbidden(v) && TokensAccepted(v)
  }

  /** The part of `_check_env` about one value raises no error. */
  predicate CheckEnvValue(v: string) {
    && !HasForbidden(v)
    && forall m | m in Matches(IsLoose, v, 0) ::
         IsTokenSyntax(v[m.0 + 1..m.1]) && IsAllowedPortToken(v[m.0 + 1..m.1], ENV_VALUE_TOKENS)
  }

  /** `_check_profile_startup` raises no error: no token is looked at. */
  predicate CheckProfileStartup(v: string) {
    && (forall k | 0 <= k < 4 :: !Contains(v, FORBIDDEN[k]))
    && '\0' !in v && '\n' !in v && '\r' !in v
  }

  // ---------------------------------------------------------------- POSIX word splitting

  predicate IsBlank(c: char) {
    c == ' ' || c == '\t' || c == '\r' || c == '\n'
  }

  predicate IsQuote(c: char) {
    c == '\'' || c == '"'
  }

  predicate IsQuoting(c: char) {
    IsQuote(c) || c == '\\'
  }

  /** Between words, in a word, inside quotes, or behind an escaping backslash (inside double quotes or not). */
  datatype State = Between | InWord | InQuotes(q: char) | Escaped(inside: Option<char>)

  datatype SplitError = NoClosingQuotation | NoEscapedCharacter

  /** A word is the list of the positions of the characters it keeps. */
  type Word = seq<nat>

  /** The splitter between two characters: what the current word has kept, and whether it has seen a quote. */
  datatype Splitter = Splitter(state: State, word: Word, quoted: bool)

  /** One character: the splitter afterwards and the word it may have finished. */
  function Step(s: string, i: nat, x: Splitter): (Splitter, seq<Word>)
    requires i < |s|
  {
    var c := s[i];
    match x.state
    case Between =>
      if IsBlank(c) then (x, [])
      else if c == '\\' then (x.(state := Escaped(None)), [])
      else if IsQuote(c) then (x.(state := InQuotes(c), quoted := true), [])
      else (x.(state := InWord, word := [i]), [])
    case InWord =>
      if IsBlank(c) then (Splitter(Between, [], false), if x.word != [] || x.quoted then [x.word] else [])
      else if IsQuote(c) then (x.(state := InQuotes(c), quoted := true), [])
      else if c == '\\' then (x.(state := Escaped(None)), [])
      else (x.(word := x.word + [i]), [])
    case InQuotes(q) =>
      if c == q then (x.(state := InWord), [])
      else if c == '\\' && q == '"' then (x.(state := Escaped(Some(q))), [])
      else (x.(word := x.word + [i]), [])
    case Escaped(inside) =>
      // Inside double quotes a backslash only escapes the quote and itself; otherwise it is kept.
      if inside.None? then (x.(state := InWord, word := x.word + [i]), [])
      else if c == '\\' || c == inside.value || i == 0 then
        (x.(state := InQuotes(inside.value), word := x.word + [i]), [])
      else (x.(state := InQuotes(inside.value), word := x.word + [i - 1, i]), [])
  }

  /** `shlex.split` from position `i` on. A quoted empty word is a word. */
  function SplitFrom(s: string, i: nat, x: Splitter): Result<seq<Word>, SplitError>
    requires i <= |s|
    decreases |s| - i
  {
    if i == |s| then
      match x.state
      case Between => Ok([])
      case InWord => Ok(if x.word != [] || x.quoted then [x.word] else [])
      case InQuotes(_) => Err(NoClosingQuotation)
      case Escaped(_) => Err(NoEscapedCharacter)
    else
      var (next, done) := Step(s, i, x);
      match SplitFrom(s, i + 1, next)
      case Ok(words) => Ok(done + words)
      case Err(e) => Err(e)
  }

  function Split(s: string): Result<seq<Word>, SplitError> {
    SplitFrom(s, 0, Splitter(Between, [], false))
  }

  function WordText(s: string, w: Word): (t: string)
    requires forall k | 0 <= k < |w| :: w[k] < |s|
    ensures |t| == |w|
    ensures forall k | 0 <= k < |w| :: t[k] == s[w[k]]
  {
    seq(|w|, k requires 0 <= k < |w| => s[w[k]])
  }

  /** Only quoting characters lie strictly between `a` and `b`. */
  predicate Gap(s: string, a: nat, b: nat) {
    forall k | a < k < b && k < |s| :: IsQuoting(s[k])
  }

  /** Characters are kept in order, and what is left out inside a word are quoting characters. */
  predicate WordOk(s: string, w: Word) {
    && (forall k | 0 <= k < |w| :: w[k] < |s|)
    && (forall k | 0 <= k < |w| - 1 :: w[k] < w[k + 1] && Gap(s, w[k], w[k + 1]))
  }

  /** Before character `i` the word is in order, and only quoting has been dropped since its last character. */
  predicate WordUpTo(s: string, i: nat, w: Word) {
    WordOk(s, w) && (w != [] ==> w[|w| - 1] < i && Gap(s, w[|w| - 1], i))
  }

  predicate SplitterOk(s: string, i: nat, x: Splitter) {
    && WordUpTo(s, i, x.word)
    && match x.state
       case Between => x.word == []
       case InWord => true
       case InQuotes(q) => IsQuote(q)
       case Escaped(inside) =>
         && 0 < i <= |s| && s[i - 1] == '\\' && WordUpTo(s, i - 1, x.word)
         && (inside.Some? ==> IsQuote(inside.value))
  }

  lemma KeepCharacter(s: string, i: nat, w: Word)
    requires i < |s| && WordUpTo(s, i, w)
    ensures WordUpTo(s, i + 1, w + [i])
  {
    var x := w + [i];
    forall k | 0 <= k < |x| - 1 ensures x[k] < x[k + 1] && Gap(s, x[k], x[k + 1]) {
      if k < |w| - 1 {
        assert x[k] == w[k] && x[k + 1] == w[k + 1];
      }
    }
  }

  lemma DropCharacter(s: string, i: nat, w: Word)
    requires i < |s| && WordUpTo(s, i, w) && IsQuoting(s[i])
    ensures WordUpTo(s, i + 1, w)
  {
  }

  lemma StepKeepsOrder(s: string, i: nat, x: Splitter)
    requires i < |s| && SplitterOk(s, i, x)
    ensures SplitterOk(s, i + 1, Step(s, i, x).0)
    ensures forall w | w in Step(s, i, x).1 :: WordOk(s, w)
  {
    var c := s[i];
    match x.state
    case Between =>
      if IsQuoting(c) { DropCharacter(s, i, x.word); } else if !IsBlank(c) { KeepCharacter(s, i, []); }
    case InWord =>
      if IsQuoting(c) { DropCharacter(s, i, x.word); } else if !IsBlank(c) { KeepCharacter(s, i, x.word); }
    case InQuotes(q) =>
      if c == q || (c == '\\' && q == '"') { DropCharacter(s, i, x.word); } else { KeepCharacter(s, i, x.word); }
    case Escaped(_) => EscapedKeepsOrder(s, i, x);
  }

  lemma KeepTwo(s: string, i: nat, w: Word)
    requires 0 < i < |s| && WordUpTo(s, i - 1, w)
    ensures WordUpTo(s, i + 1, w + [i - 1, i])
  {
    KeepCharacter(s, i - 1, w);
    KeepCharacter(s, i, w + [i - 1]);
    assert w + [i - 1] + [i] == w + [i - 1, i];
  }

  lemma EscapedKeepsOrder(s: string, i: nat, x: Splitter)
    requires i < |s| && x.state.Escaped? && SplitterOk(s, i, x)
    ensures SplitterOk(s, i + 1, Step(s, i, x).0)
    ensures Step(s, i, x).1 == []
  {
    var inside := x.state.inside;
    if inside.None? || s[i] == '\\' || s[i] == inside.value {
      KeepCharacter(s, i, x.word);
    } else {
      KeepTwo(s, i, x.word);
    }
  }

  lemma {:induction false} SplitKeepsOrder(s: string, i: nat, x: Splitter)
    requires i <= |s| && SplitterOk(s, i, x)
    ensures SplitFrom(s, i, x).Ok? ==> forall w | w in SplitFrom(s, i, x).value :: WordOk(s, w)
    decreases |s| - i
  {
    if i < |s| {
      StepKeepsOrder(s, i, x);
      SplitKeepsOrder(s, i + 1, Step(s, i, x).0);
    }
  }

  // ---------------------------------------------------------------- tokens survive the splitting unchanged

  lemma {:induction false} WordIncreases(s: string, w: Word, i: nat, j: nat)
    requires WordOk(s, w) && i <= j < |w|
    ensures w[i] + (j - i) <= w[j]
    decreases j - i
  {
    if i < j {
      WordIncreases(s, w, i, j - 1);
    }
  }

  /** Every position between two kept ones is kept itself or holds a quoting character. */
  lemma {:induction false} KeptOrQuoting(s: string, w: Word, i: nat, j: nat, k: nat)
    requires WordOk(s, w) && i < j < |w| && w[i] < k < w[j]
    ensures IsQuoting(s[k]) || exists m | i < m < j :: w[m] == k
    decreases j - i
  {
    if w[j - 1] < k {
      assert Gap(s, w[j - 1], w[j]);
    } else if w[j - 1] > k {
      KeptOrQuoting(s, w, i, j - 1, k);
    }
  }

  /** Without quoting characters in between, a stretch of a word is a stretch of the raw string. */
  lemma {:induction false} Contiguous(s: string, w: Word, i: nat, j: nat)
    requires WordOk(s, w) && i <= j < |w|
    requires forall k | w[i] < k < w[j] :: !IsQuoting(s[k])
    ensures w[j] == w[i] + (j - i)
    decreases j - i
  {
    if i < j {
      WordIncreases(s, w, i, j - 1);
      Contiguous(s, w, i, j - 1);
      assert Gap(s, w[j - 1], w[j]);
      var next := s[w[j - 1] + 1];
      assert w[j] == w[j - 1] + 1;
    }
  }

  /** Where the renderer finds a token in a word, the validator has found one in the raw string. */
  lemma RenderedTokenWasSeen(s: string, w: Word, i: nat)
    requires WordOk(s, w) && i < |w| && MatchEnd(IsTokenSyntax, WordText(s, w), i).Some?
    ensures MatchEnd(IsLoose, s, w[i]) == Some(w[MatchEnd(IsTokenSyntax, WordText(s, w), i).value])
  {
    var t := WordText(s, w);
    var j := MatchEnd(IsTokenSyntax, t, i).value;
    var content := t[i + 1..j];
    TokenIsLoose(content);
    WordIncreases(s, w, i, j);
    forall k | w[i] < k < w[j] ensures s[k] != '{' && s[k] != '}' && !IsSpace(s[k]) {
      KeptOrQuoting(s, w, i, j, k);
      if !IsQuoting(s[k]) {
        var m :| i < m < j && w[m] == k;
        assert content[m - i - 1] == s[k];
      }
    }
    assert t[i] == s[w[i]] && t[j] == s[w[j]];
    assert FirstIndex(s, '}', w[i] + 1) == w[j];
  }

  lemma StretchOfRaw(s: string, w: Word, i: nat, j: nat)
    requires WordOk(s, w) && i < j < |w|
    requires forall k | w[i] < k < w[j] :: !IsQuoting(s[k])
    ensures w[i] < w[j] && WordText(s, w)[i + 1..j] == s[w[i] + 1..w[j]]
  {
    forall m | i <= m <= j ensures w[m] == w[i] + (m - i) {
      WordIncreases(s, w, m, j);
      Contiguous(s, w, i, m);
    }
  }

  lemma LooseIsUnquoted(s: string, a: nat, b: nat)
    requires a < b <= |s| && IsTokenSyntax(s[a + 1..b])
    ensures forall k | a < k < b :: !IsQuoting(s[k])
  {
    var raw := s[a + 1..b];
    TokenIsLoose(raw);
    forall k | a < k < b ensures !IsQuoting(s[k]) {
      assert s[k] == raw[k - a - 1];
    }
  }

  lemma AcceptedToken(s: string, a: nat, b: nat)
    requires TokensAccepted(s) && a < |s| && MatchEnd(IsLoose, s, a) == Some(b)
    ensures StartupTokenAccepted(s[a + 1..b])
    ensures forall k | a < k < b :: !IsQuoting(s[k])
  {
    MatchesComplete(s, 0, a);
    LooseIsUnquoted(s, a, b);
  }

  lemma SeenTokenWasAccepted(s: string, w: Word, i: nat, j: nat)
    requires TokensAccepted(s) && WordOk(s, w) && i < j < |w| && MatchEnd(IsLoose, s, w[i]) == Some(w[j])
    ensures StartupTokenAccepted(WordText(s, w)[i + 1..j])
  {
    AcceptedToken(s, w[i], w[j]);
    StretchOfRaw(s, w, i, j);
  }

  /** When the validator has accepted all tokens, the renderer's token is the validator's, letter by letter. */
  lemma RenderedTokenWasAccepted(s: string, w: Word, i: nat)
    requires TokensAccepted(s) && WordOk(s, w) && i < |w| && MatchEnd(IsTokenSyntax, WordText(s, w), i).Some?
    ensures StartupTokenAccepted(WordText(s, w)[i + 1..MatchEnd(IsTokenSyntax, WordText(s, w), i).value])
  {
    var j := MatchEnd(IsTokenSyntax, WordText(s, w), i).value;
    RenderedTokenWasSeen(s, w, i);
    SeenTokenWasAccepted(s, w, i, j);
  }

  // ---------------------------------------------------------------- the renderer

  /** The values of one rendering: `portNames` maps token names to port numbers in decimal, or to "". */
  datatype Values = Values(
    installDir: string, modArg: string, bindIp: string, serverName: string,
    portNames: map<string, string>, env: map<string, string>)

  /** The branches of `_sub` in `render_argv`; `None` is the unknown-token error. */
  function TokenValue(t: string, x: Values): Option<string> {
    if t == "INSTALL_DIR" then Some(x.installDir)
    else if t == "MOD_ARG" then Some(x.modArg)
    else if t == "BIND_IP" then Some(x.bindIp)
    else if t == "SERVER_NAME" then Some(x.serverName)
    else if t in x.portNames then Some(x.portNames[t])
    else if StartsWith(t, ENV_PREFIX) then
      var key := t[|ENV_PREFIX|..];
      Some(if key in x.env then x.env[key] else "")
    else if IsAllowedPortToken(t, STARTUP_TOKENS) then Some("")
    else None
  }

  /** The branches of `_sub` in `render_env_values`. */
  function EnvTokenValue(t: string, bindIp: string, portNames: map<string, string>): Option<string> {
    if t == "BIND_IP" then Some(bindIp)
    else if !IsAllowedPortToken(t, ENV_VALUE_TOKENS) then None
    else Some(if t in portNames then portNames[t] else "")
  }

  /** An argument taken apart at the matches of a token search. */
  datatype Piece = Literal(text: string) | Token(name: string)

  /** The piece that begins at `i`: a whole token, or one character. */
  function HeadPiece(g: Grammar, s: string, i: nat): Piece
    requires i < |s|
  {
    match MatchEnd(g, s, i)
    case Some(j) => Token(s[i + 1..j])
    case None => Literal([s[i]])
  }

  /** Where the search goes on behind that piece. */
  function Behind(g: Grammar, s: string, i: nat): (n: nat)
    requires i < |s|
    ensures i < n <= |s|
  {
    match MatchEnd(g, s, i)
    case Some(j) => j + 1
    case None => i + 1
  }

  function Pieces(g: Grammar, s: string, i: nat): seq<Piece>
    requires i <= |s|
    decreases |s| - i
  {
    if i == |s| then [] else [HeadPiece(g, s, i)] + Pieces(g, s, Behind(g, s, i))
  }

  function Braced(name: string): string {
    ['{'] + name + ['}']
  }

  function Show(p: Piece): string {
    match p
    case Literal(text) => text
    case Token(name) => Braced(name)
  }

  function Unparse(ps: seq<Piece>): string {
    if ps == [] then "" else Show(ps[0]) + Unparse(ps[1..])
  }

  lemma UnparseCons(p: Piece, ps: seq<Piece>)
    ensures Unparse([p] + ps) == Show(p) + Unparse(ps)
  {
    assert ([p] + ps)[1..] == ps;
  }

  lemma SliceAtToken(s: string, i: nat, j: nat)
    requires i < j < |s| && s[i] == '{' && s[j] == '}'
    ensures s[i..] == Braced(s[i + 1..j]) + s[j + 1..]
  {
    var r := Braced(s[i + 1..j]) + s[j + 1..];
    assert |r| == |s| - i;
    assert forall k | 0 <= k < |r| :: r[k] == s[i + k];
  }

  lemma SliceAtCharacter(s: string, i: nat)
    requires i < |s|
    ensures s[i..] == [s[i]] + s[i + 1..]
  {
  }

  lemma HeadAndRest(g: Grammar, s: string, i: nat)
    requires i < |s|
    ensures s[i..] == Show(HeadPiece(g, s, i)) + s[Behind(g, s, i)..]
  {
    match MatchEnd(g, s, i)
    case Some(j) => SliceAtToken(s, i, j);
    case None => SliceAtCharacter(s, i);
  }

  /** Taking apart loses nothing. */
  lemma {:induction false} UnparsePieces(g: Grammar, s: string, i: nat)
    requires i <= |s|
    ensures Unparse(Pieces(g, s, i)) == s[i..]
    decreases |s| - i
  {
    if i == |s| {
      assert Pieces(g, s, i) == [];
    } else {
      HeadAndRest(g, s, i);
      UnparsePieces(g, s, Behind(g, s, i));
      UnparseCons(HeadPiece(g, s, i), Pieces(g, s, Behind(g, s, i)));
    }
  }

  lemma InCons<T>(x: T, first: T, rest: seq<T>)
    ensures x in [first] + rest <==> x == first || x in rest
  {
  }

  lemma PieceIn(g: Grammar, s: string, i: nat, p: Piece)
    requires i < |s|
    ensures p in Pieces(g, s, i) <==> p == HeadPiece(g, s, i) || p in Pieces(g, s, Behind(g, s, i))
  {
    InCons(p, HeadPiece(g, s, i), Pieces(g, s, Behind(g, s, i)));
  }

  /** A match of the search with this name begins at `k`. */
  predicate MatchNamed(g: Grammar, s: string, k: nat, t: string) {
    k < |s| && MatchEnd(g, s, k).Some? && s[k + 1..MatchEnd(g, s, k).value] == t
  }

  lemma HeadIsMatch(g: Grammar, s: string, k: nat, t: string)
    requires k < |s|
    ensures Token(t) == HeadPiece(g, s, k) <==> MatchNamed(g, s, k, t)
  {
  }

  /** Every token among the pieces is a match of the search. */
  lemma {:induction false} PieceIsMatch(g: Grammar, s: string, i: nat, t: string) returns (k: nat)
    requires i <= |s| && Token(t) in Pieces(g, s, i)
    ensures MatchNamed(g, s, k, t)
    decreases |s| - i
  {
    PieceIn(g, s, i, Token(t));
    if Token(t) == HeadPiece(g, s, i) {
      k := i;
      HeadIsMatch(g, s, k, t);
    } else {
      k := PieceIsMatch(g, s, Behind(g, s, i), t);
    }
  }

  /** No match of the grammar begins inside another one. */
  ghost predicate Disjoint(g: Grammar, s: string) {
    forall i: nat, k: nat | i < k < |s| && MatchEnd(g, s, i).Some? && k <= MatchEnd(g, s, i).value ::
        MatchEnd(g, s, k).None?
  }

  lemma TokensDisjoint(s: string)
    ensures Disjoint(IsTokenSyntax, s)
  {
    forall i: nat, k: nat | i < k < |s| && MatchEnd(IsTokenSyntax, s, i).Some? &&
        k <= MatchEnd(IsTokenSyntax, s, i).value
      ensures MatchEnd(IsTokenSyntax, s, k).None?
    {
      NoBraceInToken(s, i, k);
    }
  }

  lemma NoBraceInToken(s: string, i: nat, k: nat)
    requires i < |s| && MatchEnd(IsTokenSyntax, s, i).Some? && i < k <= MatchEnd(IsTokenSyntax, s, i).value
    ensures s[k] != '{'
  {
    var j := MatchEnd(IsTokenSyntax, s, i).value;
    TokenIsLoose(s[i + 1..j]);
    if k < j {
      assert s[i + 1..j][k - i - 1] == s[k];
    }
  }

  lemma NotBefore(g: Grammar, s: string, i: nat, k: nat)
    requires Disjoint(g, s) && i < k < |s| && MatchEnd(g, s, k).Some?
    ensures Behind(g, s, i) <= k
  {
  }

  /** Every match of a grammar without overlaps is a token among the pieces. */
  lemma {:induction false} MatchIsPiece(g: Grammar, s: string, i: nat, k: nat, t: string)
    requires Disjoint(g, s) && i <= k && MatchNamed(g, s, k, t)
    ensures Token(t) in Pieces(g, s, i)
    decreases |s| - i
  {
    PieceIn(g, s, i, Token(t));
    if i == k {
      HeadIsMatch(g, s, k, t);
    } else {
      NotBefore(g, s, i, k);
      MatchIsPiece(g, s, Behind(g, s, i), k, t);
    }
  }

  // ---------------------------------------------------------------- rendering one argument

  type Lookup = string -> Option<string>

  function PieceValue(p: Piece, value: Lookup): Option<string> {
    match p
    case Literal(text) => Some(text)
    case Token(name) => value(name)
  }

  /** The replaced text, or `None` when some token has no value. */
  function Substituted(ps: seq<Piece>, value: Lookup): Option<string> {
    if ps == [] then Some("")
    else
      var first := PieceValue(ps[0], value);
      var rest := Substituted(ps[1..], value);
      if first.Some? && rest.Some? then Some(first.value + rest.value) else None
  }

  function TokenCount(ps: seq<Piece>): nat {
    if ps == [] then 0 else TokenCount(ps[..|ps| - 1]) + if ps[|ps| - 1].Token? then 1 else 0
  }

  function EmptyCount(ps: seq<Piece>, value: Lookup): (n: nat)
    ensures n <= TokenCount(ps)
  {
    if ps == [] then 0
    else EmptyCount(ps[..|ps| - 1], value) + if ps[|ps| - 1].Token? &&
        value(ps[|ps| - 1].name) == Some("") then 1 else 0
  }

  /** There are tokens, and all of them are empty: such an argument is left out. */
  predicate AllTokensEmpty(ps: seq<Piece>, value: Lookup) {
    TokenCount(ps) > 0 && EmptyCount(ps, value) == TokenCount(ps)
  }

  /** The two counters say what the comment above `if token_count > 0` in the source says in words. */
  lemma {:induction false} AllTokensEmptyMeaning(ps: seq<Piece>, value: Lookup)
    ensures AllTokensEmpty(ps, value) <==>
            && (exists k | 0 <= k < |ps| :: ps[k].Token?)
            && forall k | 0 <= k < |ps| && ps[k].Token? :: value(ps[k].name) == Some("")
    ensures TokenCount(ps) > 0 <==> exists k | 0 <= k < |ps| :: ps[k].Token?
    ensures EmptyCount(ps, value) == TokenCount(ps) <==>
            forall k | 0 <= k < |ps| && ps[k].Token? :: value(ps[k].name) == Some("")
    decreases |ps|
  {
    if ps != [] {
      var n := |ps| - 1;
      AllTokensEmptyMeaning(ps[..n], value);
      assert forall k | 0 <= k < n :: ps[..n][k] == ps[k];
    }
  }

  lemma {:induction false} SubstitutedNone(ps: seq<Piece>, value: Lookup)
    ensures Substituted(ps, value).None? <==> exists k | 0 <= k < |ps| :: ps[k].Token? && value(ps[k].name).None?
  {
    if ps != [] {
      SubstitutedNone(ps[1..], value);
      if Substituted(ps[1..], value).None? {
        var k :| 0 <= k < |ps[1..]| && ps[1..][k].Token? && value(ps[1..][k].name).None?;
        assert ps[k + 1] == ps[1..][k];
      }
      if k :| 0 <= k < |ps| && ps[k].Token? && value(ps[k].name).None? {
        assert k > 0 ==> ps[1..][k - 1] == ps[k];
      }
    }
  }

  lemma {:induction false} SubstitutedAppend(ps: seq<Piece>, p: Piece, value: Lookup)
    ensures Substituted(ps + [p], value) ==
            var last := PieceValue(p, value);
            if Substituted(ps, value).Some? && last.Some? then Some(Substituted(ps, value).value + last.value) else None
  {
    var last := PieceValue(p, value);
    if ps == [] {
      assert ps + [p] == [p] && [p][1..] == [];
      if last.Some? {
        assert last.value + "" == last.value == "" + last.value;
      }
    } else {
      var first, rest := PieceValue(ps[0], value), Substituted(ps[1..], value);
      assert (ps + [p])[1..] == ps[1..] + [p];
      SubstitutedAppend(ps[1..], p, value);
      if first.Some? && rest.Some? && last.Some? {
        assert first.value + (rest.value + last.value) == (first.value + rest.value) + last.value;
      }
    }
  }

  /** One argument: left out, kept with its text, or the unknown-token error. */
  datatype Rendered = Dropped | Kept(text: string) | UnknownToken

  function RenderPieces(ps: seq<Piece>, value: Lookup): Rendered {
    var text := Substituted(ps, value);
    if text.None? then UnknownToken
    else if AllTokensEmpty(ps, value) || text.value == "" then Dropped
    else Kept(text.value)
  }

  /** The loop over the pieces with its two counters, as `re.sub` drives it. */
  method RenderPiecesLoop(ps: seq<Piece>, value: Lookup) returns (r: Rendered)
    ensures r == RenderPieces(ps, value)
  {
    var tokens, empties, replaced := 0, 0, "";
    for i := 0 to |ps|
      invariant Substituted(ps[..i], value) == Some(replaced)
      invariant tokens == TokenCount(ps[..i]) && empties == EmptyCount(ps[..i], value)
    {
      assert ps[..i + 1] == ps[..i] + [ps[i]] && ps[..i + 1][..i] == ps[..i];
      SubstitutedAppend(ps[..i], ps[i], value);
      match ps[i]
      case Literal(text) =>
        replaced := replaced + text;
      case Token(name) =>
        tokens := tokens + 1;
        var v := value(name);
        if v.None? {
          SubstitutedNone(ps, value);
          return UnknownToken;
        }
        if v.value == "" {
          empties := empties + 1;
        }
        replaced := replaced + v.value;
    }
    assert ps[..|ps|] == ps;
    if (tokens > 0 && empties == tokens) || replaced == "" {
      return Dropped;
    }
    r := Kept(replaced);
  }

  // ---------------------------------------------------------------- rendering a template

  function StartupLookup(x: Values): Lookup {
    (t: string) => TokenValue(t, x)
  }

  function EnvLookup(bindIp: string, portNames: map<string, string>): Lookup {
    (t: string) => EnvTokenValue(t, bindIp, portNames)
  }

  function RenderText(text: string, value: Lookup): Rendered {
    RenderPieces(Pieces(IsTokenSyntax, text, 0), value)
  }

  /** The texts of the words, one argument each. */
  function SplitTexts(v: string): (r: Result<seq<string>, SplitError>)
    ensures r.Ok? <==> Split(v).Ok?
    ensures r.Ok? ==> |r.value| == |Split(v).value|
    ensures r.Ok? ==> forall k | 0 <= k < |r.value| ::
              WordOk(v, Split(v).value[k]) && r.value[k] == WordText(v, Split(v).value[k])
  {
    SplitKeepsOrder(v, 0, Splitter(Between, [], false));
    match Split(v)
    case Ok(ws) => Ok(seq(|ws|, k requires 0 <= k < |ws| && WordOk(v, ws[k]) => WordText(v, ws[k])))
    case Err(e) => Err(e)
  }

  /** What becomes of each word. */
  function Results(texts: seq<string>, value: Lookup): (r: seq<Rendered>)
    ensures |r| == |texts| && forall k | 0 <= k < |r| :: r[k] == RenderText(texts[k], value)
  {
    seq(|texts|, k requires 0 <= k < |texts| => RenderText(texts[k], value))
  }

  /** The kept arguments in order, or `None` for the unknown-token error. */
  function Gathered(rs: seq<Rendered>): Option<seq<string>> {
    if rs == [] then Some([])
    else
      match rs[0]
      case UnknownToken => None
      case Dropped => Gathered(rs[1..])
      case Kept(text) => Prepend([text], Gathered(rs[1..]))
  }

  function Prepend(first: seq<string>, rest: Option<seq<string>>): Option<seq<string>> {
    match rest
    case Some(args) => Some(first + args)
    case None => None
  }

  lemma PrependTwice(a: seq<string>, b: seq<string>, rest: Option<seq<string>>)
    ensures Prepend(a, Prepend(b, rest)) == Prepend(a + b, rest)
    ensures Prepend([], rest) == rest
  {
    if rest.Some? {
      assert a + (b + rest.value) == (a + b) + rest.value;
      assert [] + rest.value == rest.value;
    }
  }

  datatype Argv = Argv(args: seq<string>) | SplitFailed(error: SplitError) | UnknownTokenError

  function Rendering(v: string, x: Values): Argv {
    match SplitTexts(v)
    case Err(e) => SplitFailed(e)
    case Ok(texts) =>
      match Gathered(Results(texts, StartupLookup(x)))
      case Some(args) => Argv(args)
      case None => UnknownTokenError
  }

  /** `render_argv` for a given template: split first, substitute inside the arguments afterwards. */
  method RenderArgv(v: string, x: Values) returns (r: Argv)
    ensures r == Rendering(v, x)
  {
    var texts := SplitTexts(v);
    if texts.Err? {
      return SplitFailed(texts.error);
    }
    r := RenderArgs(texts.value, StartupLookup(x));
  }

  method RenderArgs(texts: seq<string>, value: Lookup) returns (r: Argv)
    ensures r == match Gathered(Results(texts, value)) case Some(args) => Argv(args) case None => UnknownTokenError
  {
    var rendered: seq<string> := [];
    ghost var rs := Results(texts, value);
    PrependTwice([], [], Gathered(rs));
    for i := 0 to |texts|
      invariant Gathered(rs) == Prepend(rendered, Gathered(rs[i..]))
    {
      assert rs[i..][0] == RenderText(texts[i], value) && rs[i..][1..] == rs[i + 1..];
      var one := RenderPiecesLoop(Pieces(IsTokenSyntax, texts[i], 0), value);
      match one
      case UnknownToken => return UnknownTokenError;
      case Dropped =>
      case Kept(text) =>
        PrependTwice(rendered, [text], Gathered(rs[i + 1..]));
        rendered := rendered + [text];
    }
    r := Argv(rendered);
  }

  /** Rendering fails exactly when some word does. */
  lemma {:induction false} GatheredNone(rs: seq<Rendered>)
    ensures Gathered(rs).None? <==> exists k | 0 <= k < |rs| :: rs[k].UnknownToken?
  {
    if rs != [] {
      GatheredNone(rs[1..]);
      if Gathered(rs[1..]).None? {
        var k :| 0 <= k < |rs[1..]| && rs[1..][k].UnknownToken?;
        assert rs[k + 1] == rs[1..][k];
      }
      if k :| 0 <= k < |rs| && rs[k].UnknownToken? {
        assert k > 0 ==> rs[1..][k - 1] == rs[k];
      }
    }
  }

  /** A match of the renderer's grammar begins at `i`, and its name has no value. */
  predicate UnknownAt(text: string, i: nat, value: Lookup) {
    && i < |text| && MatchEnd(IsTokenSyntax, text, i).Some?
    && value(text[i + 1..MatchEnd(IsTokenSyntax, text, i).value]).None?
  }

  lemma UnknownPiece(text: string, value: Lookup, t: string) returns (i: nat)
    requires Token(t) in Pieces(IsTokenSyntax, text, 0) && value(t).None?
    ensures UnknownAt(text, i, value)
  {
    i := PieceIsMatch(IsTokenSyntax, text, 0, t);
  }

  lemma UnknownIsPiece(text: string, value: Lookup, i: nat) returns (t: string)
    requires UnknownAt(text, i, value)
    ensures Token(t) in Pieces(IsTokenSyntax, text, 0) && value(t).None?
  {
    TokensDisjoint(text);
    t := text[i + 1..MatchEnd(IsTokenSyntax, text, i).value];
    MatchIsPiece(IsTokenSyntax, text, 0, i, t);
  }

  lemma UnknownAmong(ps: seq<Piece>, value: Lookup)
    ensures Substituted(ps, value).None? <==> exists t :: Token(t) in ps && value(t).None?
  {
    SubstitutedNone(ps, value);
    if k :| 0 <= k < |ps| && ps[k].Token? && value(ps[k].name).None? {
      assert Token(ps[k].name) in ps;
    }
  }

  /** A word fails exactly when the renderer's grammar matches a name without value anywhere in it. */
  lemma RenderTextUnknown(text: string, value: Lookup)
    ensures RenderText(text, value).UnknownToken? <==> exists i :: UnknownAt(text, i, value)
  {
    var ps := Pieces(IsTokenSyntax, text, 0);
    UnknownAmong(ps, value);
    if t :| Token(t) in ps && value(t).None? {
      var i := UnknownPiece(text, value, t);
    }
    if i :| UnknownAt(text, i, value) {
      var t := UnknownIsPiece(text, value, i);
    }
  }

  /** The names `_sub` has no value for. */
  predicate UnknownName(t: string, x: Values) {
    t !in STARTUP_TOKENS && t !in x.portNames && !StartsWith(t, ENV_PREFIX) && !IsCustomPort(t)
  }

  lemma NoValueIff(t: string, x: Values)
    ensures TokenValue(t, x).None? <==> UnknownName(t, x)
  {
  }

  /** The word holds an unknown name in the renderer's grammar. */
  ghost predicate HoldsUnknown(text: string, x: Values) {
    exists i | 0 <= i < |text| ::
      MatchEnd(IsTokenSyntax, text, i).Some? && UnknownName(text[i + 1..MatchEnd(IsTokenSyntax, text, i).value], x)
  }

  lemma WordFailsIff(text: string, x: Values)
    ensures RenderText(text, StartupLookup(x)).UnknownToken? <==> HoldsUnknown(text, x)
  {
    var value := StartupLookup(x);
    RenderTextUnknown(text, value);
    forall i | 0 <= i < |text| && MatchEnd(IsTokenSyntax, text, i).Some?
      ensures UnknownAt(text, i, value) <==> UnknownName(text[i + 1..MatchEnd(IsTokenSyntax, text, i).value], x)
    {
      NoValueIff(text[i + 1..MatchEnd(IsTokenSyntax, text, i).value], x);
    }
  }

  /**
    Any command that can be split, of a profile or not, fails with the unknown-token error exactly
    when some word of it holds, in the renderer's grammar, a name that is neither a known token, nor a
    port of the server, nor an environment value, nor a custom port.
   */
  lemma RenderingFailsIff(v: string, x: Values)
    requires Split(v).Ok?
    ensures Rendering(v, x).UnknownTokenError? <==>
              exists k | 0 <= k < |SplitTexts(v).value| :: HoldsUnknown(SplitTexts(v).value[k], x)
  {
    var texts := SplitTexts(v).value;
    var rs := Results(texts, StartupLookup(x));
    GatheredNone(rs);
    forall k | 0 <= k < |texts| ensures rs[k].UnknownToken? <==> HoldsUnknown(texts[k], x) {
      WordFailsIff(texts[k], x);
    }
    if k :| 0 <= k < |texts| && HoldsUnknown(texts[k], x) {
      assert rs[k].UnknownToken?;
    }
  }

  lemma AcceptedIsKnown(t: string, x: Values)
    requires StartupTokenAccepted(t)
    ensures !UnknownName(t, x)
  {
  }

  lemma AcceptedWord(v: string, w: Word, x: Values)
    requires CheckStartup(v) && WordOk(v, w)
    ensures !HoldsUnknown(WordText(v, w), x)
  {
    var text := WordText(v, w);
    forall i | 0 <= i < |text| && MatchEnd(IsTokenSyntax, text, i).Some?
      ensures !UnknownName(text[i + 1..MatchEnd(IsTokenSyntax, text, i).value], x)
    {
      RenderedTokenWasAccepted(v, w, i);
      AcceptedIsKnown(text[i + 1..MatchEnd(IsTokenSyntax, text, i).value], x);
    }
  }

  /**
    Every startup command the validator accepts renders without the unknown-token error, for all
    values, although the validator has seen neither the words nor the renderer's grammar.
   */
  lemma AcceptedStartupRenders(v: string, x: Values)
    requires CheckStartup(v)
    ensures !Rendering(v, x).UnknownTokenError?
  {
    if Split(v).Ok? {
      var texts, ws := SplitTexts(v).value, Split(v).value;
      RenderingFailsIff(v, x);
      forall k | 0 <= k < |texts| ensures !HoldsUnknown(texts[k], x) {
        AcceptedWord(v, ws[k], x);
      }
    }
  }

  /** Every environment value the validator accepts renders without the unknown-token error. */
  lemma AcceptedEnvValueRenders(v: string, bindIp: string, portNames: map<string, string>)
    requires CheckEnvValue(v)
    ensures Substituted(Pieces(IsName, v, 0), EnvLookup(bindIp, portNames)).Some?
  {
    var ps, value := Pieces(IsName, v, 0), EnvLookup(bindIp, portNames);
    SubstitutedNone(ps, value);
    forall k | 0 <= k < |ps| && ps[k].Token? ensures value(ps[k].name).Some? {
      assert Token(ps[k].name) in ps;
      var i := PieceIsMatch(IsName, v, 0, ps[k].name);
      var j := MatchEnd(IsName, v, i).value;
      NameIsLoose(v[i + 1..j]);
      assert MatchEnd(IsLoose, v, i) == Some(j);
      MatchesComplete(v, 0, i);
      assert IsAllowedPortToken(v[i + 1..j], ENV_VALUE_TOKENS);
    }
  }

  /** The arguments come, in order, from the words with the given numbers, and no kept word is missing. */
  ghost predicate Origin(rs: seq<Rendered>, args: seq<string>, origin: seq<nat>) {
    && |origin| == |args|
    && (forall k | 0 <= k < |origin| :: origin[k] < |rs| && rs[origin[k]] == Kept(args[k]))
    && (forall k | 0 <= k < |origin| - 1 :: origin[k] < origin[k + 1])
    && (forall n | 0 <= n < |rs| && rs[n].Kept? :: n in origin)
  }

  /** No value adds an argument: they come from distinct words, in order, and only dropped words are missing. */
  lemma {:induction false} ArgumentsComeFromWords(rs: seq<Rendered>) returns (origin: seq<nat>)
    requires Gathered(rs).Some?
    ensures Origin(rs, Gathered(rs).value, origin)
    decreases |rs|
  {
    origin := [];
    if rs != [] {
      var last := |rs| - 1;
      GatheredSnoc(rs[..last], rs[last]);
      assert rs[..last] + [rs[last]] == rs;
      origin := ArgumentsComeFromWords(rs[..last]);
      ghost var before := origin;
      if rs[last].Kept? {
        origin := origin + [last];
        assert last in origin;
      }
      forall n | 0 <= n < |rs| && rs[n].Kept? ensures n in origin {
        if n < last {
          assert rs[..last][n] == rs[n];
          assert n in before;
        }
      }
    }
  }

  lemma {:induction false} GatheredSnoc(rs: seq<Rendered>, r: Rendered)
    ensures Gathered(rs + [r]) ==
              if Gathered(rs).None? || r.UnknownToken? then None
              else Some(Gathered(rs).value + if r.Kept? then [r.text] else [])
  {
    if rs == [] {
      assert rs + [r] == [r] && [r][1..] == [];
      var nothing: seq<string> := [];
      assert nothing + nothing == nothing;
      if r.Kept? {
        assert [r.text] + nothing == nothing + [r.text];
      }
    } else {
      assert (rs + [r])[0] == rs[0] && (rs + [r])[1..] == rs[1..] + [r];
      GatheredSnoc(rs[1..], r);
      if rs[0].Kept? && Gathered(rs[1..]).Some? {
        var tail, end := Gathered(rs[1..]).value, if r.Kept? then [r.text] else [];
        assert [rs[0].text] + (tail + end) == ([rs[0].text] + tail) + end;
      }
    }
  }

  // ---------------------------------------------------------------- where the theorem stops

  function Upto(n: nat): (r: seq<nat>)
    ensures |r| == n && forall k | 0 <= k < n :: r[k] == k
  {
    seq(n, k => k)
  }

  lemma {:induction false} SplitPlainWord(s: string, i: nat)
    requires 0 < i <= |s| && forall k | 0 <= k < |s| :: !IsBlank(s[k]) && !IsQuoting(s[k])
    ensures SplitFrom(s, i, Splitter(InWord, Upto(i), false)) == Ok([Upto(|s|)])
    decreases |s| - i
  {
    if i < |s| {
      SplitPlainWord(s, i + 1);
      assert Upto(i) + [i] == Upto(i + 1);
      assert [] + [Upto(|s|)] == [Upto(|s|)];
    }
  }

  /** A word without blanks and quoting is its own only argument. */
  lemma PlainWordIsOneText(s: string)
    requires s != "" && forall k | 0 <= k < |s| :: !IsBlank(s[k]) && !IsQuoting(s[k])
    ensures SplitTexts(s) == Ok([s])
  {
    SplitPlainWord(s, 1);
    assert Upto(1) == [0];
    assert Step(s, 0, Splitter(Between, [], false)) == (Splitter(InWord, [0], false), []);
    assert [] + [Upto(|s|)] == [Upto(|s|)];
    assert Split(s) == Ok([Upto(|s|)]);
    assert SplitTexts(s).value[0] == s;
    assert SplitTexts(s).value == [s];
  }

  lemma TokenCharacters(t: string)
    requires IsTokenSyntax(t)
    ensures forall k | 0 <= k < |t| :: t[k] == '.' || IsTokenChar(t[k])
  {
    if !IsName(t) {
      var d :| 0 < d < |t| - 1 && t[d] == '.' && IsName(t[..d]) && forall k | d < k < |t| :: IsTokenChar(t[k]);
      forall k | 0 <= k < |t| ensures t[k] == '.' || IsTokenChar(t[k]) {
        if k < d { assert t[k] == t[..d][k]; }
      }
    }
  }

  lemma ForbiddenBegins(k: nat)
    requires k < 4
    ensures |FORBIDDEN[k]| == 2 && (FORBIDDEN[k][0] == '$' || FORBIDDEN[k][0] == '&' || FORBIDDEN[k][0] == '|')
  {
  }

  lemma NotContained(v: string, part: string)
    requires part != "" && part[0] !in v
    ensures !Contains(v, part)
  {
    forall i | 0 <= i <= |v| ensures !StartsWith(v[i..], part) {
      if StartsWith(v[i..], part) {
        StartsHere(v, i, part);
      }
    }
  }

  lemma StartsHere(v: string, i: nat, part: string)
    requires i <= |v| && part != "" && StartsWith(v[i..], part)
    ensures i < |v| && v[i] == part[0]
  {
    assert v[i..][..|part|][0] == v[i];
  }

  lemma BracedPassesProfileCheck(t: string)
    requires IsTokenSyntax(t)
    ensures CheckProfileStartup(Braced(t))
  {
    var v := Braced(t);
    TokenCharacters(t);
    assert forall i | 0 <= i < |v| :: v[i] == '{' || v[i] == '}' || v[i] == '.' || IsTokenChar(v[i]);
    forall k | 0 <= k < 4 ensures !Contains(v, FORBIDDEN[k]) {
      ForbiddenBegins(k);
      NotContained(v, FORBIDDEN[k]);
    }
  }

  lemma BracedIsMatch(t: string)
    requires IsTokenSyntax(t)
    ensures MatchEnd(IsTokenSyntax, Braced(t), 0) == Some(|t| + 1) && Braced(t)[1..|t| + 1] == t
  {
    var v := Braced(t);
    TokenCharacters(t);
    assert v[1..|t| + 1] == t;
    assert forall k | 1 <= k < |t| + 1 :: v[k] == t[k - 1];
    assert v[|t| + 1] == '}' && '}' !in t;
    assert FirstIndex(v, '}', 1) == |t| + 1;
  }

  /**
    The commands of startup profiles are not token-checked, so the theorem does not extend to them:
    a placeholder of any unknown name passes their validator and cannot be rendered.
   */
  lemma ProfileStartupMayNotRender(t: string, x: Values)
    requires IsTokenSyntax(t) && UnknownName(t, x)
    ensures CheckProfileStartup(Braced(t)) && Rendering(Braced(t), x).UnknownTokenError?
  {
    var v := Braced(t);
    BracedPassesProfileCheck(t);
    TokenCharacters(t);
    PlainWordIsOneText(v);
    BracedIsMatch(t);
    RenderingFailsIff(v, x);
    assert HoldsUnknown(SplitTexts(v).value[0], x);
  }
}
