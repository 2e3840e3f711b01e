/**
  Port placeholders in seed files and configuration patches: `_substitute_port_tokens` replaces one
  token after the other, in dictionary order.
 */
module PortSubstitution {
  import opened Wrappers
  import opened PyText
  import opened TokenNames

  /** The token dictionary in its iteration order; a port that is `None` or 0 is unset. */
  type Values = seq<(string, Option<nat>)>

  predicate BraceFree(s: string) {
    forall k | 0 <= k < |s| :: s[k] != '{' && s[k] != '}'
  }

  /** The text with every number cut down to a digit: 0 when it begins with one, and 1 otherwise. */
  function Shape(s: string, inNumber: bool): string {
    if s == "" then ""
    else if !IsDigit(s[0]) then [s[0]] + Shape(s[1..], false)
    else (if inNumber then "" else if s[0] == '0' then "0" else "1") + Shape(s[1..], true)
  }

  /** A token name of the family that is given by the shapes of its names. */
  ghost predicate Known(shapes: iset<string>, name: string) {
    IsName(name) && Shape(name, false) in shapes
  }

  /** The family of all token names. */
  ghost const AnyShape: iset<string> := iset shape: string | true

  /** Dictionary keys are distinct, and every one is the name of a port token of the family. */
  ghost predicate Dictionary(values: Values, shapes: iset<string>) {
    && (forall i | 0 <= i < |values| :: Known(shapes, values[i].0))
    && (forall i, j | 0 <= i < j < |values| :: values[i].0 != values[j].0)
  }

  predicate IsSet(port: Option<nat>) {
    port.Some? && port.value != 0
  }

  /** `str(port)` */
  function Decimal(n: nat): (r: string)
    ensures r != "" && forall k | 0 <= k < |r| :: '0' <= r[k] <= '9'
  {
    var digit := [('0' as int + n % 10) as char];
    if n < 10 then digit else Decimal(n / 10) + digit
  }

  function Placeholder(token: string): string {
    "{" + token + "}"
  }

  /** `str.replace` for a pattern that is not empty: leftmost occurrences first, without overlap. */
  function Replaced(t: string, pattern: string, value: string): string
    requires pattern != ""
  {
    if t == "" then ""
    else if StartsWith(t, pattern) then value + Replaced(t[|pattern|..], pattern, value)
    else [t[0]] + Replaced(t[1..], pattern, value)
  }

  /** The placeholder occurs in the text. */
  predicate Occurs(t: string, token: string) {
    t != "" && (StartsWith(t, Placeholder(token)) || Occurs(t[1..], token))
  }

  /** One token after the other; `None` as soon as a placeholder of an unset port is met. */
  function Iterated(t: string, values: Values): Option<string>
    decreases |values|
  {
    if values == [] then Some(t)
    else
      var (token, port) := values[0];
      if !Occurs(t, token) then Iterated(t, values[1..])
      else if !IsSet(port) then None
      else Iterated(Replaced(t, Placeholder(token), Decimal(port.value)), values[1..])
  }

  /** `_substitute_port_tokens` */
  method Substitute(template: string, values: Values) returns (result: Option<string>)
    ensures result == Iterated(template, values)
  {
    var text := template;
    for i := 0 to |values|
      invariant Iterated(template, values) == Iterated(text, values[i..])
    {
      var (token, port) := values[i];
      assert values[i..][0] == values[i] && values[i..][1..] == values[i + 1..];
      if !Occurs(text, token) {
        continue;
      }
      if !IsSet(port) {
        return None;
      }
      text := Replaced(text, Placeholder(token), Decimal(port.value));
    }
    result := Some(text);
  }

  // ---------------------------------------------------------------- one simultaneous substitution

  /** All placeholders of `env` at once, in one pass; what a value brings in is not looked at again. */
  function Simultaneous(t: string, env: map<string, string>): string {
    if t == "" then ""
    else
      var end := FirstIndex(t, '}', 1);
      if t[0] == '{' && end < |t| && t[1..end] in env then env[t[1..end]] + Simultaneous(t[end + 1..], env)
      else [t[0]] + Simultaneous(t[1..], env)
  }

  /** The set ports of the dictionary in decimal. */
  function SetPorts(values: Values): (env: map<string, string>) {
    if values == [] then map[]
    else
      var rest := SetPorts(values[1..]);
      if IsSet(values[0].1) then rest[values[0].0 := Decimal(values[0].1.value)] else rest
  }

  /** A placeholder of a known but unset port occurs. */
  ghost predicate UnsetOccurs(t: string, values: Values) {
    exists i | 0 <= i < |values| :: !IsSet(values[i].1) && Occurs(t, values[i].0)
  }

  // ---------------------------------------------------------------- groups and nesting

  /** Token characters up to a closing brace. */
  predicate Run(t: string) {
    t != "" && (t[0] == '}' || (IsTokenChar(t[0]) && Run(t[1..])))
  }

  function Core(t: string): (c: string)
    requires Run(t)
    ensures forall k | 0 <= k < |c| :: IsTokenChar(c[k])
    ensures t[0] != '}' ==> c != "" && c[0] == t[0]
  {
    if t[0] == '}' then "" else [t[0]] + Core(t[1..])
  }

  function After(t: string): (x: string)
    requires Run(t)
    ensures |x| < |t|
  {
    if t[0] == '}' then t[1..] else After(t[1..])
  }

  /** The text begins with a placeholder of some token name. */
  predicate Group(t: string) {
    |t| >= 2 && t[0] == '{' && IsUpper(t[1]) && Run(t[1..])
  }

  ghost predicate KnownGroup(t: string, shapes: iset<string>) {
    Group(t) && Known(shapes, Core(t[1..]))
  }

  /** Token characters and whole placeholders up to a closing brace; `seen` says that a placeholder has been there. */
  predicate Completes(t: string, seen: bool)
    decreases |t|
  {
    if t == "" then false
    else if t[0] == '}' then seen
    else if IsTokenChar(t[0]) then Completes(t[1..], seen)
    else Group(t) && Completes(After(t[1..]), true)
  }

  lemma {:induction false} CompletesSeen(t: string)
    requires Completes(t, false)
    ensures Completes(t, true)
    decreases |t|
  {
    if t[0] != '}' && IsTokenChar(t[0]) {
      CompletesSeen(t[1..]);
    }
  }

  /** The name that comes out when every placeholder up to the closing brace is replaced by the value. */
  function Filled(t: string, value: string): string
    requires Completes(t, true)
    decreases |t|
  {
    if t[0] == '}' then ""
    else if IsTokenChar(t[0]) then [t[0]] + Filled(t[1..], value)
    else value + Filled(After(t[1..]), value)
  }

  /** The names of those placeholders, each once. */
  function Inner(t: string): (cs: seq<string>)
    requires Completes(t, true)
    ensures forall i, j | 0 <= i < j < |cs| :: cs[i] != cs[j]
    decreases |t|
  {
    if t[0] == '}' then []
    else if IsTokenChar(t[0]) then Inner(t[1..])
    else
      var c, rest := Core(t[1..]), Inner(After(t[1..]));
      if c in rest then rest else [c] + rest
  }

  /**
    Placeholders inside what becomes the name of another one once they are replaced. The names are
    those of the family, for some values and so for all.
   */
  ghost predicate NestAt(t: string, shapes: iset<string>) {
    && |t| >= 2 && t[0] == '{' && IsUpper(t[1])
    && Completes(t[1..], false) && NamesKnown(t[1..], shapes)
  }

  ghost predicate NamesKnown(t: string, shapes: iset<string>)
    requires Completes(t, false)
  {
    CompletesSeen(t);
    (forall c | c in Inner(t) :: Known(shapes, c)) && Shape(Filled(t, "1"), false) in shapes
  }

  /** Somewhere in the text a placeholder is nested in the name of another one. */
  ghost predicate Nests(t: string, shapes: iset<string>) {
    t != "" && (NestAt(t, shapes) || Nests(t[1..], shapes))
  }

  /** What the substitution should be: skipped for an unset port, all set ports at once otherwise. */
  ghost function Intended(t: string, values: Values): Option<string> {
    if UnsetOccurs(t, values) then None else Some(Simultaneous(t, SetPorts(values)))
  }

  // ---------------------------------------------------------------- group by group

  lemma {:induction false} PlainRunReplaced(a: string, t: string, token: string, value: string)
    requires '{' !in a
    ensures Replaced(a + t, Placeholder(token), value) == a + Replaced(t, Placeholder(token), value)
  {
    if a == "" {
      assert a + t == t;
    } else {
      assert (a + t)[0] == a[0] && (a + t)[1..] == a[1..] + t;
      assert Placeholder(token)[0] == '{';
      PlainRunReplaced(a[1..], t, token, value);
      assert a + Replaced(t, Placeholder(token), value) == [a[0]] + (a[1..] + Replaced(t, Placeholder(token), value));
    }
  }

  lemma {:induction false} PlainRunSimultaneous(a: string, t: string, env: map<string, string>)
    requires '{' !in a
    ensures Simultaneous(a + t, env) == a + Simultaneous(t, env)
  {
    if a == "" {
      assert a + t == t;
    } else {
      assert (a + t)[0] == a[0] && (a + t)[1..] == a[1..] + t;
      PlainRunSimultaneous(a[1..], t, env);
      assert a + Simultaneous(t, env) == [a[0]] + (a[1..] + Simultaneous(t, env));
    }
  }

  lemma {:induction false} PlainRunOccurs(a: string, t: string, token: string)
    requires '{' !in a
    ensures Occurs(a + t, token) <==> Occurs(t, token)
  {
    if a == "" {
      assert a + t == t;
    } else {
      assert (a + t)[0] == a[0] && (a + t)[1..] == a[1..] + t;
      assert Placeholder(token)[0] == '{';
      PlainRunOccurs(a[1..], t, token);
    }
  }

  /** Characters that open nothing are copied, whatever is replaced. */
  lemma PlainRun(a: string, t: string, token: string, value: string, env: map<string, string>)
    requires '{' !in a
    ensures Replaced(a + t, Placeholder(token), value) == a + Replaced(t, Placeholder(token), value)
    ensures Simultaneous(a + t, env) == a + Simultaneous(t, env)
    ensures Occurs(a + t, token) <==> Occurs(t, token)
  {
    PlainRunReplaced(a, t, token, value);
    PlainRunSimultaneous(a, t, env);
    PlainRunOccurs(a, t, token);
  }

  lemma GroupEnd(c: string, x: string)
    requires BraceFree(c)
    ensures FirstIndex(Placeholder(c) + x, '}', 1) == |c| + 1
    ensures (Placeholder(c) + x)[1..|c| + 1] == c && (Placeholder(c) + x)[|c| + 2..] == x
  {
    var t := Placeholder(c) + x;
    assert t[|c| + 1] == '}';
    assert forall k | 1 <= k < |c| + 1 :: t[k] == c[k - 1];
  }

  /** Two groups start alike only when they are equal. */
  lemma GroupStarts(c: string, x: string, token: string)
    requires BraceFree(c) && BraceFree(token)
    ensures StartsWith(Placeholder(c) + x, Placeholder(token)) <==> c == token
  {
    var t := Placeholder(c) + x;
    GroupEnd(c, x);
    if StartsWith(t, Placeholder(token)) {
      var y := t[|token| + 2..];
      assert t == Placeholder(token) + y;
      GroupEnd(token, y);
    }
  }

  /** Behind its opening brace a group is a plain run. */
  lemma GroupTail(c: string, x: string)
    requires BraceFree(c)
    ensures (Placeholder(c) + x)[0] == '{' && (Placeholder(c) + x)[1..] == (c + "}") + x
    ensures '{' !in c + "}"
    ensures forall y :: ['{'] + (c + "}" + y) == Placeholder(c) + y
  {
    forall y ensures ['{'] + (c + "}" + y) == Placeholder(c) + y {}
  }

  lemma GroupReplaced(c: string, x: string, token: string, value: string)
    requires BraceFree(c) && BraceFree(token)
    ensures Replaced(Placeholder(c) + x, Placeholder(token), value) ==
              (if c == token then value else Placeholder(c)) + Replaced(x, Placeholder(token), value)
  {
    GroupEnd(c, x);
    GroupStarts(c, x, token);
    GroupTail(c, x);
    PlainRunReplaced(c + "}", x, token, value);
  }

  lemma GroupSimultaneous(c: string, x: string, env: map<string, string>)
    requires BraceFree(c)
    ensures Simultaneous(Placeholder(c) + x, env) ==
              (if c in env then env[c] else Placeholder(c)) + Simultaneous(x, env)
  {
    GroupEnd(c, x);
    GroupTail(c, x);
    PlainRunSimultaneous(c + "}", x, env);
  }

  lemma GroupOccurs(c: string, x: string, token: string)
    requires BraceFree(c) && BraceFree(token)
    ensures Occurs(Placeholder(c) + x, token) <==> c == token || Occurs(x, token)
  {
    GroupStarts(c, x, token);
    GroupTail(c, x);
    PlainRunOccurs(c + "}", x, token);
  }

  /** A braced group: replaced when it is the token, substituted when it is known, copied otherwise. */
  lemma GroupEffect(c: string, x: string, token: string, value: string, env: map<string, string>)
    requires BraceFree(c) && BraceFree(token)
    ensures Replaced(Placeholder(c) + x, Placeholder(token), value) ==
              (if c == token then value else Placeholder(c)) + Replaced(x, Placeholder(token), value)
    ensures Simultaneous(Placeholder(c) + x, env) ==
              (if c in env then env[c] else Placeholder(c)) + Simultaneous(x, env)
    ensures Occurs(Placeholder(c) + x, token) <==> c == token || Occurs(x, token)
  {
    GroupReplaced(c, x, token, value);
    GroupSimultaneous(c, x, env);
    GroupOccurs(c, x, token);
  }

  lemma {:induction false} RunShape(t: string)
    requires Run(t)
    ensures t == Core(t) + "}" + After(t)
  {
    if t[0] == '}' {
      assert t == "" + "}" + t[1..];
    } else {
      RunShape(t[1..]);
      assert t == [t[0]] + t[1..];
      assert [t[0]] + (Core(t[1..]) + "}" + After(t)) == [t[0]] + Core(t[1..]) + "}" + After(t);
    }
  }

  lemma {:induction false} RunOf(c: string, x: string)
    requires forall k | 0 <= k < |c| :: IsTokenChar(c[k])
    ensures Run(c + "}" + x) && Core(c + "}" + x) == c && After(c + "}" + x) == x
  {
    var t := c + "}" + x;
    if c == "" {
      assert t[1..] == x;
    } else {
      RunOf(c[1..], x);
      assert t[1..] == c[1..] + "}" + x;
      assert t[0] == c[0];
    }
  }

  lemma NameHasNoBrace(c: string)
    requires forall k | 0 <= k < |c| :: IsTokenChar(c[k])
    ensures BraceFree(c)
  {
  }

  /** A group is the placeholder of a name. */
  lemma GroupShape(t: string)
    requires Group(t)
    ensures IsName(Core(t[1..])) && BraceFree(Core(t[1..])) && t == Placeholder(Core(t[1..])) + After(t[1..])
  {
    RunShape(t[1..]);
    NameHasNoBrace(Core(t[1..]));
    assert t == ['{'] + t[1..];
    var c, x := Core(t[1..]), After(t[1..]);
    assert ['{'] + (c + "}" + x) == Placeholder(c) + x;
  }

  lemma PlaceholderIsGroup(c: string, x: string)
    requires IsName(c)
    ensures var t := Placeholder(c) + x;
            Group(t) && Core(t[1..]) == c && After(t[1..]) == x
  {
    var t := Placeholder(c) + x;
    RunOf(c, x);
    assert t[1..] == c + "}" + x;
    assert t[1] == c[0];
  }

  lemma StartsWithGroup(t: string, token: string)
    requires IsName(token) && StartsWith(t, Placeholder(token))
    ensures Group(t) && Core(t[1..]) == token && After(t[1..]) == t[|token| + 2..]
  {
    PlaceholderIsGroup(token, t[|token| + 2..]);
    assert t == Placeholder(token) + t[|token| + 2..];
  }

  ghost predicate Names(env: map<string, string>, shapes: iset<string>) {
    forall token | token in env :: Known(shapes, token)
  }

  /** A character that begins no placeholder of the family is copied, whatever is replaced. */
  lemma PlainHead(t: string, token: string, value: string, env: map<string, string>, shapes: iset<string>)
    requires t != "" && !KnownGroup(t, shapes) && Known(shapes, token) && Names(env, shapes)
    ensures Replaced(t, Placeholder(token), value) == [t[0]] + Replaced(t[1..], Placeholder(token), value)
    ensures Occurs(t, token) <==> Occurs(t[1..], token)
    ensures Simultaneous(t, env) == [t[0]] + Simultaneous(t[1..], env)
  {
    if StartsWith(t, Placeholder(token)) {
      StartsWithGroup(t, token);
    }
    var end := FirstIndex(t, '}', 1);
    if t[0] == '{' && end < |t| && t[1..end] in env {
      KnownIsGroup(t, end, shapes);
    }
  }

  lemma KnownIsGroup(t: string, end: nat, shapes: iset<string>)
    requires 1 <= end < |t| && t[0] == '{' && t[end] == '}' && Known(shapes, t[1..end])
    ensures KnownGroup(t, shapes)
  {
    PlaceholderIsGroup(t[1..end], t[end + 1..]);
    assert t == Placeholder(t[1..end]) + t[end + 1..];
  }

  datatype Head = Empty | Plain(x: string) | Braced(c: string, x: string)

  /** How the text begins: with a placeholder of the family, or with a character that begins none. */
  ghost function HeadOf(t: string, shapes: iset<string>): (h: Head)
    ensures match h
            case Empty => t == ""
            case Plain(x) => t != "" && !KnownGroup(t, shapes) && x == t[1..]
            case Braced(c, x) =>
              Group(t) && c == Core(t[1..]) && Known(shapes, c) && x == After(t[1..]) && |x| < |t|
  {
    if t == "" then Empty
    else if KnownGroup(t, shapes) then Braced(Core(t[1..]), After(t[1..]))
    else Plain(t[1..])
  }

  // ---------------------------------------------------------------- what replacing does to nesting

  predicate Digits(value: string) {
    forall k | 0 <= k < |value| :: IsDigit(value[k])
  }

  lemma {:induction false} DigitsRun(value: string, y: string)
    requires Digits(value)
    ensures Run(value + y) <==> Run(y)
    ensures forall seen :: Completes(value + y, seen) <==> Completes(y, seen)
    ensures Run(y) ==> Core(value + y) == value + Core(y) && After(value + y) == After(y)
  {
    if value == "" {
      assert value + y == y;
    } else {
      var rest := value[1..] + y;
      assert (value + y)[0] == value[0] && (value + y)[1..] == rest;
      DigitsRun(value[1..], y);
      if Run(y) {
        assert [value[0]] + (value[1..] + Core(y)) == value + Core(y);
      }
    }
  }

  lemma {:induction false} DigitsNest(value: string, y: string, shapes: iset<string>)
    requires Digits(value)
    ensures Nests(value + y, shapes) <==> Nests(y, shapes)
  {
    if value == "" {
      assert value + y == y;
    } else {
      assert (value + y)[0] == value[0] && (value + y)[1..] == value[1..] + y;
      DigitsNest(value[1..], y, shapes);
    }
  }

  /** What a value brings in is a number that does not begin with 0. */
  predicate IsNumber(value: string) {
    value != "" && Digits(value) && value[0] != '0'
  }

  /** Equal shapes, whether or not a number goes on. */
  predicate Alike(a: string, b: string) {
    Shape(a, false) == Shape(b, false) && Shape(a, true) == Shape(b, true)
  }

  lemma AlikeCharacter(c: char, a: string, b: string)
    requires Alike(a, b)
    ensures Alike([c] + a, [c] + b)
  {
    assert ([c] + a)[1..] == a && ([c] + b)[1..] == b;
  }

  lemma {:induction false} DigitsShape(value: string, a: string)
    requires Digits(value)
    ensures value != "" ==> Shape(value + a, true) == Shape(a, true)
    ensures IsNumber(value) ==> Shape(value + a, false) == "1" + Shape(a, true)
  {
    if value != "" {
      var rest := value[1..] + a;
      assert (value + a)[0] == value[0] && (value + a)[1..] == rest;
      DigitsShape(value[1..], a);
      assert value[1..] == "" ==> rest == a;
    }
  }

  /** One number in place of another does not change the shape. */
  lemma AlikeNumber(value: string, other: string, a: string, b: string)
    requires IsNumber(value) && IsNumber(other) && Alike(a, b)
    ensures Alike(value + a, other + b)
  {
    DigitsShape(value, a);
    DigitsShape(other, b);
  }

  /** The shape of a name with placeholders in it does not depend on the values. */
  lemma {:induction false} FilledAlike(x: string, value: string, other: string)
    requires Completes(x, true) && IsNumber(value) && IsNumber(other)
    ensures Alike(Filled(x, value), Filled(x, other))
    decreases |x|
  {
    if x[0] == '}' {
    } else if IsTokenChar(x[0]) {
      FilledAlike(x[1..], value, other);
      AlikeCharacter(x[0], Filled(x[1..], value), Filled(x[1..], other));
    } else {
      var rest := After(x[1..]);
      FilledAlike(rest, value, other);
      AlikeNumber(value, other, Filled(rest, value), Filled(rest, other));
    }
  }

  lemma FirstKept(x: string, token: string, value: string)
    requires IsName(token) && IsNumber(value)
    requires var r := Replaced(x, Placeholder(token), value); r != "" && !IsDigit(r[0])
    ensures x != "" && x[0] == Replaced(x, Placeholder(token), value)[0]
  {
  }

  /** Where a run comes out, there was one, or one with the token in it. */
  ghost predicate RunFrom(x: string, r: string, token: string, value: string)
    requires Run(r)
  {
    && Completes(x, true) && Filled(x, value) == Core(r)
    && (forall c | c in Inner(x) :: c == token)
    && (Completes(x, false) || (Run(x) && Core(x) == Core(r)))
  }

  lemma RunFromToken(x: string, y: string, r: string, token: string, value: string)
    requires IsName(token) && IsNumber(value) && Run(r) && RunFrom(y, r, token, value)
    requires x == Placeholder(token) + y
    ensures Run(value + r) && RunFrom(x, value + r, token, value)
  {
    PlaceholderIsGroup(token, y);
    DigitsRun(value, r);
  }

  lemma RunFromCharacter(x: string, r: string, token: string, value: string)
    requires x != "" && IsTokenChar(x[0]) && Run(r) && RunFrom(x[1..], r, token, value)
    ensures Run([x[0]] + r) && RunFrom(x, [x[0]] + r, token, value)
  {
    assert ([x[0]] + r)[1..] == r;
    if !Completes(x[1..], false) {
      assert Run(x) && Core(x) == [x[0]] + Core(x[1..]) == [x[0]] + Core(r);
    } else {
      assert Completes(x, false);
    }
  }

  lemma {:induction false} RunAfter(x: string, token: string, value: string)
    requires IsName(token) && IsNumber(value) && Run(Replaced(x, Placeholder(token), value))
    ensures RunFrom(x, Replaced(x, Placeholder(token), value), token, value)
    decreases |x|
  {
    if StartsWith(x, Placeholder(token)) {
      var y := x[|token| + 2..];
      assert x == Placeholder(token) + y;
      DigitsRun(value, Replaced(y, Placeholder(token), value));
      RunAfter(y, token, value);
      RunFromToken(x, y, Replaced(y, Placeholder(token), value), token, value);
    } else if x[0] != '}' {
      var r := Replaced(x[1..], Placeholder(token), value);
      assert ([x[0]] + r)[1..] == r;
      RunAfter(x[1..], token, value);
      RunFromCharacter(x, r, token, value);
    }
  }

  /** No placeholder of the family begins where none began, unless one was nested there. */
  lemma PlainStaysPlain(t: string, token: string, value: string, shapes: iset<string>)
    requires t != "" && !KnownGroup(t, shapes) && !NestAt(t, shapes) && Known(shapes, token) && IsNumber(value)
    ensures !KnownGroup([t[0]] + Replaced(t[1..], Placeholder(token), value), shapes)
  {
    var r := Replaced(t[1..], Placeholder(token), value);
    var after := [t[0]] + r;
    assert after[1..] == r;
    if KnownGroup(after, shapes) {
      FirstKept(t[1..], token, value);
      RunAfter(t[1..], token, value);
      FilledAlike(t[1..], value, "1");
    }
  }

  /** A group followed by a text: only the text can nest, and only the text can go on. */
  lemma {:induction false} RunNests(c: string, y: string, shapes: iset<string>)
    requires forall k | 0 <= k < |c| :: IsTokenChar(c[k])
    ensures !Completes(c + "}" + y, false)
    ensures Nests(c + "}" + y, shapes) <==> Nests(y, shapes)
  {
    var t := c + "}" + y;
    if c == "" {
      assert t[1..] == y;
    } else {
      RunNests(c[1..], y, shapes);
      assert t[0] == c[0] && t[1..] == c[1..] + "}" + y;
    }
  }

  lemma GroupNests(c: string, y: string, shapes: iset<string>)
    requires IsName(c)
    ensures Nests(Placeholder(c) + y, shapes) <==> Nests(y, shapes)
    ensures forall seen :: Completes(Placeholder(c) + y, seen) <==> Completes(y, true)
  {
    RunNests(c, y, shapes);
    PlaceholderIsGroup(c, y);
    assert (Placeholder(c) + y)[1..] == c + "}" + y;
  }

  /** The name that `r` completes is of the family, as far as its placeholders are. */
  ghost predicate InnerKnown(r: string, shapes: iset<string>)
    requires Completes(r, true)
  {
    forall c | c in Inner(r) :: Known(shapes, c)
  }

  /** `x` completes a name like the one of `r`. */
  ghost predicate CompletesFrom(x: string, r: string, shapes: iset<string>)
    requires Completes(r, true)
  {
    Completes(x, true) && InnerKnown(x, shapes) && Alike(Filled(x, "1"), Filled(r, "1"))
  }

  lemma CompletesFromCharacter(x: string, r: string, shapes: iset<string>)
    requires x != "" && IsTokenChar(x[0]) && Completes(r, true) && CompletesFrom(x[1..], r, shapes)
    ensures Completes([x[0]] + r, true) && CompletesFrom(x, [x[0]] + r, shapes)
  {
    assert ([x[0]] + r)[1..] == r;
    AlikeCharacter(x[0], Filled(x[1..], "1"), Filled(r, "1"));
  }

  lemma CompletesFromToken(c: string, y: string, r: string, value: string, shapes: iset<string>)
    requires Known(shapes, c) && IsNumber(value) && Completes(r, true) && CompletesFrom(y, r, shapes)
    ensures Completes(value + r, true) && CompletesFrom(Placeholder(c) + y, value + r, shapes)
  {
    GroupFill(c, y, "1");
    DigitsFill(value, r, "1");
    AlikeNumber("1", value, Filled(y, "1"), Filled(r, "1"));
  }

  lemma CompletesFromGroup(c: string, y: string, r: string, shapes: iset<string>)
    requires Known(shapes, c) && Completes(r, true) && CompletesFrom(y, r, shapes)
    ensures Completes(Placeholder(c) + r, true) && CompletesFrom(Placeholder(c) + y, Placeholder(c) + r, shapes)
  {
    GroupFill(c, y, "1");
    GroupFill(c, r, "1");
    AlikeNumber("1", "1", Filled(y, "1"), Filled(r, "1"));
  }

  /** What goes on with a placeholder, all known, begins with a placeholder of the family. */
  lemma InnerHead(r: string, shapes: iset<string>)
    requires Completes(r, true) && InnerKnown(r, shapes) && r[0] != '}' && !IsTokenChar(r[0])
    ensures KnownGroup(r, shapes)
  {
    GroupShape(r);
    assert Core(r[1..]) in Inner(r);
  }

  lemma {:induction false} CompletesAfter(x: string, token: string, value: string, seen: bool, shapes: iset<string>)
    requires Known(shapes, token) && IsNumber(value) && !Nests(x, shapes)
    requires var r := Replaced(x, Placeholder(token), value);
             Completes(r, seen) && Completes(r, true) && InnerKnown(r, shapes)
    ensures Completes(x, seen) && CompletesFrom(x, Replaced(x, Placeholder(token), value), shapes)
    decreases |x|
  {
    var p := Placeholder(token);
    match HeadOf(x, shapes)
    case Empty =>
    case Plain(y) =>
      PlainHead(x, token, value, map[], shapes);
      PlainStaysPlain(x, token, value, shapes);
      var r := Replaced(y, p, value);
      assert ([x[0]] + r)[1..] == r;
      if x[0] == '}' {
      } else {
        if !IsTokenChar(x[0]) {
          InnerHead([x[0]] + r, shapes);
        }
        CompletesAfter(y, token, value, seen, shapes);
        CompletesFromCharacter(x, r, shapes);
      }
    case Braced(c, y) =>
      GroupShape(x);
      GroupNests(c, y, shapes);
      NameHasNoBrace(token);
      GroupReplaced(c, y, token, value);
      var r := Replaced(y, p, value);
      if c == token {
        DigitsRun(value, r);
        DigitsFill(value, r, "1");
        CompletesAfter(y, token, value, seen, shapes);
        CompletesFromToken(c, y, r, value, shapes);
      } else {
        GroupNests(c, r, shapes);
        GroupFill(c, r, "1");
        CompletesAfter(y, token, value, true, shapes);
        CompletesFromGroup(c, y, r, shapes);
      }
  }

  /** Replacing a token by a number makes no nesting. */
  lemma {:induction false} NestsAfter(t: string, token: string, value: string, shapes: iset<string>)
    requires Known(shapes, token) && IsNumber(value) && !Nests(t, shapes)
    ensures !Nests(Replaced(t, Placeholder(token), value), shapes)
    decreases |t|
  {
    var p := Placeholder(token);
    match HeadOf(t, shapes)
    case Empty =>
    case Plain(x) =>
      NestsAfter(x, token, value, shapes);
      PlainHead(t, token, value, map[], shapes);
      var r := [t[0]] + Replaced(x, p, value);
      assert r[1..] == Replaced(x, p, value);
      if NestAt(r, shapes) {
        FirstKept(x, token, value);
        CompletesSeen(r[1..]);
        CompletesAfter(x, token, value, false, shapes);
      }
    case Braced(c, x) =>
      GroupShape(t);
      GroupNests(c, x, shapes);
      NestsAfter(x, token, value, shapes);
      NameHasNoBrace(token);
      GroupReplaced(c, x, token, value);
      DigitsNest(value, Replaced(x, p, value), shapes);
      GroupNests(c, Replaced(x, p, value), shapes);
  }

  lemma DigitsPlain(value: string)
    requires Digits(value)
    ensures '{' !in value
  {
  }

  /** Replacing one token first does not disturb the simultaneous substitution of the others. */
  lemma {:induction false} ReplacedThenSimultaneous(
    t: string, token: string, value: string, env: map<string, string>, shapes: iset<string>
  )
    requires !Nests(t, shapes) && Known(shapes, token) && IsNumber(value) && Names(env, shapes) && token !in env
    ensures Simultaneous(Replaced(t, Placeholder(token), value), env) == Simultaneous(t, env[token := value])
    decreases |t|
  {
    var p, all := Placeholder(token), env[token := value];
    match HeadOf(t, shapes)
    case Empty =>
    case Plain(x) =>
      ReplacedThenSimultaneous(x, token, value, env, shapes);
      PlainHead(t, token, value, all, shapes);
      PlainStaysPlain(t, token, value, shapes);
      var r := [t[0]] + Replaced(x, p, value);
      PlainHead(r, token, value, env, shapes);
      assert r[1..] == Replaced(x, p, value);
    case Braced(c, x) =>
      GroupShape(t);
      GroupNests(c, x, shapes);
      ReplacedThenSimultaneous(x, token, value, env, shapes);
      GroupEffect(c, x, token, value, all);
      var r := Replaced(x, p, value);
      if c == token {
        DigitsPlain(value);
        PlainRun(value, r, token, value, env);
      } else {
        GroupEffect(c, r, token, value, env);
      }
  }

  /** Replacing one token neither makes nor destroys occurrences of another. */
  lemma {:induction false} ReplacedKeepsOthers(
    t: string, token: string, value: string, other: string, shapes: iset<string>
  )
    requires !Nests(t, shapes) && Known(shapes, token) && IsNumber(value) && Known(shapes, other) && other != token
    ensures Occurs(Replaced(t, Placeholder(token), value), other) <==> Occurs(t, other)
    decreases |t|
  {
    var p := Placeholder(token);
    match HeadOf(t, shapes)
    case Empty =>
    case Plain(x) =>
      ReplacedKeepsOthers(x, token, value, other, shapes);
      PlainHead(t, token, value, map[], shapes);
      PlainHead(t, other, value, map[], shapes);
      PlainStaysPlain(t, token, value, shapes);
      var r := [t[0]] + Replaced(x, p, value);
      PlainHead(r, other, value, map[], shapes);
      assert r[1..] == Replaced(x, p, value);
    case Braced(c, x) =>
      GroupShape(t);
      GroupNests(c, x, shapes);
      NameHasNoBrace(token);
      NameHasNoBrace(other);
      ReplacedKeepsOthers(x, token, value, other, shapes);
      GroupReplaced(c, x, token, value);
      GroupOccurs(c, x, other);
      var r := Replaced(x, p, value);
      if c == token {
        DigitsPlain(value);
        PlainRunOccurs(value, r, other);
      } else {
        GroupOccurs(c, r, other);
      }
  }

  /** Tokens that do not occur make no difference. */
  lemma {:induction false} AbsentToken(t: string, token: string, value: string, env: map<string, string>)
    requires IsName(token) && Names(env, AnyShape) && !Occurs(t, token) && token !in env
    ensures Simultaneous(t, env[token := value]) == Simultaneous(t, env)
    ensures Replaced(t, Placeholder(token), value) == t
    decreases |t|
  {
    match HeadOf(t, AnyShape)
    case Empty =>
    case Plain(x) =>
      PlainHead(t, token, value, env, AnyShape);
      PlainHead(t, token, value, env[token := value], AnyShape);
      AbsentToken(x, token, value, env);
      assert t == [t[0]] + x;
    case Braced(c, x) =>
      GroupShape(t);
      NameHasNoBrace(token);
      GroupEffect(c, x, token, value, env);
      GroupEffect(c, x, token, value, env[token := value]);
      AbsentToken(x, token, value, env);
  }

  // ---------------------------------------------------------------- the theorem

  lemma {:induction false} SetPortsKeys(values: Values, token: string)
    requires forall i | 0 <= i < |values| :: values[i].0 != token
    ensures token !in SetPorts(values)
  {
    if values != [] {
      SetPortsKeys(values[1..], token);
    }
  }

  lemma DictionaryTail(values: Values, shapes: iset<string>)
    requires Dictionary(values, shapes) && values != []
    ensures Dictionary(values[1..], shapes) && values[0].0 !in SetPorts(values[1..])
    ensures forall i | 0 <= i < |values| - 1 :: values[1..][i] == values[i + 1]
  {
    SetPortsKeys(values[1..], values[0].0);
  }

  lemma UnsetOccursTail(t: string, u: string, values: Values)
    requires values != []
    requires forall i | 1 <= i < |values| :: Occurs(u, values[i].0) <==> Occurs(t, values[i].0)
    ensures UnsetOccurs(t, values) <==>
              (!IsSet(values[0].1) && Occurs(t, values[0].0)) || UnsetOccurs(u, values[1..])
  {
    if i :| 0 <= i < |values| && !IsSet(values[i].1) && Occurs(t, values[i].0) {
      assert i > 0 ==> values[1..][i - 1] == values[i];
    }
    if i :| 0 <= i < |values[1..]| && !IsSet(values[1..][i].1) && Occurs(u, values[1..][i].0) {
      assert values[i + 1] == values[1..][i];
    }
  }

  lemma {:induction false} SetPortsNames(values: Values, shapes: iset<string>)
    requires Dictionary(values, shapes)
    ensures Names(SetPorts(values), shapes)
  {
    if values != [] {
      DictionaryTail(values, shapes);
      SetPortsNames(values[1..], shapes);
    }
  }

  lemma DecimalIsNumber(n: nat)
    requires n != 0
    ensures IsNumber(Decimal(n))
  {
  }

  /**
    For every template in which no placeholder is nested in the name of another one, replacing token
    by token equals one simultaneous substitution, and the template is skipped exactly when it needs
    a known but unset port.
   */
  lemma {:induction false} IteratedIsSimultaneous(t: string, values: Values, shapes: iset<string>)
    requires Dictionary(values, shapes) && !Nests(t, shapes)
    ensures Iterated(t, values) == Intended(t, values)
    decreases |values|
  {
    if values == [] {
      NoTokens(t);
    } else {
      var (token, port) := values[0];
      DictionaryTail(values, shapes);
      SetPortsNames(values[1..], shapes);
      if !Occurs(t, token) {
        IteratedIsSimultaneous(t, values[1..], shapes);
        UnsetOccursTail(t, t, values);
        if IsSet(port) {
          AbsentToken(t, token, Decimal(port.value), SetPorts(values[1..]));
        }
      } else if IsSet(port) {
        var value := Decimal(port.value);
        var u := Replaced(t, Placeholder(token), value);
        DecimalIsNumber(port.value);
        ReplacedThenSimultaneous(t, token, value, SetPorts(values[1..]), shapes);
        forall i | 1 <= i < |values| ensures Occurs(u, values[i].0) <==> Occurs(t, values[i].0) {
          ReplacedKeepsOthers(t, token, value, values[i].0, shapes);
        }
        NestsAfter(t, token, value, shapes);
        IteratedIsSimultaneous(u, values[1..], shapes);
        UnsetOccursTail(t, u, values);
      }
    }
  }

  lemma {:induction false} NoTokens(t: string)
    ensures Simultaneous(t, map[]) == t
  {
    if t != "" {
      NoTokens(t[1..]);
      assert t == [t[0]] + t[1..];
    }
  }

  lemma {:induction false} SetPortsEntries(values: Values, shapes: iset<string>)
    requires Dictionary(values, shapes)
    ensures forall token :: token in SetPorts(values) <==>
              exists i | 0 <= i < |values| :: values[i].0 == token && IsSet(values[i].1)
    ensures forall i | 0 <= i < |values| && IsSet(values[i].1) ::
              SetPorts(values)[values[i].0] == Decimal(values[i].1.value)
  {
    if values != [] {
      DictionaryTail(values, shapes);
      SetPortsEntries(values[1..], shapes);
      var rest := SetPorts(values[1..]);
      forall token ensures token in SetPorts(values) <==>
                             exists i | 0 <= i < |values| :: values[i].0 == token && IsSet(values[i].1)
      {
        if i :| 0 <= i < |values| && values[i].0 == token && IsSet(values[i].1) {
          assert i > 0 ==> values[1..][i - 1] == values[i];
        }
        if i :| 0 <= i < |values[1..]| && values[1..][i].0 == token && IsSet(values[1..][i].1) {
          assert values[i + 1] == values[1..][i];
        }
      }
    }
  }

  predicate SameEntries(values: Values, other: Values) {
    (forall i | 0 <= i < |values| :: values[i] in other) && (forall i | 0 <= i < |other| :: other[i] in values)
  }

  lemma SameSetPorts(values: Values, other: Values, shapes: iset<string>)
    requires Dictionary(values, shapes) && Dictionary(other, shapes) && SameEntries(values, other)
    ensures SetPorts(values).Keys <= SetPorts(other).Keys
    ensures forall token | token in SetPorts(values) :: token in SetPorts(other) &&
              SetPorts(values)[token] == SetPorts(other)[token]
  {
    SetPortsEntries(values, shapes);
    SetPortsEntries(other, shapes);
    forall token | token in SetPorts(values)
      ensures token in SetPorts(other) && SetPorts(values)[token] == SetPorts(other)[token]
    {
      var i :| 0 <= i < |values| && values[i].0 == token && IsSet(values[i].1);
      var j :| 0 <= j < |other| && other[j] == values[i];
    }
  }

  lemma SameUnset(t: string, values: Values, other: Values)
    requires SameEntries(values, other) && UnsetOccurs(t, values)
    ensures UnsetOccurs(t, other)
  {
    var i :| 0 <= i < |values| && !IsSet(values[i].1) && Occurs(t, values[i].0);
    var j :| 0 <= j < |other| && other[j] == values[i];
  }

  /** The order of the dictionary plays no part for templates without nesting. */
  lemma OrderPlaysNoPart(t: string, values: Values, other: Values, shapes: iset<string>)
    requires Dictionary(values, shapes) && Dictionary(other, shapes) && !Nests(t, shapes)
    requires SameEntries(values, other)
    ensures Iterated(t, values) == Iterated(t, other)
  {
    IteratedIsSimultaneous(t, values, shapes);
    IteratedIsSimultaneous(t, other, shapes);
    SameIntended(t, values, other, shapes);
  }

  lemma SameIntended(t: string, values: Values, other: Values, shapes: iset<string>)
    requires Dictionary(values, shapes) && Dictionary(other, shapes) && SameEntries(values, other)
    ensures Intended(t, values) == Intended(t, other)
  {
    SameSetPorts(values, other, shapes);
    SameSetPorts(other, values, shapes);
    assert SetPorts(values) == SetPorts(other);
    if UnsetOccurs(t, values) {
      SameUnset(t, values, other);
    }
    if UnsetOccurs(t, other) {
      SameUnset(t, other, values);
    }
  }

  /**
    Braces of the file format itself do no harm: a template in which every opening brace is followed
    by something no name begins with, or begins a whole placeholder, has no nesting.
   */
  lemma {:induction false} FormatBraces(t: string, shapes: iset<string>)
    requires forall i | 0 <= i < |t| - 1 && t[i] == '{' :: IsUpper(t[i + 1]) ==> Run(t[i + 1..])
    ensures !Nests(t, shapes)
  {
    if t != "" {
      forall i | 0 <= i < |t[1..]| - 1 && t[1..][i] == '{' ensures IsUpper(t[1..][i + 1]) ==> Run(t[1..][i + 1..]) {
        assert t[i + 1] == '{' && t[1..][i + 1..] == t[i + 2..];
      }
      FormatBraces(t[1..], shapes);
      if NestAt(t, shapes) {
        var x := t[1..];
        RunShape(x);
        RunNests(Core(x), After(x), shapes);
        assert false;
      }
    }
  }

  // ---------------------------------------------------------------- nested placeholders

  lemma {:induction false} InnerNames(t: string)
    requires Completes(t, true)
    ensures forall c | c in Inner(t) :: IsName(c) && |c| < |t|
    decreases |t|
  {
    if t[0] == '}' {
    } else if IsTokenChar(t[0]) {
      InnerNames(t[1..]);
    } else {
      GroupShape(t);
      InnerNames(After(t[1..]));
    }
  }

  lemma {:induction false} FilledTokenChars(t: string, value: string)
    requires Completes(t, true) && Digits(value)
    ensures forall k | 0 <= k < |Filled(t, value)| :: IsTokenChar(Filled(t, value)[k])
    decreases |t|
  {
    if t[0] == '}' {
    } else if IsTokenChar(t[0]) {
      FilledTokenChars(t[1..], value);
    } else {
      FilledTokenChars(After(t[1..]), value);
    }
  }

  lemma {:induction false} FilledIsLong(t: string, value: string)
    requires Completes(t, false)
    ensures Completes(t, true) && |Filled(t, value)| >= |value|
    decreases |t|
  {
    CompletesSeen(t);
    if IsTokenChar(t[0]) {
      FilledIsLong(t[1..], value);
    }
  }

  lemma {:induction false} DigitsFill(digits: string, y: string, value: string)
    requires Digits(digits) && Completes(y, true)
    ensures Completes(digits + y, true)
    ensures Filled(digits + y, value) == digits + Filled(y, value) && Inner(digits + y) == Inner(y)
  {
    if digits == "" {
      assert digits + y == y;
      assert digits + Filled(y, value) == Filled(y, value);
    } else {
      DigitsFill(digits[1..], y, value);
      assert (digits + y)[0] == digits[0] && (digits + y)[1..] == digits[1..] + y;
      assert [digits[0]] + (digits[1..] + Filled(y, value)) == digits + Filled(y, value);
    }
  }

  lemma GroupFill(c: string, y: string, value: string)
    requires IsName(c) && Completes(y, true)
    ensures var t := Placeholder(c) + y;
            && Completes(t, true) && Filled(t, value) == value + Filled(y, value)
            && forall d :: d in Inner(t) <==> d == c || d in Inner(y)
  {
    PlaceholderIsGroup(c, y);
  }

  /** `y` fills up to the same name as `x`, with no other placeholders, and without `v`. */
  ghost predicate Nearer(x: string, y: string, v: string, value: string)
    requires Completes(x, true)
  {
    && Completes(y, true) && Filled(y, value) == Filled(x, value)
    && forall c | c in Inner(y) :: c in Inner(x) && c != v
  }

  lemma NearerGroup(c: string, x: string, y: string, v: string, value: string)
    requires IsName(c) && IsNumber(value) && Completes(x, true) && Nearer(x, y, v, value)
    ensures Completes(Placeholder(c) + x, true)
    ensures Nearer(Placeholder(c) + x, (if c == v then value else Placeholder(c)) + y, v, value)
  {
    GroupFill(c, x, value);
    if c == v {
      DigitsFill(value, y, value);
    } else {
      GroupFill(c, y, value);
    }
  }

  lemma NearerCharacter(x: string, y: string, v: string, value: string)
    requires x != "" && IsTokenChar(x[0]) && Completes(x[1..], true) && Nearer(x[1..], y, v, value)
    ensures Nearer(x, [x[0]] + y, v, value)
  {
    assert ([x[0]] + y)[1..] == y;
  }

  /** Replacing one of the placeholders brings the same name nearer. */
  lemma {:induction false} FillStep(x: string, v: string, value: string)
    requires Completes(x, true) && IsName(v) && IsNumber(value)
    ensures Nearer(x, Replaced(x, Placeholder(v), value), v, value)
    decreases |x|
  {
    match HeadOf(x, AnyShape)
    case Empty =>
    case Plain(rest) =>
      PlainHead(x, v, value, map[], AnyShape);
      if x[0] != '}' {
        FillStep(rest, v, value);
        NearerCharacter(x, Replaced(rest, Placeholder(v), value), v, value);
      }
    case Braced(c, rest) =>
      GroupShape(x);
      NameHasNoBrace(v);
      GroupReplaced(c, rest, v, value);
      FillStep(rest, v, value);
      NearerGroup(c, rest, Replaced(rest, Placeholder(v), value), v, value);
  }

  /** At the head of the text the name `o` comes out once the tokens `vs` are replaced. */
  predicate NamesHead(t: string, o: string, value: string, vs: seq<string>) {
    && t != "" && t[0] == '{' && Completes(t[1..], true)
    && Filled(t[1..], value) == o && forall c | c in Inner(t[1..]) :: c in vs
  }

  predicate NamesSome(t: string, o: string, value: string, vs: seq<string>) {
    t != "" && (NamesHead(t, o, value, vs) || NamesSome(t[1..], o, value, vs))
  }

  lemma {:induction false} NamesBehind(a: string, y: string, o: string, value: string, vs: seq<string>)
    requires '{' !in a
    ensures NamesSome(a + y, o, value, vs) <==> NamesSome(y, o, value, vs)
  {
    if a == "" {
      assert a + y == y;
    } else {
      assert (a + y)[0] == a[0] && (a + y)[1..] == a[1..] + y;
      NamesBehind(a[1..], y, o, value, vs);
    }
  }

  /** A whole placeholder names itself, and what is named behind it. */
  lemma GroupNames(c: string, y: string, o: string, value: string, vs: seq<string>)
    requires IsName(c)
    ensures NamesSome(Placeholder(c) + y, o, value, vs) <==> c == o || NamesSome(y, o, value, vs)
  {
    var t := Placeholder(c) + y;
    assert t[1..] == c + "}" + y && '{' !in c + "}";
    NamesBehind(c + "}", y, o, value, vs);
    RunFill(c, y, value);
  }

  lemma {:induction false} RunFill(c: string, y: string, value: string)
    requires forall k | 0 <= k < |c| :: IsTokenChar(c[k])
    ensures var t := c + "}" + y;
            Completes(t, true) && Filled(t, value) == c && Inner(t) == []
  {
    var t := c + "}" + y;
    if c == "" {
    } else {
      RunFill(c[1..], y, value);
      assert t[0] == c[0] && t[1..] == c[1..] + "}" + y;
    }
  }

  lemma {:induction false} NamesStep(t: string, o: string, value: string, vs: seq<string>)
    requires vs != [] && IsName(vs[0]) && IsNumber(value) && |o| > |vs[0]| && NamesSome(t, o, value, vs)
    ensures NamesSome(Replaced(t, Placeholder(vs[0]), value), o, value, vs[1..])
    decreases |t|
  {
    var v := vs[0];
    match HeadOf(t, AnyShape)
    case Empty =>
    case Plain(x) =>
      PlainHead(t, v, value, map[], AnyShape);
      var r := Replaced(x, Placeholder(v), value);
      assert ([t[0]] + r)[1..] == r;
      if NamesHead(t, o, value, vs) {
        FillStep(x, v, value);
        forall c | c in Inner(r) ensures c in vs[1..] {
          assert c in vs && c != v;
        }
      } else {
        NamesStep(x, o, value, vs);
      }
    case Braced(c, x) =>
      GroupShape(t);
      NameHasNoBrace(v);
      GroupNames(c, x, o, value, vs);
      GroupReplaced(c, x, v, value);
      var r := Replaced(x, Placeholder(v), value);
      if c != o {
        NamesStep(x, o, value, vs);
      }
      if c == v {
        DigitsPlain(value);
        NamesBehind(value, r, o, value, vs[1..]);
      } else {
        GroupNames(c, r, o, value, vs[1..]);
      }
  }

  lemma {:induction false} NoInner(x: string, value: string)
    requires Completes(x, true) && Inner(x) == []
    ensures Run(x) && Core(x) == Filled(x, value)
    decreases |x|
  {
    if x[0] != '}' {
      NoInner(x[1..], value);
    }
  }

  /** When nothing is left to replace, the placeholder of the name stands there. */
  lemma {:induction false} NamesDone(t: string, o: string, value: string)
    requires IsName(o) && NamesSome(t, o, value, [])
    ensures Occurs(t, o)
  {
    if NamesHead(t, o, value, []) {
      var x := t[1..];
      NothingIn(Inner(x), []);
      NoInner(x, value);
      RunShape(x);
      assert t == ['{'] + x;
      assert t == Placeholder(o) + After(x);
      assert t[..|o| + 2] == Placeholder(o);
    } else {
      NamesDone(t[1..], o, value);
    }
  }

  lemma NothingIn(cs: seq<string>, vs: seq<string>)
    requires forall c | c in cs :: c in vs
    ensures cs == [] || vs != []
  {
    if cs != [] {
      assert cs[0] in cs;
    }
  }

  /** Every nesting names something, longer than the value that goes in. */
  lemma {:induction false} NestNames(t: string, value: string, shapes: iset<string>)
    returns (o: string, vs: seq<string>)
    requires Nests(t, shapes) && IsNumber(value)
    ensures Known(shapes, o) && |o| >= |value| && NamesSome(t, o, value, vs)
    ensures forall i | 0 <= i < |vs| :: Known(shapes, vs[i]) && |vs[i]| < |t|
    ensures forall i, j | 0 <= i < j < |vs| :: vs[i] != vs[j]
  {
    if NestAt(t, shapes) {
      var x := t[1..];
      FilledIsLong(x, value);
      FilledTokenChars(x, value);
      FilledAlike(x, value, "1");
      InnerNames(x);
      o, vs := Filled(x, value), Inner(x);
      forall i | 0 <= i < |vs| ensures Known(shapes, vs[i]) && |vs[i]| < |t| {
        assert vs[i] in vs;
      }
    } else {
      o, vs := NestNames(t[1..], value, shapes);
    }
  }

  /** All tokens `vs` with the same port. */
  function Entries(vs: seq<string>, p: nat): (values: Values)
    ensures |values| == |vs| && forall i | 0 <= i < |vs| :: values[i] == (vs[i], Some(p))
  {
    seq(|vs|, i requires 0 <= i < |vs| => (vs[i], Some(p)))
  }

  lemma {:induction false} IteratedEntries(t: string, vs: seq<string>, p: nat, o: string)
    requires p != 0 && IsName(o) && NamesSome(t, o, Decimal(p), vs)
    requires forall i | 0 <= i < |vs| :: IsName(vs[i]) && |vs[i]| < |o|
    ensures Iterated(t, Entries(vs, p)).Some? && Occurs(Iterated(t, Entries(vs, p)).value, o)
    decreases |vs|
  {
    var values := Entries(vs, p);
    if vs == [] {
      NamesDone(t, o, Decimal(p));
    } else {
      DecimalIsNumber(p);
      NamesStep(t, o, Decimal(p), vs);
      assert values[1..] == Entries(vs[1..], p);
      if !Occurs(t, vs[0]) {
        AbsentToken(t, vs[0], Decimal(p), map[]);
      }
      IteratedEntries(Replaced(t, Placeholder(vs[0]), Decimal(p)), vs[1..], p, o);
    }
  }

  lemma {:induction false} IteratedConcat(t: string, first: Values, second: Values)
    requires Iterated(t, first).Some?
    ensures Iterated(t, first + second) == Iterated(Iterated(t, first).value, second)
    decreases |first|
  {
    if first == [] {
      assert first + second == second;
    } else {
      var (token, port) := first[0];
      assert (first + second)[0] == first[0] && (first + second)[1..] == first[1..] + second;
      var u := if Occurs(t, token) && IsSet(port) then Replaced(t, Placeholder(token), Decimal(port.value)) else t;
      IteratedConcat(u, first[1..], second);
    }
  }

  lemma {:induction false} OccursIsShort(t: string, token: string)
    requires Occurs(t, token)
    ensures |token| + 2 <= |t|
  {
    if !StartsWith(t, Placeholder(token)) {
      OccursIsShort(t[1..], token);
    }
  }

  lemma {:induction false} ReplacedShrinks(t: string, token: string, value: string)
    requires |value| <= |token|
    ensures |Replaced(t, Placeholder(token), value)| <= |t|
    ensures Occurs(t, token) ==> |Replaced(t, Placeholder(token), value)| < |t|
    decreases |t|
  {
    if t == "" {
    } else if StartsWith(t, Placeholder(token)) {
      ReplacedShrinks(t[|token| + 2..], token, value);
    } else {
      ReplacedShrinks(t[1..], token, value);
    }
  }

  lemma {:induction false} LongNumber(n: nat) returns (p: nat)
    ensures p != 0 && |Decimal(p)| > n
  {
    if n == 0 {
      p := 1;
    } else {
      var q := LongNumber(n - 1);
      p := 10 * q;
    }
  }

  lemma OneEntry(u: string, o: string, p: nat)
    requires p != 0
    ensures Iterated(u, [(o, Some(p))]) == Some(if Occurs(u, o) then Replaced(u, Placeholder(o), Decimal(p)) else u)
  {
    var one: Values := [(o, Some(p))];
    assert one[0] == (o, Some(p)) && one[1..] == [];
  }

  /**
    For every template with a nesting, the order decides. With the inner tokens first, the name they
    complete is replaced in turn; with that name first, it stays in the text.
   */
  lemma NestingDependsOnOrder(t: string, shapes: iset<string>) returns (values: Values, other: Values)
    requires Nests(t, shapes)
    ensures Dictionary(values, shapes) && Dictionary(other, shapes) && SameEntries(values, other)
    ensures Iterated(t, values).Some? && Iterated(t, other).Some? && Iterated(t, values) != Iterated(t, other)
  {
    var p := LongNumber(|t|);
    DecimalIsNumber(p);
    var o, vs := NestNames(t, Decimal(p), shapes);
    IteratedEntries(t, vs, p, o);
    if Occurs(t, o) {
      OccursIsShort(t, o);
    }
    InnerAndOuter(vs, p, o, shapes);
    TwoOrders(t, Entries(vs, p), o);
    values, other := Entries(vs, p) + [(o, Some(1))], [(o, Some(1))] + Entries(vs, p);
  }

  /** The inner tokens and the name they complete, in both orders. */
  lemma InnerAndOuter(vs: seq<string>, p: nat, o: string, shapes: iset<string>)
    requires Known(shapes, o) && forall i | 0 <= i < |vs| :: Known(shapes, vs[i]) && |vs[i]| < |o|
    requires forall i, j | 0 <= i < j < |vs| :: vs[i] != vs[j]
    ensures var inner, outer: Values := Entries(vs, p), [(o, Some(1))];
            && Dictionary(inner + outer, shapes) && Dictionary(outer + inner, shapes)
            && SameEntries(inner + outer, outer + inner)
  {
  }

  /** A name that does not stand in the text, but comes out of the inner tokens, is replaced last or not at all. */
  lemma TwoOrders(t: string, inner: Values, o: string)
    requires IsName(o) && Iterated(t, inner).Some? && !Occurs(t, o) && Occurs(Iterated(t, inner).value, o)
    ensures var outer: Values := [(o, Some(1))];
            && Iterated(t, inner + outer).Some? && Iterated(t, outer + inner).Some?
            && Iterated(t, inner + outer) != Iterated(t, outer + inner)
  {
    var u, outer: Values := Iterated(t, inner).value, [(o, Some(1))];
    OneEntry(t, o, 1);
    OneEntry(u, o, 1);
    IteratedConcat(t, inner, outer);
    IteratedConcat(t, outer, inner);
    ReplacedShrinks(u, o, Decimal(1));
  }

  /**
    Token by token is the intended substitution, for all dictionaries of a family of names, exactly for
    templates without a nesting of such names. With `AnyShape` the family has all token names.
   */
  lemma IntendedIff(t: string, shapes: iset<string>)
    ensures (forall values | Dictionary(values, shapes) :: Iterated(t, values) == Intended(t, values)) <==>
            !Nests(t, shapes)
  {
    if Nests(t, shapes) {
      var values, other := NestingDependsOnOrder(t, shapes);
      SameIntended(t, values, other, shapes);
    } else {
      forall values | Dictionary(values, shapes) ensures Iterated(t, values) == Intended(t, values) {
        IteratedIsSimultaneous(t, values, shapes);
      }
    }
  }

  /** The order plays no part, for all dictionaries of the family, exactly for templates without a nesting. */
  lemma OrderIff(t: string, shapes: iset<string>)
    ensures (forall values, other | Dictionary(values, shapes) && Dictionary(other, shapes) &&
               SameEntries(values, other) :: Iterated(t, values) == Iterated(t, other)) <==>
            !Nests(t, shapes)
  {
    if Nests(t, shapes) {
      var values, other := NestingDependsOnOrder(t, shapes);
    } else {
      forall values, other | Dictionary(values, shapes) && Dictionary(other, shapes) && SameEntries(values, other)
        ensures Iterated(t, values) == Iterated(t, other)
      {
        OrderPlaysNoPart(t, values, other, shapes);
      }
    }
  }

  // ---------------------------------------------------------------- the names in the panel's dictionaries

  /** The roles a blueprint port can have, besides the numbered ones of `custom`. */
  const Roles: set<string> := {"GAME", "QUERY", "RCON", "VOICE", "WEB", "PEER", "DATABASE"}

  /** `GAME_PORT`, `QUERY_2_PORT` for a repeated role, `CUSTOM_PORT_1`. */
  ghost predicate PanelName(name: string) {
    || (exists number :: IsNumber(number) && name == "CUSTOM_PORT_" + number)
    || (exists role | role in Roles :: name == role + "_PORT")
    || exists role, number | role in Roles && IsNumber(number) :: name == role + "_" + number + "_PORT"
  }

  ghost predicate PanelDictionary(values: Values) {
    && (forall i | 0 <= i < |values| :: PanelName(values[i].0))
    && (forall i, j | 0 <= i < j < |values| :: values[i].0 != values[j].0)
  }

  ghost const PanelShapes: iset<string> := iset shape: string |
    || shape == "CUSTOM_PORT_1"
    || (exists role | role in Roles :: shape == role + "_PORT")
    || exists role | role in Roles :: shape == role + "_1_PORT"

  predicate NoDigit(s: string) {
    forall k | 0 <= k < |s| :: !IsDigit(s[k])
  }

  lemma {:induction false} ShapeBehind(a: string, s: string)
    requires NoDigit(a)
    ensures Shape(a + s, false) == a + Shape(s, false)
    ensures Shape(a, true) == a
  {
    if a == "" {
      assert a + s == s;
    } else {
      ShapeBehind(a[1..], s);
      ShapeBehind(a[1..], "");
      assert a[1..] + "" == a[1..];
      assert (a + s)[1..] == a[1..] + s;
      assert [a[0]] + (a[1..] + Shape(s, false)) == a + Shape(s, false);
    }
  }

  lemma BesideNumber(number: string, b: string)
    requires NoDigit(b) && IsNumber(number)
    ensures Shape(number + b, false) == "1" + b
  {
    DigitsShape(number, b);
    ShapeBehind(b, "");
  }

  lemma JoinThree(a: string, b: string, c: string)
    ensures a + b + c == a + (b + c)
  {
  }

  /** The shape of a name with one number in it. */
  lemma OneNumber(a: string, number: string, b: string)
    requires NoDigit(a) && NoDigit(b) && IsNumber(number)
    ensures Shape(a + number + b, false) == a + "1" + b
  {
    ShapeBehind(a, number + b);
    BesideNumber(number, b);
    JoinThree(a, number, b);
    JoinThree(a, "1", b);
  }

  lemma {:induction false} WithoutNumber(c: string, b: string)
    requires NoDigit(b) && Shape(c, false) == b
    ensures c == b
  {
    if c != "" {
      assert !IsDigit(b[0]);
      WithoutNumber(c[1..], b[1..]);
    }
  }

  lemma {:induction false} NumberGoesOn(c: string, b: string) returns (digits: string)
    requires NoDigit(b) && Shape(c, true) == b
    ensures Digits(digits) && c == digits + b
  {
    if c == "" || !IsDigit(c[0]) {
      digits := "";
      if c != "" {
        WithoutNumber(c[1..], b[1..]);
      }
    } else {
      var rest := NumberGoesOn(c[1..], b);
      digits := [c[0]] + rest;
    }
  }

  /** A name of such a shape has one number in it. */
  lemma {:induction false} NumberInside(c: string, a: string, b: string) returns (number: string)
    requires NoDigit(a) && NoDigit(b) && Shape(c, false) == a + "1" + b
    ensures IsNumber(number) && c == a + number + b
  {
    if a == "" {
      assert Shape(c, false)[0] == '1' && Shape(c, false)[1..] == b;
      var rest := NumberGoesOn(c[1..], b);
      number := [c[0]] + rest;
    } else {
      assert Shape(c, false)[0] == a[0] && Shape(c, false)[1..] == a[1..] + "1" + b;
      number := NumberInside(c[1..], a[1..], b);
    }
  }

  lemma NumberTokenChars(a: string, number: string, b: string)
    requires IsName(a) && IsNumber(number) && forall k | 0 <= k < |b| :: IsTokenChar(b[k])
    ensures IsName(a + number + b)
  {
  }

  lemma RoleName(role: string)
    requires role in Roles
    ensures IsName(role) && NoDigit(role) && IsName(role + "_PORT") && NoDigit(role + "_PORT")
    ensures IsName(role + "_") && NoDigit(role + "_")
  {
  }

  /** The family given by `PanelShapes` is the one of the panel's dictionaries. */
  lemma PanelNamesIff(name: string)
    ensures Known(PanelShapes, name) <==> PanelName(name)
  {
    if PanelName(name) {
      PanelNameKnown(name);
    }
    if Known(PanelShapes, name) {
      KnownPanelName(name);
    }
  }

  lemma CustomKnown(number: string)
    requires IsNumber(number)
    ensures Known(PanelShapes, "CUSTOM_PORT_" + number)
  {
    var prefix := "CUSTOM_PORT_";
    OneNumber(prefix, number, "");
    NumberTokenChars(prefix, number, "");
    assert prefix + number + "" == prefix + number && prefix + "1" + "" == "CUSTOM_PORT_1";
  }

  lemma RoleKnown(role: string)
    requires role in Roles
    ensures Known(PanelShapes, role + "_PORT")
  {
    RoleName(role);
    ShapeBehind(role + "_PORT", "");
    assert role + "_PORT" + "" == role + "_PORT";
  }

  lemma NumberedKnown(role: string, number: string)
    requires role in Roles && IsNumber(number)
    ensures Known(PanelShapes, role + "_" + number + "_PORT")
  {
    var prefix, suffix := role + "_", "_PORT";
    RoleName(role);
    OneNumber(prefix, number, suffix);
    NumberTokenChars(prefix, number, suffix);
    assert prefix + "1" + suffix == role + "_1_PORT";
  }

  lemma PanelNameKnown(name: string)
    requires PanelName(name)
    ensures Known(PanelShapes, name)
  {
    if number :| IsNumber(number) && name == "CUSTOM_PORT_" + number {
      CustomKnown(number);
    } else if role :| role in Roles && name == role + "_PORT" {
      RoleKnown(role);
    } else {
      var role, number :| role in Roles && IsNumber(number) && name == role + "_" + number + "_PORT";
      NumberedKnown(role, number);
    }
  }

  lemma CustomName(name: string)
    requires Shape(name, false) == "CUSTOM_PORT_1"
    ensures PanelName(name)
  {
    var prefix := "CUSTOM_PORT_";
    assert prefix + "1" + "" == "CUSTOM_PORT_1";
    var number := NumberInside(name, prefix, "");
    assert name == prefix + number;
  }

  lemma NumberedName(name: string, role: string)
    requires role in Roles && Shape(name, false) == role + "_1_PORT"
    ensures PanelName(name)
  {
    var prefix, suffix := role + "_", "_PORT";
    RoleName(role);
    assert prefix + "1" + suffix == role + "_1_PORT";
    var number := NumberInside(name, prefix, suffix);
    assert name == role + "_" + number + "_PORT";
  }

  lemma KnownPanelName(name: string)
    requires Known(PanelShapes, name)
    ensures PanelName(name)
  {
    var shape := Shape(name, false);
    if shape == "CUSTOM_PORT_1" {
      CustomName(name);
    } else if role :| role in Roles && shape == role + "_PORT" {
      RoleName(role);
      WithoutNumber(name, shape);
    } else {
      var role :| role in Roles && shape == role + "_1_PORT";
      NumberedName(name, role);
    }
  }

  /** Token by token is the intended substitution, for all dictionaries of the panel, exactly without such a nesting. */
  lemma PanelIff(t: string)
    ensures (forall values | PanelDictionary(values) :: Iterated(t, values) == Intended(t, values)) <==>
            !Nests(t, PanelShapes)
  {
    forall name ensures Known(PanelShapes, name) <==> PanelName(name) {
      PanelNamesIff(name);
    }
    IntendedIff(t, PanelShapes);
  }

  lemma {:induction false} NamePart(a: string, y: string, value: string)
    requires (forall k | 0 <= k < |a| :: IsTokenChar(a[k])) && Completes(y, true)
    ensures Completes(a + y, true) && Completes(a + y, false) == Completes(y, false)
    ensures Filled(a + y, value) == a + Filled(y, value) && Inner(a + y) == Inner(y)
  {
    if a == "" {
      assert a + y == y && a + Filled(y, value) == Filled(y, value);
    } else {
      NamePart(a[1..], y, value);
      assert (a + y)[0] == a[0] && (a + y)[1..] == a[1..] + y;
      assert [a[0]] + (a[1..] + Filled(y, value)) == a + Filled(y, value);
    }
  }

  /** What is read behind one placeholder inside a name. */
  lemma InsideName(a: string, c: string, b: string)
    requires IsName(a) && IsName(c) && forall k | 0 <= k < |b| :: IsTokenChar(b[k])
    ensures var x := a + (Placeholder(c) + (b + "}"));
            && Completes(x, true) && Completes(x, false)
            && Inner(x) == [c] && Filled(x, "1") == a + ("1" + b)
  {
    NamePart(b, "}", "1");
    var y := b + "}";
    GroupFill(c, y, "1");
    GroupNests(c, y, AnyShape);
    PlaceholderIsGroup(c, y);
    NamePart(a, Placeholder(c) + y, "1");
  }

  /** One placeholder in the name of another: a nesting of the family exactly when both are names of it. */
  lemma OneNested(a: string, c: string, b: string, shapes: iset<string>)
    requires IsName(a) && IsName(c) && forall k | 0 <= k < |b| :: IsTokenChar(b[k])
    ensures NestAt("{" + (a + (Placeholder(c) + (b + "}"))), shapes) <==>
            Known(shapes, c) && Known(shapes, a + ("1" + b))
  {
    var x := a + (Placeholder(c) + (b + "}"));
    InsideName(a, c, b);
    assert ("{" + x)[1..] == x && x[0] == a[0];
    assert c in Inner(x);
  }

  // ---------------------------------------------------------------- the number that is written

  /** The number that digits stand for, the last one for the ones. */
  function Number(digits: string): nat
    requires Digits(digits)
  {
    if digits == "" then 0
    else 10 * Number(digits[..|digits| - 1]) + (digits[|digits| - 1] as int - '0' as int)
  }

  /** What is written for a port reads back as that port, and has no leading zero. */
  lemma {:induction false} DecimalReadsBack(n: nat)
    ensures Digits(Decimal(n)) && Number(Decimal(n)) == n
    ensures if n == 0 then Decimal(n) == "0" else Decimal(n)[0] != '0'
  {
    var digit := ('0' as int + n % 10) as char;
    if n < 10 {
      assert Decimal(n)[..0] == "";
    } else {
      DecimalReadsBack(n / 10);
      var d := Decimal(n);
      assert d[..|d| - 1] == Decimal(n / 10) && d[|d| - 1] == digit;
    }
  }

  /** Different ports are written differently. */
  lemma DecimalInjective(m: nat, n: nat)
    requires Decimal(m) == Decimal(n)
    ensures m == n
  {
    DecimalReadsBack(m);
    DecimalReadsBack(n);
  }

  /**
    One placeholder with text in front of it: skipped exactly when the port is unset or 0, and otherwise a
    number in its place that reads back as the port, between the same text and the rest.
   */
  lemma PlaceholderBecomesNumber(a: string, token: string, b: string, port: Option<nat>)
    requires '{' !in a && IsName(token) && !Occurs(b, token)
    ensures var result := Iterated(a + (Placeholder(token) + b), [(token, port)]);
            if port.None? || port.value == 0 then result == None
            else exists text :: Digits(text) && Number(text) == port.value && result == Some(a + (text + b))
  {
    var t := a + (Placeholder(token) + b);
    NameHasNoBrace(token);
    PlainRunOccurs(a, Placeholder(token) + b, token);
    GroupOccurs(token, b, token);
    var values: Values := [(token, port)];
    assert values[0] == (token, port) && values[1..] == [];
    if port.Some? && port.value != 0 {
      var text := Decimal(port.value);
      DecimalReadsBack(port.value);
      PlainRunReplaced(a, Placeholder(token) + b, token, text);
      GroupReplaced(token, b, token, text);
      AbsentToken(b, token, text, map[]);
    }
  }
}
