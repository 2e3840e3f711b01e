/**
  Batched decryption: cutting the values into batches under two limits, and the cache that a block
  of `vorab_entschluesselt` puts in front of single decryption.
 */
module DecryptionCache {
  import opened Wrappers
  import opened PyText

  /** A ciphertext with its additional authenticated data. */
  type Pair = (string, string)

  const MAX_CHARS := 6 * 1024 * 1024
  const MAX_VALUES := 5_000
  const PREFIX := "msm-dis-v1:"

  // ---------------------------------------------------------------- batches

  function Weight(p: Pair): nat {
    |p.0| + |p.1|
  }

  function Total(b: seq<Pair>): nat {
    if b == [] then 0 else Total(b[..|b| - 1]) + Weight(b[|b| - 1])
  }

  function Flat(batches: seq<seq<Pair>>): seq<Pair> {
    if batches == [] then [] else batches[0] + Flat(batches[1..])
  }

  /** Not empty, and within both limits unless it is a single value. */
  predicate Feasible(b: seq<Pair>) {
    b != [] && (|b| == 1 || (Total(b) <= MAX_CHARS && |b| <= MAX_VALUES))
  }

  predicate AllFeasible(batches: seq<seq<Pair>>) {
    forall i | 0 <= i < |batches| :: Feasible(batches[i])
  }

  /** The next value does not fit into the current batch. */
  predicate Overflows(batch: seq<Pair>, p: Pair) {
    batch != [] && (Total(batch) + Weight(p) > MAX_CHARS || |batch| >= MAX_VALUES)
  }

  /** The batches that come out when `batch` is open and `rest` is still to come. */
  function Greedy(batch: seq<Pair>, rest: seq<Pair>): seq<seq<Pair>>
    decreases |rest|
  {
    if rest == [] then (if batch == [] then [] else [batch])
    else if Overflows(batch, rest[0]) then [batch] + Greedy([rest[0]], rest[1..])
    else Greedy(batch + [rest[0]], rest[1..])
  }

  /** `_stapel`, the yielded batches collected in a list. */
  method Batches(pairs: seq<Pair>) returns (out: seq<seq<Pair>>)
    ensures out == Greedy([], pairs)
    ensures Flat(out) == pairs && AllFeasible(out)
    ensures forall cut | Flat(cut) == pairs && AllFeasible(cut) :: |out| <= |cut|
  {
    out := [];
    var batch: seq<Pair> := [];
    var chars := 0;
    for i := 0 to |pairs|
      invariant chars == Total(batch)
      invariant out + Greedy(batch, pairs[i..]) == Greedy([], pairs)
    {
      var pair := pairs[i];
      assert pairs[i..][0] == pair && pairs[i..][1..] == pairs[i + 1..];
      GreedyStep(out, batch, pairs[i..]);
      TotalAppend(batch, pair);
      TotalAppend([], pair);
      var length := |pair.0| + |pair.1|;
      if batch != [] && (chars + length > MAX_CHARS || |batch| >= MAX_VALUES) {
        out := out + [batch];
        batch, chars := [], 0;
      }
      batch := batch + [pair];
      chars := chars + length;
    }
    if batch != [] {
      out := out + [batch];
    }
    GreedyIsBestCut(pairs);
  }

  lemma GreedyIsBestCut(pairs: seq<Pair>)
    ensures Flat(Greedy([], pairs)) == pairs && AllFeasible(Greedy([], pairs))
    ensures forall cut | Flat(cut) == pairs && AllFeasible(cut) :: |Greedy([], pairs)| <= |cut|
  {
    GreedyKeepsAll([], pairs);
    assert [] + pairs == pairs;
    forall cut | Flat(cut) == pairs && AllFeasible(cut) ensures |Greedy([], pairs)| <= |cut| {
      GreedyIsMinimal(pairs, cut);
    }
  }

  lemma GreedyStep(done: seq<seq<Pair>>, batch: seq<Pair>, rest: seq<Pair>)
    requires rest != []
    ensures Overflows(batch, rest[0]) ==>
              done + Greedy(batch, rest) == done + [batch] + Greedy([] + [rest[0]], rest[1..])
    ensures !Overflows(batch, rest[0]) ==> done + Greedy(batch, rest) == done + Greedy(batch + [rest[0]], rest[1..])
  {
    assert [] + [rest[0]] == [rest[0]];
  }

  lemma TotalAppend(b: seq<Pair>, p: Pair)
    ensures Total(b + [p]) == Total(b) + Weight(p)
  {
    assert (b + [p])[..|b|] == b;
  }

  lemma {:induction false} TotalConcat(a: seq<Pair>, b: seq<Pair>)
    ensures Total(a + b) == Total(a) + Total(b)
    decreases |b|
  {
    if b == [] {
      assert a + b == a;
    } else {
      TotalConcat(a, b[..|b| - 1]);
      assert (a + b)[..|a + b| - 1] == a + b[..|b| - 1];
    }
  }

  /** What the limits are: more than one value may stand together up to six mebi characters and 5000 values. */
  lemma FeasibleIff(b: seq<Pair>)
    ensures Feasible(b) <==> |b| == 1 || (2 <= |b| <= 5000 && Total(b) <= 6291456)
  {
  }

  /** Both the ciphertext and its data count. */
  lemma TotalParts(a: seq<Pair>, p: Pair, b: seq<Pair>)
    ensures Total(a + [p] + b) == Total(a) + |p.0| + |p.1| + Total(b)
  {
    TotalConcat(a + [p], b);
    TotalAppend(a, p);
  }

  lemma FlatCons(b: seq<Pair>, batches: seq<seq<Pair>>)
    ensures Flat([b] + batches) == b + Flat(batches)
  {
    assert ([b] + batches)[1..] == batches;
  }

  /** Nothing is lost, repeated or reordered, and every batch is feasible. */
  lemma {:induction false} GreedyKeepsAll(batch: seq<Pair>, rest: seq<Pair>)
    requires batch == [] || Feasible(batch)
    ensures Flat(Greedy(batch, rest)) == batch + rest
    ensures AllFeasible(Greedy(batch, rest))
    decreases |rest|
  {
    if rest == [] {
      if batch != [] {
        FlatCons(batch, []);
        assert [batch] + [] == [batch];
      }
    } else {
      var p := rest[0];
      TotalAppend(batch, p);
      if Overflows(batch, p) {
        GreedyKeepsAll([p], rest[1..]);
        FlatCons(batch, Greedy([p], rest[1..]));
        assert [p] + rest[1..] == rest;
      } else {
        GreedyKeepsAll(batch + [p], rest[1..]);
        assert batch + [p] + rest[1..] == batch + rest;
      }
    }
  }

  predicate IsSuffix(a: seq<Pair>, b: seq<Pair>) {
    |a| <= |b| && b[|b| - |a|..] == a
  }

  lemma TotalOfPart(a: seq<Pair>, b: seq<Pair>, c: seq<Pair>)
    ensures Total(b) <= Total(a + b + c)
  {
    TotalConcat(a, b);
    TotalConcat(a + b, c);
  }

  /** Where a feasible batch goes on with `p`, no part of it that ends there overflows with `p`. */
  lemma FeasibleDoesNotOverflow(batch: seq<Pair>, taken: seq<Pair>, p: Pair, whole: seq<Pair>)
    requires IsSuffix(batch, taken)
    requires Feasible(whole) && |taken| < |whole| && whole[..|taken|] == taken && whole[|taken|] == p
    ensures !Overflows(batch, p)
  {
    var front, rest := taken[..|taken| - |batch|], whole[|taken| + 1..];
    assert taken == front + batch;
    SplitWhole(whole, front, batch, p, rest);
    TotalOfPart(front, batch + [p], rest);
    TotalAppend(batch, p);
  }

  lemma SplitWhole(whole: seq<Pair>, front: seq<Pair>, batch: seq<Pair>, p: Pair, rest: seq<Pair>)
    requires var n := |front| + |batch|;
             n < |whole| && whole[..n] == front + batch && whole[n] == p && whole[n + 1..] == rest
    ensures front + (batch + [p]) + rest == whole
  {
    var n := |front| + |batch|;
    assert whole == whole[..n] + [whole[n]] + whole[n + 1..];
    assert front + (batch + [p]) == (front + batch) + [p];
  }

  /**
    Greedy stays ahead. `taken` is what another cut has already put into its first batch when
    greedy has `batch` open: greedy needs at most one batch more, and none more when its open batch
    is no longer than the other one.
   */
  lemma {:induction false} GreedyStaysAhead(batch: seq<Pair>, rest: seq<Pair>, taken: seq<Pair>, cut: seq<seq<Pair>>)
    requires cut != [] && AllFeasible(cut)
    requires |taken| <= |cut[0]| && cut[0][..|taken|] == taken && Flat(cut) == taken + rest
    ensures |Greedy(batch, rest)| <= |cut| + 1
    ensures IsSuffix(batch, taken) ==> |Greedy(batch, rest)| <= |cut|
    decreases |rest|
  {
    if rest != [] {
      var p := rest[0];
      var more := cut[1..];
      assert Flat(cut) == cut[0] + Flat(more);
      if |taken| < |cut[0]| {
        assert Flat(cut)[|taken|] == cut[0][|taken|] == p;
        assert cut[0][..|taken| + 1] == taken + [p];
        assert Flat(cut) == taken + [p] + rest[1..];
        GreedyStaysAhead([p], rest[1..], taken + [p], cut);
        GreedyStaysAhead(batch + [p], rest[1..], taken + [p], cut);
        if IsSuffix(batch, taken) {
          FeasibleDoesNotOverflow(batch, taken, p, cut[0]);
          assert (taken + [p])[|taken| - |batch|..] == taken[|taken| - |batch|..] + [p];
        }
      } else {
        NextBatch(cut, taken, rest);
        GreedyStaysAhead([p], rest[1..], [p], more);
        GreedyStaysAhead(batch + [p], rest[1..], [p], more);
      }
    }
  }

  /** When the other cut's first batch is used up, the next value opens its next batch. */
  lemma NextBatch(cut: seq<seq<Pair>>, taken: seq<Pair>, rest: seq<Pair>)
    requires cut != [] && AllFeasible(cut) && cut[0] == taken && Flat(cut) == taken + rest && rest != []
    ensures |cut| >= 2 && AllFeasible(cut[1..])
    ensures cut[1..][0][..1] == [rest[0]] && Flat(cut[1..]) == [rest[0]] + rest[1..]
  {
    var more := cut[1..];
    assert Flat(cut) == taken + Flat(more);
    assert Flat(cut)[|taken|..] == rest && (taken + Flat(more))[|taken|..] == Flat(more);
    assert Flat(more) == rest;
    assert AllFeasible(more) by {
      forall i | 0 <= i < |more| ensures Feasible(more[i]) { assert more[i] == cut[i + 1]; }
    }
    assert more[0] != [] && Flat(more)[0] == more[0][0];
    assert [rest[0]] + rest[1..] == rest;
  }

  /** No cut into consecutive feasible batches uses fewer batches. */
  lemma GreedyIsMinimal(pairs: seq<Pair>, cut: seq<seq<Pair>>)
    requires Flat(cut) == pairs && AllFeasible(cut)
    ensures |Greedy([], pairs)| <= |cut|
  {
    if cut != [] {
      assert [] + pairs == pairs;
      GreedyStaysAhead([], pairs, [], cut);
    }
  }

  // ---------------------------------------------------------------- the cache

  /** Single decryption, a fixed function of ciphertext and data: the text or an error. */
  type Decrypt = Pair -> Result<string, string>

  /** The bulk call number `n`: `None` when it fails as a whole, else a text or `None` for each value. */
  type DecryptMany = (nat, seq<Pair>) -> Option<seq<Option<string>>>

  /** Bulk answers agree with single decryption, value by value, whichever calls and values fail. */
  ghost predicate Agrees(many: DecryptMany, single: Decrypt) {
    forall n: nat, batch, i: nat | many(n, batch).Some? && i < |batch| && i < |many(n, batch).value| ::
      many(n, batch).value[i].Some? ==> single(batch[i]) == Ok(many(n, batch).value[i].value)
  }

  /** No call fails and every value of a feasible batch is readable. */
  ghost predicate Reliable(many: DecryptMany) {
    forall n: nat, batch | Feasible(batch) ::
      && many(n, batch).Some? && |many(n, batch).value| == |batch|
      && forall i | 0 <= i < |batch| :: many(n, batch).value[i].Some?
  }

  type Texts = map<Pair, string>

  ghost predicate Correct(texts: Texts, single: Decrypt) {
    forall p | p in texts :: single(p) == Ok(texts[p])
  }

  predicate IsEncrypted(value: string) {
    StartsWith(value, PREFIX)
  }

  /** `dict.fromkeys`: every value once, in the order of its first occurrence. */
  function Distinct(pairs: seq<Pair>, seen: set<Pair>): (r: seq<Pair>)
    ensures forall p :: p in r <==> p in pairs && p !in seen
    ensures forall i, j | 0 <= i < j < |r| :: r[i] != r[j]
  {
    if pairs == [] then []
    else if pairs[0] in seen then Distinct(pairs[1..], seen)
    else [pairs[0]] + Distinct(pairs[1..], seen + {pairs[0]})
  }

  /** What the code inside a block does: reading columns, opening nested blocks over the rows of a query. */
  datatype Program =
    | Done
    | Read(value: Option<string>, aad: string, rest: Program)
    | Block(rows: seq<Pair>, body: Program, rest: Program)

  /** The values read, and the error that ended the program, if any. */
  datatype Outcome = Outcome(values: seq<Option<string>>, error: Option<string>)

  /** One read without any cache: missing values and old plain text pass through. */
  function ReadSingle(value: Option<string>, aad: string, single: Decrypt): Result<Option<string>, string> {
    if value.None? || !IsEncrypted(value.value) then Ok(value)
    else match single((value.value, aad)) case Ok(text) => Ok(Some(text)) case Err(e) => Err(e)
  }

  /** The meaning of a program when blocks are ignored and every value is decrypted by itself. */
  function Meaning(p: Program, single: Decrypt): Outcome {
    match p
    case Done => Outcome([], None)
    case Read(value, aad, rest) =>
      (match ReadSingle(value, aad, single)
       case Err(e) => Outcome([], Some(e))
       case Ok(v) => var tail := Meaning(rest, single); Outcome([v] + tail.values, tail.error))
    case Block(_, body, rest) =>
      var inner := Meaning(body, single);
      if inner.error.Some? then inner
      else var tail := Meaning(rest, single); Outcome(inner.values + tail.values, tail.error)
  }

  /** The reads of a program in order, blocks or no blocks. */
  function Reads(p: Program): seq<(Option<string>, string)> {
    match p
    case Done => []
    case Read(value, aad, rest) => [(value, aad)] + Reads(rest)
    case Block(_, body, rest) => Reads(body) + Reads(rest)
  }

  /** A missing value and old plain text are read as they are, a ciphertext as its own decryption. */
  predicate Gives(read: (Option<string>, string), single: Decrypt, v: Option<string>) {
    match read.0
    case None => v == None
    case Some(text) =>
      if !StartsWith(text, "msm-dis-v1:") then v == Some(text)
      else v.Some? && single((text, read.1)) == Ok(v.value)
  }

  /** Only a ciphertext fails, with the error of its own decryption. */
  predicate FailsWith(read: (Option<string>, string), single: Decrypt, error: string) {
    read.0.Some? && StartsWith(read.0.value, "msm-dis-v1:") && single((read.0.value, read.1)) == Err(error)
  }

  /** The outcome of the reads: the values up to the first that fails, and its error, or all of them. */
  predicate OutcomeOf(rs: seq<(Option<string>, string)>, single: Decrypt, out: Outcome) {
    && |out.values| <= |rs|
    && (forall k | 0 <= k < |out.values| :: Gives(rs[k], single, out.values[k]))
    && match out.error
       case None => |out.values| == |rs|
       case Some(e) => |out.values| < |rs| && FailsWith(rs[|out.values|], single, e)
  }

  lemma OutcomeConcat(a: seq<(Option<string>, string)>, b: seq<(Option<string>, string)>, single: Decrypt,
                      first: Outcome, second: Outcome)
    requires OutcomeOf(a, single, first) && OutcomeOf(b, single, second)
    ensures first.error.Some? ==> OutcomeOf(a + b, single, first)
    ensures first.error.None? ==> OutcomeOf(a + b, single, Outcome(first.values + second.values, second.error))
  {
  }

  /** The meaning of a program is that of its reads. */
  lemma {:induction false} MeaningIsReads(p: Program, single: Decrypt)
    ensures OutcomeOf(Reads(p), single, Meaning(p, single))
  {
    match p
    case Done =>
    case Read(value, aad, rest) =>
      MeaningIsReads(rest, single);
      var one := match ReadSingle(value, aad, single)
                 case Ok(v) => Outcome([v], None)
                 case Err(e) => Outcome([], Some(e));
      assert OutcomeOf([(value, aad)], single, one);
      OutcomeConcat([(value, aad)], Reads(rest), single, one, Meaning(rest, single));
    case Block(_, body, rest) =>
      MeaningIsReads(body, single);
      MeaningIsReads(rest, single);
      OutcomeConcat(Reads(body), Reads(rest), single, Meaning(body, single), Meaning(rest, single));
  }

  /** Every ciphertext that is read stands among the rows of a block around it, or is known already. */
  predicate Covered(p: Program, known: set<Pair>) {
    match p
    case Done => true
    case Read(value, aad, rest) =>
      (value.None? || !IsEncrypted(value.value) || (value.value, aad) in known) && Covered(rest, known)
    case Block(rows, body, rest) =>
      Covered(body, known + (set row | row in rows && row.0 != "" && IsEncrypted(row.0))) && Covered(rest, known)
  }

  lemma {:induction false} CoveredByMore(p: Program, known: set<Pair>, more: set<Pair>)
    requires Covered(p, known) && known <= more
    ensures Covered(p, more)
    decreases p
  {
    match p
    case Done =>
    case Read(_, _, rest) => CoveredByMore(rest, known, more);
    case Block(rows, body, rest) =>
      var fetched := set row | row in rows && row.0 != "" && IsEncrypted(row.0);
      CoveredByMore(body, known + fetched, more + fetched);
      CoveredByMore(rest, known, more);
  }

  /** The bulk calls of all blocks together. */
  function BulkTotal(p: Program): nat {
    match p
    case Done => 0
    case Read(_, _, rest) => BulkTotal(rest)
    case Block(rows, body, rest) => BulkCallsFor(rows) + BulkTotal(body) + BulkTotal(rest)
  }

  function Known(cache: Option<Texts>): set<Pair> {
    if cache.Some? then cache.value.Keys else {}
  }

  /** The pairs of a batch with the texts they came back with; the shorter list decides, `None` is left out. */
  function Zip(batch: seq<Pair>, answer: seq<Option<string>>): (r: Texts)
    ensures forall p | p in r :: exists i | 0 <= i < |batch| && i < |answer| :: batch[i] == p && answer[i] == Some(r[p])
    ensures |answer| >= |batch| && (forall i | 0 <= i < |batch| :: answer[i].Some?) ==> forall p | p in batch :: p in r
  {
    if batch == [] || answer == [] then map[]
    else
      var head := if answer[0].Some? then map[batch[0] := answer[0].value] else map[];
      head + Zip(batch[1..], answer[1..])
  }

  lemma {:induction false} FlatSnoc(batches: seq<seq<Pair>>, i: nat)
    requires i < |batches|
    ensures Flat(batches[..i + 1]) == Flat(batches[..i]) + batches[i]
    decreases |batches|
  {
    if i == 0 {
      FlatCons(batches[0], []);
      assert batches[..1] == [batches[0]] + [] && Flat([]) == [];
      assert batches[0] + [] == [] + batches[0];
    } else {
      FlatSnoc(batches[1..], i - 1);
      assert batches[..i + 1] == [batches[0]] + batches[1..][..i] &&
          batches[..i] == [batches[0]] + batches[1..][..i - 1];
      FlatCons(batches[0], batches[1..][..i]);
      FlatCons(batches[0], batches[1..][..i - 1]);
      var middle := Flat(batches[1..][..i - 1]);
      assert batches[0] + (middle + batches[i]) == batches[0] + middle + batches[i];
    }
  }

  lemma ZipCorrect(many: DecryptMany, single: Decrypt, n: nat, batch: seq<Pair>)
    requires Agrees(many, single) && many(n, batch).Some?
    ensures Correct(Zip(batch, many(n, batch).value), single)
    ensures forall p | p in Zip(batch, many(n, batch).value) :: p in batch
  {
  }

  lemma {:induction false} DistinctAgain(pairs: seq<Pair>, seen: set<Pair>)
    requires forall i, j | 0 <= i < j < |pairs| :: pairs[i] != pairs[j]
    requires forall i | 0 <= i < |pairs| :: pairs[i] !in seen
    ensures Distinct(pairs, seen) == pairs
  {
    if pairs != [] {
      DistinctAgain(pairs[1..], seen + {pairs[0]});
      assert pairs == [pairs[0]] + pairs[1..];
    }
  }

  /** The bulk calls for the raw values of a query: one for each of as few batches as possible. */
  function BulkCallsFor(rows: seq<Pair>): nat {
    |Greedy([], Distinct(Encrypted(rows), {}))|
  }

  class Session {
    /** The context variable: outside every block `None`. */
    var cache: Option<Texts>
    var bulkCalls: nat
    var singleCalls: nat
    const single: Decrypt
    const many: DecryptMany

    constructor (single: Decrypt, many: DecryptMany)
      ensures cache == None && this.single == single && this.many == many && singleCalls == 0
    {
      this.single, this.many, cache, bulkCalls, singleCalls := single, many, None, 0, 0;
    }

    ghost predicate Valid()
      reads this
    {
      Agrees(many, single) && (cache.Some? ==> Correct(cache.value, single))
    }

    /** One bulk call and what it adds to the texts. */
    method DecryptBatch(batch: seq<Pair>, texts: Texts) returns (more: Texts)
      requires Valid() && Correct(texts, single) && Feasible(batch)
      modifies this`bulkCalls
      ensures Valid() && Correct(more, single) && bulkCalls == old(bulkCalls) + 1
      ensures texts.Keys <= more.Keys && forall p | p in more :: p in texts || p in batch
      ensures Reliable(many) ==> forall p | p in batch :: p in more
    {
      var answer := many(bulkCalls, batch);
      more := texts;
      if answer.Some? {
        ZipCorrect(many, single, bulkCalls, batch);
        more := texts + Zip(batch, answer.value);
      }
      bulkCalls := bulkCalls + 1;
    }

    /** `gebuendelt_entschluesseln`: what a failed call or an unreadable value would have given is missing. */
    method DecryptBulk(pairs: seq<Pair>) returns (texts: Texts)
      requires Valid()
      modifies this`bulkCalls
      ensures Valid() && Correct(texts, single)
      ensures forall p | p in texts :: p in pairs
      ensures Reliable(many) ==> forall p | p in pairs :: p in texts
      ensures bulkCalls == old(bulkCalls) + |Greedy([], Distinct(pairs, {}))|
    {
      texts := map[];
      var distinct := Distinct(pairs, {});
      var batches := Batches(distinct);
      for i := 0 to |batches|
        invariant Valid() && Correct(texts, single) && bulkCalls == old(bulkCalls) + i
        invariant forall p | p in texts :: p in Flat(batches[..i])
        invariant Reliable(many) ==> forall p | p in Flat(batches[..i]) :: p in texts
      {
        FlatSnoc(batches, i);
        texts := DecryptBatch(batches[i], texts);
      }
      assert batches[..|batches|] == batches;
    }

    /** `process_result_value` */
    method ReadColumn(value: Option<string>, aad: string) returns (r: Result<Option<string>, string>)
      requires Valid()
      modifies this`singleCalls
      ensures Valid() && r == ReadSingle(value, aad, single)
      ensures r.Ok? ==> Gives((value, aad), single, r.value)
      ensures r.Err? ==> FailsWith((value, aad), single, r.error)
      ensures value.None? || !IsEncrypted(value.value) || (value.value, aad) in Known(cache) ==>
                r.Ok? && singleCalls == old(singleCalls)
      ensures cache.Some? && value.Some? && (value.value, aad) in cache.value ==> singleCalls == old(singleCalls)
    {
      if value.None? || !IsEncrypted(value.value) {
        return Ok(value);
      }
      if cache.Some? && (value.value, aad) in cache.value {
        return Ok(Some(cache.value[(value.value, aad)]));
      }
      singleCalls := singleCalls + 1;
      var text := single((value.value, aad));
      r := match text case Ok(t) => Ok(Some(t)) case Err(e) => Err(e);
    }

    /** Entering `vorab_entschluesselt`: the outer texts and the new ones together; the old value is the token. */
    method Enter(rows: seq<Pair>) returns (token: Option<Texts>)
      requires Valid()
      modifies this`cache, this`bulkCalls
      ensures Valid() && token == old(cache) && cache.Some?
      ensures Known(old(cache)) <= Known(cache)
      ensures Reliable(many) ==> forall p | p in rows && p.0 != "" && IsEncrypted(p.0) :: p in cache.value
      ensures bulkCalls == old(bulkCalls) + BulkCallsFor(rows)
    {
      token := cache;
      var pairs := Distinct(Encrypted(rows), {});
      var texts := if cache.Some? then cache.value else map[];
      DistinctAgain(pairs, {});
      var more := DecryptBulk(pairs);
      cache := Some(texts + more);
    }

    /**
      Running a program with its blocks gives exactly what single decryption gives, whatever fails in
      bulk and however blocks are nested, and leaving a block, by an error too, restores the outer cache.
      When nothing fails and every ciphertext stands among the rows of a block around its read, no value is
      decrypted by itself, and there are as many bulk calls as the blocks need for their batches.
     */
    method Run(p: Program) returns (out: Outcome)
      requires Valid()
      modifies this
      ensures Valid() && out == Meaning(p, single)
      ensures cache == old(cache)
      ensures Reliable(many) && Covered(p, Known(old(cache))) ==>
                out.error.None? && singleCalls == old(singleCalls) && bulkCalls == old(bulkCalls) + BulkTotal(p)
    {
      match p
      case Done =>
        out := Outcome([], None);
      case Read(value, aad, rest) =>
        var r := ReadColumn(value, aad);
        if r.Err? {
          return Outcome([], Some(r.error));
        }
        var tail := Run(rest);
        out := Outcome([r.value] + tail.values, tail.error);
      case Block(rows, body, rest) =>
        ghost var fetched := set row | row in rows && row.0 != "" && IsEncrypted(row.0);
        var token := Enter(rows);
        if Reliable(many) && Covered(body, Known(token) + fetched) {
          CoveredByMore(body, Known(token) + fetched, Known(cache));
        }
        var inner := Run(body);
        cache := token;
        if inner.error.Some? {
          return inner;
        }
        var tail := Run(rest);
        out := Outcome(inner.values + tail.values, tail.error);
    }
  }

  /** The raw values of the query that are worth a bulk call. */
  function Encrypted(rows: seq<Pair>): (r: seq<Pair>)
    ensures forall p :: p in r <==> p in rows && p.0 != "" && IsEncrypted(p.0)
  {
    if rows == [] then []
    else (if rows[0].0 != "" && IsEncrypted(rows[0].0) then [rows[0]] else []) + Encrypted(rows[1..])
  }
}
