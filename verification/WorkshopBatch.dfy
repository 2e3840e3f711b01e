/**
  Workshop downloads in chunks: one container run per chunk, one retry for what failed, and the
  bookkeeping of `install_mods` around them; also the bounded log buffer the runs write to.
 */
module WorkshopBatch {
  import opened Wrappers
  import opened PyText

  const BATCH_SIZE := 25

  // ---------------------------------------------------------------- chunks

  /** `str(wid).strip()` for every id, blank ones left out. */
  function Clean(ids: seq<string>): seq<string> {
    if ids == [] then []
    else (if Strip(ids[0]) != "" then [Strip(ids[0])] else []) + Clean(ids[1..])
  }

  /** Ids in order: a blank one is left out, any other one loses the white space at its ends. */
  lemma CleanOne(id: string)
    ensures Clean([id]) == if Blank(id) then [] else [Strip(id)]
  {
    StripEmptyIff(id);
    var first := if Strip(id) != "" then [Strip(id)] else [];
    assert [id][1..] == [] && Clean([id]) == first + [] == first;
  }

  lemma CleanParts(a: seq<string>, id: string, b: seq<string>) returns (front: string, back: string)
    ensures Blank(id) ==> Clean(a + [id] + b) == Clean(a) + Clean(b)
    ensures !Blank(id) ==>
              && Clean(a + [id] + b) == Clean(a) + [Strip(id)] + Clean(b)
              && id == front + Strip(id) + back && Blank(front) && Blank(back)
              && Strip(id) != "" && !IsSpace(Strip(id)[0]) && !IsSpace(Strip(id)[|Strip(id)| - 1])
  {
    front, back := StripDropsEnds(id);
    StripEmptyIff(id);
    CleanConcat(a + [id], b);
    CleanConcat(a, [id]);
    CleanOne(id);
    NothingBehind(Clean(a));
  }

  lemma NothingBehind(ids: seq<string>)
    ensures ids + [] == ids
  {
  }

  lemma {:induction false} CleanConcat(a: seq<string>, b: seq<string>)
    ensures Clean(a + b) == Clean(a) + Clean(b)
  {
    if a == [] {
      assert a + b == b;
    } else {
      assert (a + b)[0] == a[0] && (a + b)[1..] == a[1..] + b;
      CleanConcat(a[1..], b);
      var first := if Strip(a[0]) != "" then [Strip(a[0])] else [];
      assert first + (Clean(a[1..]) + Clean(b)) == first + Clean(a[1..]) + Clean(b);
    }
  }

  function Chunks(ids: seq<string>): seq<seq<string>> {
    if ids == [] then []
    else if |ids| <= BATCH_SIZE then [ids]
    else [ids[..BATCH_SIZE]] + Chunks(ids[BATCH_SIZE..])
  }

  function Joined(chunks: seq<seq<string>>): seq<string> {
    if chunks == [] then [] else chunks[0] + Joined(chunks[1..])
  }

  /** The chunks join to the list, and every one of them passes the size check of the download. */
  lemma {:induction false} ChunksCover(ids: seq<string>)
    ensures Joined(Chunks(ids)) == ids
    ensures forall i | 0 <= i < |Chunks(ids)| :: 1 <= |Chunks(ids)[i]| <= BATCH_SIZE
    ensures BATCH_SIZE * (|Chunks(ids)| - 1) < |ids| || ids == []
    ensures |ids| <= BATCH_SIZE * |Chunks(ids)|
  {
    if ids == [] {
    } else if |ids| <= BATCH_SIZE {
      assert [ids][1..] == [] && ids + [] == ids;
    } else {
      ChunksCover(ids[BATCH_SIZE..]);
      assert Chunks(ids)[1..] == Chunks(ids[BATCH_SIZE..]);
      assert ids == ids[..BATCH_SIZE] + ids[BATCH_SIZE..];
    }
  }

  lemma {:induction false} JoinedSnoc(chunks: seq<seq<string>>, i: nat)
    requires i < |chunks|
    ensures Joined(chunks[..i + 1]) == Joined(chunks[..i]) + chunks[i]
    decreases i
  {
    assert chunks[..i + 1][1..] == chunks[1..][..i];
    if i == 0 {
      assert chunks[..1][1..] == [] && chunks[0] + [] == [] + chunks[0];
    } else {
      assert chunks[..i][1..] == chunks[1..][..i - 1];
      JoinedSnoc(chunks[1..], i - 1);
      var middle := Joined(chunks[1..][..i - 1]);
      assert chunks[0] + (middle + chunks[i]) == chunks[0] + middle + chunks[i];
    }
  }

  // ---------------------------------------------------------------- one batch with its retry

  type Items = map<string, bool>

  /** What one container run makes visible: the ids it leaves installed. */
  type RunOutcome = (nat, seq<string>) -> set<string>

  function SetOf(ids: seq<string>): set<string> {
    set id | id in ids
  }

  /** The ids that are not yet good, each once, in order of first occurrence. */
  function Failed(ids: seq<string>, items: Items, seen: set<string>): (r: seq<string>)
    ensures forall id :: id in r <==> id in ids && id !in seen && !(id in items && items[id])
    ensures |r| <= |ids|
  {
    if ids == [] then []
    else if ids[0] in seen || (ids[0] in items && items[ids[0]]) then Failed(ids[1..], items, seen)
    else [ids[0]] + Failed(ids[1..], items, seen + {ids[0]})
  }

  /** What the run number `n` says about each of the ids. */
  function Answers(outcome: RunOutcome, n: nat, ids: seq<string>): Items {
    map id | id in SetOf(ids) :: id in outcome(n, ids)
  }

  /** Some run that the id took part in has left it installed. */
  ghost predicate Obtained(outcome: RunOutcome, id: string) {
    exists n: nat, ids :: id in ids && id in outcome(n, ids)
  }

  /** Every run that the id takes part in leaves it installed. */
  ghost predicate AlwaysGood(outcome: RunOutcome, id: string) {
    forall n: nat, ids | id in ids :: id in outcome(n, ids)
  }

  class Downloader {
    /** Container runs so far. */
    var runs: nat
    /** Login lookups so far, and whether each of them finds an account. */
    var lookups: nat
    const outcome: RunOutcome
    const login: nat -> bool
    const needsLogin: bool

    constructor (outcome: RunOutcome, login: nat -> bool, needsLogin: bool)
      ensures this.outcome == outcome && this.login == login && this.needsLogin == needsLogin && runs == 0
    {
      this.outcome, this.login, this.needsLogin, runs, lookups := outcome, login, needsLogin, 0, 0;
    }

    method FindLogin() returns (found: bool)
      modifies this`lookups
      ensures found == (!needsLogin || login(old(lookups)))
      ensures lookups == old(lookups) + if needsLogin then 1 else 0
    {
      found := true;
      if needsLogin {
        found := login(lookups);
        lookups := lookups + 1;
      }
    }

    /** The download of one batch without retry; `None` when no account is found. */
    method Once(ids: seq<string>) returns (items: Option<Items>)
      requires 1 <= |ids| <= BATCH_SIZE
      modifies this`runs, this`lookups
      ensures items == if !needsLogin || login(old(lookups)) then Some(Answers(outcome, old(runs), ids)) else None
      ensures runs == old(runs) + if items.Some? then 1 else 0
      ensures lookups == old(lookups) + if needsLogin then 1 else 0
    {
      var found := FindLogin();
      if !found {
        return None;
      }
      var good := outcome(runs, ids);
      runs := runs + 1;
      items := Some(map id | id in SetOf(ids) :: id in good);
      assert items.value == Answers(outcome, old(runs), ids);
    }

    /**
      `run_steamcmd_workshop_download_batch` with its retry. An empty list needs no run and a list over
      the batch size is rejected without one. Otherwise there are at most two container runs; an id
      is good exactly when one of the runs it took part in made it so, and it takes part in the
      second one only when the first one failed for it.
     */
    method Batch(ids: seq<string>) returns (items: Option<Items>)
      modifies this`runs, this`lookups
      ensures runs <= old(runs) + 2
      ensures ids == [] || |ids| > BATCH_SIZE ==>
                runs == old(runs) && items.Some? && forall id | id in ids :: id in items.value && !items.value[id]
      ensures 1 <= |ids| <= BATCH_SIZE ==> (items.None? <==> needsLogin && !login(old(lookups)))
      ensures items.None? ==> runs == old(runs)
      ensures items.Some? ==> items.value.Keys == SetOf(ids)
      ensures items.Some? && 1 <= |ids| <= BATCH_SIZE ==>
                var first := Answers(outcome, old(runs), ids);
                var again := Failed(ids, first, {});
                if again == [] || (needsLogin && !login(old(lookups) + 1))
                then runs == old(runs) + 1 && items.value == first
                else
                  && runs == old(runs) + 2
                  && forall id | id in ids :: items.value[id] == (first[id] || id in outcome(old(runs) + 1, again))
      ensures items.Some? ==> forall id | id in ids && items.value[id] :: Obtained(outcome, id)
      ensures items.Some? && |ids| <= BATCH_SIZE ==> forall id | id in ids && AlwaysGood(outcome, id) :: items.value[id]
    {
      if ids == [] || |ids| > BATCH_SIZE {
        return Some(map id | id in SetOf(ids) :: false);
      }
      items := Once(ids);
      if items.None? {
        return;
      }
      var first := items.value;
      var again := Failed(ids, first, {});
      if again == [] {
        return;
      }
      var retried := Once(again);
      if retried.Some? {
        items := Some(first + retried.value);
      }
    }
  }

  // ---------------------------------------------------------------- install_mods

  function CountTrue(verdicts: seq<bool>): nat {
    if verdicts == [] then 0 else CountTrue(verdicts[..|verdicts| - 1]) + if verdicts[|verdicts| - 1] then 1 else 0
  }

  /** The ids with a negative verdict, in order. */
  function Rejected(ids: seq<string>, verdicts: seq<bool>): seq<string>
    requires |ids| == |verdicts|
  {
    if ids == [] then []
    else Rejected(ids[..|ids| - 1], verdicts[..|ids| - 1]) + if verdicts[|ids| - 1] then [] else [ids[|ids| - 1]]
  }

  lemma {:induction false} VerdictsConserve(ids: seq<string>, verdicts: seq<bool>)
    requires |ids| == |verdicts|
    ensures CountTrue(verdicts) + |Rejected(ids, verdicts)| == |ids|
    decreases |ids|
  {
    if ids != [] {
      VerdictsConserve(ids[..|ids| - 1], verdicts[..|ids| - 1]);
    }
  }

  /** Whether the post-install step number `n` of an install works. */
  type PostInstall = nat -> bool

  /** The counters of `install_mods`. */
  datatype Tally = Tally(applied: nat, errors: seq<string>, items: Items)

  predicate Downloaded(download: Option<Items>, id: string) {
    download.Some? && id in download.value && download.value[id]
  }

  ghost predicate AllStepsWork(post: PostInstall) {
    forall n :: post(n)
  }

  /** The number of downloaded ids, each of which takes one post-install step. */
  function DownCount(ids: seq<string>, download: Option<Items>): nat {
    if ids == [] then 0
    else DownCount(ids[..|ids| - 1], download) + if Downloaded(download, ids[|ids| - 1]) then 1 else 0
  }

  /** An id gets a positive verdict exactly when it is downloaded and its own post-install step works. */
  ghost predicate Judged(
    chunk: seq<string>, download: Option<Items>, post: PostInstall, steps: nat, verdicts: seq<bool>
  ) {
    && |verdicts| <= |chunk|
    && forall i | 0 <= i < |verdicts| ::
         verdicts[i] == (Downloaded(download, chunk[i]) && post(steps + DownCount(chunk[..i], download)))
  }

  function Merged(items: Items, download: Option<Items>): Items {
    if download.Some? then items + download.value else items
  }

  /** One id: downloaded or not, and whether its post-install step works. */
  method Verdict(id: string, download: Option<Items>, post: PostInstall, steps: nat)
    returns (verdict: bool, next: nat)
    ensures verdict == (Downloaded(download, id) && post(steps))
    ensures next == steps + if Downloaded(download, id) then 1 else 0
  {
    verdict, next := Downloaded(download, id), steps;
    if verdict {
      verdict := post(steps);
      next := steps + 1;
    }
  }

  /** The counters after some ids of a chunk. */
  ghost predicate Counted(chunk: seq<string>, tally0: Tally, verdicts: seq<bool>, applied: nat, errors: seq<string>) {
    && |verdicts| <= |chunk|
    && applied == tally0.applied + CountTrue(verdicts)
    && errors == tally0.errors + Rejected(chunk[..|verdicts|], verdicts)
  }

  lemma CountedGrows(chunk: seq<string>, tally0: Tally, verdicts: seq<bool>, applied: nat, errors: seq<string>,
                     verdict: bool)
    requires |verdicts| < |chunk| && Counted(chunk, tally0, verdicts, applied, errors)
    ensures Counted(chunk, tally0, verdicts + [verdict], applied + (if verdict then 1 else 0),
                    errors + if verdict then [] else [chunk[|verdicts|]])
  {
    var i := |verdicts|;
    NextRejected(chunk, verdicts, verdict);
    CountSnoc(verdicts, verdict);
    if verdict {
      assert errors + [] == errors && Rejected(chunk[..i], verdicts) + [] == Rejected(chunk[..i], verdicts);
    } else {
      AppendedTwice(tally0.errors, Rejected(chunk[..i], verdicts), chunk[i]);
    }
  }

  /** The ids of one chunk are taken one by one: failed download, failed post-install step, or applied. */
  method TakeChunk(chunk: seq<string>, download: Option<Items>, post: PostInstall, steps0: nat, tally0: Tally)
    returns (tally: Tally, steps: nat, ghost verdicts: seq<bool>)
    ensures |verdicts| == |chunk| && Judged(chunk, download, post, steps0, verdicts)
    ensures steps == steps0 + DownCount(chunk, download)
    ensures tally.applied == tally0.applied + CountTrue(verdicts)
    ensures tally.errors == tally0.errors + Rejected(chunk, verdicts)
    ensures tally.items == Merged(tally0.items, download)
  {
    var applied, errors := tally0.applied, tally0.errors;
    steps, verdicts := steps0, [];
    for i := 0 to |chunk|
      invariant |verdicts| == i && Judged(chunk, download, post, steps0, verdicts)
      invariant steps == steps0 + DownCount(chunk[..i], download)
      invariant Counted(chunk, tally0, verdicts, applied, errors)
    {
      DownSnoc(chunk, i, download);
      var verdict;
      verdict, steps := Verdict(chunk[i], download, post, steps);
      NextJudged(chunk, download, post, steps0, verdicts, verdict);
      CountedGrows(chunk, tally0, verdicts, applied, errors, verdict);
      if verdict {
        applied := applied + 1;
      } else {
        errors := errors + [chunk[i]];
      }
      verdicts := verdicts + [verdict];
    }
    assert chunk[..|chunk|] == chunk;
    tally := Tally(applied, errors, Merged(tally0.items, download));
  }

  lemma DownSnoc(ids: seq<string>, i: nat, download: Option<Items>)
    requires i < |ids|
    ensures DownCount(ids[..i + 1], download) ==
              DownCount(ids[..i], download) + if Downloaded(download, ids[i]) then 1 else 0
  {
    assert ids[..i + 1][..i] == ids[..i] && ids[..i + 1][i] == ids[i];
  }

  lemma NextJudged(chunk: seq<string>, download: Option<Items>, post: PostInstall, steps: nat, verdicts: seq<bool>,
                   verdict: bool)
    requires |verdicts| < |chunk| && Judged(chunk, download, post, steps, verdicts)
    requires var i := |verdicts|;
             verdict == (Downloaded(download, chunk[i]) && post(steps + DownCount(chunk[..i], download)))
    ensures Judged(chunk, download, post, steps, verdicts + [verdict])
  {
  }

  lemma TakeSnoc<T>(s: seq<T>, n: nat)
    requires n < |s|
    ensures s[..n + 1] == s[..n] + [s[n]]
  {
  }

  lemma NextRejected(chunk: seq<string>, verdicts: seq<bool>, verdict: bool)
    requires |verdicts| < |chunk|
    ensures var n := |verdicts|;
            Rejected(chunk[..n + 1], verdicts + [verdict]) ==
            Rejected(chunk[..n], verdicts) + if verdict then [] else [chunk[n]]
  {
    var n := |verdicts|;
    TakeSnoc(chunk, n);
    RejectedSnoc(chunk[..n], verdicts, chunk[n], verdict);
  }

  lemma AppendedTwice<T>(a: seq<T>, b: seq<T>, x: T)
    ensures a + b + [x] == a + (b + [x])
  {
  }

  lemma CountSnoc(verdicts: seq<bool>, verdict: bool)
    ensures CountTrue(verdicts + [verdict]) == CountTrue(verdicts) + if verdict then 1 else 0
  {
    assert (verdicts + [verdict])[..|verdicts|] == verdicts;
  }

  lemma RejectedSnoc(ids: seq<string>, verdicts: seq<bool>, id: string, verdict: bool)
    requires |ids| == |verdicts|
    ensures Rejected(ids + [id], verdicts + [verdict]) == Rejected(ids, verdicts) + if verdict then [] else [id]
  {
    assert (verdicts + [verdict])[..|verdicts|] == verdicts && (ids + [id])[..|ids|] == ids;
  }

  lemma {:induction false} CountConcat(u: seq<bool>, v: seq<bool>)
    ensures CountTrue(u + v) == CountTrue(u) + CountTrue(v)
    decreases |v|
  {
    if v == [] {
      assert u + v == u;
    } else {
      var w, x := v[..|v| - 1], v[|v| - 1];
      CountConcat(u, w);
      CountSnoc(u + w, x);
      assert u + v == u + w + [x];
    }
  }

  lemma {:induction false} RejectedConcat(a: seq<string>, u: seq<bool>, b: seq<string>, v: seq<bool>)
    requires |a| == |u| && |b| == |v|
    ensures Rejected(a + b, u + v) == Rejected(a, u) + Rejected(b, v)
    decreases |b|
  {
    if b == [] {
      assert a + b == a && u + v == u;
    } else {
      var n := |b| - 1;
      var c, y, w, x := b[..n], b[n], v[..n], v[n];
      RejectedConcat(a, u, c, w);
      RejectedSnoc(a + c, u + w, y, x);
      assert a + b == a + c + [y] && u + v == u + w + [x];
      var last := if x then [] else [y];
      assert Rejected(a, u) + (Rejected(c, w) + last) == Rejected(a, u) + Rejected(c, w) + last;
    }
  }

  /** The errors verdict by verdict: an id with a negative one is listed under its own name, in order. */
  lemma RejectedParts(a: seq<string>, u: seq<bool>, id: string, verdict: bool, b: seq<string>, v: seq<bool>)
    requires |a| == |u| && |b| == |v|
    ensures Rejected(a + [id] + b, u + [verdict] + v) ==
              Rejected(a, u) + (if verdict then [] else [id]) + Rejected(b, v)
    ensures CountTrue(u + [verdict] + v) == CountTrue(u) + (if verdict then 1 else 0) + CountTrue(v)
  {
    RejectedConcat(a + [id], u + [verdict], b, v);
    RejectedSnoc(a, u, id, verdict);
    CountConcat(u + [verdict], v);
    CountSnoc(u, verdict);
  }

  lemma {:induction false} AllTrue(ids: seq<string>, verdicts: seq<bool>)
    requires |ids| == |verdicts| && forall i | 0 <= i < |verdicts| :: verdicts[i]
    ensures Rejected(ids, verdicts) == []
    decreases |ids|
  {
    if ids != [] {
      AllTrue(ids[..|ids| - 1], verdicts[..|ids| - 1]);
    }
  }

  /** Every run leaves all its ids installed. */
  ghost predicate AllRunsWork(outcome: RunOutcome) {
    forall n: nat, ids, id | id in ids :: id in outcome(n, ids)
  }

  /** Nothing goes wrong: no account is needed, every run and every post-install step works. */
  ghost predicate NothingFails(downloader: Downloader, post: PostInstall) {
    !downloader.needsLogin && AllRunsWork(downloader.outcome) && AllStepsWork(post)
  }

  /**
    What a verdict means, id by id: a positive one says that some run has left the id installed and some
    post-install step has worked. It is positive whenever no account is needed, every run leaves the id
    installed and every step works, whatever becomes of the other ids.
   */
  ghost predicate Earned(downloader: Downloader, post: PostInstall, ids: seq<string>, verdicts: seq<bool>) {
    && |verdicts| == |ids|
    && (forall k | 0 <= k < |ids| && verdicts[k] :: Obtained(downloader.outcome, ids[k]) && exists n :: post(n))
    && (!downloader.needsLogin && AllStepsWork(post) ==>
          forall k | 0 <= k < |ids| && AlwaysGood(downloader.outcome, ids[k]) :: verdicts[k])
  }

  lemma ChunkEarned(downloader: Downloader, chunk: seq<string>, download: Option<Items>, post: PostInstall, steps: nat,
                    verdicts: seq<bool>)
    requires |verdicts| == |chunk| && Judged(chunk, download, post, steps, verdicts)
    requires download.None? ==> downloader.needsLogin
    requires download.Some? ==>
               && download.value.Keys == SetOf(chunk)
               && (forall id | id in chunk && download.value[id] :: Obtained(downloader.outcome, id))
               && forall id | id in chunk && AlwaysGood(downloader.outcome, id) :: download.value[id]
    ensures Earned(downloader, post, chunk, verdicts)
  {
  }

  lemma EarnedGrows(downloader: Downloader, post: PostInstall, ids: seq<string>, verdicts: seq<bool>,
                    chunk: seq<string>, more: seq<bool>)
    requires Earned(downloader, post, ids, verdicts) && Earned(downloader, post, chunk, more)
    ensures Earned(downloader, post, ids + chunk, verdicts + more)
  {
  }

  /** One chunk is downloaded and then taken id by id. */
  method InstallChunk(chunk: seq<string>, downloader: Downloader, post: PostInstall, steps0: nat, tally0: Tally)
    returns (tally: Tally, steps: nat, ghost verdicts: seq<bool>)
    modifies downloader
    ensures |verdicts| == |chunk|
    ensures tally.applied == tally0.applied + CountTrue(verdicts)
    ensures tally.errors == tally0.errors + Rejected(chunk, verdicts)
    ensures downloader.runs <= old(downloader.runs) + 2
    ensures tally.items.Keys <= tally0.items.Keys + SetOf(chunk)
    ensures !downloader.needsLogin ==> tally.items.Keys == tally0.items.Keys + SetOf(chunk)
    ensures 1 <= |chunk| <= BATCH_SIZE ==> Earned(downloader, post, chunk, verdicts)
    ensures NothingFails(downloader, post) && 1 <= |chunk| <= BATCH_SIZE ==> Rejected(chunk, verdicts) == []
  {
    var download := downloader.Batch(chunk);
    tally, steps, verdicts := TakeChunk(chunk, download, post, steps0, tally0);
    if 1 <= |chunk| <= BATCH_SIZE {
      ChunkEarned(downloader, chunk, download, post, steps0, verdicts);
    }
    if forall k | 0 <= k < |verdicts| :: verdicts[k] {
      AllTrue(chunk, verdicts);
    }
  }

  /** The counters fit the verdicts on the ids. */
  ghost predicate Tallied(tally: Tally, ids: seq<string>, verdicts: seq<bool>) {
    && |verdicts| == |ids|
    && tally.applied == CountTrue(verdicts) && tally.errors == Rejected(ids, verdicts)
    && tally.items.Keys <= SetOf(ids)
  }

  lemma TalliedGrows(before: Tally, after: Tally, ids: seq<string>, verdicts: seq<bool>, chunk: seq<string>,
      more: seq<bool>)
    requires Tallied(before, ids, verdicts) && |more| == |chunk|
    requires after.applied == before.applied + CountTrue(more) && after.errors == before.errors + Rejected(chunk, more)
    requires after.items.Keys <= before.items.Keys + SetOf(chunk)
    ensures Tallied(after, ids + chunk, verdicts + more)
  {
    CountConcat(verdicts, more);
    RejectedConcat(ids, verdicts, chunk, more);
  }

  /**
    `install_mods`, without exceptions: every id of the cleaned list gets one verdict, the applied ones
    are counted, the others are listed as errors, and no chunk costs more than two container runs.
   */
  method InstallMods(ids: seq<string>, downloader: Downloader, post: PostInstall)
    returns (tally: Tally, ghost verdicts: seq<bool>)
    modifies downloader
    ensures |verdicts| == |Clean(ids)|
    ensures tally.applied == CountTrue(verdicts) && tally.errors == Rejected(Clean(ids), verdicts)
    ensures tally.applied + |tally.errors| == |Clean(ids)|
    ensures downloader.runs <= old(downloader.runs) + 2 * |Chunks(Clean(ids))|
    ensures tally.items.Keys <= SetOf(Clean(ids))
    ensures !downloader.needsLogin ==> tally.items.Keys == SetOf(Clean(ids))
    ensures Earned(downloader, post, Clean(ids), verdicts)
    ensures NothingFails(downloader, post) ==> tally.errors == []
  {
    var clean := Clean(ids);
    var chunks := Chunks(clean);
    ChunksCover(clean);
    var steps := 0;
    tally, verdicts := Tally(0, [], map[]), [];
    for i := 0 to |chunks|
      invariant Tallied(tally, Joined(chunks[..i]), verdicts)
      invariant downloader.runs <= old(downloader.runs) + 2 * i
      invariant !downloader.needsLogin ==> tally.items.Keys == SetOf(Joined(chunks[..i]))
      invariant Earned(downloader, post, Joined(chunks[..i]), verdicts)
      invariant NothingFails(downloader, post) ==> tally.errors == []
    {
      JoinedSnoc(chunks, i);
      ghost var before, more := tally, [];
      tally, steps, more := InstallChunk(chunks[i], downloader, post, steps, tally);
      TalliedGrows(before, tally, Joined(chunks[..i]), verdicts, chunks[i], more);
      EarnedGrows(downloader, post, Joined(chunks[..i]), verdicts, chunks[i], more);
      verdicts := verdicts + more;
    }
    assert chunks[..|chunks|] == chunks;
    VerdictsConserve(clean, verdicts);
  }

  // ---------------------------------------------------------------- the bounded log buffer

  function Length(lines: seq<string>): nat {
    if lines == [] then 0 else |lines[0]| + Length(lines[1..])
  }

  /** The longest end of the log within the limit. */
  function Tail(lines: seq<string>, max: nat): seq<string> {
    if Length(lines) <= max then lines else Tail(lines[1..], max)
  }

  lemma {:induction false} LengthConcat(a: seq<string>, b: seq<string>)
    ensures Length(a + b) == Length(a) + Length(b)
  {
    if a == [] {
      assert a + b == b;
    } else {
      assert (a + b)[1..] == a[1..] + b;
      LengthConcat(a[1..], b);
    }
  }

  /** `Tail` is a suffix within the limit, and every longer suffix is over it. */
  lemma {:induction false} TailIsLongest(lines: seq<string>, max: nat)
    ensures |Tail(lines, max)| <= |lines| && Tail(lines, max) == lines[|lines| - |Tail(lines, max)|..]
    ensures Length(Tail(lines, max)) <= max
    ensures forall j | 0 <= j < |lines| - |Tail(lines, max)| :: Length(lines[j..]) > max
  {
    if Length(lines) > max {
      TailIsLongest(lines[1..], max);
      forall j | 0 <= j < |lines| - |Tail(lines, max)| ensures Length(lines[j..]) > max {
        if j > 0 {
          assert lines[1..][j - 1..] == lines[j..];
        } else {
          assert lines[0..] == lines;
        }
      }
    }
  }

  /** Dropping early is dropping late: the end of the log needs only the end of its past. */
  lemma {:induction false} TailForgets(past: seq<string>, line: string, max: nat)
    ensures Tail(Tail(past, max) + [line], max) == Tail(past + [line], max)
  {
    if Length(past) > max {
      TailForgets(past[1..], line, max);
      LengthConcat(past, [line]);
      assert (past + [line])[1..] == past[1..] + [line];
    }
  }

  class LogBuffer {
    var lines: seq<string>

    constructor ()
      ensures lines == []
    {
      lines := [];
    }

    /** `_bounded_log_buffer_append` */
    method Append(line: string, max: nat)
      modifies this
      ensures lines == Tail(old(lines) + [line], max)
    {
      lines := lines + [line];
      var total := Length(lines);
      while lines != [] && total > max
        invariant total == Length(lines)
        invariant Tail(lines, max) == Tail(old(lines) + [line], max)
        decreases |lines|
      {
        total := total - |lines[0]|;
        lines := lines[1..];
      }
    }

    /** However many lines come in, the buffer is the longest end of the whole log within the limit. */
    method AppendAll(log: seq<string>, max: nat)
      requires lines == []
      modifies this
      ensures lines == Tail(log, max)
    {
      for i := 0 to |log|
        invariant lines == Tail(log[..i], max)
      {
        TailForgets(log[..i], log[i], max);
        assert log[..i + 1] == log[..i] + [log[i]];
        Append(log[i], max);
      }
      assert log[..|log|] == log;
    }
  }
}
