/**
  The loader of the weather model runs: download a run, publish it in `state.json`, delete the
  other runs, fall back to older cycles when a run cannot be had.

  `Loader` performs the same file operations in the same order. Its `history` holds the disk
  after every single operation, so a claim about `history` is a claim about every moment at which
  the process may be interrupted. Times are whole seconds since the epoch (UTC).
 */
module GfsLoader {
  import opened Wrappers

  const HOUR := 3600
  const DAY := 24 * HOUR
  const CYCLE := 6 * HOUR
  const MIN_BYTES := 100_000

  /** The forecast hours of one run: 0, 3, ..., 48. */
  function Deadlines(): seq<nat> {
    seq(17, i requires 0 <= i < 17 => 3 * i)
  }

  /** Every third hour of two days, in order. */
  lemma DeadlinesAre(h: nat)
    ensures h in Deadlines() <==> h % 3 == 0 && h <= 48
    ensures |Deadlines()| == 17 && forall i, j | 0 <= i < j < 17 :: Deadlines()[i] < Deadlines()[j]
  {
    if h % 3 == 0 && h <= 48 {
      assert Deadlines()[h / 3] == h;
    }
  }

  /** What `state.json` says: the cycle, the run folder (named by a cycle) and the listed hours. */
  datatype Published = Published(cycle: int, folder: int, hours: seq<nat>)

  /** The data directory: run folders, the size of the file for (run, hour), the draft and the state file. */
  datatype Disk = Disk(runs: set<int>, files: map<(int, nat), nat>, draft: Option<Published>, state: Option<Published>)

  /** One download as the network delivers it: refused, broken off after some chunks, or complete. */
  datatype Download = Refused | Broken(chunks: seq<nat>) | Complete(chunks: seq<nat>)

  function Sum(chunks: seq<nat>): nat {
    if chunks == [] then 0 else Sum(chunks[..|chunks| - 1]) + chunks[|chunks| - 1]
  }

  /** The download delivers a whole file that is not too small. */
  predicate Delivers(answer: Download) {
    answer.Complete? && Sum(answer.chunks) >= MIN_BYTES
  }

  /** The next `n` downloads all deliver. */
  predicate Serves(net: seq<Download>, n: nat) {
    |net| >= n && forall i | 0 <= i < n :: Delivers(net[i])
  }

  predicate OnGrid(t: int) {
    t % CYCLE == 0
  }

  predicate Full(d: Disk, run: int, hour: nat) {
    (run, hour) in d.files && d.files[(run, hour)] >= MIN_BYTES
  }

  /** A file counts from a hundred thousand bytes on, and a download that is complete and not smaller delivers one. */
  lemma WholeFileIff(d: Disk, run: int, hour: nat, answer: Download)
    ensures Full(d, run, hour) <==> (run, hour) in d.files && d.files[(run, hour)] >= 100000
    ensures Delivers(answer) <==> answer.Complete? && Sum(answer.chunks) >= 100000
  {
  }

  /** An existing state file lists only files that are present, with at least `MIN_BYTES`, in its run folder. */
  predicate Safe(d: Disk) {
    && (forall f | f in d.files :: f.0 in d.runs)
    && (d.state.Some? ==>
          var s := d.state.value;
          && s.folder in d.runs
          && (forall h | h in s.hours :: Full(d, s.folder, h)))
  }

  /** What every published state looks like: a run of the six-hour grid with all its hours. */
  predicate GoodState(p: Published) {
    OnGrid(p.cycle) && p.folder == p.cycle && p.hours == Deadlines()
  }

  predicate GoodDisk(d: Disk) {
    Safe(d) && (d.state.Some? ==> GoodState(d.state.value)) && (d.draft.Some? ==> GoodState(d.draft.value))
  }

  /** `e` publishes a run at least as new as `d` does. */
  predicate NotBack(d: Disk, e: Disk) {
    d.state.Some? ==> e.state.Some? && d.state.value.cycle <= e.state.value.cycle
  }

  /** From each operation to the next the published cycle does not go back. */
  ghost predicate Monotone(h: seq<Disk>) {
    |h| < 2 || (NotBack(h[|h| - 2], h[|h| - 1]) && Monotone(h[..|h| - 1]))
  }

  ghost predicate AllGood(h: seq<Disk>) {
    h == [] || (GoodDisk(h[|h| - 1]) && AllGood(h[..|h| - 1]))
  }

  /** Between any two operations, and whichever operation was the last. */
  lemma {:induction false} TraceIsGood(h: seq<Disk>, i: nat)
    requires AllGood(h) && i < |h|
    ensures GoodDisk(h[i]) && AllGood(h[..i + 1])
    decreases |h|
  {
    if i == |h| - 1 {
      assert h[..i + 1] == h;
    } else {
      TraceIsGood(h[..|h| - 1], i);
      assert h[..|h| - 1][..i + 1] == h[..i + 1];
    }
  }

  /** In a monotone trace a later moment never publishes an older run than an earlier one, nor none. */
  lemma {:induction false} TraceIsMonotone(h: seq<Disk>, i: nat, j: nat)
    requires Monotone(h) && i <= j < |h|
    ensures NotBack(h[i], h[j])
    decreases |h|
  {
    if j < |h| - 1 {
      TraceIsMonotone(h[..|h| - 1], i, j);
    } else if i < j {
      TraceIsMonotone(h[..|h| - 1], i, j - 1);
    }
  }

  lemma {:induction false} MonotonePrefix(h: seq<Disk>, n: nat)
    requires Monotone(h) && n <= |h|
    ensures Monotone(h[..n])
    decreases |h|
  {
    if n < |h| && |h| >= 2 {
      MonotonePrefix(h[..|h| - 1], n);
      assert h[..|h| - 1][..n] == h[..n];
    } else if n == |h| {
      assert h[..n] == h;
    }
  }

  /** `_kuerzlich`: five hours ago, cut down to hour 0, 6, 12 or 18 of its day. */
  function Recent(now: int): int {
    var t := now - 5 * HOUR;
    var hour := (t % DAY) / HOUR;
    t - t % DAY + (hour - hour % 6) * HOUR
  }

  lemma RecentIsLatestCycle(now: int)
    ensures OnGrid(Recent(now)) && Recent(now) % 21600 == 0
    ensures Recent(now) <= now - 5 * 3600 < Recent(now) + 6 * 3600
  {
    var t := now - 18000;
    var day, rest := t / 86400, t % 86400;
    var hour := rest / 3600;
    var quarter := hour / 6;
    assert Recent(now) == 86400 * day + 6 * quarter * 3600 == 21600 * (4 * day + quarter);
    MultipleOnGrid(4 * day + quarter);
    assert 3600 * hour <= rest < 3600 * (hour + 1);
  }

  lemma MultipleOnGrid(n: int)
    ensures OnGrid(21600 * n)
  {
  }

  /** The files of all other runs are untouched. */
  ghost predicate SameElsewhere(a: map<(int, nat), nat>, b: map<(int, nat), nat>, run: int) {
    forall r: int, h: nat | r != run :: ((r, h) in a <==> (r, h) in b) && ((r, h) in a ==> a[(r, h)] == b[(r, h)])
  }

  lemma FramedByRemoval(a: map<(int, nat), nat>, b: map<(int, nat), nat>, run: int, hour: nat)
    requires a - {(run, hour)} == b - {(run, hour)}
    ensures SameElsewhere(a, b, run)
    ensures forall h: nat | h != hour && (run, h) in a :: (run, h) in b && b[(run, h)] == a[(run, h)]
  {
    forall r: int, h: nat | (r, h) != (run, hour)
      ensures ((r, h) in a <==> (r, h) in b) && ((r, h) in a ==> a[(r, h)] == b[(r, h)])
    {
      assert (r, h) in a <==> (r, h) in a - {(run, hour)};
      assert (r, h) in b <==> (r, h) in b - {(run, hour)};
    }
  }

  /** No operation other than a download fails. */
  predicate NoFaults(faults: seq<bool>) {
    forall i | 0 <= i < |faults| :: faults[i]
  }

  /** The folder, the draft and the publication work, the first deletion does not. */
  predicate FirstDeletionFails(faults: seq<bool>) {
    |faults| >= 4 && faults[0] && faults[1] && faults[2] && !faults[3]
  }

  /** All hours of the run are there, so that nothing has to be downloaded. */
  predicate RunComplete(d: Disk, run: int) {
    forall h | h in Deadlines() :: Full(d, run, h)
  }

  lemma NonEmpty(s: set<int>)
    ensures s == {} || exists r :: r in s
  {
    if forall r :: r !in s {
      assert s == {};
    }
  }

  /** The state of a run: its cycle, its folder and all its hours. */
  function Run(cycle: int): Published {
    Published(cycle, cycle, Deadlines())
  }

  function PublishedCycle(d: Disk): Option<int> {
    if d.state.Some? then Some(d.state.value.cycle) else None
  }

  /** The published cycle, if there is one, is at most this one. */
  predicate NotNewer(published: Option<int>, cycle: int) {
    published.Some? ==> published.value <= cycle
  }

  predicate Older(published: Option<int>, cycle: int) {
    published.Some? ==> published.value < cycle
  }

  // ---------------------------------------------------------------- how attempts go

  /**
    How the attempt at a run ends: fetched and everything else deleted; given up for want of a download;
    stopped by another fault before the publication; published, but a deletion failed.
   */
  datatype Outcome = Fetched | NoDownload | Stopped | PublishedOnly

  predicate Publishes(outcome: Outcome) {
    outcome == Fetched || outcome == PublishedOnly
  }

  predicate Faulty(outcome: Outcome) {
    outcome == Stopped || outcome == PublishedOnly
  }

  /** An attempt at a cycle, with the cycle that was published before it. */
  datatype Report = Report(cycle: int, before: Option<int>, outcome: Outcome)

  /** The published cycle after the attempts. */
  function After(reports: seq<Report>, start: Option<int>): Option<int> {
    if reports == [] then start
    else
      var r := reports[|reports| - 1];
      if Publishes(r.outcome) then Some(r.cycle) else r.before
  }

  /** The candidate, or a number of cycles before it. */
  function CycleBack(candidate: int, n: nat): int {
    if n == 0 then candidate else CycleBack(candidate, n - 1) - CYCLE
  }

  lemma {:induction false} CycleBackIs(candidate: int, n: nat)
    ensures CycleBack(candidate, n) == candidate - CYCLE * n
  {
    if n > 0 {
      CycleBackIs(candidate, n - 1);
    }
  }

  ghost predicate AttemptAt(reports: seq<Report>, start: Option<int>, candidate: int, i: nat)
    requires i < |reports|
  {
    && reports[i].cycle == CycleBack(candidate, i)
    && reports[i].before == After(reports[..i], start)
    && (i < |reports| - 1 ==> reports[i].outcome != Fetched)
    && (reports[i].outcome == NoDownload ==> reports[i].before != Some(reports[i].cycle))
  }

  /** Attempts of one turn: six hours back each time, from where the one before left the state, until one is fetched. */
  ghost predicate Attempts(reports: seq<Report>, start: Option<int>, candidate: int) {
    forall i | 0 <= i < |reports| :: AttemptAt(reports, start, candidate, i)
  }

  /** No attempt ended by a fault other than a download. */
  ghost predicate Quiet(reports: seq<Report>) {
    forall i | 0 <= i < |reports| :: !Faulty(reports[i].outcome)
  }

  /** No attempt so far has ended the loop. */
  predicate Open(reports: seq<Report>) {
    reports != [] ==> reports[|reports| - 1].outcome != Fetched
  }

  /** Attempts of a turn so far, and what they leave on the disk. */
  ghost predicate Ended(reports: seq<Report>, start: Option<int>, candidate: int, d: Disk) {
    && Attempts(reports, start, candidate) && PublishedCycle(d) == After(reports, start)
    && (reports != [] && reports[|reports| - 1].outcome == Fetched ==> d.runs == {reports[|reports| - 1].cycle})
  }

  /** The attempt publishes a run older than the one published before it. */
  predicate Retreats(r: Report) {
    Publishes(r.outcome) && !NotNewer(r.before, r.cycle)
  }

  ghost predicate GoesBack(reports: seq<Report>) {
    exists j | 0 <= j < |reports| :: Retreats(reports[j])
  }

  /**
    A fault for attempt `j` to retreat from: a newer run was published before, and a deletion failed;
    or the attempt at the published run was stopped; or the published run is newer than the candidate,
    which the loop is not entered for unless the state file cannot be read.
   */
  ghost predicate FaultBefore(reports: seq<Report>, start: Option<int>, candidate: int, j: nat)
    requires j < |reports|
  {
    || PublishedBefore(reports, j)
    || (start.Some? && reports[j].cycle < start.value &&
        (start.value > candidate || StoppedAt(reports, start.value, j)))
  }

  ghost predicate StoppedAt(reports: seq<Report>, cycle: int, j: nat)
    requires j < |reports|
  {
    exists i | 0 <= i < j :: reports[i].cycle == cycle && reports[i].outcome == Stopped
  }

  /** A run is published with such a fault before it. */
  ghost predicate FaultGoesBack(reports: seq<Report>, start: Option<int>, candidate: int) {
    exists j | 0 <= j < |reports| :: Publishes(reports[j].outcome) && FaultBefore(reports, start, candidate, j)
  }

  lemma AttemptStays(reports: seq<Report>, start: Option<int>, candidate: int, r: Report, i: nat)
    requires i < |reports| && AttemptAt(reports, start, candidate, i) && Open(reports)
    ensures AttemptAt(reports + [r], start, candidate, i)
  {
    assert (reports + [r])[..i] == reports[..i] && (reports + [r])[i] == reports[i];
  }

  lemma AttemptAdded(reports: seq<Report>, start: Option<int>, candidate: int, r: Report)
    requires r.cycle == CycleBack(candidate, |reports|) && r.before == After(reports, start)
    requires r.outcome == NoDownload ==> r.before != Some(r.cycle)
    ensures AttemptAt(reports + [r], start, candidate, |reports|)
  {
    assert (reports + [r])[..|reports|] == reports && (reports + [r])[|reports|] == r;
  }

  lemma AttemptsGrow(reports: seq<Report>, start: Option<int>, candidate: int, r: Report)
    requires Attempts(reports, start, candidate) && Open(reports)
    requires r.cycle == CycleBack(candidate, |reports|) && r.before == After(reports, start)
    requires r.outcome == NoDownload ==> r.before != Some(r.cycle)
    ensures Attempts(reports + [r], start, candidate)
    ensures After(reports + [r], start) == if Publishes(r.outcome) then Some(r.cycle) else r.before
  {
    AttemptAdded(reports, start, candidate, r);
    forall i | 0 <= i < |reports| ensures AttemptAt(reports + [r], start, candidate, i) {
      AttemptStays(reports, start, candidate, r, i);
    }
  }

  predicate PublishedBefore(reports: seq<Report>, j: nat)
    requires j < |reports|
  {
    exists i | 0 <= i < j :: reports[i].outcome == PublishedOnly
  }

  /** What is published before the next attempt. */
  lemma NextBefore(reports: seq<Report>, start: Option<int>, candidate: int, j: nat)
    requires Attempts(reports, start, candidate) && j + 1 < |reports|
    ensures reports[j + 1].before ==
            if reports[j].outcome == PublishedOnly then Some(reports[j].cycle) else reports[j].before
    ensures reports[j + 1].cycle < reports[j].cycle
  {
    assert AttemptAt(reports, start, candidate, j) && AttemptAt(reports, start, candidate, j + 1);
    assert reports[..j + 1][j] == reports[j];
    CycleBackIs(candidate, j);
  }

  /** Before attempt `j` either nothing has been published in the turn, or a run whose deletions failed. */
  lemma {:induction false} BeforeAttempt(reports: seq<Report>, start: Option<int>, candidate: int, j: nat)
    requires Attempts(reports, start, candidate) && j < |reports|
    ensures !PublishedBefore(reports, j) ==> reports[j].before == start
    ensures PublishedBefore(reports, j) ==> !NotNewer(reports[j].before, reports[j].cycle)
    decreases j
  {
    if j == 0 {
      assert AttemptAt(reports, start, candidate, 0) && reports[..0] == [];
    } else {
      BeforeAttempt(reports, start, candidate, j - 1);
      NextBefore(reports, start, candidate, j - 1);
    }
  }

  lemma OneCycleBack(cycle: int)
    requires OnGrid(cycle)
    ensures OnGrid(cycle - CYCLE)
  {
  }

  lemma GridIndex(candidate: int, cycle: int) returns (i: int)
    requires OnGrid(candidate) && OnGrid(cycle)
    ensures cycle == candidate - CYCLE * i
  {
    i := candidate / CYCLE - cycle / CYCLE;
  }

  /** An attempt goes back behind the run that was published at the start: which fault that needs. */
  lemma BackBehindStart(reports: seq<Report>, start: Option<int>, candidate: int, j: nat)
    requires Attempts(reports, start, candidate) && j < |reports|
    requires OnGrid(candidate) && start.Some? && OnGrid(start.value)
    requires reports[j].cycle < start.value <= candidate
    requires !PublishedBefore(reports, j)
    ensures StoppedAt(reports, start.value, j)
  {
    var i := GridIndex(candidate, start.value);
    CycleBackIs(candidate, j);
    assert AttemptAt(reports, start, candidate, j);
    assert 0 <= i < j;
    assert AttemptAt(reports, start, candidate, i);
    CycleBackIs(candidate, i);
    BeforeAttempt(reports, start, candidate, i);
    assert reports[i].cycle == start.value && reports[i].before == start;
  }

  /** An older run is published in a turn exactly when there is a fault for it. */
  lemma GoesBackIff(reports: seq<Report>, start: Option<int>, candidate: int)
    requires Attempts(reports, start, candidate)
    requires OnGrid(candidate) && (start.Some? ==> OnGrid(start.value))
    ensures GoesBack(reports) <==> FaultGoesBack(reports, start, candidate)
  {
    forall j | 0 <= j < |reports|
      ensures Retreats(reports[j]) <==> Publishes(reports[j].outcome) && FaultBefore(reports, start, candidate, j)
    {
      RetreatIff(reports, start, candidate, j);
    }
  }

  lemma RetreatIff(reports: seq<Report>, start: Option<int>, candidate: int, j: nat)
    requires Attempts(reports, start, candidate) && j < |reports|
    requires OnGrid(candidate) && (start.Some? ==> OnGrid(start.value))
    ensures !NotNewer(reports[j].before, reports[j].cycle) <==> FaultBefore(reports, start, candidate, j)
  {
    BeforeAttempt(reports, start, candidate, j);
    if !PublishedBefore(reports, j) {
      if start.Some? && reports[j].cycle < start.value <= candidate {
        BackBehindStart(reports, start, candidate, j);
      }
    }
  }

  /** Without other faults nothing goes back. */
  lemma QuietTurn(reports: seq<Report>, start: Option<int>, candidate: int)
    requires (forall i | 0 <= i < |reports| :: !Faulty(reports[i].outcome)) && Older(start, candidate)
    ensures !FaultGoesBack(reports, start, candidate)
  {
  }

  /** A published run is complete. */
  lemma CompleteWhenPublished(d: Disk)
    requires GoodDisk(d)
    ensures d.state.Some? ==> RunComplete(d, d.state.value.cycle)
  {
  }

  /** The newest run and the one before it are complete, and everything works but the first deletion. */
  ghost predicate NewestDeletionFails(d: Disk, faults: seq<bool>, candidate: int) {
    && faults == [true, true, true, false]
    && RunComplete(d, candidate) && RunComplete(d, candidate - CYCLE) && candidate - CYCLE in d.runs
  }

  /** From here on everything works, and the run before the newest is complete. */
  ghost predicate OlderReady(d: Disk, faults: seq<bool>, candidate: int) {
    faults == [] && RunComplete(d, candidate - CYCLE)
  }

  lemma SameFiles(d: Disk, e: Disk, run: int)
    requires d.files == e.files && RunComplete(d, run)
    ensures RunComplete(e, run)
  {
  }

  lemma ReportsGrow(reports: seq<Report>, r: Report)
    ensures |reports + [r]| == |reports| + 1
    ensures Open(reports + [r]) <==> r.outcome != Fetched
    ensures Quiet(reports + [r]) <==> Quiet(reports) && !Faulty(r.outcome)
    ensures GoesBack(reports + [r]) <==> GoesBack(reports) || Retreats(r)
    ensures reports != [] ==> (reports + [r])[0] == reports[0]
  {
    var all := reports + [r];
    assert all[|reports|] == r && forall i | 0 <= i < |reports| :: all[i] == reports[i];
  }

  /** Attempts from `first` on, and that the history is monotone if it was and nothing has gone back since. */
  ghost predicate Tried(reports: seq<Report>, first: Report, start: Option<int>, candidate: int, d: Disk,
                        was: bool, monotone: bool)
  {
    && reports != [] && reports[0] == first && Ended(reports, start, candidate, d)
    && (monotone <==> was && !GoesBack(reports))
  }

  lemma TriedGrows(reports: seq<Report>, r: Report, first: Report, start: Option<int>, candidate: int, d: Disk,
                   was: bool, monotone: bool)
    requires reports != [] && reports[0] == first && (monotone <==> was && !GoesBack(reports))
    requires Ended(reports + [r], start, candidate, d)
    ensures Tried(reports + [r], first, start, candidate, d, was, monotone && !Retreats(r))
  {
    ReportsGrow(reports, r);
  }

  lemma NothingTried(start: Option<int>, candidate: int, d: Disk)
    requires GoodDisk(d) && OnGrid(candidate) && start == PublishedCycle(d)
    ensures Ended([], start, candidate, d) && Open([]) && Quiet([]) && !GoesBack([])
  {
  }

  /** One attempt more, and what it leaves on the disk. */
  lemma EndedGrows(reports: seq<Report>, start: Option<int>, candidate: int, r: Report, d: Disk)
    requires Attempts(reports, start, candidate) && Open(reports)
    requires r.cycle == CycleBack(candidate, |reports|) && r.before == After(reports, start)
    requires r.outcome == NoDownload ==> r.before != Some(r.cycle)
    requires PublishedCycle(d) == if Publishes(r.outcome) then Some(r.cycle) else r.before
    requires r.outcome == Fetched ==> d.runs == {r.cycle}
    ensures Ended(reports + [r], start, candidate, d)
  {
    AttemptsGrow(reports, start, candidate, r);
  }

  /** The same for a turn that finds an older state or none; an existing state is read first. */
  ghost predicate DeletionFailsOnce(d: Disk, faults: seq<bool>, candidate: int) {
    && Older(PublishedCycle(d), candidate)
    && if d.state.None? then NewestDeletionFails(d, faults, candidate)
       else faults != [] && faults[0] && NewestDeletionFails(d, faults[1..], candidate)
  }

  lemma TwoAttempts(reports: seq<Report>, start: Option<int>, candidate: int, d: Disk)
    requires Ended(reports, start, candidate, d)
    ensures |reports| == 2 && reports[0].outcome == PublishedOnly && reports[1].outcome == Fetched ==>
              && PublishedCycle(d) == Some(candidate - CYCLE) && GoesBack(reports)
              && reports[0] == Report(candidate, start, PublishedOnly)
              && reports[1] == Report(candidate - CYCLE, Some(candidate), Fetched)
  {
    if |reports| == 2 && reports[0].outcome == PublishedOnly && reports[1].outcome == Fetched {
      assert AttemptAt(reports, start, candidate, 0) && AttemptAt(reports, start, candidate, 1);
      assert reports[..0] == [] && reports[..1][0] == reports[0];
      CycleBackIs(candidate, 0);
      CycleBackIs(candidate, 1);
      assert Retreats(reports[1]);
    }
  }

  class Loader {
    var disk: Disk
    /** The downloads still to come; when none is left, downloads are refused. */
    var net: seq<Download>
    /** For every later operation that is not a download, whether it works; afterwards they all work. */
    var faults: seq<bool>
    var history: seq<Disk>

    ghost predicate Valid()
      reads this
    {
      && history != [] && disk == history[|history| - 1]
      && AllGood(history)
    }

    constructor (d: Disk)
      requires GoodDisk(d)
      ensures Valid() && disk == d && history == [d] && faults == []
    {
      disk, history, net, faults := d, [d], [], [];
    }

    /** One file operation: the disk changes as a whole. */
    method Write(d: Disk)
      requires Valid() && GoodDisk(d)
      modifies this`disk, this`history
      ensures Valid() && disk == d && history == old(history) + [d]
      ensures Monotone(history) == (Monotone(old(history)) && NotBack(old(disk), d))
    {
      assert (history + [d])[..|history|] == history;
      disk := d;
      history := history + [d];
    }

    /** Whether the next operation that is not a download works. */
    method Works() returns (ok: bool)
      modifies this`faults
      ensures old(faults) == [] ==> ok && faults == []
      ensures old(faults) != [] ==> ok == old(faults)[0] && faults == old(faults)[1..]
    {
      ok := true;
      if faults != [] {
        ok, faults := faults[0], faults[1..];
      }
    }

    method NextDownload() returns (answer: Download)
      modifies this`net
      ensures old(net) == [] ==> answer == Refused && net == []
      ensures old(net) != [] ==> answer == old(net)[0] && net == old(net)[1..]
    {
      answer := Refused;
      if net != [] {
        answer, net := net[0], net[1..];
      }
    }

    /** A file of a run that is not yet full gets a new size. */
    method Resize(run: int, hour: nat, size: nat)
      requires Valid() && run in disk.runs
      requires disk.state.Some? ==> disk.state.value.folder != run || hour !in disk.state.value.hours
      modifies this`disk, this`history
      ensures Valid() && history == old(history) + [disk]
      ensures disk == old(disk).(files := old(disk.files)[(run, hour) := size])
      ensures Monotone(history) == Monotone(old(history))
    {
      Write(disk.(files := disk.files[(run, hour) := size]));
    }

    /** The file is truncated and grows chunk by chunk. */
    method WriteChunks(run: int, hour: nat, chunks: seq<nat>) returns (size: nat)
      requires Valid() && run in disk.runs && !Full(disk, run, hour)
      modifies this`disk, this`history
      ensures Valid() && old(history) <= history
      ensures size == Sum(chunks) && disk == old(disk).(files := old(disk.files)[(run, hour) := size])
      ensures Monotone(history) == Monotone(old(history))
    {
      size := 0;
      Resize(run, hour, 0);
      for i := 0 to |chunks|
        invariant Valid() && old(history) <= history
        invariant size == Sum(chunks[..i]) && disk == old(disk).(files := old(disk.files)[(run, hour) := size])
        invariant Monotone(history) == Monotone(old(history))
      {
        assert chunks[..i + 1][..i] == chunks[..i];
        size := size + chunks[i];
        Resize(run, hour, size);
      }
      assert chunks[..|chunks|] == chunks;
    }

    /** `_lade_datei`: write what arrives, throw the file away when it is too small. */
    method LoadFile(run: int, hour: nat) returns (ok: bool)
      requires Valid() && run in disk.runs && !Full(disk, run, hour)
      modifies this`disk, this`net, this`history
      ensures Valid() && old(history) <= history
      ensures disk == old(disk).(files := disk.files)
      ensures disk.files - {(run, hour)} == old(disk.files) - {(run, hour)}
      ensures ok ==> Full(disk, run, hour)
      ensures ok <==> old(net) != [] && Delivers(old(net)[0])
      ensures net == if old(net) == [] then [] else old(net)[1..]
      ensures Monotone(history) == Monotone(old(history))
    {
      var answer := NextDownload();
      if answer.Refused? {
        return false;
      }
      var size := WriteChunks(run, hour, answer.chunks);
      if answer.Broken? {
        return false;
      }
      ok := size >= MIN_BYTES;
      if !ok {
        Write(disk.(files := disk.files - {(run, hour)}));
      }
    }

    /** One hour of the run: downloaded when it is missing or too small. */
    method LoadHour(run: int, hour: nat) returns (ok: bool)
      requires Valid() && run in disk.runs
      modifies this`disk, this`net, this`history
      ensures Valid() && old(history) <= history
      ensures disk == old(disk).(files := disk.files)
      ensures forall h: nat | h != hour && Full(old(disk), run, h) :: Full(disk, run, h)
      ensures ok ==> Full(disk, run, hour)
      ensures Full(old(disk), run, hour) ==> ok && disk == old(disk)
      ensures forall n: nat | n > 0 && Serves(old(net), n) :: ok && Serves(net, n - 1)
      ensures Monotone(history) == Monotone(old(history))
    {
      ok := true;
      if !Full(disk, run, hour) {
        ghost var before := disk.files;
        ok := LoadFile(run, hour);
        FramedByRemoval(before, disk.files, run, hour);
      }
    }

    /** The first half of `_zyklus_holen`: every hour of the run that is missing or too small is downloaded. */
    method CollectRun(run: int) returns (ok: bool)
      requires Valid() && run in disk.runs
      modifies this`disk, this`net, this`history
      ensures Valid() && old(history) <= history
      ensures disk == old(disk).(files := disk.files)
      ensures ok ==> RunComplete(disk, run)
      ensures Serves(old(net), 17) ==> ok
      ensures RunComplete(old(disk), run) ==> ok && disk == old(disk)
      ensures Monotone(history) == Monotone(old(history))
    {
      var hours := Deadlines();
      for i := 0 to |hours|
        invariant Valid() && old(history) <= history
        invariant disk == old(disk).(files := disk.files)
        invariant forall k | 0 <= k < i :: Full(disk, run, hours[k])
        invariant Serves(old(net), 17) ==> Serves(net, 17 - i)
        invariant RunComplete(old(disk), run) ==> disk == old(disk)
        invariant Monotone(history) == Monotone(old(history))
      {
        assert hours[i] in hours;
        ok := LoadHour(run, hours[i]);
        if !ok {
          return;
        }
      }
      ok := true;
    }

    /** A file of a run that is not published goes away. */
    method Unlink(f: (int, nat))
      requires Valid() && f in disk.files && (disk.state.Some? ==> disk.state.value.folder != f.0)
      modifies this`disk, this`history
      ensures Valid() && history == old(history) + [disk]
      ensures disk == old(disk).(files := old(disk.files) - {f})
      ensures Monotone(history) == Monotone(old(history))
    {
      Write(disk.(files := disk.files - {f}));
    }

    /** Empties one run folder that is not the published one. */
    method EmptyFolder(alt: int) returns (ok: bool)
      requires Valid() && disk.state.Some? && disk.state.value.folder != alt
      modifies this`disk, this`faults, this`history
      ensures Valid() && old(history) <= history
      ensures disk == old(disk).(files := disk.files)
      ensures ok ==> forall f | f in disk.files :: f.0 != alt
      ensures NoFaults(old(faults)) ==> ok && NoFaults(faults)
      ensures ok && old(faults) != [] && !old(faults)[0] ==> disk == old(disk) && faults == old(faults)
      ensures !ok && !old(faults)[0] ==> disk == old(disk) && faults == old(faults)[1..]
      ensures !ok ==> old(faults) != []
      ensures Monotone(history) == Monotone(old(history))
    {
      var inside := set f | f in disk.files && f.0 == alt;
      while inside != {}
        invariant Valid() && old(history) <= history
        invariant disk == old(disk).(files := disk.files)
        invariant forall f | f in disk.files && f.0 == alt :: f in inside
        invariant forall f | f in inside :: f in disk.files && f.0 == alt
        invariant NoFaults(old(faults)) ==> NoFaults(faults)
        invariant (disk == old(disk) && faults == old(faults)) || old(faults) == [] || old(faults)[0]
        invariant old(faults) == [] ==> faults == []
        invariant Monotone(history) == Monotone(old(history))
        decreases inside
      {
        var f :| f in inside;
        ok := Works();
        if !ok {
          return;
        }
        Unlink(f);
        inside := inside - {f};
      }
      ok := true;
    }

    /** The last part of `_zyklus_holen`: all other run folders are emptied and removed, in any order. */
    method DeleteOthers(run: int) returns (ok: bool)
      requires Valid() && disk.state.Some? && disk.state.value.folder == run
      modifies this`disk, this`faults, this`history
      ensures Valid() && old(history) <= history
      ensures disk.state == old(disk.state)
      ensures ok ==> disk.runs == {run}
      ensures NoFaults(old(faults)) ==> ok && NoFaults(faults)
      ensures old(faults) != [] && !old(faults)[0] && (exists r | r in old(disk.runs) :: r != run)
              ==> !ok && disk == old(disk) && faults == old(faults)[1..]
      ensures Monotone(history) == Monotone(old(history))
    {
      var others := disk.runs - {run};
      while others != {}
        invariant Valid() && old(history) <= history
        invariant disk.state == old(disk.state)
        invariant disk.runs == others + {run} && run !in others
        invariant NoFaults(old(faults)) ==> NoFaults(faults)
        invariant (disk == old(disk) && faults == old(faults)) || old(faults) == [] || old(faults)[0]
        invariant Monotone(history) == Monotone(old(history))
        decreases others
      {
        NonEmpty(others);
        var alt :| alt in others;
        ok := EmptyFolder(alt);
        if !ok {
          return;
        }
        ok := Works();
        if !ok {
          return;
        }
        Write(disk.(runs := disk.runs - {alt}));
        others := others - {alt};
      }
      ok := true;
    }

    /** The state file is written to a draft and moved into place. */
    method Publish(cycle: int) returns (ok: bool)
      requires Valid() && OnGrid(cycle) && cycle in disk.runs
      requires RunComplete(disk, cycle)
      modifies this`disk, this`faults, this`history
      ensures Valid() && old(history) <= history
      ensures ok ==> disk == old(disk).(draft := None, state := Some(Run(cycle)))
      ensures !ok ==> disk == old(disk).(draft := disk.draft)
      ensures NoFaults(old(faults)) ==> ok && NoFaults(faults)
      ensures |old(faults)| >= 2 && old(faults)[0] && old(faults)[1] ==> ok && faults == old(faults)[2..]
      ensures Monotone(history) == (Monotone(old(history)) && (ok ==> NotNewer(PublishedCycle(old(disk)), cycle)))
    {
      ok := Works();
      if !ok {
        return;
      }
      Write(disk.(draft := Some(Run(cycle))));
      ok := Works();
      if !ok {
        return;
      }
      Write(disk.(draft := None, state := Some(Run(cycle))));
    }

    /** `_zyklus_holen`; an exception anywhere is `outcome` other than `Fetched`. */
    method Fetch(cycle: int) returns (ghost outcome: Outcome, ok: bool)
      requires Valid() && OnGrid(cycle)
      modifies this
      ensures Valid() && old(history) <= history
      ensures ok <==> outcome == Fetched
      ensures disk.state == if Publishes(outcome) then Some(Run(cycle)) else old(disk.state)
      ensures Monotone(history) ==
              (Monotone(old(history)) && (Publishes(outcome) ==> NotNewer(PublishedCycle(old(disk)), cycle)))
      ensures ok ==> disk.runs == {cycle}
      ensures outcome == NoDownload ==> !RunComplete(old(disk), cycle) && PublishedCycle(old(disk)) != Some(cycle)
      ensures NoFaults(old(faults)) ==> NoFaults(faults) && (outcome == Fetched || outcome == NoDownload)
      ensures NoFaults(old(faults)) && (Serves(old(net), 17) || RunComplete(old(disk), cycle)) ==> ok
      // The first deletion after the publication raises: the new run stays published all the same.
      ensures FirstDeletionFails(old(faults)) && RunComplete(old(disk), cycle) &&
                (exists r | r in old(disk.runs) :: r != cycle) ==>
                outcome == PublishedOnly && faults == old(faults)[4..] && disk.files == old(disk).files
    {
      CompleteWhenPublished(disk);
      ok := Works();
      if !ok {
        return Stopped, false;
      }
      Write(disk.(runs := disk.runs + {cycle}));
      ok := CollectRun(cycle);
      if !ok {
        return NoDownload, false;
      }
      ok := Publish(cycle);
      if !ok {
        return Stopped, false;
      }
      ok := DeleteOthers(cycle);
      outcome := if ok then Fetched else PublishedOnly;
    }

    /** One attempt of the fallback loop, with its report. */
    method Attempt(candidate: int, cycle: int, ghost start: Option<int>, ghost reports: seq<Report>)
      returns (ghost report: Report, done: bool)
      requires Valid() && OnGrid(cycle) && cycle == CycleBack(candidate, |reports|)
      requires Open(reports) && Ended(reports, start, candidate, disk)
      modifies this
      ensures Valid() && old(history) <= history
      ensures done == (report.outcome == Fetched) && Ended(reports + [report], start, candidate, disk)
      ensures Monotone(history) == (Monotone(old(history)) && !Retreats(report))
      ensures NoFaults(old(faults)) ==> NoFaults(faults) && !Faulty(report.outcome)
      ensures NoFaults(old(faults)) && Serves(old(net), 17) ==> done
      ensures NoFaults(old(faults)) && RunComplete(old(disk), cycle) ==> done
      ensures FirstDeletionFails(old(faults)) && RunComplete(old(disk), cycle)
              && (exists r | r in old(disk.runs) :: r != cycle) ==>
                report.outcome == PublishedOnly && faults == old(faults)[4..] && disk.files == old(disk).files
    {
      ghost var before := PublishedCycle(disk);
      ghost var outcome;
      outcome, done := Fetch(cycle);
      report := Report(cycle, before, outcome);
      EndedGrows(reports, start, candidate, report, disk);
    }

    /** The fallback loop of `_lader` from its second round on: the three cycles before the newest one. */
    method TryOlder(candidate: int, ghost start: Option<int>, ghost first: Report, ghost was: bool)
      returns (ghost reports: seq<Report>)
      requires Valid() && OnGrid(candidate) && Open([first])
      requires Tried([first], first, start, candidate, disk, was, Monotone(history))
      modifies this
      ensures Valid() && old(history) <= history
      ensures 2 <= |reports| <= 4 && (Open(reports) ==> |reports| == 4)
      ensures Tried(reports, first, start, candidate, disk, was, Monotone(history))
      ensures NoFaults(old(faults)) && Quiet([first]) ==> Quiet(reports)
      ensures OlderReady(old(disk), old(faults), candidate) ==> |reports| == 2 && reports[1].outcome == Fetched
    {
      ghost var quiet := NoFaults(faults) && Quiet([first]);
      ghost var ready := OlderReady(disk, faults, candidate);
      reports := [first];
      var done, back, cycle := false, 1, candidate - CYCLE;
      OneCycleBack(candidate);
      while back < 4 && !done
        invariant 1 <= back <= 4 && |reports| == back && (done ==> back > 1) && done == !Open(reports)
        invariant cycle == CycleBack(candidate, back) && OnGrid(cycle)
        invariant Valid() && old(history) <= history
        invariant Tried(reports, first, start, candidate, disk, was, Monotone(history))
        invariant quiet ==> NoFaults(faults) && Quiet(reports)
        invariant ready ==> if done then back == 2 else back == 1 && OlderReady(disk, faults, candidate)
      {
        ghost var report, monotone := first, Monotone(history);
        report, done := Attempt(candidate, cycle, start, reports);
        ReportsGrow(reports, report);
        TriedGrows(reports, report, first, start, candidate, disk, was, monotone);
        reports := reports + [report];
        OneCycleBack(cycle);
        cycle, back := cycle - CYCLE, back + 1;
      }
    }

    /** The fallback loop of `_lader`: the newest cycle, or one of the three before it. */
    method TryRuns(candidate: int) returns (ghost reports: seq<Report>)
      requires Valid() && OnGrid(candidate)
      modifies this
      ensures Valid() && old(history) <= history
      ensures 1 <= |reports| <= 4 && (Open(reports) ==> |reports| == 4)
      ensures Ended(reports, PublishedCycle(old(disk)), candidate, disk)
      ensures Monotone(history) <==> Monotone(old(history)) && !GoesBack(reports)
      ensures NoFaults(old(faults)) ==> Quiet(reports)
      ensures NoFaults(old(faults)) && Serves(old(net), 17) ==> |reports| == 1 && reports[0].outcome == Fetched
      ensures NewestDeletionFails(old(disk), old(faults), candidate) ==>
                |reports| == 2 && reports[0].outcome == PublishedOnly && reports[1].outcome == Fetched
    {
      ghost var start := PublishedCycle(disk);
      NothingTried(start, candidate, disk);
      ghost var first;
      var done;
      first, done := Attempt(candidate, candidate, start, []);
      ReportsGrow([], first);
      reports := [first];
      assert [] + [first] == reports;
      if !done {
        if NewestDeletionFails(old(disk), old(faults), candidate) {
          SameFiles(old(disk), disk, candidate - CYCLE);
        }
        reports := TryOlder(candidate, start, first, Monotone(old(history)));
      }
    }

    /**
      One turn of `_lader`: nothing to do, or an attempt at a run. The reports say how each attempt
      went. The turn makes the published cycle go back at some moment exactly when a run at or above
      the published one fails by something other than a download, or the state file cannot be read
      while the clock is behind it, and an older run is then published.
     */
    method Turn(now: int) returns (ghost reports: seq<Report>)
      requires Valid()
      modifies this
      ensures Valid() && old(history) <= history
      ensures reports == [] ==> disk == old(disk) && !Older(PublishedCycle(old(disk)), Recent(now))
      ensures reports != [] && !Older(PublishedCycle(old(disk)), Recent(now)) ==> old(faults) != [] && !old(faults)[0]
      ensures reports != [] ==> Ended(reports, PublishedCycle(old(disk)), Recent(now), disk)
      ensures |reports| <= 4 && (reports != [] && Open(reports) ==> |reports| == 4)
      ensures Monotone(history) == (Monotone(old(history)) &&
                !FaultGoesBack(reports, PublishedCycle(old(disk)), Recent(now)))
      ensures NoFaults(old(faults)) ==> Quiet(reports) && (Monotone(old(history)) ==> Monotone(history))
      ensures NoFaults(old(faults)) && Serves(old(net), 17) && reports != [] ==>
                |reports| == 1 && reports[0].outcome == Fetched
      ensures DeletionFailsOnce(old(disk), old(faults), Recent(now)) ==>
                && |reports| == 2 && reports[0].outcome == PublishedOnly && reports[1].outcome == Fetched
                && PublishedCycle(disk) == Some(Recent(now) - CYCLE) && !Monotone(history)
    {
      reports := [];
      var candidate := Recent(now);
      RecentIsLatestCycle(now);
      if disk.state.Some? {
        var readable := Works();
        if readable && disk.state.value.cycle >= candidate {
          return;
        }
      }
      ghost var start := PublishedCycle(old(disk));
      reports := TryRuns(candidate);
      GoesBackIff(reports, start, candidate);
      if NoFaults(old(faults)) {
        QuietTurn(reports, start, candidate);
      }
      TwoAttempts(reports, start, candidate, disk);
    }

    /** The process dies: the disk stays as it was after operation number `k`, the rest never happened. */
    method Crash(k: nat)
      requires Valid() && k < |history|
      modifies this`disk, this`history
      ensures Valid() && history == old(history)[..k + 1]
      ensures Monotone(old(history)) ==> Monotone(history)
    {
      TraceIsGood(history, k);
      if Monotone(history) {
        MonotonePrefix(history, k + 1);
      }
      history := history[..k + 1];
      disk := history[k];
    }

    /** One turn, cut off when the process dies. */
    method LiveOneDay(day: Day)
      requires Valid()
      modifies this
      ensures Valid() && old(history) <= history
      ensures NoFaults(day.faults) && Monotone(old(history)) ==>
                Monotone(history) && NotBack(old(disk), disk) && (Settles(day) ==> AtLeast(disk, Recent(day.now)))
    {
      net, faults := day.net, day.faults;
      var before := |history|;
      ghost var reports := Turn(day.now);
      if Settles(day) {
        SettledTurn(reports, old(disk), Recent(day.now), disk);
      }
      if day.crash.Some? && before - 1 + day.crash.value < |history| {
        Crash(before - 1 + day.crash.value);
      }
      if Monotone(history) {
        TraceIsMonotone(history, before - 1, |history| - 1);
      }
    }

    /**
      Any life of the loader: turn after turn at arbitrary clock readings, with arbitrary downloads,
      faults and interruptions. At every moment the disk is good (that is `Valid`), and when nothing
      but downloads fails the published cycle never goes back, and from every turn on that can download
      what it asks for, a run is published that is as new as that turn's clock allows.
     */
    method Live(days: seq<Day>)
      requires Valid()
      modifies this
      ensures Valid() && old(history) <= history
      ensures (forall d | d in days :: NoFaults(d.faults)) && Monotone(old(history)) ==>
                Monotone(history) && forall d | d in days && Settles(d) :: AtLeast(disk, Recent(d.now))
    {
      ghost var quiet := (forall d | d in days :: NoFaults(d.faults)) && Monotone(history);
      for i := 0 to |days|
        invariant Valid() && old(history) <= history
        invariant quiet ==> Monotone(history) && forall k | 0 <= k < i && Settles(days[k]) ::
                    AtLeast(disk, Recent(days[k].now))
      {
        assert days[i] in days;
        LiveOneDay(days[i]);
      }
    }
  }

  /** A run at least this new is published. */
  predicate AtLeast(d: Disk, cycle: int) {
    d.state.Some? && d.state.value.cycle >= cycle
  }

  /** Nothing fails on this turn, and the process survives it. */
  predicate Settles(day: Day) {
    day.crash.None? && NoFaults(day.faults) && Serves(day.net, 17)
  }

  /** When the first attempt works, the newest run is published. */
  lemma SettledTurn(reports: seq<Report>, was: Disk, candidate: int, d: Disk)
    requires reports == [] ==> d == was && !Older(PublishedCycle(was), candidate)
    requires reports != [] ==> Ended(reports, PublishedCycle(was), candidate, d)
    requires reports != [] ==> |reports| == 1 && reports[0].outcome == Fetched
    ensures AtLeast(d, candidate)
  {
    if reports != [] {
      assert AttemptAt(reports, PublishedCycle(was), candidate, 0);
    }
  }

  /** One turn with its clock reading, its downloads, its faults and the operation after which the process dies. */
  datatype Day = Day(now: int, net: seq<Download>, faults: seq<bool>, crash: Option<nat>)

  /** A run and the one before it, both complete, neither of them published yet. */
  function TwoRuns(run: int): Disk {
    var runs := {run, run - CYCLE};
    Disk(runs, map r: int, h: nat | r in runs && 0 <= h < 49 :: (r, h) := MIN_BYTES, None, None)
  }

  lemma TwoRunsComplete(run: int)
    ensures GoodDisk(TwoRuns(run)) && RunComplete(TwoRuns(run), run) && RunComplete(TwoRuns(run), run - CYCLE)
  {
    var files := TwoRuns(run).files;
    assert forall r: int, h: nat | r in {run, run - CYCLE} && h < 49 :: (r, h) in files && files[(r, h)] == MIN_BYTES;
  }

  /**
    The restriction to failing downloads is needed, at every time of day: when the newest run and the
    one before it are there and a deletion after the publication of the newest one raises, the turn
    falls back to the older one and publishes that.
   */
  method FailedDeletionGoesBack(now: int) returns (loader: Loader, ghost reports: seq<Report>)
    ensures fresh(loader) && loader.Valid() && loader.history[0] == TwoRuns(Recent(now))
    ensures |reports| == 2 && reports[0] == Report(Recent(now), None, PublishedOnly)
    ensures reports[1] == Report(Recent(now) - CYCLE, Some(Recent(now)), Fetched)
    ensures PublishedCycle(loader.disk) == Some(Recent(now) - CYCLE) && !Monotone(loader.history)
  {
    var candidate := Recent(now);
    TwoRunsComplete(candidate);
    loader := new Loader(TwoRuns(candidate));
    loader.faults := [true, true, true, false];
    assert candidate - CYCLE in loader.disk.runs;
    reports := loader.Turn(now);
    TwoAttempts(reports, None, candidate, loader.disk);
  }
}
