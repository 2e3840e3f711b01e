/**
  The workshop update cycle: check which mods need work, perform it, record the new timestamps.

  Time stamps are whole seconds. The installer, the remote interface and the runtime targets of the
  plugin are outcomes given from outside.
 */
module UpdateCycle {
  import opened Wrappers

  /** A mod of the server, enabled or not, as the database has it. Rows are listed in load order. */
  datatype Row = Row(id: string, lastUpdated: Option<int>, autoUpdate: bool, enabled: bool)

  /** What a check finds outside the database. Without an API key `remote` is empty. */
  datatype World = World(installed: set<string>, ready: set<string>, remote: map<string, int>, hasKey: bool)

  datatype Action = NoAction | Install | Update
  datatype Reason = UpToDate | Missing | NewerVersion | MissingRuntimeCopy
  datatype Status = StatusUpToDate | StatusMissing | StatusOutdated | StatusUnknown

  datatype Entry = Entry(id: string, action: Action, reason: Reason, remote: Option<int>)

  function RemoteOf(w: World, id: string): Option<int> {
    if w.hasKey && id in w.remote then Some(w.remote[id]) else None
  }

  // ---------------------------------------------------------------- when does a mod need work?

  predicate NewerRemote(row: Row, w: World) {
    row.lastUpdated.Some? && RemoteOf(w, row.id).Some? && RemoteOf(w, row.id).value > row.lastUpdated.value
  }

  /** The runtime copy is only looked at when both time stamps are known. */
  predicate NeedsWork(row: Row, w: World) {
    || row.id !in w.installed
    || NewerRemote(row, w)
    || (row.lastUpdated.Some? && RemoteOf(w, row.id).Some? && row.id !in w.ready)
  }

  /** The same by cases: a missing folder, a stamp that is not known, and two known stamps. */
  lemma NeedsWorkIff(row: Row, w: World)
    ensures row.id !in w.installed ==> NeedsWork(row, w)
    ensures row.id in w.installed && (row.lastUpdated.None? || !w.hasKey || row.id !in w.remote) ==> !NeedsWork(row, w)
    ensures row.id in w.installed && row.lastUpdated.Some? && w.hasKey && row.id in w.remote ==>
              (NeedsWork(row, w) <==> w.remote[row.id] > row.lastUpdated.value || row.id !in w.ready)
  {
  }

  function WorkEntry(row: Row, w: World): Entry {
    var remote := RemoteOf(w, row.id);
    if row.id !in w.installed then Entry(row.id, Install, Missing, remote)
    else if NewerRemote(row, w) then Entry(row.id, Update, NewerVersion, remote)
    else Entry(row.id, Install, MissingRuntimeCopy, remote)
  }

  /** The check reads enabled rows only, and passes over those without a workshop id. */
  predicate Looked(row: Row) {
    row.enabled && row.id != ""
  }

  /** What is to be done: an update for a newer version of a mod that is there, an installation otherwise. */
  lemma ActionIff(row: Row, w: World)
    requires NeedsWork(row, w)
    ensures var e := WorkEntry(row, w);
            && e.id == row.id && e.action != NoAction
            && (e.reason == Missing <==> row.id !in w.installed)
            && (e.action == Update <==> e.reason == NewerVersion)
            && (e.action == Update <==>
                row.id in w.installed && row.lastUpdated.Some? && w.hasKey && row.id in w.remote
                && w.remote[row.id] > row.lastUpdated.value)
            && (e.reason == MissingRuntimeCopy <==> row.id in w.installed && e.action == Install)
            && (e.remote.Some? <==> w.hasKey && row.id in w.remote)
            && (e.remote.Some? ==> e.remote.value == w.remote[row.id])
  {
  }

  /** What the check finds out about one row. */
  function Found(row: Row, w: World): seq<Entry> {
    if Looked(row) && NeedsWork(row, w) then [WorkEntry(row, w)] else []
  }

  /** The rows that need work, in load order. */
  function Needed(rows: seq<Row>, w: World): seq<Entry> {
    if rows == [] then []
    else Found(rows[0], w) + Needed(rows[1..], w)
  }

  /** One turn of the loop: action, reason and status found step by step. */
  method Decide(row: Row, w: World) returns (entry: Entry)
    ensures entry.action == NoAction <==> !NeedsWork(row, w)
    ensures entry ==
              if NeedsWork(row, w) then WorkEntry(row, w) else Entry(row.id, NoAction, UpToDate, RemoteOf(w, row.id))
  {
    var isInstalled := row.id in w.installed;
    var remote := RemoteOf(w, row.id);
    var action, reason, status := NoAction, UpToDate, StatusUpToDate;
    if !isInstalled {
      action, reason, status := Install, Missing, StatusMissing;
    } else {
      if row.lastUpdated.None? {
        status := StatusUnknown;
      }
      if row.lastUpdated.Some? && remote.Some? && remote.value > row.lastUpdated.value {
        action, reason, status := Update, NewerVersion, StatusOutdated;
      } else if remote.None? {
        status := StatusUnknown;
      }
    }
    if isInstalled && action == NoAction && (status == StatusUpToDate || status == StatusOutdated) {
      if row.id !in w.ready {
        action, reason := Install, MissingRuntimeCopy;
      }
    }
    entry := Entry(row.id, action, reason, remote);
  }

  lemma NeededStep(before: seq<Entry>, rows: seq<Row>, i: nat, w: World)
    requires i < |rows|
    ensures before + Needed(rows[i..], w) == before + Found(rows[i], w) + Needed(rows[i + 1..], w)
  {
    assert rows[i..][0] == rows[i] && rows[i..][1..] == rows[i + 1..];
  }

  /** The loop body with the query's condition; rows that need nothing are filtered out. */
  method CheckRow(row: Row, w: World) returns (found: seq<Entry>)
    ensures found == Found(row, w)
  {
    if !row.enabled || row.id == "" {
      return [];
    }
    var entry := Decide(row, w);
    found := if entry.action != NoAction then [entry] else [];
  }

  /** `check_workshop_mod_updates` */
  method Check(rows: seq<Row>, w: World) returns (needing: seq<Entry>)
    ensures needing == Needed(rows, w)
  {
    needing := [];
    for i := 0 to |rows|
      invariant needing + Needed(rows[i..], w) == Needed(rows, w)
    {
      NeededStep(needing, rows, i, w);
      var found := CheckRow(rows[i], w);
      needing := needing + found;
    }
  }

  /** The list row by row: what is found about the rows in front comes first. */
  lemma {:induction false} NeededParts(a: seq<Row>, row: Row, b: seq<Row>, w: World)
    ensures Needed(a + ([row] + b), w) ==
              Needed(a, w)
              + (if row.enabled && row.id != "" && NeedsWork(row, w) then [WorkEntry(row, w)] else []) + Needed(b, w)
    decreases |a|
  {
    var all := a + ([row] + b);
    if a == [] {
      assert all[0] == row && all[1..] == b;
    } else {
      assert all[0] == a[0] && all[1..] == a[1..] + ([row] + b);
      NeededParts(a[1..], row, b, w);
      var found := if row.enabled && row.id != "" && NeedsWork(row, w) then [WorkEntry(row, w)] else [];
      assert Found(a[0], w) + (Needed(a[1..], w) + found + Needed(b, w)) ==
             Found(a[0], w) + Needed(a[1..], w) + found + Needed(b, w);
    }
  }

  lemma {:induction false} NeededIff(rows: seq<Row>, w: World, id: string)
    ensures (exists e | e in Needed(rows, w) :: e.id == id) <==>
            exists i | 0 <= i < |rows| :: rows[i].id == id && Looked(rows[i]) && NeedsWork(rows[i], w)
  {
    if rows != [] {
      NeededIff(rows[1..], w, id);
      var tail := Needed(rows[1..], w);
      if i :| 0 <= i < |rows| && rows[i].id == id && Looked(rows[i]) && NeedsWork(rows[i], w) {
        if i == 0 {
          assert WorkEntry(rows[0], w) in Needed(rows, w);
        } else {
          assert rows[1..][i - 1] == rows[i];
          var e :| e in tail && e.id == id;
          assert e in Needed(rows, w);
        }
      }
      if e :| e in Needed(rows, w) && e.id == id {
        if e in tail {
          var i :| 0 <= i < |rows[1..]| && rows[1..][i].id == id && Looked(rows[1..][i]) && NeedsWork(rows[1..][i], w);
          assert rows[i + 1] == rows[1..][i];
        }
      }
    }
  }

  lemma {:induction false} NeededEmptyIff(rows: seq<Row>, w: World)
    ensures Needed(rows, w) == [] <==> forall i | 0 <= i < |rows| && Looked(rows[i]) :: !NeedsWork(rows[i], w)
  {
    if rows != [] {
      NeededEmptyIff(rows[1..], w);
      assert forall i | 1 <= i < |rows| :: rows[1..][i - 1] == rows[i];
    }
  }

  // ---------------------------------------------------------------- performing and recording

  predicate DistinctIds(rows: seq<Row>) {
    forall i, j | 0 <= i < j < |rows| :: rows[i].id != rows[j].id
  }

  /** The ids of the entries, each once, in the order of their first occurrence. */
  function Ids(entries: seq<Entry>, seen: set<string>): (r: seq<string>)
    ensures forall id :: id in r <==> id !in seen && exists e | e in entries :: e.id == id
    ensures forall i, j | 0 <= i < j < |r| :: r[i] != r[j]
  {
    if entries == [] then []
    else if entries[0].id in seen then Ids(entries[1..], seen)
    else [entries[0].id] + Ids(entries[1..], seen + {entries[0].id})
  }

  /** Some enabled row of the mod asks for automatic updates. */
  predicate Automatic(rows: seq<Row>, id: string) {
    exists j | 0 <= j < |rows| :: rows[j].id == id && rows[j].enabled && rows[j].autoUpdate
  }

  /** The entries of mods with automatic updates. */
  function AutoOnly(entries: seq<Entry>, rows: seq<Row>): (r: seq<Entry>)
    ensures forall e :: e in r <==> e in entries && Automatic(rows, e.id)
  {
    if entries == [] then []
    else (if Automatic(rows, entries[0].id) then [entries[0]] else []) + AutoOnly(entries[1..], rows)
  }

  /** The time stamp that is recorded: the remote one, or the time of recording. */
  function StampOf(remote: Option<int>, now: int): int {
    if remote.Some? then remote.value else now
  }

  /** Which row the database gives first for an id; the query asks for no order. */
  type Pick = map<string, nat>

  /** The database gives some row with the id, enabled or not, when there is one. */
  ghost predicate Picks(rows: seq<Row>, pick: Pick) {
    && (forall row | row in rows :: row.id in pick)
    && forall id | id in pick :: pick[id] < |rows| && rows[pick[id]].id == id
  }

  /** The row is the one that is recorded for its id. */
  predicate Picked(rows: seq<Row>, pick: Pick, i: nat)
    requires i < |rows|
  {
    rows[i].id in pick && pick[rows[i].id] == i
  }

  /** The picked row of the id gets the time stamp. */
  function Stamped(rows: seq<Row>, id: string, stamp: int, pick: Pick): (r: seq<Row>)
    ensures |r| == |rows|
  {
    if id in pick && pick[id] < |rows| && rows[pick[id]].id == id
    then rows[pick[id] := rows[pick[id]].(lastUpdated := Some(stamp))]
    else rows
  }

  lemma StampedRow(rows: seq<Row>, id: string, stamp: int, pick: Pick, i: nat)
    requires i < |rows|
    ensures Stamped(rows, id, stamp, pick)[i] ==
              if rows[i].id == id && Picked(rows, pick, i) then rows[i].(lastUpdated := Some(stamp)) else rows[i]
  {
  }

  /** A time stamp changes no id, so the database goes on giving the same row. */
  lemma StampedPicks(rows: seq<Row>, id: string, stamp: int, pick: Pick)
    requires Picks(rows, pick)
    ensures Picks(Stamped(rows, id, stamp, pick), pick)
  {
    var after := Stamped(rows, id, stamp, pick);
    assert forall i | 0 <= i < |rows| :: after[i].id == rows[i].id;
    forall row | row in after ensures row.id in pick {
      var i :| 0 <= i < |after| && after[i] == row;
      assert rows[i] in rows;
    }
  }

  /** All successful ids are recorded one after the other. */
  function Recorded(rows: seq<Row>, ids: seq<string>, good: set<string>, w: World, now: int, pick: Pick): (r: seq<Row>)
    ensures |r| == |rows|
    decreases |ids|
  {
    if ids == [] then rows
    else
      var next := if ids[0] in good then Stamped(rows, ids[0], StampOf(RemoteOf(w, ids[0]), now), pick) else rows;
      Recorded(next, ids[1..], good, w, now, pick)
  }

  /** What the installer leaves behind: the ids it reports as good, and the state of the disk. */
  datatype Installed = Installed(good: set<string>, installed: set<string>, ready: set<string>)

  lemma RecordedStep(rows: seq<Row>, ids: seq<string>, i: nat, good: set<string>, w: World, now: int, pick: Pick)
    requires i < |ids|
    ensures var next := if ids[i] in good then Stamped(rows, ids[i], StampOf(RemoteOf(w, ids[i]), now), pick) else rows;
            Recorded(rows, ids[i..], good, w, now, pick) == Recorded(next, ids[i + 1..], good, w, now, pick)
  {
    assert ids[i..][0] == ids[i] && ids[i..][1..] == ids[i + 1..];
  }

  class Panel {
    var rows: seq<Row>
    var world: World

    constructor (rows: seq<Row>, world: World)
      ensures this.rows == rows && this.world == world
    {
      this.rows, this.world := rows, world;
    }

    /** `update_mod_metadata_after_success` */
    method Record(id: string, remote: Option<int>, now: int, pick: Pick) returns (found: bool)
      requires Picks(rows, pick)
      modifies this`rows
      ensures rows == Stamped(old(rows), id, StampOf(remote, now), pick) && Picks(rows, pick)
      ensures found <==> exists row | row in rows :: row.id == id
    {
      found := id in pick;
      StampedPicks(rows, id, StampOf(remote, now), pick);
      if found {
        rows := rows[pick[id] := rows[pick[id]].(lastUpdated := Some(StampOf(remote, now)))];
      }
    }

    /** The loop over the installer's answers: good ids are recorded, the others listed. */
    method RecordAll(ids: seq<string>, good: set<string>, w: World, now: int, pick: Pick)
      returns (applied: nat, errors: seq<string>)
      requires Picks(rows, pick)
      modifies this`rows
      ensures applied + |errors| == |ids| && forall id :: id in errors <==> id in ids && id !in good
      ensures rows == Recorded(old(rows), ids, good, w, now, pick)
    {
      applied, errors := 0, [];
      for i := 0 to |ids|
        invariant applied + |errors| == i && forall id :: id in errors <==> id in ids[..i] && id !in good
        invariant Picks(rows, pick)
        invariant Recorded(old(rows), ids, good, w, now, pick) == Recorded(rows, ids[i..], good, w, now, pick)
      {
        RecordedStep(rows, ids, i, good, w, now, pick);
        assert ids[..i + 1] == ids[..i] + [ids[i]];
        if ids[i] in good {
          var _ := Record(ids[i], RemoteOf(w, ids[i]), now, pick);
          applied := applied + 1;
        } else {
          errors := errors + [ids[i]];
        }
      }
    }

    /** `perform_workshop_mod_updates` with the outcome of the installer. */
    method Perform(autoOnly: bool, outcome: Installed, now: int, pick: Pick)
      returns (applied: nat, errors: seq<string>)
      requires Picks(rows, pick)
      modifies this
      ensures var needed := Needed(old(rows), old(world));
              var ids := Ids(if autoOnly then AutoOnly(needed, old(rows)) else needed, {});
              && applied + |errors| == |ids|
              && (forall id :: id in errors <==> id in ids && id !in outcome.good)
              && rows == Recorded(old(rows), ids, outcome.good, old(world), now, pick)
              && world == if ids == [] then old(world)
                          else old(world).(installed := outcome.installed, ready := outcome.ready)
    {
      applied, errors := 0, [];
      var needed := Check(rows, world);
      if autoOnly {
        needed := AutoOnly(needed, rows);
      }
      var ids := Ids(needed, {});
      if ids != [] {
        var seen := world;
        world := world.(installed := outcome.installed, ready := outcome.ready);
        applied, errors := RecordAll(ids, outcome.good, seen, now, pick);
      }
    }
  }

  // ---------------------------------------------------------------- the fixpoint

  /** Recording touches exactly the picked rows of the successful ids. */
  lemma {:induction false} RecordedRow(
    rows: seq<Row>, ids: seq<string>, good: set<string>, w: World, now: int, pick: Pick, i: nat
  )
    requires i < |rows|
    ensures Recorded(rows, ids, good, w, now, pick)[i] ==
              if rows[i].id in ids && rows[i].id in good && Picked(rows, pick, i)
              then
                var known := w.hasKey && rows[i].id in w.remote;
                rows[i].(lastUpdated := Some(if known then w.remote[rows[i].id] else now))
              else rows[i]
    decreases |ids|
  {
    if ids != [] {
      var next := if ids[0] in good then Stamped(rows, ids[0], StampOf(RemoteOf(w, ids[0]), now), pick) else rows;
      StampedRow(rows, ids[0], StampOf(RemoteOf(w, ids[0]), now), pick, i);
      RecordedRow(next, ids[1..], good, w, now, pick, i);
      assert rows[i].id in ids <==> rows[i].id == ids[0] || rows[i].id in ids[1..];
    }
  }

  /** The mods one round works on. */
  function RoundIds(rows: seq<Row>, w: World, autoOnly: bool): seq<string> {
    var needed := Needed(rows, w);
    Ids(if autoOnly then AutoOnly(needed, rows) else needed, {})
  }

  /** One round: its mode, its outcome, the time of recording and the rows the database gives. */
  datatype Round = Round(autoOnly: bool, outcome: Installed, now: int, pick: Pick)

  function RowsAfter(rows: seq<Row>, w: World, r: Round): (after: seq<Row>)
    ensures |after| == |rows|
  {
    Recorded(rows, RoundIds(rows, w, r.autoOnly), r.outcome.good, w, r.now, r.pick)
  }

  function WorldAfter(rows: seq<Row>, w: World, r: Round): World {
    if RoundIds(rows, w, r.autoOnly) == [] then w
    else w.(installed := r.outcome.installed, ready := r.outcome.ready)
  }

  /**
    When does a row need work in the check after a round? The picked row of a mod that was worked on
    and reported good needs it again exactly when its folder is missing, or when its remote time stamp
    is known and its runtime copy is missing; every other row exactly when the old row does.
   */
  lemma NextCheckIff(rows: seq<Row>, w: World, r: Round, i: nat)
    requires i < |rows|
    ensures var id, w' := rows[i].id, WorldAfter(rows, w, r);
            NeedsWork(RowsAfter(rows, w, r)[i], w') <==>
              if id in RoundIds(rows, w, r.autoOnly) && id in r.outcome.good && Picked(rows, r.pick, i)
              then id !in w'.installed || (RemoteOf(w, id).Some? && id !in w'.ready)
              else NeedsWork(rows[i], w')
  {
    RecordedRow(rows, RoundIds(rows, w, r.autoOnly), r.outcome.good, w, r.now, r.pick, i);
  }

  /** A round in which everything works: what was asked for is good, in place and ready, and nothing else is lost. */
  ghost predicate RoundWorks(rows: seq<Row>, w: World, r: Round) {
    && (forall id | id in RoundIds(rows, w, r.autoOnly) :: id in r.outcome.good)
    && (forall id | id in RoundIds(rows, w, r.autoOnly) :: id in r.outcome.installed && id in r.outcome.ready)
    && (forall id | id in w.installed :: id in r.outcome.installed)
    && (forall id | id in w.ready :: id in r.outcome.ready)
  }

  /** The check looks at the row, and the mode is responsible for its mod. */
  ghost predicate Covers(rows: seq<Row>, autoOnly: bool, i: nat)
    requires i < |rows|
  {
    Looked(rows[i]) && (autoOnly ==> Automatic(rows, rows[i].id))
  }

  /** A mod is worked on exactly when some row the round covers needs work. */
  lemma RoundIdsIff(rows: seq<Row>, w: World, autoOnly: bool, id: string)
    ensures id in RoundIds(rows, w, autoOnly) <==>
            exists i | 0 <= i < |rows| :: rows[i].id == id && Covers(rows, autoOnly, i) && NeedsWork(rows[i], w)
  {
    NeededIff(rows, w, id);
    var needed := Needed(rows, w);
    if e :| e in needed && e.id == id {
      assert autoOnly && Automatic(rows, id) ==> e in AutoOnly(needed, rows);
    }
  }

  lemma NoIdsIff(rows: seq<Row>, w: World, autoOnly: bool)
    ensures RoundIds(rows, w, autoOnly) == [] <==>
            forall i | 0 <= i < |rows| && Covers(rows, autoOnly, i) :: !NeedsWork(rows[i], w)
  {
    var ids := RoundIds(rows, w, autoOnly);
    if ids != [] {
      assert ids[0] in ids;
      RoundIdsIff(rows, w, autoOnly, ids[0]);
    } else {
      forall i | 0 <= i < |rows| && Covers(rows, autoOnly, i) ensures !NeedsWork(rows[i], w) {
        RoundIdsIff(rows, w, autoOnly, rows[i].id);
        assert rows[i].id !in ids;
      }
    }
  }

  /** After a round that works a row needs work exactly when it is outdated and not the picked one of its id. */
  lemma RowAfterRound(rows: seq<Row>, w: World, r: Round, i: nat)
    requires RoundWorks(rows, w, r) && i < |rows| && Covers(rows, r.autoOnly, i)
    ensures NeedsWork(RowsAfter(rows, w, r)[i], WorldAfter(rows, w, r)) <==>
              !Picked(rows, r.pick, i) && NewerRemote(rows[i], w)
  {
    NextCheckIff(rows, w, r, i);
    RoundIdsIff(rows, w, r.autoOnly, rows[i].id);
  }

  /** A round keeps everything of a row but its time stamp. */
  lemma SameCover(rows: seq<Row>, w: World, r: Round)
    ensures var rows' := RowsAfter(rows, w, r);
            && (forall i | 0 <= i < |rows| :: rows'[i] == rows[i].(lastUpdated := rows'[i].lastUpdated))
            && forall i | 0 <= i < |rows| :: Covers(rows', r.autoOnly, i) <==> Covers(rows, r.autoOnly, i)
  {
    var rows' := RowsAfter(rows, w, r);
    forall i | 0 <= i < |rows| ensures rows'[i] == rows[i].(lastUpdated := rows'[i].lastUpdated) {
      RecordedRow(rows, RoundIds(rows, w, r.autoOnly), r.outcome.good, w, r.now, r.pick, i);
    }
    forall id ensures Automatic(rows', id) <==> Automatic(rows, id) {
      if j :| 0 <= j < |rows| && rows[j].id == id && rows[j].enabled && rows[j].autoUpdate {
        assert rows'[j].id == id && rows'[j].enabled && rows'[j].autoUpdate;
      }
      if j :| 0 <= j < |rows'| && rows'[j].id == id && rows'[j].enabled && rows'[j].autoUpdate {
        assert rows[j].id == id && rows[j].enabled && rows[j].autoUpdate;
      }
    }
  }

  /**
    One full round is a fixpoint, exactly when no enabled row other than the recorded one of its mod is
    outdated: with unchanged remote time stamps and a round in which everything works, the next check
    asks for nothing, whether time stamps are known or not, with or without an API key, and in the
    automatic mode for the mods it is responsible for.
   */
  lemma RoundIsFixpoint(rows: seq<Row>, w: World, r: Round)
    requires RoundWorks(rows, w, r)
    ensures RoundIds(RowsAfter(rows, w, r), WorldAfter(rows, w, r), r.autoOnly) == [] <==>
            forall i | 0 <= i < |rows| && Covers(rows, r.autoOnly, i) && !Picked(rows, r.pick, i) ::
              !NewerRemote(rows[i], w)
    ensures !r.autoOnly ==>
              (Needed(RowsAfter(rows, w, r), WorldAfter(rows, w, r)) == [] <==>
               forall i | 0 <= i < |rows| && Looked(rows[i]) && !Picked(rows, r.pick, i) :: !NewerRemote(rows[i], w))
  {
    var rows', w' := RowsAfter(rows, w, r), WorldAfter(rows, w, r);
    SameCover(rows, w, r);
    forall i | 0 <= i < |rows| && Covers(rows, r.autoOnly, i)
      ensures NeedsWork(rows'[i], w') <==> !Picked(rows, r.pick, i) && NewerRemote(rows[i], w)
    {
      RowAfterRound(rows, w, r, i);
    }
    NoIdsIff(rows', w', r.autoOnly);
    NeededEmptyIff(rows', w');
  }

  /** Where no mod has two rows, a round that works is a fixpoint whatever the rows hold. */
  lemma DistinctRoundIsFixpoint(rows: seq<Row>, w: World, r: Round)
    requires DistinctIds(rows) && Picks(rows, r.pick) && RoundWorks(rows, w, r)
    ensures RoundIds(RowsAfter(rows, w, r), WorldAfter(rows, w, r), r.autoOnly) == []
    ensures !r.autoOnly ==> Needed(RowsAfter(rows, w, r), WorldAfter(rows, w, r)) == []
  {
    RoundIsFixpoint(rows, w, r);
    forall i | 0 <= i < |rows| ensures Picked(rows, r.pick, i) {
      assert rows[i] in rows;
    }
  }

  /**
    A failed post-install step is recorded as a success. It is noticed by the next check exactly when
    the remote time stamp is known, and for a row that is not recorded its own as well.
   */
  lemma FailedPostInstallNoticedIff(rows: seq<Row>, w: World, r: Round, i: nat)
    requires i < |rows| && rows[i].id in RoundIds(rows, w, r.autoOnly)
    requires rows[i].id in r.outcome.good && rows[i].id in r.outcome.installed && rows[i].id !in r.outcome.ready
    ensures NeedsWork(RowsAfter(rows, w, r)[i], WorldAfter(rows, w, r)) <==>
              RemoteOf(w, rows[i].id).Some? && (Picked(rows, r.pick, i) || rows[i].lastUpdated.Some?)
  {
    NextCheckIff(rows, w, r, i);
  }

  // ---------------------------------------------------------------- two rows for one mod

  /** Rows and world after a sequence of rounds. */
  function AfterRounds(rows: seq<Row>, w: World, rounds: seq<Round>): (seq<Row>, World)
    decreases |rounds|
  {
    if rounds == [] then (rows, w)
    else AfterRounds(RowsAfter(rows, w, rounds[0]), WorldAfter(rows, w, rounds[0]), rounds[1..])
  }

  /**
    Of the rows for one mod only the one the database gives is recorded: with unchanged remote time
    stamps an enabled outdated row that no round picks is the same after any sequence of rounds, and
    every check asks for work on it. The picked row may be a disabled one.
   */
  lemma {:induction false} UnpickedRowStaysOutdated(rows: seq<Row>, w: World, rounds: seq<Round>, i: nat)
    requires i < |rows| && Looked(rows[i]) && NewerRemote(rows[i], w)
    requires forall k | 0 <= k < |rounds| :: !Picked(rows, rounds[k].pick, i)
    ensures var (rows', w') := AfterRounds(rows, w, rounds);
            && |rows'| == |rows| && rows'[i] == rows[i]
            && NeedsWork(rows'[i], w') && exists e | e in Needed(rows', w') :: e.id == rows[i].id
    decreases |rounds|
  {
    if rounds == [] {
      NeededIff(rows, w, rows[i].id);
    } else {
      var r := rounds[0];
      RecordedRow(rows, RoundIds(rows, w, r.autoOnly), r.outcome.good, w, r.now, r.pick, i);
      UnpickedRowStaysOutdated(RowsAfter(rows, w, r), WorldAfter(rows, w, r), rounds[1..], i);
    }
  }

  /** A disabled row beside the only enabled one is enough: it takes the stamp, and the next check asks again. */
  lemma DisabledRowTakesStamp(id: string, known: int, remote: int)
    requires id != "" && known < remote
    ensures var rows := [Row(id, Some(known), true, false), Row(id, Some(known), true, true)];
            var w := World({id}, {id}, map[id := remote], true);
            var r := Round(false, Installed({id}, {id}, {id}), remote, map[id := 0]);
            && Picks(rows, r.pick) && RoundWorks(rows, w, r) && !Looked(rows[0])
            && RowsAfter(rows, w, r)[0].lastUpdated == Some(remote)
            && RoundIds(RowsAfter(rows, w, r), WorldAfter(rows, w, r), false) != []
  {
    var rows := [Row(id, Some(known), true, false), Row(id, Some(known), true, true)];
    var w := World({id}, {id}, map[id := remote], true);
    var r := Round(false, Installed({id}, {id}, {id}), remote, map[id := 0]);
    RoundIdsIff(rows, w, false, id);
    assert rows[1].id == id && Covers(rows, false, 1) && NeedsWork(rows[1], w);
    RecordedRow(rows, RoundIds(rows, w, false), r.outcome.good, w, r.now, r.pick, 0);
    forall other | other in RoundIds(rows, w, false) ensures other == id {
      RoundIdsIff(rows, w, false, other);
    }
    RoundIsFixpoint(rows, w, r);
    assert Covers(rows, false, 1) && !Picked(rows, r.pick, 1) && NewerRemote(rows[1], w);
  }
}
