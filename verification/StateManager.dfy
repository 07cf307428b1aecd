/**
 Saving the state file with backup rotation, and loading it back. The disk is a map from files to contents, and
 a save is a list of single disk steps, so that a crash is a prefix of that list. Writing or copying a file is two
 steps: the file is torn before it is whole.
 */
module StateManager {
  import opened Bytes

  datatype TorrentState = TorrentState(infoHash: string, completedPieces: Option<seq<nat>>)

  datatype State = State(version: int, savedAt: int, torrents: map<string, TorrentState>, settings: map<string, int>)

  /** _validateState */
  predicate ValidState(s: State) {
    && s.version == 1
    && (forall h <- s.torrents :: s.torrents[h].infoHash != "" && s.torrents[h].completedPieces.Some?)
  }

  datatype Path = Main | Temp | Backup(index: nat)

  /** A torn file is a proper prefix of a JSON object, which does not parse. */
  datatype File = Whole(state: State) | Torn

  type Disk = map<Path, File>

  function At(d: Disk, p: Path): Option<File> {
    if p in d then Some(d[p]) else None
  }

  /** Unlink and Rename of a missing file raise an error that the caller ignores. */
  datatype Op =
    | Tear(path: Path)
    | Put(path: Path, file: File)
    | Unlink(path: Path)
    | Rename(from: Path, to: Path)
    | Copy(from: Path, to: Path)

  function Apply(d: Disk, op: Op): Disk {
    match op
    case Tear(p) => d[p := Torn]
    case Put(p, f) => d[p := f]
    case Unlink(p) => d - {p}
    case Rename(a, b) => if a in d then (d - {a})[b := d[a]] else d
    case Copy(a, b) => if a in d then d[b := d[a]] else d
  }

  function ApplyAll(d: Disk, ops: seq<Op>): Disk
    decreases |ops|
  {
    if ops == [] then d else ApplyAll(Apply(d, ops[0]), ops[1..])
  }

  lemma {:induction false} ApplyAppend(d: Disk, a: seq<Op>, b: seq<Op>)
    ensures ApplyAll(d, a + b) == ApplyAll(ApplyAll(d, a), b)
    decreases |a|
  {
    if a == [] {
      assert a + b == b;
    } else {
      assert (a + b)[1..] == a[1..] + b;
      ApplyAppend(Apply(d, a[0]), a[1..], b);
    }
  }

  // ---------------------------------------------------------------- what a save does

  /** Backup k-1 becomes backup k, then k-2 becomes k-1, down to 0. */
  function Shifts(k: nat): seq<Op> {
    if k == 0 then [] else [Rename(Backup(k - 1), Backup(k))] + Shifts(k - 1)
  }

  /** _rotateBackups */
  function Rotation(maxBackups: int): seq<Op> {
    if maxBackups > 0 then
      [Unlink(Backup(maxBackups - 1))] + Shifts(maxBackups - 1) + [Tear(Backup(0)), Copy(Main, Backup(0))]
    else []
  }

  function BeforeCommit(d: Disk, s: State, maxBackups: int): seq<Op> {
    [Tear(Temp), Put(Temp, Whole(s))] + if Main in d then Rotation(maxBackups) else []
  }

  /** Every disk step of one save, in order; the last one is the only one that touches the main file. */
  function SaveSteps(d: Disk, s: State, maxBackups: int): seq<Op> {
    BeforeCommit(d, s, maxBackups) + [Rename(Temp, Main)]
  }

  /** The first of the main file and the backups that parses and validates. */
  function Loaded(d: Disk, maxBackups: int): Option<State> {
    if Loadable(d, Main) then Some(d[Main].state) else FromBackups(d, 0, maxBackups)
  }

  predicate Loadable(d: Disk, p: Path) {
    p in d && d[p].Whole? && ValidState(d[p].state)
  }

  function FromBackups(d: Disk, i: nat, maxBackups: int): Option<State>
    decreases maxBackups - i
  {
    if i >= maxBackups then None
    else if Loadable(d, Backup(i)) then Some(d[Backup(i)].state)
    else FromBackups(d, i + 1, maxBackups)
  }

  // ---------------------------------------------------------------- the main file changes in one step

  /** The step neither writes nor removes the file. */
  predicate Spares(op: Op, file: Path) {
    match op
    case Tear(p) => p != file
    case Put(p, _) => p != file
    case Unlink(p) => p != file
    case Rename(a, b) => a != file && b != file
    case Copy(_, b) => b != file
  }

  predicate AllSpare(ops: seq<Op>, file: Path) {
    forall i :: 0 <= i < |ops| ==> Spares(ops[i], file)
  }

  lemma {:induction false} FileStays(d: Disk, ops: seq<Op>, file: Path)
    requires AllSpare(ops, file)
    ensures At(ApplyAll(d, ops), file) == At(d, file)
    decreases |ops|
  {
    if ops != [] {
      assert Spares(ops[0], file);
      FileStays(Apply(d, ops[0]), ops[1..], file);
    }
  }

  lemma {:induction false} ShiftsAre(k: nat)
    ensures |Shifts(k)| == k
    ensures forall i :: 0 <= i < k ==> Shifts(k)[i] == Rename(Backup(k - 1 - i), Backup(k - i))
  {
    if k > 0 { ShiftsAre(k - 1); }
  }

  lemma BeforeCommitSparesMain(d: Disk, s: State, maxBackups: int)
    ensures AllSpare(BeforeCommit(d, s, maxBackups), Main)
  {
    if maxBackups > 0 {
      ShiftsAre(maxBackups - 1);
      hide Shifts;
    }
  }

  // ---------------------------------------------------------------- what rotation does to the backups

  /** With place k free, each of the first k backups moves up by one and place 0 becomes free. */
  lemma {:induction false} ShiftsMove(d: Disk, k: nat)
    requires Backup(k) !in d
    ensures var r := ApplyAll(d, Shifts(k));
            && At(r, Main) == At(d, Main) && At(r, Temp) == At(d, Temp) && At(r, Backup(0)) == None
            && (forall j: nat, i: nat | j == i + 1 && i < k :: At(r, Backup(j)) == At(d, Backup(i)))
            && (forall j: nat | j > k :: At(r, Backup(j)) == At(d, Backup(j)))
    decreases k
  {
    if k > 0 {
      var first := Rename(Backup(k - 1), Backup(k));
      assert Shifts(k)[0] == first && Shifts(k)[1..] == Shifts(k - 1);
      var e := Apply(d, first);
      assert Backup(k - 1) !in e && At(e, Backup(k)) == At(d, Backup(k - 1));
      ShiftsMove(e, k - 1);
    }
  }

  lemma ApplyTwo(d: Disk, a: Op, b: Op)
    ensures ApplyAll(d, [a, b]) == Apply(Apply(d, a), b)
  {
    assert [a, b][1..] == [b];
    ApplyOne(Apply(d, a), b);
  }

  lemma ApplyOne(d: Disk, a: Op)
    ensures ApplyAll(d, [a]) == Apply(d, a)
  {
    assert [a][1..] == [];
  }

  /** Rotation drops the oldest backup, moves the others up and copies the main file to place 0. */
  lemma RotationMoves(d: Disk, maxBackups: int)
    requires Main in d
    ensures var r := ApplyAll(d, Rotation(maxBackups));
            && At(r, Main) == At(d, Main) && At(r, Temp) == At(d, Temp)
            && (maxBackups > 0 ==> At(r, Backup(0)) == At(d, Main))
            && (forall j: nat, i: nat | j == i + 1 && j < maxBackups :: At(r, Backup(j)) == At(d, Backup(i)))
            && (forall j: nat | j >= maxBackups :: At(r, Backup(j)) == At(d, Backup(j)))
  {
    if maxBackups > 0 {
      var drop, tail := [Unlink(Backup(maxBackups - 1))], [Tear(Backup(0)), Copy(Main, Backup(0))];
      var e := Apply(d, drop[0]);
      ApplyAppend(d, drop + Shifts(maxBackups - 1), tail);
      ApplyAppend(d, drop, Shifts(maxBackups - 1));
      ApplyOne(d, drop[0]);
      ShiftsMove(e, maxBackups - 1);
      ApplyTwo(ApplyAll(e, Shifts(maxBackups - 1)), tail[0], tail[1]);
    }
  }

  /** A whole save, from the outside. */
  lemma SaveDoes(d: Disk, s: State, maxBackups: int)
    ensures var r := ApplyAll(d, SaveSteps(d, s, maxBackups));
            && At(r, Main) == Some(Whole(s)) && Temp !in r
            && (Main in d ==>
                  && (maxBackups > 0 ==> At(r, Backup(0)) == At(d, Main))
                  && (forall j: nat, i: nat | j == i + 1 && j < maxBackups :: At(r, Backup(j)) == At(d, Backup(i))))
            && (forall j: nat | Main !in d || j >= maxBackups :: At(r, Backup(j)) == At(d, Backup(j)))
  {
    hide Rotation, ApplyAll;
    var write := [Tear(Temp), Put(Temp, Whole(s))];
    var e := ApplyAll(d, write);
    ApplyTwo(d, write[0], write[1]);
    var rotate := if Main in d then Rotation(maxBackups) else [];
    ApplyAppend(d, write, rotate);
    ApplyAppend(d, write + rotate, [Rename(Temp, Main)]);
    ApplyOne(ApplyAll(e, rotate), Rename(Temp, Main));
    if Main in d { RotationMoves(e, maxBackups); } else { ApplyNone(e); }
  }

  lemma ApplyNone(d: Disk)
    ensures ApplyAll(d, []) == d
  {
  }

  // ---------------------------------------------------------------- runs of saves and crashes

  /** A save that completes, or one that the process does not survive: only its first `steps` steps reach the disk. */
  datatype Event = Saved(state: State) | Crashed(state: State, steps: nat)

  function After(d: Disk, e: Event, maxBackups: int): Disk {
    var all := SaveSteps(d, e.state, maxBackups);
    if e.Crashed? && e.steps < |all| then ApplyAll(d, all[..e.steps]) else ApplyAll(d, all)
  }

  function Run(events: seq<Event>, maxBackups: int): Disk {
    if events == [] then map[] else After(Run(events[..|events| - 1], maxBackups), events[|events| - 1], maxBackups)
  }

  /** The state whose save last reached its end. */
  function Committed(events: seq<Event>, maxBackups: int): Option<State> {
    if events == [] then None
    else
      var before, e := events[..|events| - 1], events[|events| - 1];
      if e.Crashed? && e.steps < |SaveSteps(Run(before, maxBackups), e.state, maxBackups)| then
        Committed(before, maxBackups)
      else Some(e.state)
  }

  function Content(s: Option<State>): Option<File> {
    if s.Some? then Some(Whole(s.value)) else None
  }

  predicate NoBackups(d: Disk) {
    forall p <- d :: !p.Backup?
  }

  lemma FreshHasNoBackups(d: Disk, s: State, maxBackups: int, k: nat)
    requires NoBackups(d) && Main !in d && k <= 2
    ensures NoBackups(ApplyAll(d, SaveSteps(d, s, maxBackups)[..k]))
  {
    var all := SaveSteps(d, s, maxBackups);
    assert all == [Tear(Temp), Put(Temp, Whole(s)), Rename(Temp, Main)];
    if k == 0 {
      assert all[..0] == [];
    } else if k == 1 {
      assert all[..1] == [all[0]];
      ApplyOne(d, all[0]);
    } else {
      assert all[..2] == [all[0], all[1]];
      ApplyTwo(d, all[0], all[1]);
    }
  }

  lemma PrefixSparesMain(d: Disk, s: State, maxBackups: int, k: nat)
    requires k < |SaveSteps(d, s, maxBackups)|
    ensures At(ApplyAll(d, SaveSteps(d, s, maxBackups)[..k]), Main) == At(d, Main)
  {
    hide BeforeCommit;
    BeforeCommitSparesMain(d, s, maxBackups);
    FileStays(d, SaveSteps(d, s, maxBackups)[..k], Main);
  }

  /** At every moment the main file is whole and is the state of the last save that reached its end. */
  lemma {:induction false} MainIsCommitted(events: seq<Event>, maxBackups: int)
    ensures At(Run(events, maxBackups), Main) == Content(Committed(events, maxBackups))
    ensures Committed(events, maxBackups).None? ==> NoBackups(Run(events, maxBackups))
  {
    if events != [] {
      hide SaveSteps, ApplyAll, NoBackups;
      var before, e := events[..|events| - 1], events[|events| - 1];
      var d := Run(before, maxBackups);
      MainIsCommitted(before, maxBackups);
      var all := SaveSteps(d, e.state, maxBackups);
      if e.Crashed? && e.steps < |all| {
        PrefixSparesMain(d, e.state, maxBackups, e.steps);
        if Committed(before, maxBackups).None? {
          FreshSteps(d, e.state, maxBackups);
          FreshHasNoBackups(d, e.state, maxBackups, e.steps);
        }
      } else {
        SaveDoes(d, e.state, maxBackups);
      }
    } else {
      EmptyDisk();
    }
  }

  lemma EmptyDisk()
    ensures NoBackups(map[])
  {
  }

  lemma FreshSteps(d: Disk, s: State, maxBackups: int)
    requires Main !in d
    ensures |SaveSteps(d, s, maxBackups)| == 3
  {
  }

  lemma {:induction false} NothingToLoad(d: Disk, i: nat, maxBackups: int)
    requires NoBackups(d)
    ensures FromBackups(d, i, maxBackups) == None
    decreases maxBackups - i
  {
    if i < maxBackups { NothingToLoad(d, i + 1, maxBackups); }
  }

  lemma LoadsMain(d: Disk, s: Option<State>, maxBackups: int)
    requires At(d, Main) == Content(s)
    requires s.Some? ==> ValidState(s.value)
    requires s.None? ==> NoBackups(d)
    ensures Loaded(d, maxBackups) == s
  {
    if s.None? { NothingToLoad(d, 0, maxBackups); }
  }

  /**
   After any history of completed and interrupted saves, a crash between any two steps of the next save leaves a disk
   from which `load` returns the state that was last completed; once the last step is done, the one being saved.
   */
  lemma CrashConsistent(events: seq<Event>, s: State, k: nat, maxBackups: int)
    requires ValidState(s) && forall e <- events :: ValidState(e.state)
    ensures var d := Run(events, maxBackups);
            var last := Committed(events, maxBackups);
            var steps := SaveSteps(d, s, maxBackups);
            k <= |steps| ==> Loaded(ApplyAll(d, steps[..k]), maxBackups) == if k < |steps| then last else Some(s)
  {
    hide SaveSteps, ApplyAll, Loaded;
    var d := Run(events, maxBackups);
    var next := events + [Crashed(s, k)];
    assert next[..|events|] == events;
    MainIsCommitted(next, maxBackups);
    CommittedIsSaved(next, maxBackups);
    var steps := SaveSteps(d, s, maxBackups);
    if k <= |steps| {
      assert k == |steps| ==> steps[..k] == steps;
      LoadsMain(Run(next, maxBackups), Committed(next, maxBackups), maxBackups);
    }
  }

  lemma {:induction false} CommittedIsSaved(events: seq<Event>, maxBackups: int)
    requires forall e <- events :: ValidState(e.state)
    ensures Committed(events, maxBackups).Some? ==> ValidState(Committed(events, maxBackups).value)
  {
    if events != [] {
      hide ValidState;
      assert events[|events| - 1] in events;
      CommittedIsSaved(events[..|events| - 1], maxBackups);
    }
  }

  // ---------------------------------------------------------------- what the backups hold

  function Saves(states: seq<State>): seq<Event> {
    if states == [] then [] else Saves(states[..|states| - 1]) + [Saved(states[|states| - 1])]
  }

  /** The history of `states` is on the disk, newest first, as far as there are places. */
  ghost predicate Holds(d: Disk, states: seq<State>, maxBackups: int) {
    var n := |states|;
    && (n > 0 ==> At(d, Main) == Some(Whole(states[n - 1])))
    && (n == 0 ==> Main !in d)
    && forall i: nat | i < maxBackups :: At(d, Backup(i)) == if i < n - 1 then Some(Whole(states[n - 2 - i])) else None
  }

  lemma SaveHolds(d: Disk, states: seq<State>, s: State, maxBackups: int)
    requires Holds(d, states, maxBackups)
    ensures Holds(ApplyAll(d, SaveSteps(d, s, maxBackups)), states + [s], maxBackups)
  {
    hide SaveSteps, ApplyAll;
    SaveDoes(d, s, maxBackups);
    var r, all, n := ApplyAll(d, SaveSteps(d, s, maxBackups)), states + [s], |states|;
    forall i: nat | i < maxBackups
      ensures At(r, Backup(i)) == if i < n then Some(Whole(all[n - 1 - i])) else None
    {
      if n > 0 && i > 0 {
        var j: nat := i - 1;
        assert At(r, Backup(i)) == At(d, Backup(j));
      }
    }
  }

  /**
   After n uninterrupted saves the main file holds save n, and backup i save n-1-i, for every i below n-1 and below
   the number of backups (saves are numbered from 1); the other places are empty.
   */
  lemma {:induction false} BackupsHold(states: seq<State>, maxBackups: int)
    ensures Holds(Run(Saves(states), maxBackups), states, maxBackups)
  {
    if states != [] {
      hide SaveSteps, ApplyAll, Holds;
      var front, s := states[..|states| - 1], states[|states| - 1];
      BackupsHold(front, maxBackups);
      var before := Saves(front);
      assert (before + [Saved(s)])[..|before|] == before;
      SaveHolds(Run(before, maxBackups), front, s, maxBackups);
      assert front + [s] == states;
    } else {
      assert Run([], maxBackups) == map[];
    }
  }

  // ---------------------------------------------------------------- loading from a damaged directory

  /** The file is missing or was cut short. */
  predicate Damaged(d: Disk, p: Path) {
    At(d, p) == None || At(d, p) == Some(Torn)
  }

  lemma {:induction false} SkipsDamaged(d: Disk, from: nat, i: nat, maxBackups: int)
    requires from <= i < maxBackups && (forall j: nat | from <= j < i :: Damaged(d, Backup(j)))
    requires Loadable(d, Backup(i))
    ensures FromBackups(d, from, maxBackups) == Some(d[Backup(i)].state)
    decreases i - from
  {
    if from < i {
      assert Damaged(d, Backup(from));
      SkipsDamaged(d, from + 1, i, maxBackups);
    }
  }

  /**
   After n uninterrupted saves, with the main file and the newest i backups damaged and backup i as it was: `load` finds
   save n-1-i, the newest that is left. It saves it at once, which puts a main file that was cut short into the place of
   the newest backup.
   */
  lemma LoadsNewestLeft(states: seq<State>, d: Disk, i: nat, maxBackups: int, s: State)
    requires (forall x <- states :: ValidState(x)) && i < maxBackups && i < |states| - 1
    requires Damaged(d, Main) && forall j: nat | j < i :: Damaged(d, Backup(j))
    requires At(d, Backup(i)) == At(Run(Saves(states), maxBackups), Backup(i))
    ensures Loaded(d, maxBackups) == Some(states[|states| - 2 - i])
    ensures At(d, Main) == Some(Torn) ==> At(ApplyAll(d, SaveSteps(d, s, maxBackups)), Backup(0)) == Some(Torn)
  {
    hide ValidState, SaveSteps, ApplyAll, Run, Saves;
    BackupsHold(states, maxBackups);
    assert states[|states| - 2 - i] in states;
    SkipsDamaged(d, 0, i, maxBackups);
    SaveDoes(d, s, maxBackups);
  }

  /** What is loaded stands, whole and valid, in the main file or in one of the backups that are kept. */
  lemma {:induction false} LoadedFrom(d: Disk, maxBackups: int)
    requires Loaded(d, maxBackups).Some?
    ensures exists p :: Loadable(d, p) && d[p].state == Loaded(d, maxBackups).value
                        && (p == Main || (p.Backup? && p.index < maxBackups))
  {
    if Loadable(d, Main) {
    } else {
      var i := BackupFound(d, 0, maxBackups);
      assert Loadable(d, Backup(i));
    }
  }

  lemma {:induction false} BackupFound(d: Disk, from: nat, maxBackups: int) returns (i: nat)
    requires FromBackups(d, from, maxBackups).Some?
    ensures from <= i < maxBackups && Loadable(d, Backup(i))
    ensures FromBackups(d, from, maxBackups) == Some(d[Backup(i)].state)
    decreases maxBackups - from
  {
    if Loadable(d, Backup(from)) { i := from; } else { i := BackupFound(d, from + 1, maxBackups); }
  }

  /** A state on its own, as the main file, is loaded exactly if it has the known version and whole torrent entries. */
  lemma LoadsValidIff(d: Disk, s: State, maxBackups: int)
    requires At(d, Main) == Some(Whole(s)) && NoBackups(d)
    ensures Loaded(d, maxBackups).Some?
       <==> && s.version == 1
            && forall h <- s.torrents :: |s.torrents[h].infoHash| > 0 && s.torrents[h].completedPieces.Some?
    ensures Loaded(d, maxBackups).Some? ==> Loaded(d, maxBackups) == Some(s)
  {
    NothingToLoad(d, 0, maxBackups);
    assert forall h <- s.torrents :: s.torrents[h].infoHash != "" <==> |s.torrents[h].infoHash| > 0;
  }

  ghost predicate SomeBackup(d: Disk, maxBackups: int) {
    exists i: nat :: i < maxBackups && At(d, Backup(i)).Some? && d[Backup(i)].Whole?
  }

  /** The renames above the one that moves backup 0 to place 1. */
  function HighShifts(k: nat): seq<Op> {
    if k <= 1 then [] else [Rename(Backup(k - 1), Backup(k))] + HighShifts(k - 1)
  }

  lemma {:induction false} ShiftsSplit(k: nat)
    requires k > 0
    ensures Shifts(k) == HighShifts(k) + [Rename(Backup(0), Backup(1))]
    ensures AllSpare(HighShifts(k), Backup(0))
    decreases k
  {
    if k > 1 {
      ShiftsSplit(k - 1);
    } else {
      assert Shifts(1) == [Rename(Backup(0), Backup(1))] + Shifts(0);
    }
  }

  /** The steps of a save over an existing main file, up to the one that moves backup 0. */
  function StepsToMove(s: State, maxBackups: int): seq<Op>
    requires maxBackups >= 2
  {
    [Tear(Temp), Put(Temp, Whole(s)), Unlink(Backup(maxBackups - 1))] + HighShifts(maxBackups - 1)
  }

  const STEPS_FROM_MOVE: seq<Op> := [Tear(Backup(0)), Copy(Main, Backup(0)), Rename(Temp, Main)]

  lemma StepsSplit(d: Disk, s: State, maxBackups: int)
    requires Main in d && maxBackups >= 2
    ensures SaveSteps(d, s, maxBackups) == StepsToMove(s, maxBackups) + [Rename(Backup(0), Backup(1))] + STEPS_FROM_MOVE
    ensures AllSpare(StepsToMove(s, maxBackups), Backup(0)) && AllSpare(STEPS_FROM_MOVE, Backup(1))
  {
    hide Shifts, HighShifts;
    ShiftsSplit(maxBackups - 1);
    Regroup([Tear(Temp), Put(Temp, Whole(s))], [Unlink(Backup(maxBackups - 1))], HighShifts(maxBackups - 1),
            [Rename(Backup(0), Backup(1))], [Tear(Backup(0)), Copy(Main, Backup(0))], [Rename(Temp, Main)]);
    assert [Tear(Temp), Put(Temp, Whole(s))] + [Unlink(Backup(maxBackups - 1))] ==
           [Tear(Temp), Put(Temp, Whole(s)), Unlink(Backup(maxBackups - 1))];
    assert [Tear(Backup(0)), Copy(Main, Backup(0))] + [Rename(Temp, Main)] == STEPS_FROM_MOVE;
  }

  lemma Regroup(a: seq<Op>, b: seq<Op>, c: seq<Op>, d: seq<Op>, e: seq<Op>, f: seq<Op>)
    ensures a + (b + (c + d) + e) + f == ((a + b) + c) + d + (e + f)
  {
  }

  /** With two places or more, the newest backup is whole at place 0 or at place 1 whenever the process stops. */
  lemma NewestSurvives(d: Disk, s: State, k: nat, maxBackups: int)
    requires Main in d && At(d, Backup(0)).Some? && d[Backup(0)].Whole? && maxBackups >= 2
    requires k <= |SaveSteps(d, s, maxBackups)|
    ensures SomeBackup(ApplyAll(d, SaveSteps(d, s, maxBackups)[..k]), maxBackups)
  {
    hide SaveSteps, StepsToMove, ApplyAll;
    var steps, a, move := SaveSteps(d, s, maxBackups), StepsToMove(s, maxBackups), [Rename(Backup(0), Backup(1))];
    StepsSplit(d, s, maxBackups);
    if k <= |a| {
      assert steps[..k] == a[..k];
      FileStays(d, a[..k], Backup(0));
    } else {
      var rest := STEPS_FROM_MOVE[..k - |a| - 1];
      assert steps[..k] == (a + move) + rest;
      ApplyAppend(d, a + move, rest);
      ApplyAppend(d, a, move);
      FileStays(d, a, Backup(0));
      ApplyOne(ApplyAll(d, a), move[0]);
      FileStays(ApplyAll(d, a + move), rest, Backup(1));
    }
  }

  /**
   From the third save on, a whole backup is on the disk at every moment of the save exactly when the manager keeps two
   backups or more: with a single one it is deleted before the main file is copied over it.
   */
  lemma BackupAtEveryMoment(d: Disk, states: seq<State>, s: State, maxBackups: int)
    requires Holds(d, states, maxBackups) && |states| >= 2
    ensures (forall k: nat | k <= |SaveSteps(d, s, maxBackups)| ::
               SomeBackup(ApplyAll(d, SaveSteps(d, s, maxBackups)[..k]), maxBackups))
       <==> maxBackups >= 2
  {
    if maxBackups >= 2 {
      assert At(d, Backup(0)) == Some(Whole(states[|states| - 2]));
      forall k: nat | k <= |SaveSteps(d, s, maxBackups)|
        ensures SomeBackup(ApplyAll(d, SaveSteps(d, s, maxBackups)[..k]), maxBackups)
      {
        NewestSurvives(d, s, k, maxBackups);
      }
    } else if maxBackups == 1 {
      OnlyBackupLost(d, s);
    } else {
      assert !SomeBackup(ApplyAll(d, SaveSteps(d, s, maxBackups)[..0]), maxBackups);
    }
  }

  lemma OnlyBackupLost(d: Disk, s: State)
    requires Main in d
    ensures |SaveSteps(d, s, 1)| >= 3 && !SomeBackup(ApplyAll(d, SaveSteps(d, s, 1)[..3]), 1)
  {
    var steps := SaveSteps(d, s, 1);
    assert Shifts(0) == [];
    assert steps[..3] == [Tear(Temp), Put(Temp, Whole(s))] + [Unlink(Backup(0))];
    ApplyAppend(d, [Tear(Temp), Put(Temp, Whole(s))], [Unlink(Backup(0))]);
    ApplyOne(ApplyAll(d, [Tear(Temp), Put(Temp, Whole(s))]), Unlink(Backup(0)));
  }

  // ---------------------------------------------------------------- the object

  class StateManager {
    const maxBackups: int
    var state: State
    var isDirty: bool
    /** The directory of the state files. */
    var disk: Disk
    /** Every disk step ever made, in order. */
    ghost var journal: seq<Op>

    constructor (maxBackups: int, now: int, disk: Disk)
      ensures this.maxBackups == (if maxBackups == 0 then 3 else maxBackups)
      ensures this.disk == disk && journal == [] && !isDirty && ValidState(state) && state.torrents == map[]
    {
      this.maxBackups := if maxBackups == 0 then 3 else maxBackups;
      state := State(1, now, map[], map["maxConcurrent" := 3, "globalUploadLimit" := 0, "globalDownloadLimit" := 0]);
      isDirty := false;
      this.disk := disk;
      journal := [];
    }

    /** One disk step. */
    method Do(op: Op)
      modifies this`disk, this`journal
      ensures disk == Apply(old(disk), op) && journal == old(journal) + [op]
    {
      disk := Apply(disk, op);
      journal := journal + [op];
    }

    method RotateBackups()
      modifies this`disk, this`journal
      ensures disk == ApplyAll(old(disk), Rotation(maxBackups)) && journal == old(journal) + Rotation(maxBackups)
    {
      if maxBackups > 0 {
        Do(Unlink(Backup(maxBackups - 1)));
        ghost var start, done := old(disk), [Unlink(Backup(maxBackups - 1))];
        ApplyOne(start, done[0]);
        var k: nat := maxBackups - 1;
        while k > 0
          invariant k <= maxBackups - 1
          invariant done + Shifts(k) == [Unlink(Backup(maxBackups - 1))] + Shifts(maxBackups - 1)
          invariant disk == ApplyAll(start, done) && journal == old(journal) + done
          modifies this`disk, this`journal
          decreases k
        {
          var op := Rename(Backup(k - 1), Backup(k));
          Do(op);
          ApplyAppend(start, done, [op]);
          ApplyOne(ApplyAll(start, done), op);
          assert done + Shifts(k) == (done + [op]) + Shifts(k - 1);
          done := done + [op];
          k := k - 1;
        }
        assert done == done + Shifts(0);
        Do(Tear(Backup(0)));
        Do(Copy(Main, Backup(0)));
        ghost var tail := [Tear(Backup(0)), Copy(Main, Backup(0))];
        ApplyAppend(start, done, tail);
        ApplyTwo(ApplyAll(start, done), tail[0], tail[1]);
        assert (old(journal) + done) + tail == old(journal) + Rotation(maxBackups);
      }
    }

    /** The new disk, and each disk on the way to it, are those of the save steps. */
    method Save(now: int)
      modifies this`state, this`isDirty, this`disk, this`journal
      ensures state == old(state).(savedAt := now) && !isDirty
      ensures disk == ApplyAll(old(disk), SaveSteps(old(disk), state, maxBackups))
      ensures journal == old(journal) + SaveSteps(old(disk), state, maxBackups)
    {
      hide Rotation, ApplyAll;
      state := state.(savedAt := now);
      ghost var write := [Tear(Temp), Put(Temp, Whole(state))];
      Do(Tear(Temp));
      Do(Put(Temp, Whole(state)));
      ApplyTwo(old(disk), write[0], write[1]);
      assert Main in disk <==> Main in old(disk);
      hide Apply;
      ghost var rotate := if Main in disk then Rotation(maxBackups) else [];
      ApplyNone(disk);
      if Main in disk {
        RotateBackups();
      }
      ApplyAppend(old(disk), write, rotate);
      ApplyAppend(old(disk), write + rotate, [Rename(Temp, Main)]);
      ApplyOne(disk, Rename(Temp, Main));
      Do(Rename(Temp, Main));
      assert journal == old(journal) + ((write + rotate) + [Rename(Temp, Main)]);
      isDirty := false;
    }

    /** Takes the first good file; a state found in a backup is saved at once. */
    method Load(now: int) returns (found: bool)
      modifies this`state, this`isDirty, this`disk, this`journal
      ensures found <==> Loaded(old(disk), maxBackups).Some?
      ensures found ==> state.(savedAt := 0) == Loaded(old(disk), maxBackups).value.(savedAt := 0)
      ensures Loadable(old(disk), Main) || !found ==> disk == old(disk) && (found ==> state == old(disk[Main]).state)
      ensures !found ==> state == old(state)
      ensures found && !Loadable(old(disk), Main) ==>
                disk == ApplyAll(old(disk), SaveSteps(old(disk), state, maxBackups))
    {
      if Loadable(disk, Main) {
        state := disk[Main].state;
        return true;
      }
      var i := 0;
      while i < maxBackups
        invariant 0 <= i && (maxBackups > 0 ==> i <= maxBackups)
        invariant FromBackups(disk, i, maxBackups) == FromBackups(disk, 0, maxBackups)
        invariant disk == old(disk) && state == old(state)
      {
        if Loadable(disk, Backup(i)) {
          state := disk[Backup(i)].state;
          Save(now);
          return true;
        }
        i := i + 1;
      }
      found := false;
    }

    method Flush(now: int)
      modifies this`state, this`isDirty, this`disk, this`journal
      ensures !isDirty
      ensures old(isDirty) ==> disk == ApplyAll(old(disk), SaveSteps(old(disk), state, maxBackups))
      ensures !old(isDirty) ==> disk == old(disk) && state == old(state)
    {
      if isDirty { Save(now); }
    }
  }
}
