/** Keeping a failed build's data and putting the previous build's back:
    apps/launcher/src/main.rs, preserve_failed_data and roll_back_data, run any
    number of times and stopped at any step. */
module Rollback {
  import opened Common
  import opened Files
  import opened Restoring

  const MARKER := At(Backup, RestoreRequired)
  const PENDING := At(Backup, RestorePending)

  predicate DataName(name: Name) {
    name == Database || name == Identities || name == WriteAheadLog || name == SharedMemory
  }

  function SavedAs(name: Name): Path {
    At(Saved, name)
  }

  // Throughout, f is the disk as the failed build left it when it stopped.

  /** What was saved under this name, if anything, is the failed build's own
      file with its own bytes. */
  predicate SavedOf(f: Store, s: Store, name: Name) {
    Look(s, SavedAs(name)) == Absent || Look(s, SavedAs(name)) == Look(f, Live(name))
  }

  predicate SavedWhole(f: Store, s: Store, name: Name) {
    Look(s, SavedAs(name)) == Look(f, Live(name))
  }

  /** `failed-data.partial` holds nothing but the failed build's files, and
      `failed-data` holds exactly the failed build's files. */
  predicate SavedIsFailedBuilds(f: Store, s: Store) {
    SavedOf(f, s, Database) && SavedOf(f, s, Identities)
    && SavedOf(f, s, WriteAheadLog) && SavedOf(f, s, SharedMemory)
    && (s.kept ==>
      SavedWhole(f, s, Database) && SavedWhole(f, s, Identities)
      && SavedWhole(f, s, WriteAheadLog) && SavedWhole(f, s, SharedMemory))
  }

  /** Before any restore: the live file is still the failed build's, unless it
      was moved to what was saved. It is never missing from both. */
  predicate StillFailedBuilds(f: Store, s: Store, name: Name) {
    SavedOf(f, s, name)
    && (Look(s, Live(name)) == Look(f, Live(name))
        || (Look(s, Live(name)) == Absent && SavedWhole(f, s, name)))
  }

  predicate NothingRestored(f: Store, s: Store) {
    StillFailedBuilds(f, s, Database) && StillFailedBuilds(f, s, Identities)
    && StillFailedBuilds(f, s, WriteAheadLog) && StillFailedBuilds(f, s, SharedMemory)
  }

  /** The record that tells a later run not to save the live files again. */
  predicate Recorded(s: Store) {
    s.kept || Look(s, MARKER).File?
  }

  /** A file is saved under every name, so a later run has none left to save. */
  predicate AllSaved(s: Store) {
    Look(s, SavedAs(Database)).File? && Look(s, SavedAs(Identities)).File?
    && Look(s, SavedAs(WriteAheadLog)).File? && Look(s, SavedAs(SharedMemory)).File?
  }

  /** What makes it safe to start a restore. */
  predicate Guarded(s: Store) {
    Recorded(s) || AllSaved(s)
  }

  /** Holds between any two runs whose restores started guarded. */
  predicate KeptApart(f: Store, s: Store) {
    SavedIsFailedBuilds(f, s) && (Guarded(s) || NothingRestored(f, s))
  }

  /** What the program half of an update moves about. */
  predicate InstallSide(p: Path) {
    p.dir == Install || p.dir == Package
    || (p.dir == Backup && p.name != RestoreRequired && p.name != RestorePending)
  }

  /** The rollback records and the saved files may have changed, and live files
      may have been moved; everything the update staged or snapshot is as it was. */
  ghost predicate OnlyDataSide(s: Store, t: Store) {
    forall p: Path :: InstallSide(p) || p.dir == Snapshot ==> Look(t, p) == Look(s, p)
  }

  lemma DataSideComposes(s: Store, t: Store, u: Store)
    requires OnlyDataSide(s, t) && OnlyDataSide(t, u)
    ensures OnlyDataSide(s, u)
  {
  }

  /** Saving one file by a link or a move, seen from the names it does not touch. */
  ghost predicate OnlyName(s: Store, t: Store, name: Name) {
    t.kept == s.kept
    && forall p :: p != Live(name) && p != SavedAs(name) ==> Look(t, p) == Look(s, p)
  }

  /** What was saved stays, what is newly saved is the live file, and a live
      file that is gone was saved. */
  predicate Saves(s: Store, t: Store, name: Name) {
    var live, saved := Look(s, Live(name)), Look(s, SavedAs(name));
    (Look(t, SavedAs(name)) == saved || (saved == Absent && Look(t, SavedAs(name)) == live))
    && (Look(t, Live(name)) == live || (Look(t, Live(name)) == Absent && saved == Absent && Look(t, SavedAs(name)) == live))
  }

  /** The saved file is the one saved before, or else the live one. */
  predicate SavedNow(s: Store, t: Store, name: Name) {
    Look(t, SavedAs(name)) == if Look(s, SavedAs(name)).File? then Look(s, SavedAs(name)) else Look(s, Live(name))
  }

  predicate SavesEach(s: Store, t: Store) {
    Saves(s, t, Database) && Saves(s, t, Identities) && Saves(s, t, WriteAheadLog) && Saves(s, t, SharedMemory)
  }

  predicate SavedNowEach(s: Store, t: Store) {
    SavedNow(s, t, Database) && SavedNow(s, t, Identities) && SavedNow(s, t, WriteAheadLog) && SavedNow(s, t, SharedMemory)
  }

  /** The database and the identities lie where they lay: a running restore can
      replace each by one rename, and until then neither is ever missing. */
  predicate StateStays(s: Store, t: Store) {
    Look(t, Live(Database)) == Look(s, Live(Database)) && Look(t, Live(Identities)) == Look(s, Live(Identities))
  }

  /** One turn of the loop in preserve_failed_data. A state file is linked, and
      moved only where linking it fails. */
  method SaveOne(disk: Disk, name: Name) returns (outcome: Outcome)
    requires DataName(name) && Sound(disk.store)
    modifies disk
    ensures Sound(disk.store) && OnlyName(old(disk.store), disk.store, name)
    ensures Saves(old(disk.store), disk.store, name)
    ensures outcome.Done? ==> SavedNow(old(disk.store), disk.store, name)
    ensures StateName(name) && !First(old(disk.plan)).Fail? ==> Look(disk.store, Live(name)) == Look(old(disk.store), Live(name))
    ensures StateName(name) && First(old(disk.plan)).Fine? ==> outcome.Done?
    ensures Errors(old(disk.plan)) >= Errors(disk.plan) + if outcome.Failed? then 1 else 0
    ensures old(disk.plan) == [] ==> disk.plan == [] && outcome.Done?
  {
    if Live(name) !in disk.store.files || SavedAs(name) in disk.store.files {
      outcome := Done;
      return;
    }
    outcome := Failed;
    if StateName(name) {
      outcome := disk.HardLink(Live(name), SavedAs(name));
    }
    if outcome.Failed? {
      outcome := disk.Rename(Live(name), SavedAs(name));
    }
  }

  ghost predicate OnlySaving(s: Store, t: Store) {
    forall p: Path :: p.dir != Data && p.dir != Saved ==> Look(t, p) == Look(s, p)
  }

  const DATA_NAMES := [Database, Identities, WriteAheadLog, SharedMemory]

  /** Where the saving of the files stands when the first n names are done. */
  ghost predicate SavedUpTo(s: Store, t: Store, n: nat)
    requires n <= |DATA_NAMES|
  {
    OnlySaving(s, t) && SavesEach(s, t)
    && (forall k :: 0 <= k < n ==> SavedNow(s, t, DATA_NAMES[k]))
    && forall k :: n <= k < |DATA_NAMES| ==> Untouched(s, t, DATA_NAMES[k])
  }

  predicate Untouched(s: Store, t: Store, name: Name) {
    Look(t, Live(name)) == Look(s, Live(name)) && Look(t, SavedAs(name)) == Look(s, SavedAs(name))
  }

  lemma OthersUntouched(s: Store, t: Store, name: Name, other: Name)
    requires OnlyName(s, t, name) && other != name
    ensures Untouched(s, t, other)
  {
  }

  lemma UntouchedSaves(s: Store, t: Store, u: Store, name: Name)
    requires Untouched(t, u, name)
    ensures Saves(s, t, name) == Saves(s, u, name) && SavedNow(s, t, name) == SavedNow(s, u, name)
    ensures Untouched(s, t, name) == Untouched(s, u, name)
  {
  }

  lemma OtherNameSaves(s: Store, t: Store, u: Store, name: Name, other: Name)
    requires OnlyName(t, u, name) && other != name
    ensures Saves(s, t, other) == Saves(s, u, other) && SavedNow(s, t, other) == SavedNow(s, u, other)
    ensures Untouched(s, t, other) == Untouched(s, u, other)
  {
    OthersUntouched(t, u, name, other);
    UntouchedSaves(s, t, u, other);
  }

  lemma SavesNext(s: Store, t: Store, u: Store, name: Name)
    requires DataName(name) && SavesEach(s, t) && OnlyName(t, u, name) && Saves(s, u, name)
    ensures SavesEach(s, u)
  {
    forall other | other != name
      ensures Saves(s, t, other) == Saves(s, u, other)
    {
      OtherNameSaves(s, t, u, name, other);
    }
  }

  lemma StateStaysNext(s: Store, t: Store, u: Store, name: Name)
    requires StateStays(s, t) && OnlyName(t, u, name)
    requires StateName(name) ==> Look(u, Live(name)) == Look(t, Live(name))
    ensures StateStays(s, u)
  {
  }

  lemma SavedUpToNext(s: Store, t: Store, u: Store, n: nat, done: bool)
    requires n < |DATA_NAMES| && SavedUpTo(s, t, n) && OnlyName(t, u, DATA_NAMES[n])
    requires Saves(t, u, DATA_NAMES[n]) && (done ==> SavedNow(t, u, DATA_NAMES[n]))
    ensures OnlySaving(s, u) && SavesEach(s, u)
    ensures done ==> SavedUpTo(s, u, n + 1)
  {
    var name := DATA_NAMES[n];
    assert Untouched(s, t, name);
    SavesNext(s, t, u, name);
    forall k | 0 <= k < |DATA_NAMES| && k != n
      ensures SavedNow(s, t, DATA_NAMES[k]) == SavedNow(s, u, DATA_NAMES[k])
      ensures Untouched(s, t, DATA_NAMES[k]) == Untouched(s, u, DATA_NAMES[k])
    {
      OtherNameSaves(s, t, u, name, DATA_NAMES[k]);
    }
  }

  /** Every stop leaves a state another run can resume: nothing is lost, nothing
      saved is replaced, and the folder takes its final name only when it is whole. */
  method PreserveFailedData(disk: Disk) returns (outcome: Outcome)
    requires Sound(disk.store)
    modifies disk
    ensures Sound(disk.store) && OnlySaving(old(disk.store), disk.store)
    ensures old(disk.store).kept ==> disk.store == old(disk.store) && disk.plan == old(disk.plan)
    ensures !old(disk.store).kept ==> SavesEach(old(disk.store), disk.store)
    ensures !old(disk.store).kept && disk.store.kept ==> SavedNowEach(old(disk.store), disk.store)
    ensures outcome.Done? <==> disk.store.kept
    ensures Errors(old(disk.plan)) == 0 ==> StateStays(old(disk.store), disk.store)
    ensures Errors(old(disk.plan)) >= Errors(disk.plan) + if outcome.Failed? then 1 else 0
    ensures !old(disk.store).kept && First(old(disk.plan)).Fail?
      ==> outcome.Failed? && disk.store == old(disk.store) && disk.plan == Rest(old(disk.plan))
    ensures old(disk.plan) == [] ==> disk.plan == [] && outcome.Done?
  {
    if disk.store.kept {
      return Done;
    }
    ghost var s := disk.store;
    outcome := disk.Attempt(); // create_dir_all
    if !outcome.Done? {
      return;
    }
    for i := 0 to |DATA_NAMES|
      invariant outcome.Done? && Sound(disk.store) && !disk.store.kept
      invariant SavedUpTo(s, disk.store, i)
      invariant Errors(old(disk.plan)) == 0 ==> StateStays(s, disk.store)
      invariant Errors(old(disk.plan)) >= Errors(disk.plan)
      invariant old(disk.plan) == [] ==> disk.plan == []
    {
      ghost var t := disk.store;
      outcome := SaveOne(disk, DATA_NAMES[i]);
      SavedUpToNext(s, t, disk.store, i, outcome.Done?);
      if Errors(old(disk.plan)) == 0 {
        StateStaysNext(s, t, disk.store, DATA_NAMES[i]);
      }
      if !outcome.Done? {
        return;
      }
    }
    outcome := disk.Attempt(); // both sync_directory calls, best effort
    if outcome.Halted? {
      return;
    }
    ghost var t := disk.store;
    outcome := disk.Adopt();
    RenamedFolderIsTheSame(s, t, disk.store);
  }

  lemma RenamedFolderIsTheSame(s: Store, t: Store, u: Store)
    requires SavedUpTo(s, t, |DATA_NAMES|) && u.files == t.files && u.contents == t.contents
    ensures OnlySaving(s, u) && SavesEach(s, u) && SavedNowEach(s, u)
    ensures StateStays(s, t) ==> StateStays(s, u)
  {
    assert forall p :: Look(u, p) == Look(t, p);
    assert SavedNow(s, t, DATA_NAMES[0]) && SavedNow(s, t, DATA_NAMES[1]);
    assert SavedNow(s, t, DATA_NAMES[2]) && SavedNow(s, t, DATA_NAMES[3]);
  }

  lemma SavingOneKeepsApart(f: Store, s: Store, t: Store, name: Name)
    requires SavedOf(f, s, name) && Saves(s, t, name)
    requires Look(s, SavedAs(name)).File? || StillFailedBuilds(f, s, name)
    ensures SavedOf(f, t, name) && (SavedNow(s, t, name) ==> SavedWhole(f, t, name))
    ensures StillFailedBuilds(f, s, name) ==> StillFailedBuilds(f, t, name)
  {
  }

  /** Saving keeps what is saved the failed build's, from any guarded state or
      before anything is restored. */
  lemma SavingKeepsApart(f: Store, s: Store, t: Store)
    requires KeptApart(f, s) && Look(s, MARKER) == Absent && !s.kept
    requires OnlySaving(s, t) && SavesEach(s, t) && (t.kept ==> SavedNowEach(s, t))
    ensures KeptApart(f, t)
  {
    SavingOneKeepsApart(f, s, t, Database);
    SavingOneKeepsApart(f, s, t, Identities);
    SavingOneKeepsApart(f, s, t, WriteAheadLog);
    SavingOneKeepsApart(f, s, t, SharedMemory);
  }

  /** A plan under which nothing can be saved or recorded. */
  const UNRECORDED: seq<Fault> := [Fail(None), Fail(None), Fail(None)]

  /** How many errors leave a restore unrecorded: keeping the data, renaming the
      marker made beforehand if it is there, and writing a new one must all fail. */
  function Tries(s: Store): nat {
    if Look(s, PENDING).File? then 3 else 2
  }

  /** The marker made beforehand is there until the restore is recorded. */
  predicate Recordable(s: Store) {
    Look(s, PENDING).File? || Recorded(s)
  }

  /** The restore is recorded only once all of the failed build's data is kept. */
  predicate MarkedWhenKept(s: Store) {
    Look(s, MARKER).File? ==> s.kept
  }

  /** Save the failed build's data, then record that it is done. Failing to do
      either does not stop the rollback; being stopped does. */
  method SaveAndRecord(disk: Disk, ghost f: Store) returns (stopped: bool)
    requires Sound(disk.store) && Look(disk.store, MARKER) == Absent
    modifies disk
    ensures Sound(disk.store) && OnlyDataSide(old(disk.store), disk.store)
    ensures KeptApart(f, old(disk.store)) ==> KeptApart(f, disk.store)
    ensures forall name :: Look(disk.store, Ready(name)) == Look(old(disk.store), Ready(name))
    ensures old(disk.plan) == [] ==> disk.plan == [] && !stopped && disk.store.kept
    ensures Errors(old(disk.plan)) == 0 ==> StateStays(old(disk.store), disk.store)
    ensures !stopped && !Recorded(disk.store) ==> Errors(old(disk.plan)) >= Tries(old(disk.store))
    ensures old(disk.store).kept ==> disk.store.kept
    ensures Errors(old(disk.plan)) == 0 ==> MarkedWhenKept(disk.store)
    ensures Recordable(old(disk.store)) ==> Recordable(disk.store)
    ensures old(disk.plan) == [] && !old(disk.store).kept ==> SavedNowEach(old(disk.store), disk.store)
    ensures old(disk.plan) == UNRECORDED && !old(disk.store).kept
      ==> !stopped && disk.plan == [] && disk.store == old(disk.store)
  {
    ghost var s := disk.store;
    var outcome := PreserveFailedData(disk);
    ghost var t := disk.store;
    SavingIsDataSide(f, s, t);
    if outcome.Halted? {
      return true;
    }
    stopped := WriteMarker(disk);
    RecordKeeps(f, t, disk.store);
    RecordLeavesSaved(s, t, disk.store);
    DataSideComposes(s, t, disk.store);
  }

  lemma SavingIsDataSide(f: Store, s: Store, t: Store)
    requires Look(s, MARKER) == Absent && OnlySaving(s, t) && (s.kept ==> t == s)
    requires !s.kept ==> SavesEach(s, t) && (t.kept ==> SavedNowEach(s, t))
    ensures OnlyDataSide(s, t) && Look(t, MARKER) == Absent
    ensures KeptApart(f, s) ==> KeptApart(f, t)
  {
    if KeptApart(f, s) && !s.kept {
      SavingKeepsApart(f, s, t);
    }
  }

  lemma RecordLeavesSaved(s: Store, t: Store, u: Store)
    requires OnlyRecords(t, u)
    ensures SavedNowEach(s, t) == SavedNowEach(s, u) && OnlyDataSide(t, u)
    ensures forall name :: Look(u, Ready(name)) == Look(t, Ready(name))
  {
  }

  ghost predicate OnlyRecords(s: Store, t: Store) {
    t.kept == s.kept
    && forall p :: p != MARKER && p != PENDING ==> Look(t, p) == Look(s, p)
  }

  lemma RecordKeeps(f: Store, s: Store, t: Store)
    requires OnlyRecords(s, t) && Look(s, MARKER) == Absent
    ensures KeptApart(f, s) ==> KeptApart(f, t)
  {
  }

  /** The marker made beforehand is renamed into place, so that a full disk
      does not matter; writing a new one is the second try. */
  method WriteMarker(disk: Disk) returns (stopped: bool)
    requires Sound(disk.store) && Look(disk.store, MARKER) == Absent
    modifies disk
    ensures Sound(disk.store) && OnlyRecords(old(disk.store), disk.store)
    ensures var renamed := First(old(disk.plan)).Fine? && Look(old(disk.store), PENDING).File?;
            renamed || (!First(old(disk.plan)).Halt? && First(Rest(old(disk.plan))).Fine?) ==> Look(disk.store, MARKER).File?
    ensures !stopped && Look(disk.store, MARKER) == Absent ==> Errors(old(disk.plan)) >= Errors(disk.plan) + Tries(old(disk.store)) - 1
    ensures Look(disk.store, PENDING) == Look(old(disk.store), PENDING) || Look(disk.store, MARKER).File?
    ensures old(disk.plan) == [] ==> disk.plan == [] && !stopped && Look(disk.store, MARKER).File?
    ensures old(disk.plan) == [Fail(None), Fail(None)] ==> !stopped && disk.plan == [] && disk.store == old(disk.store)
  {
    ghost var plan := disk.plan;
    ErrorsMet(plan);
    ErrorsMet(Rest(plan));
    ErrorsMet(Rest(Rest(plan)));
    var outcome := disk.Rename(PENDING, MARKER);
    if outcome.Failed? {
      UnlinkableIsAlone(disk.store, MARKER);
      outcome := disk.Write(MARKER, []);
    }
    if outcome.Halted? {
      return true;
    }
    outcome := disk.Attempt(); // sync_directory, best effort
    stopped := outcome.Halted?;
  }

  lemma PartialRestoreKeepsGuard(f: Store, s: Store, t: Store)
    requires PartlyRestored(s, t)
    ensures MarkedWhenKept(s) <==> MarkedWhenKept(t)
    ensures (Guarded(s) <==> Guarded(t)) && (Recorded(s) <==> Recorded(t)) && (Recordable(s) <==> Recordable(t))
    ensures Guarded(s) && KeptApart(f, s) ==> KeptApart(f, t)
  {
  }

  lemma PartialRestoreIsDataSide(s: Store, t: Store)
    requires PartlyRestored(s, t)
    ensures OnlyDataSide(s, t)
  {
  }

  lemma RestoredFromSameSnapshot(s: Store, t: Store, u: Store)
    requires OnlyDataSide(s, t) && Restored(t, u)
    ensures Restored(s, u)
  {
  }

  lemma DataSideKeepsCopies(s: Store, t: Store)
    requires CopiesMatch(s) && OnlyDataSide(s, t)
    requires forall name :: Look(t, Ready(name)) == Look(s, Ready(name))
    ensures CopiesMatch(t)
  {
  }

  /** A live database and live identities that were there are there. */
  predicate NeverMissing(s: Store, t: Store) {
    (Look(s, Live(Database)).File? ==> Look(t, Live(Database)).File?)
    && (Look(s, Live(Identities)).File? ==> Look(t, Live(Identities)).File?)
  }

  lemma PartialRestoreMissesNothing(s: Store, t: Store, u: Store)
    requires StateStays(s, t) && PartlyRestored(t, u)
    ensures NeverMissing(s, u)
  {
  }

  /** The data half of a rollback. Killed anywhere but meeting no error, it
      leaves no moment without a database or identities. `began` is the disk the restore started
      from, if it was reached. */
  method RollBackData(disk: Disk, ghost f: Store) returns (outcome: Outcome, ghost began: Option<Store>)
    requires Sound(disk.store) && CopiesMatch(disk.store)
    modifies disk
    ensures Sound(disk.store) && CopiesMatch(disk.store) && OnlyDataSide(old(disk.store), disk.store)
    ensures began.None? ==> outcome.Halted? && (KeptApart(f, old(disk.store)) ==> KeptApart(f, disk.store))
    ensures began.Some? ==> PartlyRestored(began.value, disk.store)
    ensures began.Some? && KeptApart(f, old(disk.store)) ==> KeptApart(f, began.value)
    ensures began.Some? && KeptApart(f, old(disk.store)) && Guarded(began.value) ==> KeptApart(f, disk.store)
    ensures began.Some? && !Recorded(began.value) ==> Errors(old(disk.plan)) >= Tries(old(disk.store)) && !Recorded(old(disk.store))
    ensures Recordable(old(disk.store)) ==> Recordable(disk.store)
    ensures Recorded(old(disk.store)) ==> Recorded(disk.store)
    ensures Errors(old(disk.plan)) == 0 ==> NeverMissing(old(disk.store), disk.store)
    ensures Errors(old(disk.plan)) == 0 && MarkedWhenKept(old(disk.store)) ==> MarkedWhenKept(disk.store)
    ensures Errors(old(disk.plan)) == 0 && MarkedWhenKept(old(disk.store)) && began.Some? ==> disk.store.kept
    ensures outcome.Done? ==> Restored(old(disk.store), disk.store)
    ensures old(disk.plan) == [] ==> disk.plan == [] && outcome.Done? && began.Some? && Recorded(began.value)
    ensures old(disk.plan) == [] && Look(old(disk.store), MARKER) == Absent ==> disk.store.kept
    ensures old(disk.plan) == [] && !Recorded(old(disk.store)) ==> SavedNowEach(old(disk.store), disk.store)
    ensures old(disk.plan) == UNRECORDED && !Recorded(old(disk.store))
      ==> outcome.Done? && began == Some(old(disk.store))
  {
    ghost var s := disk.store;
    if MARKER !in disk.store.files {
      var stopped := SaveAndRecord(disk, f);
      DataSideKeepsCopies(s, disk.store);
      if stopped {
        return Halted, None;
      }
    }
    ghost var t := disk.store;
    began := Some(t);
    outcome := RestoreData(disk);
    PartialRestoreIsDataSide(t, disk.store);
    DataSideComposes(s, t, disk.store);
    if StateStays(s, t) {
      PartialRestoreMissesNothing(s, t, disk.store);
    }
    PartialRestoreKeepsGuard(f, t, disk.store);
    if outcome.Done? {
      RestoredFromSameSnapshot(s, t, disk.store);
    }
  }

  /** What a build does to its data. */
  datatype Change = Put(name: Name, bytes: Bytes) | Delete(name: Name)

  /** Neither the database nor the identities are links of what was kept. */
  predicate LiveApart(s: Store) {
    Apart(s, Database) && Apart(s, Identities)
  }

  lemma ApartIsAlone(s: Store, name: Name)
    requires Sound(s) && LiveApart(s)
    ensures Alone(s, Live(name))
  {
    forall q | q != Live(name) && Look(s, q).File? && Look(s, Live(name)).File?
      ensures Look(s, q).inode != Look(s, Live(name)).inode
    {
      if MayShare(q, Live(name)) {
        assert q == SavedAs(name);
      }
    }
  }

  ghost predicate OnlyLive(s: Store, t: Store) {
    t.kept == s.kept && forall p: Path :: p.dir != Data ==> Look(t, p) == Look(s, p)
  }

  /** A running build changes its data as it likes. Only a live file that is
      still a link of a saved one carries its changes out of the data folder. */
  method BuildRuns(disk: Disk, changes: seq<Change>)
    requires Sound(disk.store)
    modifies disk`store
    ensures Sound(disk.store) && OnlySaving(old(disk.store), disk.store) && disk.store.kept == old(disk.store).kept
    ensures LiveApart(old(disk.store)) ==> OnlyLive(old(disk.store), disk.store)
  {
    ghost var apart := LiveApart(disk.store);
    for i := 0 to |changes|
      invariant Sound(disk.store) && OnlySaving(old(disk.store), disk.store) && disk.store.kept == old(disk.store).kept
      invariant apart ==> LiveApart(disk.store) && OnlyLive(old(disk.store), disk.store)
    {
      ghost var s := disk.store;
      match changes[i] {
        case Put(name, bytes) =>
          if apart {
            ApartIsAlone(disk.store, name);
          }
          disk.BuildWrites(Live(name), bytes);
        case Delete(name) =>
          disk.BuildRemoves(Live(name));
      }
      assert apart ==> OnlyLive(s, disk.store);
      assert OnlySaving(s, disk.store);
    }
  }

  predicate SnapshotHoldsBoth(s: Store) {
    Look(s, SnapshotOf(Database)).File? && Look(s, SnapshotOf(Identities)).File?
  }

  predicate NothingSaved(s: Store) {
    !s.kept
    && Look(s, SavedAs(Database)) == Absent && Look(s, SavedAs(Identities)) == Absent
    && Look(s, SavedAs(WriteAheadLog)) == Absent && Look(s, SavedAs(SharedMemory)) == Absent
  }

  datatype Run = Run(plan: seq<Fault>, changes: seq<Change>)

  /** No run meets an error, though each may be stopped anywhere. */
  predicate OnlyKills(runs: seq<Run>) {
    forall i | 0 <= i < |runs| :: Errors(runs[i].plan) == 0
  }

  /** In no run do as many errors meet as it takes to leave a restore unrecorded. */
  predicate FewErrors(f: Store, runs: seq<Run>) {
    forall i | 0 <= i < |runs| :: Errors(runs[i].plan) < Tries(f)
  }

  lemma RunningKeepsGuard(f: Store, s: Store, t: Store)
    requires CopiesMatch(s) && OnlyLive(s, t)
    ensures CopiesMatch(t) && OnlyDataSide(s, t) && (Guarded(s) <==> Guarded(t)) && (Recordable(s) <==> Recordable(t))
    ensures MarkedWhenKept(s) <==> MarkedWhenKept(t)
    ensures KeptApart(f, s) && Guarded(s) ==> KeptApart(f, t)
  {
  }

  /** Any sequence of rollbacks of the data, each stopped or failing anywhere,
      with the previous build running after each one that completes, and then
      one that meets no fault. As long as every restore started guarded, what is
      kept of the failed build never holds a byte of the snapshot or of the
      previous build, and is all of the failed build's once the folder has its
      final name; and the live state ends as the snapshot's. Every restore does
      start guarded unless three steps of one run fail, or two where the marker
      had not been made beforehand; and if none fails, all of the failed build's
      data is kept in the end. */
  method RollBackRepeatedly(disk: Disk, runs: seq<Run>) returns (ghost starts: seq<Store>)
    requires Sound(disk.store) && CopiesMatch(disk.store)
    requires SnapshotHoldsBoth(disk.store) && NothingSaved(disk.store)
    modifies disk
    ensures Sound(disk.store) && OnlyDataSide(old(disk.store), disk.store)
    ensures Restored(old(disk.store), disk.store)
    ensures (forall s | s in starts :: Guarded(s)) ==> SavedIsFailedBuilds(old(disk.store), disk.store)
    ensures FewErrors(old(disk.store), runs) ==> SavedIsFailedBuilds(old(disk.store), disk.store)
    ensures MarkedWhenKept(old(disk.store)) && OnlyKills(runs) ==> disk.store.kept
  {
    ghost var f := disk.store;
    starts := [];
    for i := 0 to |runs|
      invariant Sound(disk.store) && CopiesMatch(disk.store) && OnlyDataSide(f, disk.store)
      invariant (forall s | s in starts :: Guarded(s)) ==> KeptApart(f, disk.store)
      invariant FewErrors(f, runs) ==> forall s | s in starts :: Guarded(s)
      invariant Look(f, PENDING).File? ==> Recordable(disk.store)
      invariant MarkedWhenKept(f) && OnlyKills(runs) ==> MarkedWhenKept(disk.store)
    {
      disk.plan := runs[i].plan;
      ghost var began := OneRun(disk, f, runs[i].changes);
      assert FewErrors(f, runs) && began.Some? ==> Guarded(began.value) by {
        assert FewErrors(f, runs) ==> Errors(runs[i].plan) < Tries(f);
      }
      starts := if began.Some? then starts + [began.value] else starts;
      assert began.Some? ==> began.value in starts;
    }
    ghost var s := disk.store;
    disk.plan := [];
    var _, began := RollBackData(disk, f);
    starts := starts + [began.value];
    DataSideComposes(f, s, disk.store);
    RestoredFromSameSnapshot(f, s, disk.store);
  }

  /** One rollback, and the previous build running if it completes. */
  method OneRun(disk: Disk, ghost f: Store, changes: seq<Change>) returns (ghost began: Option<Store>)
    requires Sound(disk.store) && CopiesMatch(disk.store) && SnapshotHoldsBoth(f) && OnlyDataSide(f, disk.store)
    modifies disk
    ensures Sound(disk.store) && CopiesMatch(disk.store) && OnlyDataSide(f, disk.store)
    ensures KeptApart(f, old(disk.store)) && (began.Some? ==> Guarded(began.value)) ==> KeptApart(f, disk.store)
    ensures began.Some? && !Recorded(began.value) ==> Errors(old(disk.plan)) >= Tries(old(disk.store)) && !Recorded(old(disk.store))
    ensures Recordable(old(disk.store)) ==> Recordable(disk.store)
    ensures Errors(old(disk.plan)) == 0 && MarkedWhenKept(old(disk.store)) ==> MarkedWhenKept(disk.store)
  {
    ghost var s := disk.store;
    var outcome;
    outcome, began := RollBackData(disk, f);
    DataSideComposes(f, s, disk.store);
    if outcome.Done? {
      ghost var t := disk.store;
      disk.plan := [];
      RestoredIsApart(f, s, t);
      BuildRuns(disk, changes);
      PartialRestoreKeepsGuard(f, began.value, t);
      RunningKeepsGuard(f, t, disk.store);
      DataSideComposes(f, t, disk.store);
    }
  }

  lemma RestoredIsApart(f: Store, s: Store, t: Store)
    requires SnapshotHoldsBoth(f) && OnlyDataSide(f, s) && Restored(s, t)
    ensures LiveApart(t)
  {
  }

  /** Bytes the failed build's file does not have. */
  function Unlike(f: Store, name: Name): Bytes {
    if Look(f, Live(name)).File? then Look(f, Live(name)).bytes + [0] else []
  }

  predicate Rewritten(f: Store, s: Store, name: Name) {
    Look(s, Live(name)).File? && Look(s, Live(name)).bytes == Unlike(f, name)
  }

  /** The previous build rewrites every file of its data. */
  method RewriteAll(disk: Disk, f: Store)
    requires Sound(disk.store) && LiveApart(disk.store) && disk.plan == []
    modifies disk
    ensures Sound(disk.store) && OnlyLive(old(disk.store), disk.store)
    ensures Rewritten(f, disk.store, Database) && Rewritten(f, disk.store, Identities)
    ensures Rewritten(f, disk.store, WriteAheadLog) && Rewritten(f, disk.store, SharedMemory)
    ensures disk.plan == []
  {
    for i := 0 to |DATA_NAMES|
      invariant Sound(disk.store) && LiveApart(disk.store) && disk.plan == []
      invariant OnlyLive(old(disk.store), disk.store)
      invariant forall k :: 0 <= k < i ==> Rewritten(f, disk.store, DATA_NAMES[k])
    {
      ghost var s := disk.store;
      ApartIsAlone(disk.store, DATA_NAMES[i]);
      disk.BuildWrites(Live(DATA_NAMES[i]), Unlike(f, DATA_NAMES[i]));
      assert OnlyLive(s, disk.store);
    }
    assert Rewritten(f, disk.store, DATA_NAMES[0]) && Rewritten(f, disk.store, DATA_NAMES[1]);
    assert Rewritten(f, disk.store, DATA_NAMES[2]) && Rewritten(f, disk.store, DATA_NAMES[3]);
  }

  lemma RewrittenIsNotSavedOf(f: Store, s: Store, t: Store, name: Name)
    requires Rewritten(f, s, name) && Look(s, SavedAs(name)) == Absent && SavedNow(s, t, name)
    ensures !SavedOf(f, t, name)
  {
    assert Unlike(f, name) != (if Look(f, Live(name)).File? then Look(f, Live(name)).bytes else [0]);
  }

  lemma UnguardedSavesRewritten(f: Store, s: Store, t: Store)
    requires !Guarded(s) && SavedNowEach(s, t)
    requires Rewritten(f, s, Database) && Rewritten(f, s, Identities)
    requires Rewritten(f, s, WriteAheadLog) && Rewritten(f, s, SharedMemory)
    ensures !SavedIsFailedBuilds(f, t)
  {
    if Look(s, SavedAs(Database)) == Absent {
      RewrittenIsNotSavedOf(f, s, t, Database);
    } else if Look(s, SavedAs(Identities)) == Absent {
      RewrittenIsNotSavedOf(f, s, t, Identities);
    } else if Look(s, SavedAs(WriteAheadLog)) == Absent {
      RewrittenIsNotSavedOf(f, s, t, WriteAheadLog);
    } else {
      RewrittenIsNotSavedOf(f, s, t, SharedMemory);
    }
  }

  /** Whether a restore started guarded is exactly whether what is kept stays the
      failed build's: from any state reached safely, under any faults, if a
      restore completes, the previous build rewrites its data, and a rollback
      without a fault follows, then what is kept is the failed build's if and
      only if the disk was guarded when the restore started. */
  method GuardDecides(disk: Disk, f: Store) returns (outcome: Outcome, ghost began: Option<Store>)
    requires Sound(disk.store) && CopiesMatch(disk.store) && KeptApart(f, disk.store)
    requires SnapshotHoldsBoth(f) && OnlyDataSide(f, disk.store)
    modifies disk
    ensures outcome.Done? ==> began.Some? && (SavedIsFailedBuilds(f, disk.store) <==> Guarded(began.value))
    ensures old(disk.plan) == [] ==> outcome.Done? && Guarded(began.value)
    ensures old(disk.plan) == UNRECORDED && !Recorded(old(disk.store))
      ==> outcome.Done? && began == Some(old(disk.store)) && disk.store.kept
  {
    ghost var s := disk.store;
    outcome, began := RollBackData(disk, f);
    if outcome.Done? {
      ghost var t := disk.store;
      disk.plan := [];
      RestoredIsApart(f, s, t);
      PartialRestoreKeepsGuard(f, began.value, t);
      RewriteAll(disk, f);
      ghost var u := disk.store;
      RunningKeepsGuard(f, t, u);
      var _, _ := RollBackData(disk, f);
      if !Guarded(u) {
        UnguardedSavesRewritten(f, u, disk.store);
      }
    }
  }

  /** A failed build's database and identities, beside a snapshot of others. */
  function ExampleDisk(): Store {
    Store(map[Live(Database) := 0, Live(Identities) := 1,
              SnapshotOf(Database) := 2, SnapshotOf(Identities) := 3, PENDING := 4],
          map[0 := [10], 1 := [11], 2 := [20], 3 := [21], 4 := []], 5, false)
  }

  lemma ExampleIsSound()
    ensures Sound(ExampleDisk())
  {
  }

  lemma ExampleIsReal()
    ensures Sound(ExampleDisk()) && CopiesMatch(ExampleDisk()) && SnapshotHoldsBoth(ExampleDisk())
    ensures NothingSaved(ExampleDisk()) && !Guarded(ExampleDisk()) && KeptApart(ExampleDisk(), ExampleDisk())
  {
    ExampleIsSound();
  }

  /** The run that goes wrong: nothing can be saved or recorded, the restore
      goes on, the previous build runs, and the next rollback keeps its files. */
  method UnrecordedRestoreMixes() returns (s: Store)
    ensures s.kept && !SavedIsFailedBuilds(ExampleDisk(), s)
  {
    ExampleIsReal();
    var disk := new Disk(ExampleDisk(), UNRECORDED);
    var _, _ := GuardDecides(disk, ExampleDisk());
    s := disk.store;
  }
}
