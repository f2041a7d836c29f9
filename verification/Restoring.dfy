/** Taking the data snapshot and putting it back: apps/launcher/src/main.rs,
    snapshot_data and restore_data. */
module Restoring {
  import opened Files

  predicate StateName(name: Name) {
    name == Database || name == Identities
  }

  function Live(name: Name): Path {
    At(Data, name)
  }

  function SnapshotOf(name: Name): Path {
    At(Snapshot, name)
  }

  /** The copy made before the new build ran, to be renamed into place. */
  function Ready(name: Name): Path {
    At(Prepared, name)
  }

  function BesideLive(name: Name): Path {
    At(Data, if name == Database then DatabaseRestoring else IdentitiesRestoring)
  }

  predicate SameBytes(a: Entry, b: Entry) {
    a.File? && b.File? && a.bytes == b.bytes
  }

  /** The state files the snapshot holds, the database first. */
  function Names(s: Store): (names: seq<Name>)
    ensures forall i :: 0 <= i < |names| ==> StateName(names[i]) && Look(s, SnapshotOf(names[i])).File?
    ensures forall name :: StateName(name) && Look(s, SnapshotOf(name)).File? ==> name in names
    ensures forall i :: 0 < i < |names| ==> names[0] == Database && names[i] == Identities
    ensures |names| <= 2
  {
    (if Look(s, SnapshotOf(Database)).File? then [Database] else [])
    + (if Look(s, SnapshotOf(Identities)).File? then [Identities] else [])
  }

  predicate CopyMatches(s: Store, name: Name) {
    Look(s, Ready(name)).File? ==> SameBytes(Look(s, Ready(name)), Look(s, SnapshotOf(name)))
  }

  /** Whatever prepared copies are left hold what the snapshot holds. */
  predicate CopiesMatch(s: Store) {
    CopyMatches(s, Database) && CopyMatches(s, Identities)
  }

  /** No file outside the live and the prepared ones changed. */
  ghost predicate Elsewhere(s: Store, t: Store) {
    t.kept == s.kept
    && forall p: Path :: p.dir != Data && p.dir != Prepared ==> Look(t, p) == Look(s, p)
  }

  /** The live file is not a link of the one kept of the failed build. */
  predicate Apart(s: Store, name: Name) {
    Look(s, Live(name)).File? && Look(s, At(Saved, name)).File?
    ==> Look(s, Live(name)).inode != Look(s, At(Saved, name)).inode
  }

  /** t's live file is what s's snapshot holds, and it is a file of its own. */
  predicate PutBack(s: Store, t: Store, name: Name) {
    SameBytes(Look(t, Live(name)), Look(s, SnapshotOf(name))) && Apart(t, name)
  }

  predicate LeftOrGone(s: Store, t: Store, p: Path) {
    Look(t, p) == Look(s, p) || Look(t, p) == Absent
  }

  predicate OldOrPutBack(s: Store, t: Store, name: Name) {
    LeftOrGone(s, t, Ready(name)) && (Look(t, Live(name)) == Look(s, Live(name)) || PutBack(s, t, name))
  }

  /** What holds of the disk wherever a restore that began at s stops. In
      particular the failed build's write-ahead log never lies beside a restored
      database. */
  ghost predicate PartlyRestored(s: Store, t: Store) {
    Elsewhere(s, t)
    && OldOrPutBack(s, t, Database) && OldOrPutBack(s, t, Identities)
    && LeftOrGone(s, t, Live(WriteAheadLog)) && LeftOrGone(s, t, Live(SharedMemory))
    && (Look(t, Live(Database)) == Look(s, Live(Database)) || LogGone(t))
  }

  predicate LogGone(s: Store) {
    Look(s, Live(WriteAheadLog)) == Absent && Look(s, Live(SharedMemory)) == Absent
  }

  /** Every file the snapshot holds is back, and no write-ahead log is left to
      be replayed onto a restored database. */
  predicate Restored(s: Store, t: Store) {
    (Look(s, SnapshotOf(Database)).File? ==> PutBack(s, t, Database) && LogGone(t))
    && (Look(s, SnapshotOf(Identities)).File? ==> PutBack(s, t, Identities))
  }

  /** Interrupted restores add up: stopping one that began where another
      stopped leaves nothing stopping the first could not have left. */
  lemma PartialRestoresCompose(s: Store, t: Store, u: Store)
    requires PartlyRestored(s, t) && PartlyRestored(t, u)
    ensures PartlyRestored(s, u)
  {
  }

  lemma PartialRestoreKeepsCopies(s: Store, t: Store)
    requires CopiesMatch(s) && PartlyRestored(s, t)
    ensures CopiesMatch(t) && Names(t) == Names(s)
  {
  }

  lemma RestoredCarriesBack(s: Store, t: Store, u: Store)
    requires PartlyRestored(s, t) && Restored(t, u)
    ensures Restored(s, u)
  {
  }

  /** secure_file and sync_file on a copy just made. */
  method MakeDurable(disk: Disk) returns (outcome: Outcome)
    modifies disk`plan
    ensures old(disk.plan) == [] ==> disk.plan == [] && outcome.Done?
  {
    outcome := disk.Attempt();
    if outcome.Done? {
      outcome := disk.Attempt();
    }
  }

  ghost predicate OutsideSnapshot(s: Store, t: Store) {
    t.kept == s.kept
    && forall p: Path :: p.dir != Snapshot && p.dir != Prepared ==> Look(t, p) == Look(s, p)
  }

  predicate NoSnapshot(s: Store) {
    Look(s, SnapshotOf(Database)) == Absent && Look(s, SnapshotOf(Identities)) == Absent
    && Look(s, Ready(Database)) == Absent && Look(s, Ready(Identities)) == Absent
  }

  /** t's snapshot holds name, with a copy ready, exactly when s's data did. */
  predicate Taken(s: Store, t: Store, name: Name) {
    (Look(t, SnapshotOf(name)).File? <==> Look(s, Live(name)).File?)
    && (Look(t, Ready(name)).File? <==> Look(s, Live(name)).File?)
    && CopyMatches(t, name)
  }

  /** `VACUUM INTO` writes a consistent copy of the database, whose bytes are
      SQLite's business, and the copy is then read back. */
  method SnapshotDatabase(disk: Disk, consistent: Bytes) returns (outcome: Outcome)
    requires Sound(disk.store)
    modifies disk
    ensures Sound(disk.store)
    ensures if Look(old(disk.store), Live(Database)).File?
      then OnlyAt(old(disk.store), disk.store, SnapshotOf(Database)) else disk.store == old(disk.store)
    ensures outcome.Done? && Look(old(disk.store), Live(Database)).File?
      ==> Look(disk.store, SnapshotOf(Database)).File? && Look(disk.store, SnapshotOf(Database)).bytes == consistent
    ensures old(disk.plan) == [] ==> disk.plan == [] && outcome.Done?
  {
    outcome := Done;
    if Live(Database) in disk.store.files {
      UnlinkableIsAlone(disk.store, SnapshotOf(Database));
      outcome := disk.Write(SnapshotOf(Database), consistent);
      if outcome.Done? {
        outcome := MakeDurable(disk);
      }
      if outcome.Done? {
        outcome := disk.Attempt(); // schema_version
      }
    }
  }

  method CopyDurably(disk: Disk, from: Path, to: Path) returns (outcome: Outcome)
    requires Sound(disk.store) && from != to && !Linkable(to)
    modifies disk
    ensures Sound(disk.store)
    ensures if Look(old(disk.store), from).File?
      then OnlyAt(old(disk.store), disk.store, to) else disk.store == old(disk.store)
    ensures outcome.Done? && Look(old(disk.store), from).File?
      ==> SameBytes(Look(disk.store, to), Look(old(disk.store), from))
    ensures old(disk.plan) == [] ==> disk.plan == [] && outcome.Done?
  {
    outcome := Done;
    if from in disk.store.files {
      UnlinkableIsAlone(disk.store, to);
      outcome := disk.Copy(from, to);
      if outcome.Done? {
        outcome := MakeDurable(disk);
      }
    }
  }

  /** The snapshot of one name is there exactly if its live file was, with these bytes. */
  predicate Snapped(s: Store, t: Store, name: Name, bytes: Bytes) {
    (Look(t, SnapshotOf(name)).File? <==> Look(s, Live(name)).File?)
    && (Look(s, Live(name)).File? ==> Look(t, SnapshotOf(name)).bytes == bytes)
  }

  function IdentityBytes(s: Store): Bytes {
    if Look(s, Live(Identities)).File? then Look(s, Live(Identities)).bytes else []
  }

  ghost predicate OnlySnapshot(s: Store, t: Store) {
    t.kept == s.kept && forall p: Path :: p.dir != Snapshot ==> Look(t, p) == Look(s, p)
  }

  method TakeSnapshot(disk: Disk, consistent: Bytes) returns (outcome: Outcome)
    requires Sound(disk.store) && NoSnapshot(disk.store)
    modifies disk
    ensures Sound(disk.store) && OnlySnapshot(old(disk.store), disk.store)
    ensures outcome.Done? ==> Snapped(old(disk.store), disk.store, Database, consistent)
    ensures outcome.Done? ==> Snapped(old(disk.store), disk.store, Identities, IdentityBytes(old(disk.store)))
    ensures old(disk.plan) == [] ==> disk.plan == [] && outcome.Done?
  {
    outcome := disk.Attempt(); // create_dir_all of the snapshot folder
    if outcome.Done? {
      outcome := SnapshotDatabase(disk, consistent);
    }
    if outcome.Done? {
      outcome := CopyDurably(disk, Live(Identities), SnapshotOf(Identities));
    }
  }

  ghost predicate OnlyPrepared(s: Store, t: Store) {
    t.kept == s.kept && forall p: Path :: p.dir != Prepared ==> Look(t, p) == Look(s, p)
  }

  predicate CopyReady(s: Store, name: Name) {
    (Look(s, Ready(name)).File? <==> Look(s, SnapshotOf(name)).File?) && CopyMatches(s, name)
  }

  method MakeCopies(disk: Disk) returns (outcome: Outcome)
    requires Sound(disk.store)
    requires Look(disk.store, Ready(Database)) == Absent && Look(disk.store, Ready(Identities)) == Absent
    modifies disk
    ensures Sound(disk.store) && OnlyPrepared(old(disk.store), disk.store)
    ensures outcome.Done? ==> CopyReady(disk.store, Database) && CopyReady(disk.store, Identities)
    ensures old(disk.plan) == [] ==> disk.plan == [] && outcome.Done?
  {
    outcome := disk.Attempt(); // create_dir_all of the prepared copies' folder
    if outcome.Done? {
      outcome := CopyDurably(disk, SnapshotOf(Database), Ready(Database));
    }
    if outcome.Done? {
      outcome := CopyDurably(disk, SnapshotOf(Identities), Ready(Identities));
    }
  }

  lemma CopiedIsTaken(s: Store, t: Store, u: Store, name: Name, bytes: Bytes)
    requires Snapped(s, t, name, bytes) && OnlyPrepared(t, u) && CopyReady(u, name)
    ensures Snapped(s, u, name, bytes) && Taken(s, u, name)
  {
  }

  /** Copies the data a rollback may need, and a second copy to rename back.
      The live data never changes; a failure takes the snapshot away again,
      as far as it can. */
  method SnapshotData(disk: Disk, consistent: Bytes) returns (outcome: Outcome)
    requires Sound(disk.store) && NoSnapshot(disk.store)
    modifies disk
    ensures Sound(disk.store) && OutsideSnapshot(old(disk.store), disk.store)
    ensures outcome.Done? ==> Taken(old(disk.store), disk.store, Database)
    ensures outcome.Done? ==> Taken(old(disk.store), disk.store, Identities)
    ensures outcome.Done? ==> Snapped(old(disk.store), disk.store, Database, consistent)
    ensures outcome.Done? ==> Snapped(old(disk.store), disk.store, Identities, IdentityBytes(old(disk.store)))
    ensures old(disk.plan) == [] ==> disk.plan == [] && outcome.Done?
  {
    ghost var s := disk.store;
    outcome := TakeSnapshot(disk, consistent);
    ghost var t := disk.store;
    if outcome.Done? {
      outcome := MakeCopies(disk);
      if outcome.Done? {
        CopiedIsTaken(s, t, disk.store, Database, consistent);
        CopiedIsTaken(s, t, disk.store, Identities, IdentityBytes(s));
      }
    }
    if outcome.Failed? {
      var cleaned := RemoveSnapshot(disk);
      if cleaned.Halted? {
        outcome := Halted;
      }
    }
  }

  /** Best effort, file by file. */
  method RemoveSnapshot(disk: Disk) returns (outcome: Outcome)
    requires Sound(disk.store)
    modifies disk
    ensures Sound(disk.store) && OutsideSnapshot(old(disk.store), disk.store)
    ensures outcome != Failed
  {
    var paths := [Ready(Database), Ready(Identities), SnapshotOf(Database), SnapshotOf(Identities)];
    outcome := Done;
    for i := 0 to |paths|
      invariant outcome.Done? && Sound(disk.store) && OutsideSnapshot(old(disk.store), disk.store)
    {
      ghost var t := disk.store;
      assert paths[i].dir == Snapshot || paths[i].dir == Prepared;
      outcome := disk.RemoveFile(paths[i]);
      assert OutsideSnapshot(t, disk.store);
      if outcome.Halted? {
        return;
      }
      outcome := Done;
    }
  }

  /** Only the copies made beside the live files may have changed. */
  ghost predicate OnlyBeside(s: Store, t: Store) {
    t.kept == s.kept
    && forall p :: p != BesideLive(Database) && p != BesideLive(Identities) ==> Look(t, p) == Look(s, p)
  }

  /** source holds, in t, what the snapshot held of name in s. */
  predicate Offers(s: Store, t: Store, name: Name, source: Path) {
    (source == Ready(name) || source == BesideLive(name))
    && SameBytes(Look(t, source), Look(s, SnapshotOf(name)))
  }

  lemma BesideKeepsOffer(s: Store, t: Store, u: Store, name: Name, source: Path, other: Name)
    requires StateName(name) && StateName(other) && name != other
    requires Offers(s, t, name, source) && OnlyAt(t, u, BesideLive(other))
    ensures Offers(s, u, name, source)
  {
  }

  method CopyBeside(disk: Disk, name: Name) returns (outcome: Outcome)
    requires StateName(name) && Sound(disk.store) && Look(disk.store, SnapshotOf(name)).File?
    modifies disk
    ensures Sound(disk.store) && OnlyAt(old(disk.store), disk.store, BesideLive(name))
    ensures outcome.Done? ==> Offers(old(disk.store), disk.store, name, BesideLive(name))
    ensures old(disk.plan) == [] ==> disk.plan == [] && outcome.Done?
  {
    UnlinkableIsAlone(disk.store, BesideLive(name));
    outcome := disk.Copy(SnapshotOf(name), BesideLive(name));
    if outcome.Done? {
      outcome := MakeDurable(disk);
    }
  }

  /** Choose, for every name, the prepared copy or a new one beside the live file. */
  method GatherSources(disk: Disk, names: seq<Name>)
    returns (outcome: Outcome, sources: seq<Path>, copied: seq<Path>)
    requires Sound(disk.store) && CopiesMatch(disk.store) && names == Names(disk.store)
    modifies disk
    ensures Sound(disk.store) && OnlyBeside(old(disk.store), disk.store)
    ensures forall p :: p in copied ==> p == BesideLive(Database) || p == BesideLive(Identities)
    ensures outcome.Done? ==> |sources| == |names|
    ensures outcome.Done? ==>
      forall i :: 0 <= i < |names| ==> Offers(old(disk.store), disk.store, names[i], sources[i])
    ensures old(disk.plan) == [] ==> disk.plan == [] && outcome.Done?
  {
    ghost var s := disk.store;
    outcome, sources, copied := Done, [], [];
    while |sources| < |names|
      invariant |sources| <= |names| && outcome.Done?
      invariant Sound(disk.store) && OnlyBeside(s, disk.store)
      invariant forall p :: p in copied ==> p == BesideLive(Database) || p == BesideLive(Identities)
      invariant forall i :: 0 <= i < |sources| ==> Offers(s, disk.store, names[i], sources[i])
      invariant old(disk.plan) == [] ==> disk.plan == []
      decreases |names| - |sources|
    {
      var name := names[|sources|];
      if Ready(name) in disk.store.files {
        sources := sources + [Ready(name)];
      } else {
        copied := copied + [BesideLive(name)];
        ghost var t := disk.store;
        outcome := CopyBeside(disk, name);
        if !outcome.Done? {
          return;
        }
        forall i | 0 <= i < |sources|
          ensures Offers(s, disk.store, names[i], sources[i])
        {
          BesideKeepsOffer(s, t, disk.store, names[i], sources[i], name);
        }
        sources := sources + [BesideLive(name)];
      }
    }
  }

  lemma BesideIsPartlyRestored(s: Store, t: Store)
    requires OnlyBeside(s, t)
    ensures PartlyRestored(s, t)
  {
  }

  lemma LogRemovalIsPartlyRestored(s: Store, t: Store, u: Store, gone: Name)
    requires PartlyRestored(s, t) && Removed(t, u, Live(gone)) && (gone == WriteAheadLog || gone == SharedMemory)
    ensures PartlyRestored(s, u)
  {
  }

  lemma LandingIsPartlyRestored(s: Store, t: Store, u: Store, name: Name, source: Path)
    requires Sound(t) && StateName(name) && PartlyRestored(s, t) && (name == Database ==> LogGone(t))
    requires Offers(s, t, name, source) && Moved(t, u, source, Live(name))
    ensures PartlyRestored(s, u) && PutBack(s, u, name)
  {
    assert Apart(u, name) by {
      if Look(u, At(Saved, name)).File? {
        assert !MayShare(source, At(Saved, name));
      }
    }
  }

  /** Nothing about `other` changed: not its sources, not its live file. */
  ghost predicate Spares(t: Store, u: Store, other: Name) {
    Look(u, Ready(other)) == Look(t, Ready(other))
    && Look(u, BesideLive(other)) == Look(t, BesideLive(other))
    && Look(u, Live(other)) == Look(t, Live(other))
    && Look(u, At(Saved, other)) == Look(t, At(Saved, other))
  }

  ghost predicate OnlyLog(s: Store, t: Store) {
    t.kept == s.kept
    && forall p :: p != Live(WriteAheadLog) && p != Live(SharedMemory) ==> Look(t, p) == Look(s, p)
  }

  /** The failed build's write-ahead log belongs to its database; replayed onto
      the restored one it would corrupt it. */
  method ClearLog(disk: Disk, ghost s: Store) returns (outcome: Outcome)
    requires Sound(disk.store) && PartlyRestored(s, disk.store)
    modifies disk
    ensures Sound(disk.store) && PartlyRestored(s, disk.store)
    ensures OnlyLog(old(disk.store), disk.store)
    ensures outcome.Done? ==> LogGone(disk.store)
    ensures old(disk.plan) == [] ==> disk.plan == [] && outcome.Done?
  {
    ghost var t := disk.store;
    UnlinkableIsAlone(disk.store, Live(WriteAheadLog));
    outcome := disk.RemoveIfExists(Live(WriteAheadLog));
    if outcome.Done? {
      LogRemovalIsPartlyRestored(s, t, disk.store, WriteAheadLog);
      ghost var u := disk.store;
      UnlinkableIsAlone(disk.store, Live(SharedMemory));
      outcome := disk.RemoveIfExists(Live(SharedMemory));
      if outcome.Done? {
        LogRemovalIsPartlyRestored(s, u, disk.store, SharedMemory);
      }
    }
  }

  /** Put one name's source in place with one rename. */
  method Land(disk: Disk, ghost s: Store, name: Name, source: Path) returns (outcome: Outcome)
    requires StateName(name) && Sound(disk.store) && PartlyRestored(s, disk.store)
    requires Offers(s, disk.store, name, source)
    modifies disk
    ensures Sound(disk.store) && PartlyRestored(s, disk.store)
    ensures forall other :: StateName(other) && other != name ==> Spares(old(disk.store), disk.store, other)
    ensures name != Database && LogGone(old(disk.store)) ==> LogGone(disk.store)
    ensures outcome.Done? ==> PutBack(s, disk.store, name) && (name == Database ==> LogGone(disk.store))
    ensures old(disk.plan) == [] ==> disk.plan == [] && outcome.Done?
  {
    if name == Database {
      outcome := ClearLog(disk, s);
      if !outcome.Done? {
        return;
      }
    }
    ghost var t := disk.store;
    outcome := disk.MoveRequired(source, Live(name));
    if outcome.Done? {
      LandingIsPartlyRestored(s, t, disk.store, name, source);
    }
  }

  /** The first i names are back in place. */
  predicate BackUpTo(s: Store, t: Store, names: seq<Name>, i: nat)
    requires i <= |names|
  {
    (forall k :: 0 <= k < i ==> PutBack(s, t, names[k]))
    && (i > 0 && names[0] == Database ==> LogGone(t))
  }

  /** The sources of the names from i on still hold the snapshot's bytes. */
  predicate OfferedFrom(s: Store, t: Store, names: seq<Name>, sources: seq<Path>, i: nat)
    requires |sources| == |names|
  {
    forall k :: i <= k < |names| ==> Offers(s, t, names[k], sources[k])
  }

  lemma LandedNext(s: Store, t: Store, u: Store, names: seq<Name>, sources: seq<Path>, i: nat)
    requires names == Names(s) && |sources| == |names| && i < |names|
    requires OfferedFrom(s, t, names, sources, i) && BackUpTo(s, t, names, i)
    requires forall other :: StateName(other) && other != names[i] ==> Spares(t, u, other)
    requires PutBack(s, u, names[i]) && (names[i] == Database || LogGone(t) ==> LogGone(u))
    ensures OfferedFrom(s, u, names, sources, i + 1) && BackUpTo(s, u, names, i + 1)
  {
    forall k | 0 <= k < |names| && k != i
      ensures Spares(t, u, names[k])
    {
    }
  }

  method LandAll(disk: Disk, ghost s: Store, names: seq<Name>, sources: seq<Path>) returns (outcome: Outcome)
    requires names == Names(s) && |sources| == |names|
    requires Sound(disk.store) && PartlyRestored(s, disk.store)
    requires OfferedFrom(s, disk.store, names, sources, 0)
    modifies disk
    ensures Sound(disk.store) && PartlyRestored(s, disk.store)
    ensures outcome.Done? ==> Restored(s, disk.store)
    ensures old(disk.plan) == [] ==> disk.plan == [] && outcome.Done?
  {
    outcome := Done;
    for i := 0 to |names|
      invariant outcome.Done?
      invariant Sound(disk.store) && PartlyRestored(s, disk.store)
      invariant OfferedFrom(s, disk.store, names, sources, i) && BackUpTo(s, disk.store, names, i)
      invariant old(disk.plan) == [] ==> disk.plan == []
    {
      ghost var t := disk.store;
      outcome := Land(disk, s, names[i], sources[i]);
      if !outcome.Done? {
        return;
      }
      LandedNext(s, t, disk.store, names, sources, i);
    }
  }

  /** Best effort: the copies an unsuccessful restore made beside the live files. */
  method RemoveCopied(disk: Disk, copied: seq<Path>) returns (outcome: Outcome)
    requires Sound(disk.store)
    requires forall p :: p in copied ==> p == BesideLive(Database) || p == BesideLive(Identities)
    modifies disk
    ensures Sound(disk.store) && OnlyBeside(old(disk.store), disk.store)
    ensures outcome != Failed
  {
    outcome := Done;
    for i := 0 to |copied|
      invariant outcome.Done? && Sound(disk.store) && OnlyBeside(old(disk.store), disk.store)
    {
      ghost var t := disk.store;
      assert copied[i] in copied;
      outcome := disk.RemoveFile(copied[i]);
      assert OnlyBeside(t, disk.store);
      if outcome.Halted? {
        return;
      }
      outcome := Done;
    }
  }

  /** Restore stopped or failing anywhere: the snapshot is as it was, and each
      live file is either as it was or what the snapshot holds. From any state
      such a stop leaves, a run that meets no fault completes. */
  method RestoreData(disk: Disk) returns (outcome: Outcome)
    requires Sound(disk.store) && CopiesMatch(disk.store)
    modifies disk
    ensures Sound(disk.store) && CopiesMatch(disk.store)
    ensures PartlyRestored(old(disk.store), disk.store)
    ensures outcome.Done? ==> Restored(old(disk.store), disk.store)
    ensures old(disk.plan) == [] ==> disk.plan == [] && outcome.Done?
  {
    ghost var s := disk.store;
    var names := Names(disk.store);
    var sources, copied;
    outcome, sources, copied := GatherSources(disk, names);
    BesideIsPartlyRestored(s, disk.store);
    if outcome.Done? {
      outcome := LandAll(disk, s, names, sources);
    }
    if outcome.Failed? {
      ghost var t := disk.store;
      var cleaned := RemoveCopied(disk, copied);
      BesideIsPartlyRestored(t, disk.store);
      PartialRestoresCompose(s, t, disk.store);
      if cleaned.Halted? {
        outcome := Halted;
      }
    }
    if !outcome.Halted? {
      var synced := disk.Attempt(); // sync_directory, best effort
      if synced.Halted? {
        outcome := Halted;
      }
    }
    PartialRestoreKeepsCopies(s, disk.store);
  }

  /** Any number of restores, each meeting its own faults, then one that meets
      none: the state is the snapshot's, whether or not the earlier ones had
      used the prepared copies up. */
  method RestoreUntilDone(disk: Disk, plans: seq<seq<Fault>>)
    requires Sound(disk.store) && CopiesMatch(disk.store)
    modifies disk
    ensures Sound(disk.store) && PartlyRestored(old(disk.store), disk.store)
    ensures Restored(old(disk.store), disk.store)
  {
    ghost var s := disk.store;
    for i := 0 to |plans|
      invariant Sound(disk.store) && CopiesMatch(disk.store) && PartlyRestored(s, disk.store)
    {
      ghost var t := disk.store;
      disk.plan := plans[i];
      var _ := RestoreData(disk);
      PartialRestoresCompose(s, t, disk.store);
    }
    ghost var t := disk.store;
    disk.plan := [];
    var _ := RestoreData(disk);
    PartialRestoresCompose(s, t, disk.store);
    RestoredCarriesBack(s, t, disk.store);
  }
}
