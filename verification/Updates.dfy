/** Installing an update's components and taking the whole update back:
    apps/launcher/src/main.rs, the install steps of apply_update_inner,
    restore_backed_up and rollback_update. */
module Updates {
  import opened Common
  import opened Files
  import opened Restoring
  import opened Rollback
  import opened Staging

  // Throughout, p is the disk before staging began.

  /** What a rollback needs of one component: an included one that was there is
      in the backup, or back in place. */
  predicate Recoverable(p: Store, s: Store, name: Name, includesWeb: bool) {
    if !Included(name, includesWeb) then Look(s, Installed(name)) == Look(p, Installed(name))
    else if Look(p, Installed(name)).File? then
      Look(s, BackedUp(name)) == Look(p, Installed(name)) || InPlace(p, s, name)
    else Look(s, BackedUp(name)) == Absent
  }

  predicate AllRecoverable(p: Store, s: Store, includesWeb: bool) {
    Recoverable(p, s, Server, includesWeb) && Recoverable(p, s, Web, includesWeb)
    && Recoverable(p, s, Version, includesWeb) && VersionNoted(p, s)
  }

  predicate Returned(p: Store, s: Store, name: Name) {
    Look(s, Installed(name)) == Look(p, Installed(name))
  }

  predicate AllReturned(p: Store, s: Store) {
    Returned(p, s, Server) && Returned(p, s, Web) && Returned(p, s, Version)
  }

  /** A previous server and web bundle this rollback can put back. */
  predicate Complete(p: Store, includesWeb: bool) {
    Look(p, Installed(Server)).File? && (includesWeb ==> Look(p, Installed(Web)).File?)
  }

  /** The previous VERSION.txt is back, an absent one included. A previous server
      is back exactly if there was one, and so is a web bundle the update
      included; one it left out was not touched. */
  predicate GivenBack(p: Store, s: Store, includesWeb: bool) {
    Returned(p, s, Version)
    && (Returned(p, s, Server) <==> Look(p, Installed(Server)).File?)
    && (Returned(p, s, Web) <==> !includesWeb || Look(p, Installed(Web)).File?)
  }

  /** So the whole previous installation is back exactly if it was complete. */
  lemma AllReturnedIffComplete(p: Store, s: Store, includesWeb: bool)
    requires GivenBack(p, s, includesWeb)
    ensures AllReturned(p, s) <==> Complete(p, includesWeb)
  {
  }

  /** Installing touches neither the backup nor what the update leaves out. */
  ghost predicate OnlyInstalls(s: Store, t: Store, includesWeb: bool) {
    t.kept == s.kept
    && (forall q: Path :: q.dir != Install && q.dir != Package ==> Look(t, q) == Look(s, q))
    && (!includesWeb ==> Look(t, Installed(Web)) == Look(s, Installed(Web)))
  }

  lemma InstallingLeavesRecoverable(p: Store, s: Store, t: Store, includesWeb: bool)
    requires AllMovedAside(p, s, includesWeb) && VersionNoted(p, s) && OnlyInstalls(s, t, includesWeb)
    ensures AllRecoverable(p, t, includesWeb)
  {
  }

  /** The new build's component is the installed one. */
  predicate Arrived(s: Store, t: Store, name: Name) {
    Look(t, Installed(name)).File? && Look(t, Installed(name)) == Look(s, At(Package, name))
  }

  ghost predicate OnlyInstalled(s: Store, t: Store, name: Name) {
    t.kept == s.kept
    && forall q :: q != Installed(name) && q != At(Package, name) ==> Look(t, q) == Look(s, q)
  }

  lemma InstalledNext(s: Store, t: Store, u: Store, name: Name, includesWeb: bool)
    requires Component(name) && Included(name, includesWeb)
    requires OnlyInstalls(s, t, includesWeb) && OnlyInstalled(t, u, name)
    ensures OnlyInstalls(s, u, includesWeb)
  {
  }

  lemma OthersStayArrived(s: Store, t: Store, u: Store, name: Name, other: Name)
    requires OnlyInstalled(t, u, name) && other != name
    ensures Arrived(s, t, other) == Arrived(s, u, other)
    ensures Look(u, At(Package, other)) == Look(t, At(Package, other))
  {
    assert Look(u, Installed(other)) == Look(t, Installed(other));
  }

  method InstallOne(disk: Disk, name: Name) returns (outcome: Outcome)
    requires Component(name) && Sound(disk.store)
    modifies disk
    ensures Sound(disk.store) && OnlyInstalled(old(disk.store), disk.store, name)
    ensures outcome.Done? ==> Arrived(old(disk.store), disk.store, name)
    ensures old(disk.plan) == [] ==> disk.plan == []
    ensures old(disk.plan) == [] && Look(old(disk.store), At(Package, name)).File? ==> outcome.Done?
  {
    outcome := disk.MoveRequired(At(Package, name), Installed(name));
  }

  predicate AllArrived(s: Store, t: Store, includesWeb: bool) {
    Arrived(s, t, Server) && Arrived(s, t, Version) && (includesWeb ==> Arrived(s, t, Web))
  }

  /** VERSION.txt tells of the new build only once the new build is there. */
  predicate VersionComesLast(s: Store, t: Store, includesWeb: bool) {
    Look(t, Installed(Version)) == Look(s, Installed(Version))
    || (Arrived(s, t, Server) && (includesWeb ==> Arrived(s, t, Web)))
  }

  /** What `validate_update_paths` has checked. */
  predicate WholePackage(s: Store) {
    Look(s, At(Package, Server)).File? && Look(s, At(Package, Web)).File? && Look(s, At(Package, Version)).File?
  }

  /** The steps that put the new build in and start it; `starts` is what became
      of the new server, which is not part of this model. */
  method InstallPackage(disk: Disk, includesWeb: bool, starts: bool) returns (outcome: Outcome)
    requires Sound(disk.store)
    modifies disk
    ensures Sound(disk.store) && OnlyInstalls(old(disk.store), disk.store, includesWeb)
    ensures outcome.Done? ==> Arrived(old(disk.store), disk.store, Server)
    ensures outcome.Done? ==> Arrived(old(disk.store), disk.store, Version)
    ensures outcome.Done? && includesWeb ==> Arrived(old(disk.store), disk.store, Web)
    ensures VersionComesLast(old(disk.store), disk.store, includesWeb)
    ensures old(disk.plan) == [] && WholePackage(old(disk.store))
      ==> outcome == (if starts then Done else Failed) && AllArrived(old(disk.store), disk.store, includesWeb)
  {
    ghost var s := disk.store;
    outcome := InstallOne(disk, Server);
    InstalledNext(s, s, disk.store, Server, includesWeb);
    if outcome.Done? && includesWeb {
      ghost var t := disk.store;
      OthersStayArrived(s, s, t, Server, Web);
      outcome := InstallOne(disk, Web);
      InstalledNext(s, t, disk.store, Web, includesWeb);
      OthersStayArrived(s, t, disk.store, Web, Server);
    }
    if outcome.Done? {
      outcome := disk.Attempt(); // refresh_launchers
    }
    if outcome.Done? {
      ghost var t := disk.store;
      outcome := InstallOne(disk, Version);
      InstalledNext(s, t, disk.store, Version, includesWeb);
      OthersStayArrived(s, t, disk.store, Version, Server);
      OthersStayArrived(s, t, disk.store, Version, Web);
    }
    if outcome.Done? {
      outcome := disk.Attempt(); // set_executable
    }
    if outcome.Done? && !starts {
      outcome := Failed;
    }
  }

  ghost predicate OnlyComponents(s: Store, t: Store) {
    t.kept == s.kept && forall q :: !ComponentPath(q) ==> Look(t, q) == Look(s, q)
  }

  lemma ComponentLeavesOthers(p: Store, s: Store, t: Store, name: Name, other: Name, includesWeb: bool)
    requires OnlyComponent(s, t, name) && other != name
    ensures Recoverable(p, s, other, includesWeb) == Recoverable(p, t, other, includesWeb)
    ensures Returned(p, s, other) == Returned(p, t, other)
  {
    assert Look(t, Installed(other)) == Look(s, Installed(other));
    assert Look(t, BackedUp(other)) == Look(s, BackedUp(other));
  }

  lemma RecoverableNext(p: Store, s: Store, t: Store, name: Name, includesWeb: bool)
    requires Component(name) && AllRecoverable(p, s, includesWeb) && OnlyComponent(s, t, name)
    requires Recoverable(p, t, name, includesWeb)
    ensures AllRecoverable(p, t, includesWeb)
  {
    forall other | other != name {
      ComponentLeavesOthers(p, s, t, name, other, includesWeb);
    }
  }

  /** A backup already gone was put back by an earlier run, so the installed
      copy is kept. */
  method RestoreBackedUp(disk: Disk, name: Name, includesWeb: bool, ghost p: Store) returns (outcome: Outcome)
    requires Component(name) && Included(name, includesWeb)
    requires Sound(disk.store) && AllRecoverable(p, disk.store, includesWeb)
    modifies disk
    ensures Sound(disk.store) && AllRecoverable(p, disk.store, includesWeb)
    ensures OnlyComponent(old(disk.store), disk.store, name)
    ensures outcome.Done? ==> Look(disk.store, Installed(name)).File?
    ensures outcome.Done? ==> (Returned(p, disk.store, name) <==> Look(p, Installed(name)).File?)
    ensures outcome.Done? && Look(p, Installed(name)) == Absent ==> disk.store == old(disk.store)
    ensures old(disk.plan) == [] ==> disk.plan == []
    ensures old(disk.plan) == [] ==>
      (outcome.Done? <==> Look(p, Installed(name)).File? || Look(old(disk.store), Installed(name)).File?)
  {
    ghost var s := disk.store;
    if BackedUp(name) !in disk.store.files {
      return if Installed(name) in disk.store.files then Done else Failed;
    }
    UnlinkableIsAlone(disk.store, Installed(name));
    outcome := disk.RemoveIfExists(Installed(name));
    if outcome.Done? {
      outcome := disk.MoveRequired(BackedUp(name), Installed(name));
    }
    RecoverableNext(p, s, disk.store, name, includesWeb);
  }

  method RestoreVersion(disk: Disk, includesWeb: bool, ghost p: Store) returns (outcome: Outcome)
    requires Sound(disk.store) && AllRecoverable(p, disk.store, includesWeb)
    modifies disk
    ensures Sound(disk.store) && AllRecoverable(p, disk.store, includesWeb)
    ensures OnlyComponent(old(disk.store), disk.store, Version)
    ensures outcome.Done? ==> Returned(p, disk.store, Version)
    ensures old(disk.plan) == [] ==> disk.plan == [] && outcome.Done?
  {
    ghost var s := disk.store;
    outcome := Done;
    if BackedUp(Version) in disk.store.files {
      outcome := RestoreBackedUp(disk, Version, includesWeb, p);
    } else if NO_VERSION in disk.store.files {
      UnlinkableIsAlone(disk.store, Installed(Version));
      outcome := disk.RemoveIfExists(Installed(Version));
      RecoverableNext(p, s, disk.store, Version, includesWeb);
    }
  }

  /** For each component that must end installed, one was or is. */
  predicate Restorable(p: Store, s: Store, includesWeb: bool) {
    (Look(p, Installed(Server)).File? || Look(s, Installed(Server)).File?)
    && (includesWeb ==> Look(p, Installed(Web)).File? || Look(s, Installed(Web)).File?)
  }

  /** The server, and the web bundle if the update included it. */
  method RestorePrograms(disk: Disk, includesWeb: bool, ghost p: Store) returns (outcome: Outcome)
    requires Sound(disk.store) && AllRecoverable(p, disk.store, includesWeb)
    modifies disk
    ensures Sound(disk.store) && AllRecoverable(p, disk.store, includesWeb)
    ensures OnlyPrograms(old(disk.store), disk.store)
    ensures outcome.Done? ==> (Returned(p, disk.store, Server) <==> Look(p, Installed(Server)).File?)
    ensures outcome.Done? ==> (Returned(p, disk.store, Web) <==> !includesWeb || Look(p, Installed(Web)).File?)
    ensures outcome.Done? && Look(p, Installed(Server)) == Absent
      ==> Look(disk.store, Installed(Server)) == Look(old(disk.store), Installed(Server))
    ensures old(disk.plan) == [] && Restorable(p, old(disk.store), includesWeb) ==> disk.plan == [] && outcome.Done?
  {
    outcome := RestoreBackedUp(disk, Server, includesWeb, p);
    if outcome.Done? && includesWeb {
      ghost var t := disk.store;
      outcome := RestoreBackedUp(disk, Web, includesWeb, p);
      ComponentLeavesOthers(p, t, disk.store, Web, Server, includesWeb);
      assert Look(disk.store, Installed(Server)) == Look(t, Installed(Server));
    }
  }

  ghost predicate OnlyPrograms(s: Store, t: Store) {
    t.kept == s.kept
    && forall q: Path :: !(ComponentPath(q) && q.name != Version) ==> Look(t, q) == Look(s, q)
  }

  lemma ProgramsLeaveVersion(p: Store, s: Store, t: Store, u: Store)
    requires OnlyComponent(s, t, Version) && OnlyPrograms(t, u)
    ensures OnlyComponents(s, u) && (Returned(p, t, Version) <==> Returned(p, u, Version))
    ensures Look(t, Installed(Server)) == Look(s, Installed(Server)) && Look(t, Installed(Web)) == Look(s, Installed(Web))
  {
    assert ComponentPath(Installed(Version)) && ComponentPath(BackedUp(Version));
  }

  method RestoreComponents(disk: Disk, includesWeb: bool, ghost p: Store) returns (outcome: Outcome)
    requires Sound(disk.store) && AllRecoverable(p, disk.store, includesWeb)
    modifies disk
    ensures Sound(disk.store) && AllRecoverable(p, disk.store, includesWeb)
    ensures OnlyComponents(old(disk.store), disk.store)
    ensures outcome.Done? ==> GivenBack(p, disk.store, includesWeb)
    ensures outcome.Done? && Look(p, Installed(Server)) == Absent
      ==> Look(disk.store, Installed(Server)) == Look(old(disk.store), Installed(Server))
    ensures old(disk.plan) == [] && Restorable(p, old(disk.store), includesWeb) ==> disk.plan == [] && outcome.Done?
  {
    ghost var s := disk.store;
    outcome := RestoreVersion(disk, includesWeb, p);
    ghost var t := disk.store;
    if outcome.Done? {
      outcome := RestorePrograms(disk, includesWeb, p);
    }
    ProgramsLeaveVersion(p, s, t, disk.store);
    if outcome.Done? {
      outcome := disk.Attempt(); // set_executable
    }
  }

  lemma DataSideLeavesRecoverable(p: Store, s: Store, t: Store, includesWeb: bool)
    requires AllRecoverable(p, s, includesWeb) && OnlyDataSide(s, t)
    ensures AllRecoverable(p, t, includesWeb)
  {
    assert InstallSide(NO_VERSION);
    forall name | Component(name)
      ensures InstallSide(Installed(name)) && InstallSide(BackedUp(name))
    {
    }
  }

  lemma ComponentsLeaveData(f: Store, s: Store, t: Store)
    requires CopiesMatch(s) && OnlyComponents(s, t)
    ensures CopiesMatch(t) && SnapshotKept(s, t)
    ensures KeptApart(f, s) ==> KeptApart(f, t)
  {
  }

  lemma ComponentsLeaveRestored(s: Store, t: Store, u: Store)
    requires Restored(s, t) && OnlyComponents(t, u)
    ensures Restored(s, u)
  {
  }

  ghost predicate SnapshotKept(s: Store, t: Store) {
    forall p: Path :: p.dir == Snapshot ==> Look(t, p) == Look(s, p)
  }

  /** A rollback stopped or failing anywhere leaves everything another one
      needs. Nothing is touched under a server that did not stop, and no program
      moves before the data it is to open is back. One that completes gives back the previous components, and with
      them, when it entered the data half, the snapshot's data. What stopping
      the failed server, comparing the formats and starting the previous
      server came to are given. */
  method RollbackUpdate(disk: Disk, includesWeb: bool, stopped: bool, upgraded: bool, starts: bool,
                        ghost p: Store, ghost f: Store)
    returns (outcome: Outcome, entered: bool, ghost began: Option<Store>)
    requires Sound(disk.store) && CopiesMatch(disk.store) && AllRecoverable(p, disk.store, includesWeb)
    modifies disk
    ensures Sound(disk.store) && CopiesMatch(disk.store) && AllRecoverable(p, disk.store, includesWeb)
    ensures SnapshotKept(old(disk.store), disk.store)
    ensures entered == (upgraded || Look(old(disk.store), MARKER).File?)
    ensures KeptApart(f, old(disk.store)) && (began.Some? ==> Guarded(began.value)) ==> KeptApart(f, disk.store)
    ensures outcome.Done? ==> GivenBack(p, disk.store, includesWeb)
    ensures outcome.Done? && entered ==> Restored(old(disk.store), disk.store)
    ensures entered && !stopped ==> outcome.Failed? && disk.store == old(disk.store) && began.None?
    ensures entered ==> OnlyDataSide(old(disk.store), disk.store) || Restored(old(disk.store), disk.store)
    ensures !entered ==> OnlyComponents(old(disk.store), disk.store) && began.None?
    ensures outcome.Done? && Look(p, Installed(Server)) == Absent
      ==> Look(disk.store, Installed(Server)) == Look(old(disk.store), Installed(Server))
    ensures old(disk.plan) == [] && stopped && starts && Restorable(p, old(disk.store), includesWeb) ==> outcome.Done?
  {
    ghost var s := disk.store;
    entered := MARKER in disk.store.files || upgraded;
    began := None;
    if entered {
      if !stopped {
        return Failed, entered, None;
      }
      outcome, began := RollBackData(disk, f);
      DataSideLeavesRecoverable(p, s, disk.store, includesWeb);
      if !outcome.Done? {
        return;
      }
    }
    ghost var t := disk.store;
    outcome := RestoreComponents(disk, includesWeb, p);
    ComponentsLeaveData(f, t, disk.store);
    if entered {
      ComponentsLeaveRestored(s, t, disk.store);
    }
    if outcome.Done? && !starts {
      outcome := Failed;
    }
  }

  /** The components and the note about VERSION.txt are where they were. */
  ghost predicate ComponentsUntouched(s: Store, t: Store) {
    Look(t, NO_VERSION) == Look(s, NO_VERSION)
    && forall q :: ComponentPath(q) ==> Look(t, q) == Look(s, q)
  }

  /** The marker a rollback renames into place is made while there is room. */
  method PrepareRollbackRecords(disk: Disk) returns (outcome: Outcome)
    requires Sound(disk.store)
    modifies disk
    ensures Sound(disk.store) && OnlyAt(old(disk.store), disk.store, PENDING)
    ensures outcome.Done? ==> Look(disk.store, PENDING).File?
    ensures old(disk.plan) == [] ==> disk.plan == [] && outcome.Done?
  {
    outcome := disk.Attempt(); // create_dir_all
    if outcome.Done? {
      UnlinkableIsAlone(disk.store, PENDING);
      outcome := disk.Write(PENDING, []);
    }
    if outcome.Done? {
      outcome := disk.Attempt(); // sync_file
    }
    if outcome.Done? {
      var synced := disk.Attempt(); // sync_directory, best effort
      outcome := if synced.Halted? then Halted else Done;
    }
  }

  lemma RecordsLeaveCopies(s: Store, t: Store)
    requires CopiesMatch(s) && OnlyAt(s, t, PENDING)
    ensures CopiesMatch(t) && ComponentsUntouched(s, t) && SnapshotKept(s, t)
  {
    assert !ComponentPath(PENDING);
  }

  lemma StagedFromUntouched(p: Store, s: Store, t: Store, includesWeb: bool)
    requires ComponentsUntouched(p, s)
    ensures AllMovedAside(s, t, includesWeb) == AllMovedAside(p, t, includesWeb)
    ensures VersionNoted(s, t) == VersionNoted(p, t)
    ensures AllInPlace(s, t) == AllInPlace(p, t)
    ensures NothingBackedUp(s) == NothingBackedUp(p)
  {
    forall name | Component(name)
      ensures Look(s, Installed(name)) == Look(p, Installed(name)) && Look(s, BackedUp(name)) == Look(p, BackedUp(name))
    {
      assert ComponentPath(Installed(name)) && ComponentPath(BackedUp(name));
    }
  }

  lemma SnapshotLeavesComponents(s: Store, t: Store)
    requires OutsideSnapshot(s, t)
    ensures ComponentsUntouched(s, t)
  {
  }

  lemma UntouchedComposes(s: Store, t: Store, u: Store)
    requires ComponentsUntouched(s, t) && ComponentsUntouched(t, u)
    ensures ComponentsUntouched(s, u)
  {
  }

  lemma StagingKeepsCopies(s: Store, t: Store)
    requires CopiesMatch(s) && OnlyStaged(s, t)
    ensures CopiesMatch(t) && SnapshotKept(s, t)
  {
  }

  lemma InstallingKeepsCopies(s: Store, t: Store, includesWeb: bool)
    requires CopiesMatch(s) && OnlyInstalls(s, t, includesWeb)
    ensures CopiesMatch(t) && SnapshotKept(s, t)
  {
  }

  /** The snapshot in s is of the data in p: the identities' bytes, and the
      database's consistent copy. */
  predicate SnapshotOfEntry(p: Store, s: Store, consistent: Bytes) {
    (Look(p, Live(Identities)).File? ==> SameBytes(Look(s, SnapshotOf(Identities)), Look(p, Live(Identities))))
    && (Look(p, Live(Database)).File? ==> SameBytes(Look(s, SnapshotOf(Database)), File(0, consistent)))
  }

  /** The live data in s is that of p again. */
  predicate DataReturned(p: Store, s: Store, consistent: Bytes) {
    (Look(p, Live(Identities)).File? ==> SameBytes(Look(s, Live(Identities)), Look(p, Live(Identities))))
    && (Look(p, Live(Database)).File? ==> SameBytes(Look(s, Live(Database)), File(0, consistent)) && LogGone(s))
  }

  lemma SnapshotStaysOfEntry(p: Store, s: Store, t: Store, consistent: Bytes)
    requires SnapshotOfEntry(p, s, consistent) && SnapshotKept(s, t)
    ensures SnapshotOfEntry(p, t, consistent)
  {
  }

  lemma RestoredReturnsData(p: Store, s: Store, t: Store, consistent: Bytes)
    requires SnapshotOfEntry(p, s, consistent) && Restored(s, t)
    ensures DataReturned(p, t, consistent)
  {
  }

  /** Preparing touches neither the live data nor the package. */
  ghost predicate OnlyPrepares(s: Store, t: Store) {
    forall q: Path :: q.dir == Data || q.dir == Package ==> Look(t, q) == Look(s, q)
  }

  lemma PreparesCompose(s: Store, t: Store, u: Store)
    requires OnlyPrepares(s, t) && OnlyPrepares(t, u)
    ensures OnlyPrepares(s, u)
  {
  }

  /** The data half of the preparation: nothing installed moves. */
  method SnapshotAndRecord(disk: Disk, consistent: Bytes) returns (outcome: Outcome)
    requires Sound(disk.store) && NoSnapshot(disk.store)
    modifies disk
    ensures Sound(disk.store) && ComponentsUntouched(old(disk.store), disk.store)
    ensures OnlyPrepares(old(disk.store), disk.store)
    ensures outcome.Done? ==> CopiesMatch(disk.store) && SnapshotOfEntry(old(disk.store), disk.store, consistent)
    ensures old(disk.plan) == [] ==> disk.plan == [] && outcome.Done?
  {
    ghost var p := disk.store;
    outcome := SnapshotData(disk, consistent);
    ghost var s := disk.store;
    SnapshotLeavesComponents(p, s);
    if outcome.Done? {
      outcome := PrepareRollbackRecords(disk);
      RecordsLeaveCopies(s, disk.store);
      UntouchedComposes(p, s, disk.store);
      SnapshotStaysOfEntry(p, s, disk.store, consistent);
      PreparesCompose(p, s, disk.store);
    }
  }

  lemma StagingPrepares(s: Store, t: Store)
    requires OnlyStaged(s, t)
    ensures OnlyPrepares(s, t)
  {
  }

  /** Everything a rollback needs is in place before the new build is moved in:
      the data's snapshot with copies to rename back, the rollback's records,
      and the previous components, which are moved last. A failure whose undo met no error leaves
      the previous components installed. */
  method PrepareUpdate(disk: Disk, includesWeb: bool, consistent: Bytes) returns (outcome: Outcome, restored: bool)
    requires Sound(disk.store) && NoSnapshot(disk.store) && NothingBackedUp(disk.store)
    modifies disk
    ensures Sound(disk.store) && OnlyPrepares(old(disk.store), disk.store)
    ensures outcome.Done? ==> AllMovedAside(old(disk.store), disk.store, includesWeb)
    ensures outcome.Done? ==> VersionNoted(old(disk.store), disk.store)
    ensures outcome.Done? ==> CopiesMatch(disk.store) && SnapshotOfEntry(old(disk.store), disk.store, consistent)
    ensures outcome.Failed? && restored ==> AllInPlace(old(disk.store), disk.store)
    ensures ComponentsUntouched(old(disk.store), disk.store)
         || (CopiesMatch(disk.store) && SnapshotOfEntry(old(disk.store), disk.store, consistent))
    ensures old(disk.plan) == [] ==> disk.plan == [] && outcome.Done?
  {
    ghost var p := disk.store;
    restored := true;
    outcome := SnapshotAndRecord(disk, consistent);
    ghost var t := disk.store;
    StillInPlace(p, t);
    StagedFromUntouched(p, t, t, includesWeb);
    if outcome.Done? {
      outcome, restored := StageInstalledFiles(disk, includesWeb);
      StagedFromUntouched(p, t, disk.store, includesWeb);
      StagingKeepsCopies(t, disk.store);
      SnapshotStaysOfEntry(p, t, disk.store, consistent);
      StagingPrepares(t, disk.store);
      PreparesCompose(p, t, disk.store);
    }
  }

  lemma StillInPlace(p: Store, s: Store)
    requires NothingBackedUp(p) && ComponentsUntouched(p, s)
    ensures AllInPlace(p, s)
  {
    assert ComponentPath(Installed(Server)) && ComponentPath(Installed(Web)) && ComponentPath(Installed(Version));
    assert ComponentPath(BackedUp(Server)) && ComponentPath(BackedUp(Web)) && ComponentPath(BackedUp(Version));
  }

  lemma RunningKeepsRecoverable(p: Store, s: Store, t: Store, includesWeb: bool)
    requires CopiesMatch(s) && AllRecoverable(p, s, includesWeb) && OnlySaving(s, t)
    ensures CopiesMatch(t) && AllRecoverable(p, t, includesWeb) && SnapshotKept(s, t)
    ensures forall name :: Look(t, Installed(name)) == Look(s, Installed(name))
  {
  }

  /** What a rollback of this update can count on, however far earlier ones came. */
  ghost predicate Underway(p: Store, s: Store, includesWeb: bool, consistent: Bytes) {
    Sound(s) && CopiesMatch(s) && AllRecoverable(p, s, includesWeb) && SnapshotOfEntry(p, s, consistent)
  }

  /** A rollback attempted, and whatever build runs after it. */
  datatype Attempted = Attempted(plan: seq<Fault>, stopped: bool, upgraded: bool, starts: bool, changes: seq<Change>)

  method Attempt(disk: Disk, includesWeb: bool, consistent: Bytes, attempt: Attempted, ghost p: Store)
    requires Underway(p, disk.store, includesWeb, consistent)
    modifies disk
    ensures Underway(p, disk.store, includesWeb, consistent)
  {
    ghost var s := disk.store;
    disk.plan := attempt.plan;
    var _, _, _ := RollbackUpdate(disk, includesWeb, attempt.stopped, attempt.upgraded, attempt.starts, p, p);
    SnapshotStaysOfEntry(p, s, disk.store, consistent);
    ghost var t := disk.store;
    BuildRuns(disk, attempt.changes);
    RunningKeepsRecoverable(p, t, disk.store, includesWeb);
    SnapshotStaysOfEntry(p, t, disk.store, consistent);
  }

  /** Put the new build in, and let it change its data as it likes. */
  method InstallAndRun(disk: Disk, includesWeb: bool, consistent: Bytes, starts: bool, changes: seq<Change>, ghost p: Store)
    returns (outcome: Outcome)
    requires Sound(disk.store) && CopiesMatch(disk.store) && SnapshotOfEntry(p, disk.store, consistent)
    requires AllMovedAside(p, disk.store, includesWeb) && VersionNoted(p, disk.store)
    modifies disk
    ensures Underway(p, disk.store, includesWeb, consistent)
    ensures old(disk.plan) == [] && WholePackage(old(disk.store)) ==>
      Restorable(p, disk.store, includesWeb)
      && Look(disk.store, Installed(Server)) == Look(old(disk.store), At(Package, Server))
  {
    ghost var s := disk.store;
    outcome := InstallPackage(disk, includesWeb, starts);
    ghost var t := disk.store;
    InstallingLeavesRecoverable(p, s, t, includesWeb);
    InstallingKeepsCopies(s, t, includesWeb);
    SnapshotStaysOfEntry(p, s, t, consistent);
    BuildRuns(disk, changes);
    RunningKeepsRecoverable(p, t, disk.store, includesWeb);
    SnapshotStaysOfEntry(p, t, disk.store, consistent);
  }

  predicate Smooth(preparing: seq<Fault>, installing: seq<Fault>, attempts: seq<Attempted>) {
    preparing == [] && installing == [] && attempts == []
  }

  /** An update prepared, its install steps stopped anywhere, any number of
      rollbacks stopped or failing anywhere, builds running and changing their
      data after each of these, and one rollback that meets no fault: the
      previous installation is back exactly if it was complete, and if the last
      rollback entered the data half, so is the data as the update found it. */
  method UpdateThenRollBack(disk: Disk, includesWeb: bool, consistent: Bytes, preparing: seq<Fault>,
                            installing: seq<Fault>, starts: bool, changes: seq<Change>,
                            attempts: seq<Attempted>, upgraded: bool)
    returns (prepared: bool, outcome: Outcome, entered: bool)
    requires Sound(disk.store) && NoSnapshot(disk.store) && NothingBackedUp(disk.store)
    modifies disk
    ensures prepared && outcome.Done? ==> GivenBack(old(disk.store), disk.store, includesWeb)
    ensures prepared && outcome.Done? ==> (AllReturned(old(disk.store), disk.store) <==> Complete(old(disk.store), includesWeb))
    ensures prepared && outcome.Done? && entered ==> DataReturned(old(disk.store), disk.store, consistent)
    ensures prepared && upgraded ==> entered
    ensures prepared && Complete(old(disk.store), includesWeb) ==> outcome.Done?
    ensures preparing == [] ==> prepared
    ensures Smooth(preparing, installing, attempts) && WholePackage(old(disk.store)) ==> outcome.Done?
    ensures Smooth(preparing, installing, attempts) && WholePackage(old(disk.store))
      && Look(old(disk.store), Installed(Server)) == Absent
      ==> Look(disk.store, Installed(Server)) == Look(old(disk.store), At(Package, Server))
  {
    ghost var p := disk.store;
    disk.plan := preparing;
    var restored;
    entered := false;
    outcome, restored := PrepareUpdate(disk, includesWeb, consistent);
    if !outcome.Done? {
      return false, outcome, false;
    }
    prepared := true;
    disk.plan := installing;
    outcome := InstallAndRun(disk, includesWeb, consistent, starts, changes, p);
    ghost var t := disk.store;
    for i := 0 to |attempts|
      invariant Underway(p, disk.store, includesWeb, consistent)
      invariant attempts == [] ==> disk.store == t
    {
      Attempt(disk, includesWeb, consistent, attempts[i], p);
    }
    outcome, entered := LastRollback(disk, includesWeb, consistent, upgraded, p);
  }

  /** The rollback that meets no fault. */
  method LastRollback(disk: Disk, includesWeb: bool, consistent: Bytes, upgraded: bool, ghost p: Store)
    returns (outcome: Outcome, entered: bool)
    requires Underway(p, disk.store, includesWeb, consistent)
    modifies disk
    ensures outcome.Done? ==> GivenBack(p, disk.store, includesWeb)
    ensures outcome.Done? ==> (AllReturned(p, disk.store) <==> Complete(p, includesWeb))
    ensures outcome.Done? && entered ==> DataReturned(p, disk.store, consistent)
    ensures upgraded ==> entered
    ensures Restorable(p, old(disk.store), includesWeb) ==> outcome.Done?
    ensures outcome.Done? && Look(p, Installed(Server)) == Absent
      ==> Look(disk.store, Installed(Server)) == Look(old(disk.store), Installed(Server))
  {
    ghost var s := disk.store;
    disk.plan := [];
    ghost var began;
    outcome, entered, began := RollbackUpdate(disk, includesWeb, true, upgraded, true, p, p);
    if outcome.Done? {
      AllReturnedIffComplete(p, disk.store, includesWeb);
      if entered {
        RestoredReturnsData(p, s, disk.store, consistent);
      }
    }
  }

  /** A package to install, and no server, web bundle or VERSION.txt before it. */
  function BareInstallation(): Store {
    Store(map[At(Package, Server) := 0, At(Package, Web) := 1, At(Package, Version) := 2],
          map[0 := [1], 1 := [2], 2 := [3]], 3, false)
  }

  lemma BareIsReal()
    ensures Sound(BareInstallation()) && NoSnapshot(BareInstallation()) && NothingBackedUp(BareInstallation())
    ensures WholePackage(BareInstallation()) && Look(BareInstallation(), Installed(Server)) == Absent
  {
  }

  /** There the update, failing to start and rolled back without a fault, leaves
      the new server behind; the absent VERSION.txt is absent again. */
  method NewServerStays() returns (s: Store)
    ensures Look(s, Installed(Server)) == Look(BareInstallation(), At(Package, Server))
    ensures !AllReturned(BareInstallation(), s) && Returned(BareInstallation(), s, Version)
  {
    BareIsReal();
    var disk := new Disk(BareInstallation(), []);
    var _, _, _ := UpdateThenRollBack(disk, true, [], [], [], false, [], [], false);
    s := disk.store;
  }
}
