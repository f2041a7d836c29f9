/** Swapping the installed server, web bundle and VERSION.txt for an update's,
    and putting them back: apps/launcher/src/main.rs, stage_installed_files,
    the install steps of apply_update_inner, rollback_update and
    restore_backed_up. */
module Staging {
  import opened Files

  const COMPONENTS := [Server, Web, Version]
  const NO_VERSION := At(Backup, NoVersion)

  predicate Component(name: Name) {
    name == Server || name == Web || name == Version
  }

  predicate Included(name: Name, includesWeb: bool) {
    name != Web || includesWeb
  }

  /** Where a component is before staging or after it. */
  predicate ComponentPath(q: Path) {
    (q.dir == Install || q.dir == Backup) && Component(q.name)
  }

  function Installed(name: Name): Path {
    At(Install, name)
  }

  function BackedUp(name: Name): Path {
    At(Backup, name)
  }

  // Throughout, p is the disk before staging began.

  predicate InPlace(p: Store, s: Store, name: Name) {
    Look(s, Installed(name)) == Look(p, Installed(name)) && Look(s, BackedUp(name)) == Absent
  }

  predicate MovedAside(p: Store, s: Store, name: Name) {
    Look(s, Installed(name)) == Absent && Look(s, BackedUp(name)) == Look(p, Installed(name))
  }

  /** Only the components and the note about VERSION.txt may have changed. */
  ghost predicate OnlyStaged(s: Store, t: Store) {
    t.kept == s.kept
    && forall q: Path :: !(ComponentPath(q) || q == NO_VERSION) ==> Look(t, q) == Look(s, q)
  }

  /** Each component is whole in exactly one of the two places. */
  ghost predicate Conserved(p: Store, s: Store) {
    OnlyStaged(p, s)
    && (InPlace(p, s, Server) || MovedAside(p, s, Server))
    && (InPlace(p, s, Web) || MovedAside(p, s, Web))
    && (InPlace(p, s, Version) || MovedAside(p, s, Version))
  }

  predicate AllInPlace(p: Store, s: Store) {
    InPlace(p, s, Server) && InPlace(p, s, Web) && InPlace(p, s, Version)
  }

  predicate AllMovedAside(p: Store, s: Store, includesWeb: bool) {
    MovedAside(p, s, Server) && MovedAside(p, s, Version)
    && if includesWeb then MovedAside(p, s, Web) else InPlace(p, s, Web)
  }

  /** The marker says that there was no VERSION.txt to move aside. */
  predicate VersionNoted(p: Store, s: Store) {
    Look(s, NO_VERSION).File? <==> Look(p, Installed(Version)) == Absent
  }

  predicate NothingBackedUp(p: Store) {
    Look(p, BackedUp(Server)) == Absent && Look(p, BackedUp(Web)) == Absent
    && Look(p, BackedUp(Version)) == Absent && Look(p, NO_VERSION) == Absent
  }

  ghost predicate OnlyComponent(s: Store, t: Store, name: Name) {
    t.kept == s.kept
    && forall q :: q != Installed(name) && q != BackedUp(name) ==> Look(t, q) == Look(s, q)
  }

  lemma OnlyComponentSparesOthers(p: Store, s: Store, t: Store, name: Name, other: Name)
    requires OnlyComponent(s, t, name) && other != name
    ensures InPlace(p, s, other) == InPlace(p, t, other)
    ensures MovedAside(p, s, other) == MovedAside(p, t, other)
  {
  }

  lemma ConservedNext(p: Store, s: Store, t: Store, name: Name)
    requires Component(name) && Conserved(p, s) && OnlyComponent(s, t, name)
    requires InPlace(p, t, name) || MovedAside(p, t, name)
    ensures Conserved(p, t)
  {
  }

  /** The journal of what has been moved aside: all of it and nothing else. */
  ghost predicate Journal(p: Store, s: Store, moved: seq<Name>) {
    OnlyStaged(p, s)
    && Journaled(p, s, moved, Server) && Journaled(p, s, moved, Web) && Journaled(p, s, moved, Version)
  }

  predicate Journaled(p: Store, s: Store, moved: seq<Name>, name: Name) {
    if name in moved then MovedAside(p, s, name) && Look(p, Installed(name)).File? else InPlace(p, s, name)
  }

  lemma JournalIsConserved(p: Store, s: Store, moved: seq<Name>)
    requires Journal(p, s, moved)
    ensures Conserved(p, s)
  {
  }

  lemma JournalNext(p: Store, s: Store, t: Store, moved: seq<Name>, name: Name)
    requires Component(name) && Journal(p, s, moved) && OnlyComponent(s, t, name)
    requires MovedAside(p, t, name) && Look(p, Installed(name)).File?
    ensures Journal(p, t, moved + [name])
  {
    assert name in moved + [name];
  }

  /** One turn of the staging loop, for a component that is installed. */
  method StageOne(disk: Disk, name: Name, moved: seq<Name>, ghost p: Store) returns (outcome: Outcome)
    requires Component(name) && name !in moved && Sound(disk.store)
    requires Journal(p, disk.store, moved) && VersionNoted(p, disk.store)
    requires Look(disk.store, Installed(name)).File?
    modifies disk
    ensures Sound(disk.store) && VersionNoted(p, disk.store)
    ensures Journal(p, disk.store, if outcome.Done? then moved + [name] else moved)
    ensures old(disk.plan) == [] ==> disk.plan == [] && outcome.Done?
  {
    ghost var s := disk.store;
    outcome := disk.MoveRequired(Installed(name), BackedUp(name));
    if outcome.Done? {
      JournalNext(p, s, disk.store, moved, name);
    }
  }

  method UndoOne(disk: Disk, name: Name, ghost p: Store) returns (outcome: Outcome)
    requires Component(name) && Sound(disk.store) && Conserved(p, disk.store)
    requires MovedAside(p, disk.store, name) && Look(p, Installed(name)).File?
    modifies disk
    ensures Sound(disk.store) && Conserved(p, disk.store) && OnlyComponent(old(disk.store), disk.store, name)
    ensures outcome.Done? ==> InPlace(p, disk.store, name)
    ensures !outcome.Done? ==> disk.store == old(disk.store)
    ensures old(disk.plan) == [] ==> disk.plan == [] && outcome.Done?
  {
    ghost var s := disk.store;
    outcome := disk.MoveRequired(BackedUp(name), Installed(name));
    if outcome.Done? {
      ConservedNext(p, s, disk.store, name);
    }
  }

  predicate AllComponents(names: seq<Name>) {
    (forall i :: 0 <= i < |names| ==> Component(names[i]))
    && forall i, j :: 0 <= i < j < |names| ==> names[i] != names[j]
  }

  /** Where the undo stands with `left` of the journal to go. */
  ghost predicate Undoing(p: Store, s: Store, moved: seq<Name>, left: nat, restored: bool) {
    left <= |moved| && Sound(s) && Conserved(p, s)
    && (forall k :: 0 <= k < left ==> MovedAside(p, s, moved[k]))
    && (restored ==> forall k :: left <= k < |moved| ==> InPlace(p, s, moved[k]))
    && forall name :: Component(name) && name !in moved ==> InPlace(p, s, name)
  }

  lemma UndoingNext(p: Store, s: Store, t: Store, moved: seq<Name>, left: nat, restored: bool, done: bool)
    requires 0 < left && AllComponents(moved) && Undoing(p, s, moved, left, restored)
    requires Sound(t) && Conserved(p, t) && OnlyComponent(s, t, moved[left - 1]) && (done ==> InPlace(p, t, moved[left - 1]))
    ensures Undoing(p, t, moved, left - 1, restored && done)
  {
    forall other | other != moved[left - 1]
      ensures InPlace(p, s, other) == InPlace(p, t, other) && MovedAside(p, s, other) == MovedAside(p, t, other)
    {
      OnlyComponentSparesOthers(p, s, t, moved[left - 1], other);
    }
  }

  /** The journal is undone newest first; one component that cannot be put back
      does not stop the others. */
  method UndoStaging(disk: Disk, moved: seq<Name>, ghost p: Store) returns (stopped: bool, restored: bool)
    requires Sound(disk.store) && AllComponents(moved) && Journal(p, disk.store, moved)
    modifies disk
    ensures Sound(disk.store) && Conserved(p, disk.store)
    ensures restored && !stopped ==> AllInPlace(p, disk.store)
    ensures Look(disk.store, NO_VERSION) == Look(old(disk.store), NO_VERSION)
    ensures old(disk.plan) == [] ==> disk.plan == [] && !stopped && restored
  {
    JournalIsConserved(p, disk.store, moved);
    stopped, restored := false, true;
    var left: nat := |moved|;
    while left > 0
      invariant !stopped && Undoing(p, disk.store, moved, left, restored)
      invariant Look(disk.store, NO_VERSION) == Look(old(disk.store), NO_VERSION)
      invariant old(disk.plan) == [] ==> disk.plan == [] && restored
    {
      ghost var s := disk.store;
      assert NO_VERSION != Installed(moved[left - 1]) && NO_VERSION != BackedUp(moved[left - 1]);
      var outcome := UndoOne(disk, moved[left - 1], p);
      if outcome.Halted? {
        return true, false;
      }
      UndoingNext(p, s, disk.store, moved, left, restored, outcome.Done?);
      restored := restored && outcome.Done?;
      left := left - 1;
    }
  }

  /** Recorded before anything moves, so that failing here leaves the
      installation as it was. */
  method NoteMissingVersion(disk: Disk) returns (outcome: Outcome)
    requires Sound(disk.store) && Look(disk.store, NO_VERSION) == Absent
    modifies disk
    ensures Sound(disk.store) && OnlyAt(old(disk.store), disk.store, NO_VERSION)
    ensures outcome.Done? ==> VersionNoted(old(disk.store), disk.store)
    ensures old(disk.plan) == [] ==> disk.plan == [] && outcome.Done?
  {
    outcome := disk.Attempt(); // create_dir_all
    if outcome.Done? && Installed(Version) !in disk.store.files {
      UnlinkableIsAlone(disk.store, NO_VERSION);
      outcome := disk.Write(NO_VERSION, []);
    }
  }

  lemma NothingMovedYet(p: Store, s: Store)
    requires NothingBackedUp(p) && OnlyAt(p, s, NO_VERSION)
    ensures Journal(p, s, []) && Conserved(p, s)
  {
  }

  predicate Handled(p: Store, moved: seq<Name>, name: Name, includesWeb: bool) {
    name in moved <==> Included(name, includesWeb) && Look(p, Installed(name)).File?
  }

  /** Where staging stands when the first i components are handled. */
  ghost predicate StagedUpTo(p: Store, s: Store, moved: seq<Name>, i: nat, includesWeb: bool)
    requires i <= |COMPONENTS|
  {
    Sound(s) && AllComponents(moved) && Journal(p, s, moved) && VersionNoted(p, s)
    && (forall k :: 0 <= k < i ==> Handled(p, moved, COMPONENTS[k], includesWeb))
    && forall k :: i <= k < |COMPONENTS| ==> COMPONENTS[k] !in moved
  }

  lemma StagingSkips(p: Store, s: Store, moved: seq<Name>, i: nat, includesWeb: bool)
    requires i < |COMPONENTS| && StagedUpTo(p, s, moved, i, includesWeb)
    requires !Included(COMPONENTS[i], includesWeb) || Look(s, Installed(COMPONENTS[i])) == Absent
    ensures StagedUpTo(p, s, moved, i + 1, includesWeb)
  {
  }

  lemma StagingMoves(p: Store, s: Store, t: Store, moved: seq<Name>, i: nat, includesWeb: bool)
    requires i < |COMPONENTS| && StagedUpTo(p, s, moved, i, includesWeb) && Included(COMPONENTS[i], includesWeb)
    requires Sound(t) && VersionNoted(p, t) && Journal(p, t, moved + [COMPONENTS[i]])
    ensures StagedUpTo(p, t, moved + [COMPONENTS[i]], i + 1, includesWeb)
  {
    var name := COMPONENTS[i];
    assert name in moved + [name];
    assert forall other :: other in moved + [name] <==> other in moved || other == name;
    assert Journaled(p, t, moved + [name], name);
  }

  lemma StagingIsComplete(p: Store, s: Store, moved: seq<Name>, includesWeb: bool)
    requires StagedUpTo(p, s, moved, |COMPONENTS|, includesWeb)
    ensures AllMovedAside(p, s, includesWeb) && Conserved(p, s)
  {
    assert Handled(p, moved, COMPONENTS[0], includesWeb) && Handled(p, moved, COMPONENTS[1], includesWeb);
    assert Handled(p, moved, COMPONENTS[2], includesWeb);
    JournalIsConserved(p, s, moved);
  }

  /** Either every installed component this update replaces is moved aside, or
      staging fails; when it fails and its undo met no error the installation
      is as it was. Stopped anywhere, no component is lost or in both places.
      `restored` says that no error was met while undoing. */
  method StageInstalledFiles(disk: Disk, includesWeb: bool) returns (outcome: Outcome, restored: bool)
    requires Sound(disk.store) && NothingBackedUp(disk.store)
    modifies disk
    ensures Sound(disk.store) && Conserved(old(disk.store), disk.store)
    ensures outcome.Done? ==> AllMovedAside(old(disk.store), disk.store, includesWeb)
    ensures outcome.Done? ==> VersionNoted(old(disk.store), disk.store)
    ensures outcome.Failed? && restored ==> AllInPlace(old(disk.store), disk.store)
    ensures VersionNoted(old(disk.store), disk.store) || AllInPlace(old(disk.store), disk.store)
    ensures old(disk.plan) == [] ==> disk.plan == [] && outcome.Done?
  {
    ghost var p := disk.store;
    restored := true;
    outcome := NoteMissingVersion(disk);
    NothingMovedYet(p, disk.store);
    if !outcome.Done? {
      return;
    }
    var moved: seq<Name> := [];
    for i := 0 to |COMPONENTS|
      invariant outcome.Done? && restored
      invariant StagedUpTo(p, disk.store, moved, i, includesWeb)
      invariant old(disk.plan) == [] ==> disk.plan == []
    {
      var name := COMPONENTS[i];
      ghost var s := disk.store;
      if (name == Web && !includesWeb) || Installed(name) !in disk.store.files {
        StagingSkips(p, s, moved, i, includesWeb);
        continue;
      }
      outcome := StageOne(disk, name, moved, p);
      if outcome.Failed? {
        var stopped;
        stopped, restored := UndoStaging(disk, moved, p);
        if stopped {
          outcome := Halted;
        }
        return;
      }
      if outcome.Halted? {
        JournalIsConserved(p, disk.store, moved);
        return;
      }
      StagingMoves(p, s, disk.store, moved, i, includesWeb);
      moved := moved + [name];
    }
    StagingIsComplete(p, disk.store, moved, includesWeb);
  }
}
