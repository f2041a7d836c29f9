/** The part of a file system the launcher's update and rollback rely on:
    renames, hard links and removals that happen whole or not at all, copies
    that can stop halfway, and a process that can be killed before any of them. */
module Files {
  import opened Common

  type Bytes = seq<nat>

  /** Saved is the folder that collects the failed build's data. It is one
      folder under two names: `failed-data.partial` until Store.kept, then
      `failed-data`. */
  datatype Dir = Install | Package | Data | Backup | Snapshot | Prepared | Saved

  datatype Name =
    | Server | Web | Version | NoVersion | RestorePending | RestoreRequired
    | Database | Identities | WriteAheadLog | SharedMemory
    | DatabaseRestoring | IdentitiesRestoring

  datatype Path = At(dir: Dir, name: Name)

  /** Two paths are hard links of one file exactly when they hold one inode.
      A folder such as `web` is one entry whose bytes stand for its tree. */
  datatype Store = Store(files: map<Path, nat>, contents: map<nat, Bytes>, next: nat, kept: bool)

  datatype Entry = Absent | File(inode: nat, bytes: Bytes)

  /** What one operation meets: success, an error, or the process dying.
      An operation that is not atomic may leave `torn` behind, or nothing. */
  datatype Fault = Fine | Fail(torn: Option<Bytes>) | Halt(torn: Option<Bytes>)

  datatype Outcome = Done | Failed | Halted

  /** What the first of the operations to come meets, and what the others do. */
  function First(plan: seq<Fault>): Fault {
    if plan == [] then Fine else plan[0]
  }

  function Rest(plan: seq<Fault>): seq<Fault> {
    if plan == [] then [] else plan[1..]
  }

  /** How many of them meet an error. */
  function Errors(plan: seq<Fault>): nat {
    if plan == [] then 0 else (if plan[0].Fail? then 1 else 0) + Errors(plan[1..])
  }

  lemma ErrorsMet(plan: seq<Fault>)
    ensures Errors(plan) == Errors(Rest(plan)) + if First(plan).Fail? then 1 else 0
  {
  }

  function Meets(fault: Fault): Outcome {
    match fault
    case Fine => Done
    case Fail(_) => Failed
    case Halt(_) => Halted
  }

  function Look(s: Store, p: Path): Entry {
    if p in s.files && s.files[p] in s.contents
    then File(s.files[p], s.contents[s.files[p]])
    else Absent
  }

  /** The data files that are ever hard-linked. */
  predicate Linkable(p: Path) {
    (p.name == Database || p.name == Identities) && (p.dir == Data || p.dir == Saved)
  }

  predicate MayShare(p: Path, q: Path) {
    p == q || (Linkable(p) && Linkable(q) && p.name == q.name)
  }

  ghost predicate Stored(s: Store) {
    forall p :: p in s.files ==> s.files[p] < s.next && s.files[p] in s.contents
  }

  ghost predicate Unshared(s: Store) {
    forall p, q :: p in s.files && q in s.files && s.files[p] == s.files[q] ==> MayShare(p, q)
  }

  /** A live data file and the one kept of it may be links of one file; no
      other two paths are. */
  ghost predicate Sound(s: Store) {
    Stored(s) && Unshared(s)
  }

  /** No other path is a link of the file at p. */
  ghost predicate Alone(s: Store, p: Path) {
    forall q :: q != p && Look(s, q).File? ==> Look(s, p) == Absent || Look(s, p).inode != Look(s, q).inode
  }

  /** From s to t, `to` took the place of `from` and nothing else changed. */
  ghost predicate Moved(s: Store, t: Store, from: Path, to: Path) {
    t.kept == s.kept
    && forall p :: Look(t, p) == if p == to then Look(s, from) else if p == from then Absent else Look(s, p)
  }

  ghost predicate Linked(s: Store, t: Store, from: Path, to: Path) {
    t.kept == s.kept
    && forall p :: Look(t, p) == if p == to then Look(s, from) else Look(s, p)
  }

  ghost predicate Removed(s: Store, t: Store, gone: Path) {
    t.kept == s.kept
    && forall p :: Look(t, p) == if p == gone then Absent else Look(s, p)
  }

  /** Only the file at `at` changed, and no other path reaches it. */
  ghost predicate OnlyAt(s: Store, t: Store, at: Path) {
    t.kept == s.kept
    && forall p :: p != at ==> Look(t, p) == Look(s, p)
  }

  ghost predicate Overwritten(s: Store, t: Store, at: Path, bytes: Bytes) {
    OnlyAt(s, t, at) && Alone(t, at) && Look(t, at).File? && Look(t, at).bytes == bytes
  }

  lemma UnlinkableIsAlone(s: Store, p: Path)
    requires Sound(s) && !Linkable(p)
    ensures Alone(s, p)
  {
  }

  /** Where a rename carries the links of `from` to a path allowed to share. */
  predicate CanMove(s: Store, from: Path, to: Path) {
    from != to && (!Linkable(from) || (Linkable(to) && from.name == to.name && to !in s.files))
  }

  /** POSIX leaves both names when they are links of one file. */
  function Renamed(s: Store, from: Path, to: Path): Store
    requires from in s.files
  {
    if to in s.files && s.files[to] == s.files[from] then s
    else s.(files := (s.files - {from})[to := s.files[from]])
  }

  lemma RenameMoves(s: Store, from: Path, to: Path)
    requires Sound(s) && from in s.files && CanMove(s, from, to)
    ensures Sound(Renamed(s, from, to)) && Moved(s, Renamed(s, from, to), from, to)
  {
    var t := Renamed(s, from, to);
    assert to in s.files ==> !MayShare(to, from);
    assert Unshared(t) by {
      forall p, q | p in t.files && q in t.files && t.files[p] == t.files[q]
        ensures MayShare(p, q)
      {
        assert MayShare(if p == to then from else p, if q == to then from else q);
      }
    }
  }

  function WithLink(s: Store, from: Path, to: Path): Store
    requires from in s.files
  {
    s.(files := s.files[to := s.files[from]])
  }

  lemma LinkShares(s: Store, from: Path, to: Path)
    requires Sound(s) && from in s.files && to !in s.files && MayShare(from, to)
    ensures Sound(WithLink(s, from, to)) && Linked(s, WithLink(s, from, to), from, to)
  {
    var t := WithLink(s, from, to);
    assert Unshared(t) by {
      forall p, q | p in t.files && q in t.files && t.files[p] == t.files[q]
        ensures MayShare(p, q)
      {
        assert MayShare(if p == to then from else p, if q == to then from else q);
      }
    }
  }

  /** Writing opens an existing file in place and otherwise makes a new one. */
  function Written(s: Store, at: Path, bytes: Bytes): Store {
    if at in s.files then s.(contents := s.contents[s.files[at] := bytes])
    else s.(files := s.files[at := s.next], contents := s.contents[s.next := bytes], next := s.next + 1)
  }

  lemma WriteOverwrites(s: Store, at: Path, bytes: Bytes)
    requires Sound(s) && Alone(s, at)
    ensures Sound(Written(s, at, bytes)) && Overwritten(s, Written(s, at, bytes), at, bytes)
  {
    forall p | p != at
      ensures Look(Written(s, at, bytes), p) == Look(s, p)
    {
      assert Look(s, p).File? ==> p in s.files;
    }
  }

  /** A file in the data folder may be a link of one that was saved. */
  lemma WriteReachesLinks(s: Store, at: Path, bytes: Bytes)
    requires Sound(s) && at.dir == Data
    ensures Sound(Written(s, at, bytes))
    ensures forall p: Path :: p.dir != Data && p.dir != Saved ==> Look(Written(s, at, bytes), p) == Look(s, p)
  {
    forall p: Path | p.dir != Data && p.dir != Saved
      ensures Look(Written(s, at, bytes), p) == Look(s, p)
    {
      assert !MayShare(p, at);
    }
  }

  function Without(s: Store, gone: Path): Store {
    s.(files := s.files - {gone})
  }

  /** The folder that collects the failed build's data takes its final name. */
  function Adopted(s: Store): Store {
    s.(kept := true)
  }

  class Disk {
    var store: Store
    var plan: seq<Fault>   // what the operations to come will meet; nothing goes wrong after it

    constructor (store: Store, plan: seq<Fault>)
      ensures this.store == store && this.plan == plan
    {
      this.store, this.plan := store, plan;
    }

    /** What the next operation meets. */
    method Meet() returns (fault: Fault)
      modifies this`plan
      ensures fault == First(old(plan)) && plan == Rest(old(plan))
    {
      fault := Fine;
      if plan != [] {
        fault := plan[0];
        plan := plan[1..];
      }
    }

    /** An operation that only makes earlier ones lasting, such as a sync. */
    method Attempt() returns (outcome: Outcome)
      modifies this`plan
      ensures outcome == Meets(First(old(plan))) && plan == Rest(old(plan))
      ensures old(plan) == [] ==> outcome.Done? && plan == []
    {
      var fault := Meet();
      outcome := Meets(fault);
    }

    method Rename(from: Path, to: Path) returns (outcome: Outcome)
      requires Sound(store) && CanMove(store, from, to)
      modifies this
      ensures Sound(store)
      ensures outcome.Done? ==> Look(old(store), from).File? && Moved(old(store), store, from, to)
      ensures !outcome.Done? ==> store == old(store)
      ensures plan == Rest(old(plan)) && (!First(old(plan)).Fine? ==> outcome == Meets(First(old(plan))))
      ensures First(old(plan)).Fine? ==> outcome == if Look(old(store), from).File? then Done else Failed
      ensures old(plan) == [] ==> plan == [] && outcome == (if Look(old(store), from).File? then Done else Failed)
    {
      outcome := Attempt();
      if outcome.Done? {
        if from in store.files {
          RenameMoves(store, from, to);
          store := Renamed(store, from, to);
        } else {
          outcome := Failed;
        }
      }
    }

    /** Fails on a volume without hard links, as it does when `to` exists. */
    method HardLink(from: Path, to: Path) returns (outcome: Outcome)
      requires Sound(store) && MayShare(from, to)
      modifies this
      ensures Sound(store)
      ensures outcome.Done? ==> Look(old(store), from).File? && Linked(old(store), store, from, to)
      ensures !outcome.Done? ==> store == old(store)
      ensures plan == Rest(old(plan)) && (!First(old(plan)).Fine? ==> outcome == Meets(First(old(plan))))
      ensures First(old(plan)).Fine? ==> outcome == if from in old(store).files && to !in old(store).files then Done else Failed
      ensures old(plan) == [] ==> plan == [] && !outcome.Halted?
    {
      outcome := Attempt();
      if outcome.Done? {
        if from in store.files && to !in store.files {
          LinkShares(store, from, to);
          store := WithLink(store, from, to);
        } else {
          outcome := Failed;
        }
      }
    }

    /** Copying or writing is not atomic: an error or a stop may leave a torn file. */
    method Write(at: Path, bytes: Bytes) returns (outcome: Outcome)
      requires Sound(store) && Alone(store, at)
      modifies this
      ensures Sound(store) && OnlyAt(old(store), store, at)
      ensures outcome.Done? ==> Overwritten(old(store), store, at, bytes)
      ensures plan == Rest(old(plan)) && outcome == Meets(First(old(plan)))
      ensures !outcome.Done? && First(old(plan)).torn.None? ==> store == old(store)
      ensures old(plan) == [] ==> plan == [] && outcome.Done?
    {
      var fault := Meet();
      var left := if fault.Fine? then Some(bytes) else fault.torn;
      if left.Some? {
        WriteOverwrites(store, at, left.value);
        store := Written(store, at, left.value);
      }
      outcome := Meets(fault);
    }

    /** What a running build does, which no plan of the launcher's covers. */
    method BuildWrites(at: Path, bytes: Bytes)
      requires Sound(store) && at.dir == Data
      modifies this`store
      ensures Sound(store) && store == Written(old(store), at, bytes)
      ensures forall p: Path :: p.dir != Data && p.dir != Saved ==> Look(store, p) == Look(old(store), p)
      ensures Alone(old(store), at) ==> Overwritten(old(store), store, at, bytes)
    {
      WriteReachesLinks(store, at, bytes);
      if Alone(store, at) {
        WriteOverwrites(store, at, bytes);
      }
      store := Written(store, at, bytes);
    }

    method BuildRemoves(gone: Path)
      requires Sound(store)
      modifies this`store
      ensures Sound(store) && Removed(old(store), store, gone)
    {
      store := Without(store, gone);
    }

    method Copy(from: Path, to: Path) returns (outcome: Outcome)
      requires Sound(store) && Alone(store, to) && from != to
      modifies this
      ensures Sound(store) && OnlyAt(old(store), store, to)
      ensures outcome.Done? ==>
        Look(old(store), from).File? && Overwritten(old(store), store, to, Look(old(store), from).bytes)
      ensures old(plan) == [] ==> plan == [] && outcome == (if Look(old(store), from).File? then Done else Failed)
    {
      if from in store.files {
        outcome := Write(to, store.contents[store.files[from]]);
      } else {
        var _ := Meet();
        outcome := Failed;
      }
    }

    method RemoveFile(gone: Path) returns (outcome: Outcome)
      requires Sound(store)
      modifies this
      ensures Sound(store)
      ensures outcome.Done? ==> Removed(old(store), store, gone)
      ensures !outcome.Done? ==> store == old(store)
      ensures old(plan) == [] ==> plan == [] && outcome.Done?
    {
      outcome := Attempt();
      if outcome.Done? {
        store := Without(store, gone);
      }
    }

    /** Removing a folder takes its files one by one, so an error or a stop
        can leave part of it. */
    method RemoveTree(gone: Path) returns (outcome: Outcome)
      requires Sound(store) && Alone(store, gone)
      modifies this
      ensures Sound(store) && OnlyAt(old(store), store, gone)
      ensures outcome.Done? ==> Removed(old(store), store, gone)
      ensures old(plan) == [] ==> plan == [] && outcome.Done?
    {
      var fault := Meet();
      if fault.Fine? {
        store := Without(store, gone);
        outcome := Done;
      } else {
        if gone in store.files && fault.torn.Some? {
          WriteOverwrites(store, gone, fault.torn.value);
          store := Written(store, gone, fault.torn.value);
        }
        outcome := Meets(fault);
      }
    }

    method Adopt() returns (outcome: Outcome)
      requires Sound(store)
      modifies this
      ensures Sound(store)
      ensures store == if outcome.Done? then Adopted(old(store)) else old(store)
      ensures plan == Rest(old(plan)) && outcome == Meets(First(old(plan)))
      ensures old(plan) == [] ==> plan == [] && outcome.Done?
    {
      outcome := Attempt();
      if outcome.Done? {
        store := Adopted(store);
      }
    }

    /** Nothing to remove is not an error. */
    method RemoveIfExists(gone: Path) returns (outcome: Outcome)
      requires Sound(store) && Alone(store, gone)
      modifies this
      ensures Sound(store) && OnlyAt(old(store), store, gone)
      ensures gone.name != Web && !outcome.Done? ==> store == old(store)
      ensures outcome.Done? ==> Removed(old(store), store, gone)
      ensures old(plan) == [] ==> plan == [] && outcome.Done?
    {
      if gone !in store.files {
        outcome := Done;
      } else if gone.name == Web {
        outcome := RemoveTree(gone);
      } else {
        outcome := RemoveFile(gone);
      }
    }

    method MoveIfExists(from: Path, to: Path) returns (outcome: Outcome)
      requires Sound(store) && CanMove(store, from, to)
      modifies this
      ensures Sound(store)
      ensures outcome.Done? ==>
        if Look(old(store), from).File? then Moved(old(store), store, from, to) else store == old(store)
      ensures !outcome.Done? ==> store == old(store)
      ensures old(plan) == [] ==> plan == [] && outcome.Done?
    {
      if from !in store.files {
        outcome := Done;
      } else {
        outcome := Rename(from, to);
      }
    }

    method MoveRequired(from: Path, to: Path) returns (outcome: Outcome)
      requires Sound(store) && CanMove(store, from, to)
      modifies this
      ensures Sound(store)
      ensures outcome.Done? ==> Look(old(store), from).File? && Moved(old(store), store, from, to)
      ensures !outcome.Done? ==> store == old(store)
      ensures old(plan) == [] ==> plan == [] && (outcome.Done? <==> Look(old(store), from).File?)
    {
      if from !in store.files {
        outcome := Failed;
      } else {
        outcome := MoveIfExists(from, to);
      }
    }
  }
}
