/** The catalogue spool: a listing kept in memory until it outgrows a small
    buffer and in a file from then on, under an aggregate cap and a cap per
    item. It behaves as one capped byte sequence. */
module Spool {
  import opened Common

  type Bytes = seq<bv8>

  datatype Caps = Caps(total: nat, item: nat)

  /** The capped byte sequence: what has been accepted, and the item being counted. */
  datatype Listing = Listing(body: Bytes, itemStart: nat, inItem: bool) {
    predicate Within(caps: Caps) {
      && itemStart <= |body| <= caps.total
      && (inItem ==> |body| - itemStart <= caps.item)
    }

    /** A chunk fits the aggregate budget, and the item's when one is open. */
    predicate Fits(chunk: Bytes, caps: Caps) {
      && |body| + |chunk| <= caps.total
      && (inItem ==> |body| + |chunk| <= itemStart + caps.item)
    }
  }

  datatype Op = Begin | Finish | Put(chunk: Bytes)
  datatype Outcome = Done | TooLarge | DiskError

  /** One operation on the capped sequence: a chunk goes in whole or not at all. */
  function Apply(l: Listing, op: Op, caps: Caps): (Listing, Outcome) {
    match op
    case Begin => (l.(itemStart := |l.body|, inItem := true), Done)
    case Finish => (l.(inItem := false), if |l.body| - l.itemStart > caps.item then TooLarge else Done)
    case Put(chunk) => if l.Fits(chunk, caps) then (l.(body := l.body + chunk), Done) else (l, TooLarge)
  }

  /** A chunk is refused exactly if with it the listing would break a budget. */
  lemma RefusedIffOverBudget(l: Listing, chunk: Bytes, caps: Caps)
    requires l.Within(caps)
    ensures Apply(l, Put(chunk), caps).1 == Done <==> l.(body := l.body + chunk).Within(caps)
  {
  }

  function ApplyAll(l: Listing, ops: seq<Op>, caps: Caps): (r: (Listing, seq<Outcome>))
    ensures |r.1| == |ops|
  {
    if ops == [] then (l, [])
    else
      var (before, outcomes) := ApplyAll(l, ops[..|ops| - 1], caps);
      var (after, outcome) := Apply(before, ops[|ops| - 1], caps);
      (after, outcomes + [outcome])
  }

  /** What the file system does during one write. */
  datatype Disk = Works | NoTempFile | SpillFails | AppendFails(written: nat)

  class CatalogueSpool {
    const caps: Caps
    const memoryLimit: nat
    var memory: Bytes
    var file: Option<Bytes>
    var bytes: nat
    var itemStart: nat
    var inItem: bool
    var ceiling: nat
    /** The bytes hashed so far: those handed to the file. */
    var digest: Bytes

    ghost predicate Valid()
      reads this
    {
      && itemStart <= bytes <= caps.total && (inItem ==> bytes - itemStart <= caps.item)
      && ceiling == Ceiling()
      && match file
         case None => |memory| == bytes <= memoryLimit && digest == []
         case Some(content) => memory == [] && content == digest && |content| == bytes
    }

    function Ceiling(): nat
      reads this
    {
      if inItem && itemStart + caps.item < caps.total then itemStart + caps.item else caps.total
    }

    /** Everything accepted so far. */
    function Body(): Bytes
      reads this
    {
      if file.Some? then file.value else memory
    }

    ghost function View(): Listing
      reads this
    {
      Listing(Body(), itemStart, inItem)
    }

    constructor (caps: Caps, memoryLimit: nat)
      ensures Valid() && View() == Listing([], 0, false)
      ensures this.caps == caps && this.memoryLimit == memoryLimit
    {
      this.caps, this.memoryLimit := caps, memoryLimit;
      memory, file, bytes, digest := [], None, 0, [];
      itemStart, inItem, ceiling := 0, false, caps.total;
    }

    /** One comparison with the ceiling decides what both budgets would. */
    method RefreshCeiling()
      requires bytes == |Body()|
      modifies `ceiling
      ensures ceiling == Ceiling()
      ensures forall chunk: Bytes :: bytes + |chunk| <= ceiling <==> View().Fits(chunk, caps)
    {
      ceiling := if inItem && itemStart + caps.item < caps.total then itemStart + caps.item else caps.total;
    }

    method BeginItem()
      requires Valid()
      modifies `itemStart, `inItem, `ceiling
      ensures Valid() && (View(), Done) == Apply(old(View()), Begin, caps)
    {
      itemStart, inItem := bytes, true;
      RefreshCeiling();
    }

    /** Fails only when called outside an item that has outgrown its budget since the last one began. */
    method FinishItem() returns (r: Outcome)
      requires Valid()
      modifies `inItem, `ceiling
      ensures Valid() && (View(), r) == Apply(old(View()), Finish, caps)
      ensures old(inItem) ==> r == Done
    {
      var used := bytes - itemStart;
      inItem := false;
      RefreshCeiling();
      r := if used > caps.item then TooLarge else Done;
    }

    /** The fast path: one comparison with each limit while the listing is resident. */
    method AppendResident(chunk: Bytes) returns (ok: bool)
      requires Valid()
      modifies `memory, `bytes
      ensures Valid()
      ensures ok == (old(file).None? && old(|memory|) + |chunk| <= memoryLimit && old(View()).Fits(chunk, caps))
      ensures View() == if ok then old(View()).(body := old(Body()) + chunk) else old(View())
    {
      if file.Some? || |memory| + |chunk| > memoryLimit {
        return false;
      }
      var next := bytes + |chunk|;
      if next > ceiling {
        return false;
      }
      memory, bytes := memory + chunk, next;
      return true;
    }

    /** Moves the resident bytes to a file, and hashes them on the way. */
    method Spill(disk: Disk) returns (ok: bool)
      requires Valid() && file.None?
      modifies `memory, `file, `digest
      ensures ok == !(disk.NoTempFile? || disk.SpillFails?)
      ensures Valid() && View() == old(View()) && (ok ==> file.Some?) && (!ok ==> file.None?)
    {
      if disk.NoTempFile? || disk.SpillFails? {
        return false;
      }
      file, digest, memory := Some(memory), digest + memory, [];
      return true;
    }

    /** The slow path. An append the disk fails part way leaves the count and the
        hash alone, and the accepted bytes at the head of the file. */
    method WriteSpillOrReject(chunk: Bytes, disk: Disk) returns (r: Outcome)
      requires Valid()
      modifies `memory, `file, `bytes, `digest
      ensures !disk.AppendFails? ==> Valid()
      ensures disk.Works? ==> (View(), r) == Apply(old(View()), Put(chunk), caps)
      ensures r == TooLarge <==> !old(View()).Fits(chunk, caps)
      ensures r == TooLarge ==> View() == old(View()) && Valid()
      ensures r != Done ==> old(Body()) <= Body() && bytes == old(bytes) && (file.Some? ==> digest == old(Body()))
      ensures r == Done ==> View() == old(View()).(body := old(Body()) + chunk) && Valid()
    {
      if |chunk| == 0 {
        assert Body() + chunk == Body();
        return Done;
      }
      if inItem && |chunk| > caps.item - (bytes - itemStart) {
        return TooLarge;
      }
      if |chunk| > caps.total - bytes {
        return TooLarge;
      }
      if file.None? {
        var ok := Spill(disk);
        if !ok {
          return DiskError;
        }
      }
      if disk.AppendFails? {
        var written := if disk.written <= |chunk| then disk.written else |chunk|;
        file := Some(file.value + chunk[..written]);
        return DiskError;
      }
      file := Some(file.value + chunk);
      digest := digest + chunk;
      bytes := bytes + |chunk|;
      return Done;
    }

    /** A chunk is stored whole or refused whole, wherever the listing is. */
    method WriteAll(chunk: Bytes, disk: Disk) returns (r: Outcome)
      requires Valid()
      modifies `memory, `file, `bytes, `digest
      ensures !disk.AppendFails? ==> Valid()
      ensures disk.Works? ==> (View(), r) == Apply(old(View()), Put(chunk), caps)
      ensures r == TooLarge <==> !old(View()).Fits(chunk, caps)
      ensures r == TooLarge ==> View() == old(View()) && Valid()
      ensures r == Done ==> View() == old(View()).(body := old(Body()) + chunk) && Valid()
      ensures r != Done ==> old(Body()) <= Body() && bytes == old(bytes)
    {
      var ok := AppendResident(chunk);
      if ok {
        return Done;
      }
      r := WriteSpillOrReject(chunk, disk);
    }

    /** Runs any sequence of operations: the outcomes and the body are those of
        the capped byte sequence, whatever the memory limit. */
    method Run(ops: seq<Op>) returns (outcomes: seq<Outcome>)
      requires Valid()
      modifies this
      ensures Valid() && (View(), outcomes) == ApplyAll(old(View()), ops, caps)
      ensures file.None? ==> |memory| <= memoryLimit
    {
      outcomes := [];
      for k := 0 to |ops|
        invariant Valid() && (View(), outcomes) == ApplyAll(old(View()), ops[..k], caps)
      {
        assert ops[..k + 1][..k] == ops[..k];
        var outcome := Done;
        match ops[k] {
          case Begin => BeginItem();
          case Finish => outcome := FinishItem();
          case Put(chunk) => outcome := WriteAll(chunk, Works);
        }
        outcomes := outcomes + [outcome];
      }
      assert ops[..|ops|] == ops;
    }

    /** What the content tag hashes: the whole body and then the suffix, in both forms. */
    method Etag(suffix: Bytes) returns (hashed: Bytes)
      requires Valid()
      ensures hashed == Body() + suffix
    {
      hashed := if file.Some? then digest else memory;
      hashed := hashed + suffix;
    }

    /** The response body and its announced length. */
    method Response() returns (content: Bytes, length: nat)
      requires Valid()
      ensures content == Body() && length == |content|
    {
      content, length := Body(), bytes;
    }
  }

  // ---------------------------------------------------------------------
  // What the capped sequence promises over every run
  // ---------------------------------------------------------------------

  const EMPTY := Listing([], 0, false)

  /** The chunks that were accepted, end to end. */
  function Accepted(ops: seq<Op>, outcomes: seq<Outcome>): Bytes
    requires |ops| == |outcomes|
  {
    if ops == [] then []
    else
      var last := |ops| - 1;
      Accepted(ops[..last], outcomes[..last]) + if ops[last].Put? && outcomes[last] == Done then ops[last].chunk else []
  }

  /** The body is exactly the accepted chunks, within both budgets. */
  lemma {:induction false} BodyIsAcceptedChunks(ops: seq<Op>, caps: Caps)
    ensures var (l, outcomes) := ApplyAll(EMPTY, ops, caps);
            l.Within(caps) && l.body == Accepted(ops, outcomes)
  {
    if ops != [] {
      var last := |ops| - 1;
      BodyIsAcceptedChunks(ops[..last], caps);
      var (before, outcomes) := ApplyAll(EMPTY, ops[..last], caps);
      var (_, outcome) := Apply(before, ops[last], caps);
      assert (outcomes + [outcome])[..last] == outcomes;
    }
  }

  /** Finishing an item that was begun never fails, whatever was written in it. */
  lemma FinishInItemSucceeds(ops: seq<Op>, caps: Caps)
    requires ApplyAll(EMPTY, ops, caps).0.inItem
    ensures Apply(ApplyAll(EMPTY, ops, caps).0, Finish, caps).1 == Done
  {
    BodyIsAcceptedChunks(ops, caps);
  }

  /** A refused chunk leaves no trace: the rest of the run goes as if it had never been offered. */
  lemma {:induction false} RefusedChunkLeavesNoTrace(l: Listing, chunk: Bytes, rest: seq<Op>, caps: Caps)
    requires !l.Fits(chunk, caps)
    ensures ApplyAll(l, [Put(chunk)] + rest, caps).0 == ApplyAll(l, rest, caps).0
    ensures ApplyAll(l, [Put(chunk)] + rest, caps).1 == [TooLarge] + ApplyAll(l, rest, caps).1
  {
    var ops := [Put(chunk)] + rest;
    if rest == [] {
      assert ops[..0] == [];
    } else {
      var last := |rest| - 1;
      RefusedChunkLeavesNoTrace(l, chunk, rest[..last], caps);
      assert ops[..|ops| - 1] == [Put(chunk)] + rest[..last];
    }
  }

  /** Two tags hash the same bytes exactly when body and suffix join to the
      same bytes, so a body may only be told from its suffix by its length. */
  lemma TagsAgreeOnEqualLengths(body: Bytes, suffix: Bytes, body': Bytes, suffix': Bytes)
    requires body + suffix == body' + suffix'
    ensures |body| == |body'| <==> body == body' && suffix == suffix'
  {
    if |body| == |body'| {
      assert body == (body + suffix)[..|body|] && suffix == (body + suffix)[|body|..];
      assert body' == (body' + suffix')[..|body'|] && suffix' == (body' + suffix')[|body'|..];
    }
  }
}
