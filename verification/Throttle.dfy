/** The sign-in throttle: three counters per attempt, charged on admission,
    refunded on success, and evicted when the table is full. */
module Throttle {
  const LOGIN_MAX_FAILURES: nat := 5
  const LOGIN_IP_MAX_FAILURES: nat := 25
  const LOGIN_ACCOUNT_MAX_FAILURES: nat := 50
  const LOGIN_LOCKOUT_SECONDS: nat := 60
  const LOGIN_THROTTLE_MAX_ENTRIES: nat := 10_000
  const LOGIN_THROTTLE_LOCKED_MAX_ENTRIES: nat := 50_000

  /** What a counter is kept for: one address against one name, a network, or a name. */
  datatype Key = Pair(address: string, name: string) | Network(network: string) | Name(name: string)

  /** `run` numbers the stretch of failures the count belongs to. */
  datatype Counter = Counter(failures: nat, last: nat, run: nat)

  type Table = map<Key, Counter>

  /** Who is signing in: an address, the network it is counted under, and the name tried. */
  datatype Client = Client(address: string, network: string, name: string) {
    function Account(): Key { Pair(address, name) }
    function Ip(): Key { Network(network) }
    function Username(): Key { Name(name) }
    function All(): seq<Key> { [Account(), Ip(), Username()] }
    function KeySet(): set<Key> { {Account(), Ip(), Username()} }
  }

  /** A saturating difference of times. */
  function Since(now: nat, last: nat): nat {
    if now >= last then now - last else 0
  }

  predicate Stale(c: Counter, now: nat) {
    Since(now, c.last) >= LOGIN_LOCKOUT_SECONDS
  }

  predicate Locked(c: Counter, now: nat, maxFailures: nat) {
    c.failures >= maxFailures && !Stale(c, now)
  }

  predicate Over(table: Table, key: Key, now: nat, maxFailures: nat) {
    key in table && Locked(table[key], now, maxFailures)
  }

  /** The refusal a sign-in meets. */
  predicate IsLocked(table: Table, client: Client, now: nat) {
    || Over(table, client.Account(), now, LOGIN_MAX_FAILURES)
    || Over(table, client.Ip(), now, LOGIN_IP_MAX_FAILURES)
    || (client.Account() in table && !Stale(table[client.Account()], now)
        && Over(table, client.Username(), now, LOGIN_ACCOUNT_MAX_FAILURES))
  }

  /** Dropping the entry would let some address past a refusal, or reset a network's budget. */
  predicate HoldsLock(table: Table, key: Key, now: nat)
    requires key in table
  {
    match key
    case Name(_) => Locked(table[key], now, LOGIN_ACCOUNT_MAX_FAILURES)
    case Network(_) => !Stale(table[key], now)
    case Pair(_, name) =>
      || Locked(table[key], now, LOGIN_MAX_FAILURES)
      || (!Stale(table[key], now) && Over(table, Name(name), now, LOGIN_ACCOUNT_MAX_FAILURES))
  }

  predicate Purgeable(table: Table, key: Key, keep: set<Key>, now: nat) {
    key in table && key !in keep && !HoldsLock(table, key, now)
  }

  /** `a` says no more about an attack than `b`: stale first, then fewest failures, then oldest. */
  predicate NoStronger(a: Counter, b: Counter, now: nat) {
    if Stale(a, now) != Stale(b, now) then Stale(a, now)
    else if a.failures != b.failures then a.failures < b.failures
    else a.last <= b.last
  }

  ghost predicate Weakest(table: Table, key: Key, keep: set<Key>, now: nat) {
    && Purgeable(table, key, keep, now)
    && forall k | Purgeable(table, k, keep, now) :: NoStronger(table[key], table[k], now)
  }

  function Purge(table: Table, now: nat): (r: Table)
    ensures r.Keys <= table.Keys && |r| <= |table|
    ensures forall k | k in r :: r[k] == table[k] && !Stale(table[k], now)
    ensures forall k | k in table && !Stale(table[k], now) :: k in r
  {
    var r := map k | k in table && !Stale(table[k], now) :: table[k];
    SubsetIsNoLarger(r.Keys, table.Keys);
    assert |r| == |r.Keys| && |table| == |table.Keys|;
    r
  }

  lemma {:induction false} SubsetIsNoLarger<T>(a: set<T>, b: set<T>)
    requires a <= b
    ensures |a| <= |b|
  {
    if a != {} {
      var x :| x in a;
      SubsetIsNoLarger(a - {x}, b - {x});
    }
  }

  /** The entry of `key` once it is charged at `now`, with `nextRun` the next unused run. */
  function ChargedCounter(table: Table, nextRun: nat, key: Key, now: nat): Counter {
    if StartsRun(table, key, now) then Counter(1, now, nextRun)
    else Counter(table[key].failures + 1, now, table[key].run)
  }

  /** The count starts again from zero. */
  predicate StartsRun(table: Table, key: Key, now: nat) {
    key in table ==> table[key].failures == 0 || Stale(table[key], now)
  }

  /** The table and the next unused run after one charge. */
  function Charge(table: Table, nextRun: nat, key: Key, now: nat): (Table, nat) {
    (table[key := ChargedCounter(table, nextRun, key, now)], if StartsRun(table, key, now) then nextRun + 1 else nextRun)
  }

  function ChargeAll(table: Table, nextRun: nat, keys: seq<Key>, now: nat): (Table, nat) {
    if keys == [] then (table, nextRun)
    else
      var (t, r) := ChargeAll(table, nextRun, keys[..|keys| - 1], now);
      Charge(t, r, keys[|keys| - 1], now)
  }

  function Missing(table: Table, keys: seq<Key>): nat {
    if keys == [] then 0
    else Missing(table, keys[..|keys| - 1]) + if keys[|keys| - 1] in table then 0 else 1
  }

  function Without(table: Table, gone: seq<Key>): Table {
    if gone == [] then table else Without(table, gone[..|gone| - 1]) - {gone[|gone| - 1]}
  }

  /** The keys one recording evicts, in turn: each the weakest at its turn, and only for want of room. */
  ghost predicate Evicts(table: Table, gone: seq<Key>, client: Client, now: nat) {
    gone != [] ==>
      var before, key := gone[..|gone| - 1], gone[|gone| - 1];
      && Evicts(table, before, client, now)
      && Weakest(Without(table, before), key, client.KeySet(), now)
      && |Without(table, before)| + Missing(table, client.All()) > LOGIN_THROTTLE_MAX_ENTRIES
  }

  /** Eviction stops when there is room, nothing may go, or as many went as are needed. */
  ghost predicate EvictsEnough(table: Table, gone: seq<Key>, client: Client, now: nat) {
    var left, missing := Without(table, gone), Missing(table, client.All());
    && |gone| <= missing
    && (|| |gone| == missing || |left| + missing <= LOGIN_THROTTLE_MAX_ENTRIES
        || forall k :: !Purgeable(left, k, client.KeySet(), now))
  }

  /** One recording: what is evicted, whether it fits, and the charges. */
  ghost predicate Records(table: Table, nextRun: nat, client: Client, now: nat, gone: seq<Key>,
                          ok: bool, table': Table, nextRun': nat)
  {
    var left := Without(table, gone);
    && Evicts(table, gone, client, now) && EvictsEnough(table, gone, client, now)
    && ok == (|left| + Missing(table, client.All()) <= LOGIN_THROTTLE_LOCKED_MAX_ENTRIES)
    && (table', nextRun') == if ok then ChargeAll(left, nextRun, client.All(), now) else (left, nextRun)
  }

  function RunOf(table: Table, key: Key): nat {
    if key in table then table[key].run else 0
  }

  /** One charge taken back from a counter still in the run it was charged in. */
  function Refund(table: Table, key: Key, run: nat): Table {
    if key in table && table[key].run == run
    then table[key := table[key].(failures := if table[key].failures > 0 then table[key].failures - 1 else 0)]
    else table
  }

  /** The stretch of failures and its last one are as they were. */
  predicate SameRun(a: Counter, b: Counter) {
    a.run == b.run && a.last == b.last
  }

  /** One failure less, if one is taken and there is one. */
  function Less(failures: nat, taken: bool): nat {
    if taken && failures > 0 then failures - 1 else failures
  }

  datatype Admission = Refused | Full | Charged(ipRun: nat, nameRun: nat)

  /** The locked section an attempt enters who. */
  ghost predicate Admits(table: Table, nextRun: nat, client: Client, now: nat, gone: seq<Key>,
                         r: Admission, table': Table, nextRun': nat)
  {
    var kept := Purge(table, now);
    if IsLocked(kept, client, now) then r == Refused && (table', nextRun') == (kept, nextRun)
    else
      && Records(kept, nextRun, client, now, gone, !r.Full?, table', nextRun')
      && r == if r.Full? then Full else Charged(RunOf(table', client.Ip()), RunOf(table', client.Username()))
  }

  /** The table after a sign-in succeeds. */
  function Succeeded(table: Table, client: Client, ipRun: nat, nameRun: nat): Table {
    Refund(Refund(table - {client.Account()}, client.Ip(), ipRun), client.Username(), nameRun)
  }

  /** The shared attempts table and the source of run numbers. */
  class LoginAttempts {
    var attempts: Table
    var nextRun: nat

    /** At first nobody is refused. */
    constructor ()
      ensures attempts == map[] && nextRun == 1
      ensures forall client, now :: !IsLocked(attempts, client, now)
    {
      attempts, nextRun := map[], 1;
    }

    /** Drops the weakest entry that holds no lock, if there is one. */
    method EvictWeakest(keep: set<Key>, now: nat) returns (evicted: bool, ghost key: Key)
      modifies `attempts
      ensures evicted ==> Weakest(old(attempts), key, keep, now) && attempts == old(attempts) - {key}
      ensures evicted ==> forall k | Purgeable(old(attempts), k, keep, now) ::
                var gone, other := old(attempts)[key], old(attempts)[k];
                && (Stale(other, now) ==> Stale(gone, now))
                && (Stale(other, now) == Stale(gone, now) ==> gone.failures <= other.failures)
                && (Stale(other, now) == Stale(gone, now) && gone.failures == other.failures ==> gone.last <= other.last)
      ensures !evicted ==> attempts == old(attempts) && forall k :: !Purgeable(attempts, k, keep, now)
    {
      var candidates := set k | k in attempts && Purgeable(attempts, k, keep, now);
      key := Name("");
      assert forall k | Purgeable(attempts, k, keep, now) :: k in candidates;
      if candidates == {} {
        return false, key;
      }
      var weakest :| weakest in candidates;
      var rest := candidates - {weakest};
      while rest != {}
        invariant weakest in candidates && rest <= candidates
        invariant forall k | k in candidates - rest :: NoStronger(attempts[weakest], attempts[k], now)
        decreases rest
      {
        var k :| k in rest;
        rest := rest - {k};
        if !NoStronger(attempts[weakest], attempts[k], now) {
          weakest := k;
        }
      }
      key := weakest;
      attempts := attempts - {weakest};
      return true, key;
    }

    /** Evicts what the client's missing entries need, and no more. */
    method MakeRoom(client: Client, missing: nat, now: nat) returns (ghost gone: seq<Key>)
      requires missing == Missing(attempts, client.All())
      modifies `attempts
      ensures attempts == Without(old(attempts), gone)
      ensures Evicts(old(attempts), gone, client, now) && EvictsEnough(old(attempts), gone, client, now)
    {
      gone := [];
      for i := 0 to missing
        invariant |gone| == i && Evicts(old(attempts), gone, client, now)
        invariant attempts == Without(old(attempts), gone)
      {
        if |attempts| + missing <= LOGIN_THROTTLE_MAX_ENTRIES {
          break;
        }
        var evicted;
        ghost var key;
        evicted, key := EvictWeakest(client.KeySet(), now);
        if !evicted {
          break;
        }
        EvictsNext(old(attempts), gone, client, now, key);
        gone := gone + [key];
      }
    }

    method ChargeKeys(keys: seq<Key>, now: nat)
      modifies this
      ensures (attempts, nextRun) == ChargeAll(old(attempts), old(nextRun), keys, now)
    {
      for i := 0 to |keys|
        invariant (attempts, nextRun) == ChargeAll(old(attempts), old(nextRun), keys[..i], now)
      {
        var starts := StartsRun(attempts, keys[i], now);
        assert keys[..i + 1][..i] == keys[..i];
        attempts := attempts[keys[i] := ChargedCounter(attempts, nextRun, keys[i], now)];
        nextRun := if starts then nextRun + 1 else nextRun;
      }
      assert keys[..|keys|] == keys;
    }

    /** Counts a failure against each of the client's keys, or counts nothing when the table is full of locks. */
    method RecordFailures(client: Client, now: nat) returns (ok: bool, ghost gone: seq<Key>)
      modifies this
      ensures Records(old(attempts), old(nextRun), client, now, gone, ok, attempts, nextRun)
    {
      var missing := Missing(attempts, client.All());
      gone := MakeRoom(client, missing, now);
      if |attempts| + missing > LOGIN_THROTTLE_LOCKED_MAX_ENTRIES {
        return false, gone;
      }
      ChargeKeys(client.All(), now);
      return true, gone;
    }

    method Admit(client: Client, now: nat) returns (r: Admission, ghost gone: seq<Key>)
      modifies this
      ensures Admits(old(attempts), old(nextRun), client, now, gone, r, attempts, nextRun)
    {
      attempts := Purge(attempts, now);
      if IsLocked(attempts, client, now) {
        return Refused, [];
      }
      var ok;
      ok, gone := RecordFailures(client, now);
      if !ok {
        return Full, gone;
      }
      return Charged(RunOf(attempts, client.Ip()), RunOf(attempts, client.Username())), gone;
    }

    /** Takes one failure from the counter if it is still in the run charged;
        a counter of another run keeps all of its failures, and so does every other. */
    method RefundCharge(key: Key, run: nat)
      modifies `attempts
      ensures attempts == Refund(old(attempts), key, run)
      ensures attempts.Keys == old(attempts).Keys
      ensures forall k | k in attempts :: SameRun(old(attempts)[k], attempts[k])
      ensures forall k | k in attempts ::
                attempts[k].failures == Less(old(attempts)[k].failures, k == key && old(attempts)[k].run == run)
    {
      if key in attempts && attempts[key].run == run {
        var counter := attempts[key];
        attempts := attempts[key := counter.(failures := if counter.failures > 0 then counter.failures - 1 else 0)];
      }
    }

    /** A verified password clears this address's counter for the name and takes back the other two charges. */
    method Succeed(client: Client, ipRun: nat, nameRun: nat)
      modifies `attempts
      ensures attempts == Succeeded(old(attempts), client, ipRun, nameRun)
      ensures attempts.Keys == old(attempts).Keys - {client.Account()}
      ensures forall k | k in attempts :: SameRun(old(attempts)[k], attempts[k])
      ensures forall k | k in attempts ::
                attempts[k].failures == Less(old(attempts)[k].failures,
                                             (k == client.Ip() && old(attempts)[k].run == ipRun)
                                             || (k == client.Username() && old(attempts)[k].run == nameRun))
    {
      attempts := attempts - {client.Account()};
      RefundCharge(client.Ip(), ipRun);
      RefundCharge(client.Username(), nameRun);
    }
  }

  lemma EvictsNext(table: Table, gone: seq<Key>, client: Client, now: nat, key: Key)
    requires Evicts(table, gone, client, now) && Weakest(Without(table, gone), key, client.KeySet(), now)
    requires |Without(table, gone)| + Missing(table, client.All()) > LOGIN_THROTTLE_MAX_ENTRIES
    ensures Evicts(table, gone + [key], client, now) && Without(table, gone + [key]) == Without(table, gone) - {key}
  {
    assert (gone + [key])[..|gone|] == gone;
  }

  // ---------------------------------------------------------------------
  // Recording never lifts a refusal
  // ---------------------------------------------------------------------

  /** A pair's counter holds a lock exactly when its address, from a network
      that is not refused as a whole, is refused the name. */
  lemma PairHoldsLockIffRefused(table: Table, client: Client, now: nat)
    requires client.Account() in table && !Over(table, client.Ip(), now, LOGIN_IP_MAX_FAILURES)
    ensures HoldsLock(table, client.Account(), now) <==> IsLocked(table, client, now)
  {
  }

  ghost predicate NoLater(table: Table, now: nat) {
    forall k | k in table :: table[k].last <= now
  }

  lemma PurgeKeepsRefusals(table: Table, now: nat, client: Client, later: nat)
    requires now <= later && IsLocked(table, client, later)
    ensures IsLocked(Purge(table, now), client, later)
  {
  }

  /** Evicting an entry that holds no lock leaves every refusal in place, now and later. */
  lemma EvictionKeepsRefusals(table: Table, key: Key, keep: set<Key>, now: nat, client: Client, later: nat)
    requires Purgeable(table, key, keep, now) && now <= later && IsLocked(table, client, later)
    ensures IsLocked(table - {key}, client, later)
  {
    var account := client.Account();
    if Over(table, account, later, LOGIN_MAX_FAILURES) {
      assert key != account;
    } else if Over(table, client.Ip(), later, LOGIN_IP_MAX_FAILURES) {
      assert key != client.Ip();
    } else {
      assert key != client.Username() && key != account;
    }
  }

  lemma {:induction false} WithoutIsPart(table: Table, gone: seq<Key>)
    ensures forall k | k in Without(table, gone) :: k in table && Without(table, gone)[k] == table[k]
  {
    if gone != [] {
      WithoutIsPart(table, gone[..|gone| - 1]);
    }
  }

  lemma {:induction false} EvictionsKeepRefusals(table: Table, gone: seq<Key>, who: Client, now: nat, client: Client, later: nat)
    requires Evicts(table, gone, who, now) && now <= later && IsLocked(table, client, later)
    ensures IsLocked(Without(table, gone), client, later)
  {
    if gone != [] {
      var n := |gone| - 1;
      var before := Without(table, gone[..n]);
      EvictionsKeepRefusals(table, gone[..n], who, now, client, later);
      EvictionKeepsRefusals(before, gone[n], who.KeySet(), now, client, later);
    }
  }

  /** A charge only adds to what is counted, unless what was counted no longer locks anything. */
  lemma ChargeKeepsRefusals(table: Table, nextRun: nat, key: Key, now: nat, client: Client, later: nat)
    requires now <= later && IsLocked(table, client, later)
    requires later == now || NoLater(table, now)
    ensures IsLocked(Charge(table, nextRun, key, now).0, client, later)
  {
  }

  lemma ChargesKeepRefusals(table: Table, nextRun: nat, who: Client, now: nat, client: Client, later: nat)
    requires now <= later && IsLocked(table, client, later)
    requires later == now || NoLater(table, now)
    ensures IsLocked(ChargeAll(table, nextRun, who.All(), now).0, client, later)
  {
    var (t1, r1) := Charge(table, nextRun, who.Account(), now);
    var (t2, r2) := Charge(t1, r1, who.Ip(), now);
    ChargeAllUnfolds(table, nextRun, who, now);
    ChargeKeepsRefusals(table, nextRun, who.Account(), now, client, later);
    ChargeKeepsRefusals(t1, r1, who.Ip(), now, client, later);
    ChargeKeepsRefusals(t2, r2, who.Username(), now, client, later);
  }

  lemma ChargeAllUnfolds(table: Table, nextRun: nat, who: Client, now: nat)
    ensures var (t1, r1) := Charge(table, nextRun, who.Account(), now);
            var (t2, r2) := Charge(t1, r1, who.Ip(), now);
            ChargeAll(table, nextRun, who.All(), now) == Charge(t2, r2, who.Username(), now)
  {
    var keys := who.All();
    assert keys[..2] == [who.Account(), who.Ip()] && keys[..2][..1] == [who.Account()] && keys[..2][..1][..0] == [];
    assert ChargeAll(table, nextRun, [who.Account()], now) == Charge(table, nextRun, who.Account(), now);
    assert ChargeAll(table, nextRun, keys[..2], now)
        == var (t, r) := ChargeAll(table, nextRun, keys[..2][..1], now); Charge(t, r, who.Ip(), now);
  }

  /** Recording failures, with all the evictions it makes and even when it
      fails, refuses everyone it refused before, at `now` and at any later time. */
  lemma RecordingKeepsRefusals(table: Table, nextRun: nat, who: Client, now: nat, gone: seq<Key>, ok: bool,
                               table': Table, nextRun': nat, client: Client, later: nat)
    requires Records(table, nextRun, who, now, gone, ok, table', nextRun')
    requires now <= later && (later == now || NoLater(table, now))
    ensures IsLocked(table, client, later) ==> IsLocked(table', client, later)
  {
    if IsLocked(table, client, later) {
      EvictionsKeepRefusals(table, gone, who, now, client, later);
      WithoutIsPart(table, gone);
      if ok {
        ChargesKeepRefusals(Without(table, gone), nextRun, who, now, client, later);
      }
    }
  }

  /** So does the whole admission, which first forgets what is stale. */
  lemma AdmissionKeepsRefusals(table: Table, nextRun: nat, who: Client, now: nat, gone: seq<Key>, r: Admission,
                               table': Table, nextRun': nat, client: Client, later: nat)
    requires Admits(table, nextRun, who, now, gone, r, table', nextRun')
    requires now <= later && (later == now || NoLater(table, now))
    ensures IsLocked(table, client, later) ==> IsLocked(table', client, later)
  {
    if IsLocked(table, client, later) {
      PurgeKeepsRefusals(table, now, client, later);
      if r != Refused || !IsLocked(Purge(table, now), who, now) {
        RecordingKeepsRefusals(Purge(table, now), nextRun, who, now, gone, !r.Full?, table', nextRun', client, later);
      }
    }
  }

  // ---------------------------------------------------------------------
  // The size of the table
  // ---------------------------------------------------------------------

  lemma {:induction false} WithoutSize(table: Table, gone: seq<Key>, who: Client, now: nat)
    requires Evicts(table, gone, who, now)
    ensures |Without(table, gone)| == |table| - |gone|
    ensures forall k | k in who.KeySet() :: k in Without(table, gone) <==> k in table
  {
    if gone != [] {
      var n := |gone| - 1;
      var before := Without(table, gone[..n]);
      WithoutSize(table, gone[..n], who, now);
      assert (before - {gone[n]}).Keys == before.Keys - {gone[n]};
      assert |before.Keys| == |before| && |(before - {gone[n]}).Keys| == |before - {gone[n]}|;
    }
  }

  lemma ChargeSize(table: Table, nextRun: nat, key: Key, now: nat)
    ensures var t := Charge(table, nextRun, key, now).0;
            t.Keys == table.Keys + {key} && |t| == |table| + if key in table then 0 else 1
  {
    var t := Charge(table, nextRun, key, now).0;
    assert t.Keys == table.Keys + {key};
    assert |t| == |t.Keys| && |table| == |table.Keys|;
  }

  lemma ChargeAllSize(table: Table, nextRun: nat, who: Client, now: nat)
    ensures |ChargeAll(table, nextRun, who.All(), now).0| == |table| + Missing(table, who.All())
  {
    var (t1, r1) := Charge(table, nextRun, who.Account(), now);
    var (t2, r2) := Charge(t1, r1, who.Ip(), now);
    ChargeAllUnfolds(table, nextRun, who, now);
    ChargeSize(table, nextRun, who.Account(), now);
    ChargeSize(t1, r1, who.Ip(), now);
    ChargeSize(t2, r2, who.Username(), now);
    MissingUnfolds(table, who);
  }

  lemma MissingUnfolds(table: Table, who: Client)
    ensures Missing(table, who.All()) == (if who.Account() in table then 0 else 1)
                                      + (if who.Ip() in table then 0 else 1) + (if who.Username() in table then 0 else 1)
  {
    var keys := who.All();
    assert keys[..2] == [who.Account(), who.Ip()] && keys[..2][..1] == [who.Account()] && keys[..2][..1][..0] == [];
    assert Missing(table, keys[..2][..1]) == if who.Account() in table then 0 else 1;
  }

  /** A recording never takes the table past its hard limit, and takes it past
      the soft one only when every entry but the client's own holds a lock. */
  lemma RecordingBoundsTheTable(table: Table, nextRun: nat, who: Client, now: nat, gone: seq<Key>, ok: bool,
                                table': Table, nextRun': nat)
    requires Records(table, nextRun, who, now, gone, ok, table', nextRun')
    ensures |table| <= LOGIN_THROTTLE_LOCKED_MAX_ENTRIES ==> |table'| <= LOGIN_THROTTLE_LOCKED_MAX_ENTRIES
    ensures |table'| > |table| && |table'| > LOGIN_THROTTLE_MAX_ENTRIES ==>
              forall k | k in Without(table, gone) && k !in who.KeySet() :: HoldsLock(Without(table, gone), k, now)
  {
    var left := Without(table, gone);
    WithoutSize(table, gone, who, now);
    MissingUnfolds(table, who);
    MissingUnfolds(left, who);
    ChargeAllSize(left, nextRun, who, now);
    if |table'| > |table| && |table'| > LOGIN_THROTTLE_MAX_ENTRIES {
      forall k | k in left && k !in who.KeySet() ensures HoldsLock(left, k, now) {
        assert !Purgeable(left, k, who.KeySet(), now);
      }
    }
  }

  /** A recording forgets an entry only for want of room, never one of its own
      client's, and none that holds a lock while it holds one. */
  lemma RecordingForgetsForRoom(table: Table, nextRun: nat, who: Client, now: nat, gone: seq<Key>, ok: bool,
                                table': Table, nextRun': nat, key: Key)
    requires Records(table, nextRun, who, now, gone, ok, table', nextRun') && key in table && key !in table'
    ensures |table| + Missing(table, who.All()) > LOGIN_THROTTLE_MAX_ENTRIES
    ensures key !in who.KeySet() && !HoldsLock(table, key, now)
    ensures |table| - |Without(table, gone)| <= Missing(table, who.All())
  {
    ChargeAllUnfolds(Without(table, gone), nextRun, who, now);
    WithoutSize(table, gone, who, now);
    if HoldsLock(table, key, now) {
      EvictionSparesLocks(table, gone, who, now, key);
    }
    FirstEvictionWantsRoom(table, gone, who, now);
  }

  lemma {:induction false} FirstEvictionWantsRoom(table: Table, gone: seq<Key>, who: Client, now: nat)
    requires Evicts(table, gone, who, now) && gone != []
    ensures |table| + Missing(table, who.All()) > LOGIN_THROTTLE_MAX_ENTRIES
  {
    WithoutSize(table, gone[..|gone| - 1], who, now);
  }

  lemma {:induction false} EvictionSparesLocks(table: Table, gone: seq<Key>, who: Client, now: nat, key: Key)
    requires Evicts(table, gone, who, now) && key in table && HoldsLock(table, key, now)
    ensures key in Without(table, gone) && Without(table, gone)[key] == table[key] && HoldsLock(Without(table, gone), key, now)
  {
    if gone != [] {
      var n := |gone| - 1;
      EvictionSparesLocks(table, gone[..n], who, now, key);
      if key.Pair? && Over(table, Name(key.name), now, LOGIN_ACCOUNT_MAX_FAILURES) {
        EvictionSparesLocks(table, gone[..n], who, now, Name(key.name));
      }
    }
  }
}
