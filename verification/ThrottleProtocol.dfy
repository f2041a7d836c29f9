/** Every interleaving of sign-in attempts over one throttle table. An attempt
    enters by the locked section, goes off to check the password, and then
    either succeeds, taking back two of its three charges, or leaves them. The
    ledger of charges is the history the counters are compared with. */
module ThrottleProtocol {
  import opened Throttle

  /** One charge to a counter; `live` until it is taken back. */
  datatype Entry = Entry(key: Key, run: nat, time: nat, live: bool)

  type Ledger = seq<Entry>

  /** An attempt away checking its password. Its three charges are the ledger
      entries from `base` on; the runs are those it was told on admission. */
  datatype Attempt = Attempt(client: Client, base: nat, ipRun: nat, nameRun: nat)

  datatype State = State(table: Table, nextRun: nat, clock: nat, ledger: Ledger, open: set<Attempt>)

  datatype Step =
    | Arrive(client: Client, now: nat, gone: seq<Key>, r: Admission)
    | Succeed(attempt: Attempt)
    | GiveUp(attempt: Attempt)  // wrong password, cancelled, or no password worker free

  const START := State(map[], 1, 0, [], {})

  /** The ledger entry a charge to `key` writes. */
  function EntryFor(table: Table, nextRun: nat, key: Key, now: nat): Entry {
    Entry(key, ChargedCounter(table, nextRun, key, now).run, now, true)
  }

  /** A table, its next run, and the ledger, after one charge. */
  datatype Books = Books(table: Table, nextRun: nat, ledger: Ledger)

  function Post(b: Books, key: Key, now: nat): Books {
    var (table, nextRun) := Charge(b.table, b.nextRun, key, now);
    Books(table, nextRun, b.ledger + [EntryFor(b.table, b.nextRun, key, now)])
  }

  function PostAll(b: Books, client: Client, now: nat): Books {
    Post(Post(Post(b, client.Account(), now), client.Ip(), now), client.Username(), now)
  }

  function TakeBack(ledger: Ledger, i: nat): Ledger
    requires i < |ledger|
  {
    ledger[i := ledger[i].(live := false)]
  }

  /** The table an arrival leaves when it is not charged, or is charged from. */
  function Room(s: State, step: Step): Table
    requires step.Arrive?
  {
    if step.r.Refused? then Purge(s.table, step.now) else Without(Purge(s.table, step.now), step.gone)
  }

  ghost predicate Next(s: State, s': State, step: Step) {
    match step
    case Arrive(client, now, gone, r) =>
      && s.clock <= now == s'.clock
      && Admits(s.table, s.nextRun, client, now, gone, r, s'.table, s'.nextRun)
      && (if r.Charged? then
            && s'.ledger == PostAll(Books(Room(s, step), s.nextRun, s.ledger), client, now).ledger
            && s'.open == s.open + {Attempt(client, |s.ledger|, r.ipRun, r.nameRun)}
          else s'.ledger == s.ledger && s'.open == s.open)
    case Succeed(a) =>
      && a in s.open && a.base + 2 < |s.ledger|
      && s' == s.(table := Succeeded(s.table, a.client, a.ipRun, a.nameRun),
                  ledger := TakeBack(TakeBack(s.ledger, a.base + 1), a.base + 2),
                  open := s.open - {a})
    case GiveUp(a) =>
      a in s.open && s' == s.(open := s.open - {a})
  }

  // ---------------------------------------------------------------------
  // Counting
  // ---------------------------------------------------------------------

  function Counts(e: Entry, key: Key, run: nat): nat {
    if e.live && e.key == key && e.run == run then 1 else 0
  }

  /** Charges to `key` in `run` not taken back. */
  function Live(ledger: Ledger, key: Key, run: nat): nat {
    if ledger == [] then 0
    else Live(ledger[..|ledger| - 1], key, run) + Counts(ledger[|ledger| - 1], key, run)
  }

  lemma LiveAppend(ledger: Ledger, e: Entry, key: Key, run: nat)
    ensures Live(ledger + [e], key, run) == Live(ledger, key, run) + Counts(e, key, run)
  {
    assert (ledger + [e])[..|ledger|] == ledger;
  }

  lemma {:induction false} LiveUpdate(ledger: Ledger, i: nat, e: Entry, key: Key, run: nat)
    requires i < |ledger|
    ensures Live(ledger[i := e], key, run) + Counts(ledger[i], key, run) == Live(ledger, key, run) + Counts(e, key, run)
  {
    var last := |ledger| - 1;
    if i == last {
      assert ledger[i := e][..last] == ledger[..last];
    } else {
      assert ledger[i := e][..last] == ledger[..last][i := e];
      LiveUpdate(ledger[..last], i, e, key, run);
    }
  }

  lemma {:induction false} LiveNeedsEntry(ledger: Ledger, key: Key, run: nat)
    requires forall i | 0 <= i < |ledger| :: ledger[i].run != run
    ensures Live(ledger, key, run) == 0
  {
    if ledger != [] {
      LiveNeedsEntry(ledger[..|ledger| - 1], key, run);
    }
  }

  lemma {:induction false} LiveHasEntry(ledger: Ledger, i: nat)
    requires i < |ledger| && ledger[i].live
    ensures Live(ledger, ledger[i].key, ledger[i].run) >= 1
  {
    if i < |ledger| - 1 {
      LiveHasEntry(ledger[..|ledger| - 1], i);
    }
  }

  // ---------------------------------------------------------------------
  // The invariant
  // ---------------------------------------------------------------------

  /** Every counter is the number of charges in its run not taken back. */
  ghost predicate Balanced(table: Table, ledger: Ledger) {
    forall k | k in table :: table[k].failures == Live(ledger, k, table[k].run)
  }

  /** Runs and times written so far are in the past. */
  ghost predicate Past(table: Table, nextRun: nat, clock: nat, ledger: Ledger) {
    && (forall k | k in table :: table[k].run < nextRun && table[k].last <= clock)
    && (forall i | 0 <= i < |ledger| :: ledger[i].run < nextRun && ledger[i].time <= clock)
  }

  /** A live charge to a network is in that network's current run until a lockout has passed since it. */
  ghost predicate Remembered(table: Table, clock: nat, ledger: Ledger) {
    forall i | 0 <= i < |ledger| && ledger[i].live && ledger[i].key.Network? && Since(clock, ledger[i].time) < LOGIN_LOCKOUT_SECONDS ::
      ledger[i].key in table && table[ledger[i].key].run == ledger[i].run && ledger[i].time <= table[ledger[i].key].last
  }

  /** Live charges to one network less than a lockout apart are in one run. */
  ghost predicate Together(ledger: Ledger) {
    forall i, j | 0 <= i < j < |ledger| && ledger[i].live && ledger[j].live && ledger[i].key == ledger[j].key
                  && ledger[i].key.Network? && Since(ledger[j].time, ledger[i].time) < LOGIN_LOCKOUT_SECONDS ::
      ledger[i].run == ledger[j].run
  }

  ghost predicate TimesRise(ledger: Ledger) {
    forall i, j | 0 <= i < j < |ledger| :: ledger[i].time <= ledger[j].time
  }

  /** No run of a network or a pair is ever charged beyond its limit. */
  ghost predicate Capped(ledger: Ledger) {
    forall k: Key, run | !k.Name? :: Live(ledger, k, run) <= Limit(k)
  }

  function Limit(k: Key): nat {
    match k
    case Pair(_, _) => LOGIN_MAX_FAILURES
    case Network(_) => LOGIN_IP_MAX_FAILURES
    case Name(_) => LOGIN_ACCOUNT_MAX_FAILURES
  }

  ghost predicate Sound(b: Books, clock: nat) {
    && Balanced(b.table, b.ledger) && Past(b.table, b.nextRun, clock, b.ledger) && Remembered(b.table, clock, b.ledger)
    && Together(b.ledger) && TimesRise(b.ledger) && Capped(b.ledger)
  }

  /** An attempt that is away still owns its refundable charges. */
  ghost predicate Owns(ledger: Ledger, a: Attempt) {
    && a.base + 2 < |ledger|
    && (var e := ledger[a.base + 1]; e.key == a.client.Ip() && e.run == a.ipRun && e.live)
    && (var e := ledger[a.base + 2]; e.key == a.client.Username() && e.run == a.nameRun && e.live)
  }

  ghost predicate Apart(open: set<Attempt>) {
    forall a, b | a in open && b in open && a != b :: a.base + 3 <= b.base || b.base + 3 <= a.base
  }

  ghost predicate Inv(s: State) {
    && Sound(Books(s.table, s.nextRun, s.ledger), s.clock)
    && (forall a | a in s.open :: Owns(s.ledger, a)) && Apart(s.open)
  }

  lemma InvAtStart()
    ensures Inv(START)
  {
    forall k: Key, run: nat ensures Live([], k, run) == 0 {}
  }

  // ---------------------------------------------------------------------
  // Time and eviction
  // ---------------------------------------------------------------------

  /** Only stale network entries are dropped. */
  ghost predicate ForgetsStale(table: Table, table': Table, now: nat) {
    && (forall k | k in table' :: k in table && table'[k] == table[k])
    && (forall k: Key | k in table && k.Network? && !Stale(table[k], now) :: k in table')
  }

  lemma PurgeForgetsStale(table: Table, now: nat)
    ensures ForgetsStale(table, Purge(table, now), now)
  {
  }

  lemma {:induction false} EvictionForgetsStale(table: Table, gone: seq<Key>, client: Client, now: nat)
    requires Evicts(table, gone, client, now)
    ensures ForgetsStale(table, Without(table, gone), now)
  {
    if gone != [] {
      EvictionForgetsStale(table, gone[..|gone| - 1], client, now);
    }
  }

  lemma ForgettingKeepsSound(b: Books, table': Table, clock: nat, now: nat)
    requires Sound(b, clock) && clock <= now && ForgetsStale(b.table, table', now)
    ensures Sound(b.(table := table'), now)
  {
    forall i | 0 <= i < |b.ledger| && b.ledger[i].live && b.ledger[i].key.Network? && Since(now, b.ledger[i].time) < LOGIN_LOCKOUT_SECONDS
      ensures b.ledger[i].key in table' && table'[b.ledger[i].key].run == b.ledger[i].run && b.ledger[i].time <= table'[b.ledger[i].key].last
    {
      assert Since(clock, b.ledger[i].time) < LOGIN_LOCKOUT_SECONDS;
    }
  }

  // ---------------------------------------------------------------------
  // One charge
  // ---------------------------------------------------------------------

  /** The counter is below its limit, or about to start again. */
  predicate Admissible(table: Table, key: Key, now: nat) {
    key.Name? || StartsRun(table, key, now) || table[key].failures < Limit(key)
  }

  /** A fresh run has no charges yet. */
  lemma RunToCharge(b: Books, key: Key, now: nat)
    requires Sound(b, now)
    ensures var c := ChargedCounter(b.table, b.nextRun, key, now);
            Live(b.ledger, key, c.run) + 1 == c.failures
  {
    if StartsRun(b.table, key, now) {
      LiveNeedsEntry(b.ledger, key, b.nextRun);
    }
  }

  /** Charges to a network that still count are all in the run being charged. */
  lemma RecentChargesShareRun(b: Books, key: Key, now: nat, i: nat)
    requires Sound(b, now) && key.Network? && i < |b.ledger|
    requires b.ledger[i].live && b.ledger[i].key == key && Since(now, b.ledger[i].time) < LOGIN_LOCKOUT_SECONDS
    ensures b.ledger[i].run == ChargedCounter(b.table, b.nextRun, key, now).run
  {
    LiveHasEntry(b.ledger, i);
  }

  lemma PostBalances(b: Books, key: Key, now: nat)
    requires Sound(b, now)
    ensures Balanced(Post(b, key, now).table, Post(b, key, now).ledger)
  {
    var b', e := Post(b, key, now), EntryFor(b.table, b.nextRun, key, now);
    RunToCharge(b, key, now);
    forall k | k in b'.table ensures b'.table[k].failures == Live(b'.ledger, k, b'.table[k].run) {
      LiveAppend(b.ledger, e, k, b'.table[k].run);
    }
  }

  lemma PostRemembers(b: Books, key: Key, now: nat)
    requires Sound(b, now)
    ensures Remembered(Post(b, key, now).table, now, Post(b, key, now).ledger)
  {
    var b' := Post(b, key, now);
    forall i | 0 <= i < |b.ledger| && b.ledger[i].live && b.ledger[i].key.Network? && Since(now, b.ledger[i].time) < LOGIN_LOCKOUT_SECONDS
      ensures b.ledger[i].key in b'.table && b'.table[b.ledger[i].key].run == b.ledger[i].run
              && b.ledger[i].time <= b'.table[b.ledger[i].key].last
    {
      if b.ledger[i].key == key {
        RecentChargesShareRun(b, key, now, i);
      }
    }
  }

  lemma PostTogether(b: Books, key: Key, now: nat)
    requires Sound(b, now)
    ensures Together(Post(b, key, now).ledger) && TimesRise(Post(b, key, now).ledger)
  {
    var ledger, n := Post(b, key, now).ledger, |b.ledger|;
    forall i, j | 0 <= i < j < |ledger| && ledger[i].live && ledger[j].live && ledger[i].key == ledger[j].key
                  && ledger[i].key.Network? && Since(ledger[j].time, ledger[i].time) < LOGIN_LOCKOUT_SECONDS
      ensures ledger[i].run == ledger[j].run
    {
      if j == n {
        RecentChargesShareRun(b, key, now, i);
      }
    }
  }

  lemma PostCaps(b: Books, key: Key, now: nat)
    requires Sound(b, now) && Admissible(b.table, key, now)
    ensures Capped(Post(b, key, now).ledger)
  {
    var e := EntryFor(b.table, b.nextRun, key, now);
    RunToCharge(b, key, now);
    forall k: Key, run | !k.Name? ensures Live(b.ledger + [e], k, run) <= Limit(k) {
      LiveAppend(b.ledger, e, k, run);
    }
  }

  lemma PostKeepsSound(b: Books, key: Key, now: nat)
    requires Sound(b, now) && Admissible(b.table, key, now)
    ensures Sound(Post(b, key, now), now)
  {
    PostBalances(b, key, now);
    PostRemembers(b, key, now);
    PostTogether(b, key, now);
    PostCaps(b, key, now);
  }

  lemma PostAllKeepsSound(b: Books, client: Client, now: nat)
    requires Sound(b, now)
    requires Admissible(b.table, client.Account(), now) && Admissible(b.table, client.Ip(), now)
    ensures Sound(PostAll(b, client, now), now)
  {
    var b1 := Post(b, client.Account(), now);
    PostKeepsSound(b, client.Account(), now);
    PostKeepsSound(b1, client.Ip(), now);
    PostKeepsSound(Post(b1, client.Ip(), now), client.Username(), now);
  }

  // ---------------------------------------------------------------------
  // Taking charges back
  // ---------------------------------------------------------------------

  ghost predicate Holds(ledger: Ledger, i: nat, key: Key, run: nat) {
    i < |ledger| && ledger[i] == Entry(key, run, ledger[i].time, true)
  }

  /** Refunding finds a counter of at least one, or one that moved on to another run. */
  lemma RefundNeverSaturates(b: Books, clock: nat, i: nat, key: Key, run: nat)
    requires Sound(b, clock) && Holds(b.ledger, i, key, run)
    ensures key in b.table && b.table[key].run == run ==> b.table[key].failures >= 1
  {
    LiveHasEntry(b.ledger, i);
  }

  lemma RefundBalances(b: Books, clock: nat, i: nat, key: Key, run: nat)
    requires Sound(b, clock) && Holds(b.ledger, i, key, run)
    ensures Balanced(Refund(b.table, key, run), TakeBack(b.ledger, i))
    ensures Capped(TakeBack(b.ledger, i))
  {
    var table' := Refund(b.table, key, run);
    var e := b.ledger[i].(live := false);
    RefundNeverSaturates(b, clock, i, key, run);
    forall k | k in table' ensures table'[k].failures == Live(TakeBack(b.ledger, i), k, table'[k].run) {
      LiveUpdate(b.ledger, i, e, k, table'[k].run);
    }
    forall k: Key, r | !k.Name? ensures Live(TakeBack(b.ledger, i), k, r) <= Limit(k) {
      LiveUpdate(b.ledger, i, e, k, r);
    }
  }

  lemma RefundKeepsSound(b: Books, clock: nat, i: nat, key: Key, run: nat)
    requires Sound(b, clock) && Holds(b.ledger, i, key, run)
    ensures Sound(Books(Refund(b.table, key, run), b.nextRun, TakeBack(b.ledger, i)), clock)
  {
    RefundBalances(b, clock, i, key, run);
    var ledger' := TakeBack(b.ledger, i);
    assert forall j | 0 <= j < |ledger'| :: ledger'[j] == b.ledger[j] || (!ledger'[j].live && ledger'[j].time == b.ledger[j].time && ledger'[j].run == b.ledger[j].run);
  }

  lemma DropPairKeepsSound(b: Books, clock: nat, address: string, name: string)
    requires Sound(b, clock)
    ensures Sound(b.(table := b.table - {Pair(address, name)}), clock)
  {
  }

  // ---------------------------------------------------------------------
  // Every step keeps the invariant
  // ---------------------------------------------------------------------

  lemma RoomIsSound(s: State, s': State, step: Step)
    requires Inv(s) && step.Arrive? && Next(s, s', step)
    ensures Sound(Books(Room(s, step), s.nextRun, s.ledger), step.now)
  {
    var b, p := Books(s.table, s.nextRun, s.ledger), Purge(s.table, step.now);
    PurgeForgetsStale(s.table, step.now);
    ForgettingKeepsSound(b, p, s.clock, step.now);
    if !step.r.Refused? {
      EvictionForgetsStale(p, step.gone, step.client, step.now);
      ForgettingKeepsSound(b.(table := p), Room(s, step), step.now, step.now);
    }
  }

  /** Entries an admitted attempt charges are not locked, in the table it is charged in. */
  lemma ChargedIsAdmissible(s: State, s': State, step: Step)
    requires step.Arrive? && step.r.Charged? && Next(s, s', step)
    ensures Admissible(Room(s, step), step.client.Account(), step.now)
    ensures Admissible(Room(s, step), step.client.Ip(), step.now)
  {
    WithoutIsPart(Purge(s.table, step.now), step.gone);
  }

  lemma PostAllIsChargeAll(b: Books, client: Client, now: nat)
    ensures var b' := PostAll(b, client, now);
            && (b'.table, b'.nextRun) == ChargeAll(b.table, b.nextRun, client.All(), now)
            && |b'.ledger| == |b.ledger| + 3 && b.ledger <= b'.ledger
            && Owns(b'.ledger, Attempt(client, |b.ledger|, RunOf(b'.table, client.Ip()), RunOf(b'.table, client.Username())))
  {
    ChargeAllUnfolds(b.table, b.nextRun, client, now);
  }

  /** The newcomer's charges lie beyond everyone else's. */
  lemma NewcomerOwnsItsCharges(s: State, ledger': Ledger, newcomer: Attempt)
    requires Inv(s) && newcomer.base == |s.ledger| && s.ledger <= ledger' && Owns(ledger', newcomer)
    ensures (forall a | a in s.open + {newcomer} :: Owns(ledger', a)) && Apart(s.open + {newcomer})
  {
    forall a | a in s.open ensures Owns(ledger', a) && a.base + 3 <= newcomer.base {
      assert Owns(s.ledger, a);
    }
  }

  lemma ArriveKeepsInv(s: State, s': State, step: Step)
    requires Inv(s) && step.Arrive? && Next(s, s', step)
    ensures Inv(s')
  {
    RoomIsSound(s, s', step);
    if step.r.Charged? {
      ChargedKeepsInv(s, s', step);
    }
  }

  lemma ChargedKeepsInv(s: State, s': State, step: Step)
    requires Inv(s) && step.Arrive? && step.r.Charged? && Next(s, s', step)
    requires Sound(Books(Room(s, step), s.nextRun, s.ledger), step.now)
    ensures Inv(s')
  {
    var b := Books(Room(s, step), s.nextRun, s.ledger);
    ChargedIsAdmissible(s, s', step);
    PostAllKeepsSound(b, step.client, step.now);
    PostAllIsChargeAll(b, step.client, step.now);
    assert Books(s'.table, s'.nextRun, s'.ledger) == PostAll(b, step.client, step.now);
    NewcomerOwnsItsCharges(s, s'.ledger, Attempt(step.client, |s.ledger|, step.r.ipRun, step.r.nameRun));
  }

  lemma SucceedKeepsInv(s: State, s': State, step: Step)
    requires Inv(s) && step.Succeed? && Next(s, s', step)
    ensures Inv(s')
  {
    var a := step.attempt;
    assert Owns(s.ledger, a);
    var b0 := Books(s.table - {a.client.Account()}, s.nextRun, s.ledger);
    DropPairKeepsSound(Books(s.table, s.nextRun, s.ledger), s.clock, a.client.address, a.client.name);
    RefundKeepsSound(b0, s.clock, a.base + 1, a.client.Ip(), a.ipRun);
    var b1 := Books(Refund(b0.table, a.client.Ip(), a.ipRun), s.nextRun, TakeBack(s.ledger, a.base + 1));
    RefundKeepsSound(b1, s.clock, a.base + 2, a.client.Username(), a.nameRun);
    forall o | o in s'.open ensures Owns(s'.ledger, o) {
      assert Owns(s.ledger, o);
    }
  }

  lemma StepKeepsInv(s: State, s': State, step: Step)
    requires Inv(s) && Next(s, s', step)
    ensures Inv(s')
  {
    match step
    case Arrive(_, _, _, _) => ArriveKeepsInv(s, s', step);
    case Succeed(_) => SucceedKeepsInv(s, s', step);
    case GiveUp(_) =>
  }

  ghost predicate Run(states: seq<State>, steps: seq<Step>) {
    && |states| == |steps| + 1 && states[0] == START
    && forall i | 0 <= i < |steps| :: Next(states[i], states[i + 1], steps[i])
  }

  /** Over every run of every interleaving, each counter equals the number of
      charges in its current run not taken back. */
  lemma {:induction false} EveryRunKeepsInv(states: seq<State>, steps: seq<Step>, n: nat)
    requires Run(states, steps) && n < |states|
    ensures Inv(states[n])
  {
    if n == 0 {
      InvAtStart();
    } else {
      EveryRunKeepsInv(states, steps, n - 1);
      StepKeepsInv(states[n - 1], states[n], steps[n - 1]);
    }
  }

  // ---------------------------------------------------------------------
  // What follows for every run
  // ---------------------------------------------------------------------

  /** No network counter exceeds its limit, and no pair counter does. */
  lemma CountersStayWithinLimits(states: seq<State>, steps: seq<Step>, n: nat, k: Key)
    requires Run(states, steps) && n < |states| && k in states[n].table && !k.Name?
    ensures states[n].table[k].failures <= Limit(k)
  {
    EveryRunKeepsInv(states, steps, n);
  }

  predicate InSpan(e: Entry, key: Key, from: nat) {
    e.live && e.key == key && from <= e.time < from + LOGIN_LOCKOUT_SECONDS
  }

  /** Charges to `key` within one lockout from `from`, not taken back. */
  function InWindow(ledger: Ledger, key: Key, from: nat): nat {
    if ledger == [] then 0
    else InWindow(ledger[..|ledger| - 1], key, from) + if InSpan(ledger[|ledger| - 1], key, from) then 1 else 0
  }

  lemma {:induction false} WindowWithinRun(ledger: Ledger, key: Key, from: nat, run: nat)
    requires forall i | 0 <= i < |ledger| && InSpan(ledger[i], key, from) :: ledger[i].run == run
    ensures InWindow(ledger, key, from) <= Live(ledger, key, run)
  {
    if ledger != [] {
      WindowWithinRun(ledger[..|ledger| - 1], key, from, run);
    }
  }

  /** Over every run, a network is never left with more than its limit of
      charges in any span of one lockout: budgets are not reset early, not by
      eviction, not by refunds, and not by a fresh run of failures. */
  lemma NetworkBudgetHolds(states: seq<State>, steps: seq<Step>, n: nat, network: string, from: nat)
    requires Run(states, steps) && n < |states|
    ensures InWindow(states[n].ledger, Network(network), from) <= LOGIN_IP_MAX_FAILURES
  {
    EveryRunKeepsInv(states, steps, n);
    var ledger, key := states[n].ledger, Network(network);
    var run := if i: nat :| i < |ledger| && InSpan(ledger[i], key, from) then ledger[i].run else 0;
    forall i, j | 0 <= i < |ledger| && 0 <= j < |ledger| && InSpan(ledger[i], key, from) && InSpan(ledger[j], key, from)
      ensures ledger[i].run == ledger[j].run
    {
      if i < j { assert ledger[i].time <= ledger[j].time; } else if j < i { assert ledger[j].time <= ledger[i].time; }
    }
    WindowWithinRun(ledger, key, from, run);
    assert Live(ledger, key, run) <= Limit(key);
  }

  /** A network's run that still holds a charge ends only once a whole lockout has passed since its last one. */
  lemma NetworkRunEndsStale(s: State, s': State, step: Step, network: string)
    requires Inv(s) && Next(s, s', step)
    requires Network(network) in s.table && s.table[Network(network)].failures > 0
    requires Network(network) in s'.table ==> s'.table[Network(network)].run != s.table[Network(network)].run
    ensures step.Arrive? && Stale(s.table[Network(network)], step.now)
    ensures forall i | 0 <= i < |s.ledger| && s.ledger[i].live && s.ledger[i].key == Network(network) ::
              Since(step.now, s.ledger[i].time) >= LOGIN_LOCKOUT_SECONDS
  {
    var key := Network(network);
    match step
    case Arrive(client, now, gone, r) =>
      if !Stale(s.table[key], now) {
        StepKeepsNetworkRun(s, s', step, key);
        assert false;
      }
    case Succeed(a) =>
    case GiveUp(a) =>
  }

  lemma StepKeepsNetworkRun(s: State, s': State, step: Step, key: Key)
    requires Inv(s) && step.Arrive? && Next(s, s', step) && key.Network?
    requires key in s.table && s.table[key].failures > 0 && !Stale(s.table[key], step.now)
    ensures key in s'.table && s'.table[key].run == s.table[key].run
  {
    PurgeForgetsStale(s.table, step.now);
    if !step.r.Refused? {
      EvictionForgetsStale(Purge(s.table, step.now), step.gone, step.client, step.now);
      ChargeAllUnfolds(Room(s, step), s.nextRun, step.client, step.now);
    }
  }

  /** A success takes exactly one charge from each of its two shared counters
      that is still in the run it was charged in, and touches no other: not
      one rebuilt after expiry or eviction, and never below zero. */
  lemma SuccessTakesBackItsOwnCharges(s: State, s': State, a: Attempt, k: Key)
    requires Inv(s) && Next(s, s', Succeed(a)) && k in s.table && k != a.client.Account()
    ensures k in s'.table && s'.table[k].run == s.table[k].run && s'.table[k].last == s.table[k].last
    ensures var taken := (k == a.client.Ip() && s.table[k].run == a.ipRun) || (k == a.client.Username() && s.table[k].run == a.nameRun);
            s.table[k].failures == s'.table[k].failures + if taken then 1 else 0
  {
    assert Owns(s.ledger, a);
    var b := Books(s.table, s.nextRun, s.ledger);
    RefundNeverSaturates(b, s.clock, a.base + 1, a.client.Ip(), a.ipRun);
    RefundNeverSaturates(b, s.clock, a.base + 2, a.client.Username(), a.nameRun);
  }

  /** An arrival, whatever becomes of it, lifts nobody's refusal, then or later. */
  lemma ArrivalKeepsRefusals(s: State, s': State, step: Step, client: Client, later: nat)
    requires Inv(s) && step.Arrive? && Next(s, s', step) && step.now <= later
    ensures IsLocked(s.table, client, later) ==> IsLocked(s'.table, client, later)
  {
    AdmissionKeepsRefusals(s.table, s.nextRun, step.client, step.now, step.gone, step.r, s'.table, s'.nextRun, client, later);
  }

  /** Whoever the table refuses now is turned away without a charge. */
  lemma LockedClientIsRefused(s: State, s': State, step: Step)
    requires Inv(s) && step.Arrive? && Next(s, s', step) && IsLocked(s.table, step.client, step.now)
    ensures step.r == Refused && s'.ledger == s.ledger
  {
    PurgeKeepsRefusals(s.table, step.now, step.client, step.now);
  }

  // ---------------------------------------------------------------------
  // A name under attack
  // ---------------------------------------------------------------------

  /** The name has failed too often, wherever from. */
  predicate Tripped(table: Table, name: string, now: nat) {
    Over(table, Name(name), now, LOGIN_ACCOUNT_MAX_FAILURES)
  }

  /** The pair was charged at `since` or later. */
  predicate ChargedSince(table: Table, pair: Key, since: nat) {
    pair in table && table[pair].last >= since
  }

  /** While the name is tripped, no eviction drops the name's counter or a recent pair's. */
  lemma {:induction false} EvictionSparesTripped(table: Table, gone: seq<Key>, client: Client, now: nat, address: string, name: string)
    requires Evicts(table, gone, client, now) && Tripped(table, name, now)
    requires Pair(address, name) in table && !Stale(table[Pair(address, name)], now)
    ensures var left := Without(table, gone);
            && Pair(address, name) in left && left[Pair(address, name)] == table[Pair(address, name)]
            && Name(name) in left && left[Name(name)] == table[Name(name)]
  {
    if gone != [] {
      var before, key := gone[..|gone| - 1], gone[|gone| - 1];
      EvictionSparesTripped(table, before, client, now, address, name);
      assert !HoldsLock(Without(table, before), key, now);
      assert HoldsLock(Without(table, before), Name(name), now);
      assert HoldsLock(Without(table, before), Pair(address, name), now);
    }
  }

  /** Charging an attempt's counters takes none back in time. */
  lemma ChargingKeepsLater(b: Books, client: Client, now: nat, pair: Key, since: nat)
    requires ChargedSince(b.table, pair, since) && since <= now
    ensures ChargedSince(PostAll(b, client, now).table, pair, since)
  {
  }

  lemma ArrivalKeepsPair(s: State, s': State, step: Step, address: string, name: string, since: nat)
    requires Next(s, s', step) && step.Arrive? && ChargedSince(s.table, Pair(address, name), since)
    requires Tripped(s.table, name, step.now) && since <= step.now < since + LOGIN_LOCKOUT_SECONDS
    ensures ChargedSince(s'.table, Pair(address, name), since)
  {
    var kept := Purge(s.table, step.now);
    if !step.r.Refused? {
      EvictionSparesTripped(kept, step.gone, step.client, step.now, address, name);
      PostAllIsChargeAll(Books(Room(s, step), s.nextRun, s.ledger), step.client, step.now);
      ChargingKeepsLater(Books(Room(s, step), s.nextRun, s.ledger), step.client, step.now, Pair(address, name), since);
    }
  }

  lemma SuccessKeepsOtherPair(s: State, s': State, a: Attempt, pair: Key, since: nat)
    requires Next(s, s', Succeed(a)) && ChargedSince(s.table, pair, since) && pair != a.client.Account()
    ensures ChargedSince(s'.table, pair, since)
  {
  }

  /** Steps i + 1 to j neither let the name off nor sign its owner in from this address. */
  ghost predicate UnderAttack(states: seq<State>, steps: seq<Step>, i: nat, j: nat, address: string, name: string)
    requires Run(states, steps) && i < j <= |steps|
  {
    forall k | i < k < j ::
      (steps[k].Arrive? ==> Tripped(states[k].table, name, steps[k].now))
      && (steps[k].Succeed? ==> steps[k].attempt.client.Account() != Pair(address, name))
  }

  lemma {:induction false} ClockRises(states: seq<State>, steps: seq<Step>, i: nat, j: nat)
    requires Run(states, steps) && i <= j < |states|
    ensures states[i].clock <= states[j].clock
    decreases j
  {
    if i < j {
      ClockRises(states, steps, i, j - 1);
      assert Next(states[j - 1], states[j], steps[j - 1]);
    }
  }

  lemma {:induction false} PairStaysCharged(states: seq<State>, steps: seq<Step>, i: nat, j: nat, address: string, name: string, since: nat)
    requires Run(states, steps) && i < j <= |steps| && UnderAttack(states, steps, i, j, address, name)
    requires ChargedSince(states[i + 1].table, Pair(address, name), since) && since == states[i + 1].clock
    requires states[j].clock < since + LOGIN_LOCKOUT_SECONDS
    ensures ChargedSince(states[j].table, Pair(address, name), since)
    decreases j
  {
    if i + 1 < j {
      var k := j - 1;
      ClockRises(states, steps, k, j);
      ClockRises(states, steps, i + 1, k);
      PairStaysCharged(states, steps, i, k, address, name, since);
      assert Next(states[k], states[j], steps[k]);
      match steps[k]
      case Arrive(_, _, _, _) => ArrivalKeepsPair(states[k], states[j], steps[k], address, name, since);
      case Succeed(a) => SuccessKeepsOtherPair(states[k], states[j], a, Pair(address, name), since);
      case GiveUp(_) =>
    }
  }

  lemma ChargedNow(s: State, s': State, step: Step)
    requires Next(s, s', step) && step.Arrive? && step.r.Charged?
    ensures ChargedSince(s'.table, step.client.Account(), step.now) && s'.clock == step.now
  {
    PostAllIsChargeAll(Books(Room(s, step), s.nextRun, s.ledger), step.client, step.now);
  }

  lemma RecentPairIsLocked(table: Table, client: Client, now: nat, since: nat)
    requires ChargedSince(table, client.Account(), since) && Tripped(table, client.name, now)
    requires now < since + LOGIN_LOCKOUT_SECONDS
    ensures IsLocked(Purge(table, now), client, now)
  {
  }

  /** Over every run: while a name stays tripped and its owner does not sign in
      from that address, an address is charged for the name, that is let in to
      guess, at most once a lockout; no eviction gives it another guess. */
  lemma OneGuessPerLockout(states: seq<State>, steps: seq<Step>, i: nat, j: nat, address: string, name: string)
    requires Run(states, steps) && i < j < |steps| && UnderAttack(states, steps, i, j, address, name)
    requires steps[i].Arrive? && steps[i].r.Charged? && steps[i].client.Account() == Pair(address, name)
    requires steps[j].Arrive? && steps[j].r.Charged? && steps[j].client.Account() == Pair(address, name)
    requires Tripped(states[j].table, name, steps[j].now)
    ensures steps[j].now >= steps[i].now + LOGIN_LOCKOUT_SECONDS
  {
    assert Next(states[i], states[i + 1], steps[i]) && Next(states[j], states[j + 1], steps[j]);
    ChargedNow(states[i], states[i + 1], steps[i]);
    if steps[j].now < steps[i].now + LOGIN_LOCKOUT_SECONDS {
      PairStaysCharged(states, steps, i, j, address, name, steps[i].now);
      RecentPairIsLocked(states[j].table, steps[j].client, steps[j].now, steps[i].now);
    }
  }

  lemma RefundSize(table: Table, key: Key, run: nat)
    ensures |Refund(table, key, run)| == |table|
  {
    assert Refund(table, key, run).Keys == table.Keys;
    assert |Refund(table, key, run).Keys| == |Refund(table, key, run)| && |table.Keys| == |table|;
  }

  lemma StepBoundsTable(s: State, s': State, step: Step)
    requires Next(s, s', step) && |s.table| <= LOGIN_THROTTLE_LOCKED_MAX_ENTRIES
    ensures |s'.table| <= LOGIN_THROTTLE_LOCKED_MAX_ENTRIES
  {
    match step
    case Arrive(client, now, gone, r) =>
      if !IsLocked(Purge(s.table, now), client, now) {
        RecordingBoundsTheTable(Purge(s.table, now), s.nextRun, client, now, gone, !r.Full?, s'.table, s'.nextRun);
      }
    case Succeed(a) =>
      var t := s.table - {a.client.Account()};
      SubsetIsNoLarger(t.Keys, s.table.Keys);
      assert |t.Keys| == |t| && |s.table.Keys| == |s.table|;
      RefundSize(t, a.client.Ip(), a.ipRun);
      RefundSize(Refund(t, a.client.Ip(), a.ipRun), a.client.Username(), a.nameRun);
    case GiveUp(_) =>
  }

  ghost predicate WithinHardLimit(s: State) {
    |s.table| <= LOGIN_THROTTLE_LOCKED_MAX_ENTRIES
  }

  lemma StepStaysWithin(states: seq<State>, steps: seq<Step>, i: nat)
    requires Run(states, steps) && i < |steps| && WithinHardLimit(states[i])
    ensures WithinHardLimit(states[i + 1])
  {
    StepBoundsTable(states[i], states[i + 1], steps[i]);
  }

  lemma StartIsWithin()
    ensures WithinHardLimit(START)
  {
  }

  /** The table stays within its hard limit over every run. */
  lemma {:induction false} EveryRunBoundsTable(states: seq<State>, steps: seq<Step>, n: nat)
    requires Run(states, steps) && n < |states|
    ensures WithinHardLimit(states[n])
  {
    if n == 0 {
      StartIsWithin();
    } else {
      EveryRunBoundsTable(states, steps, n - 1);
      StepStaysWithin(states, steps, n - 1);
    }
  }
}
