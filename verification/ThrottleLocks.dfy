/** Failures add up: what ends a counter's run, and how many charges in a row
    refuse a pair, refuse a network, or trip a name, over every run. */
module ThrottleLocks {
  import opened Throttle
  import opened ThrottleProtocol

  predicate Evicted(step: Step, key: Key) {
    step.Arrive? && !step.r.Refused? && key in step.gone
  }

  // ---------------------------------------------------------------------
  // What ends a run
  // ---------------------------------------------------------------------

  /** The step finds the counter stale, evicts it, or is the success that clears it. */
  predicate Ends(s: State, step: Step, key: Key)
    requires key in s.table
  {
    match step
    case Arrive(_, now, _, _) => Stale(s.table[key], now) || Evicted(step, key)
    case Succeed(a) => key == a.client.Account()
    case GiveUp(_) => false
  }

  predicate SameRunIn(s: State, s': State, key: Key)
    requires key in s.table
  {
    key in s'.table && s'.table[key].run == s.table[key].run
  }

  lemma {:induction false} EvictedIsGone(table: Table, gone: seq<Key>, client: Client, now: nat, key: Key)
    requires Evicts(table, gone, client, now)
    ensures key in Without(table, gone) <==> key in table && key !in gone
    ensures key in gone ==> key !in client.KeySet()
  {
    if gone != [] {
      var front, last := gone[..|gone| - 1], gone[|gone| - 1];
      EvictedIsGone(table, front, client, now, key);
      assert key in gone <==> key in front || key == last;
    }
  }

  lemma ChargesGoOn(table: Table, nextRun: nat, client: Client, now: nat, key: Key)
    requires key in table && table[key].failures > 0 && !Stale(table[key], now)
    ensures var t := ChargeAll(table, nextRun, client.All(), now).0;
            key in t && t[key].run == table[key].run && (t[key].last == now || t[key].last == table[key].last)
  {
    ChargeAllUnfolds(table, nextRun, client, now);
  }

  lemma ChargesStartAnew(table: Table, nextRun: nat, client: Client, now: nat, key: Key)
    requires key !in table
    ensures var t := ChargeAll(table, nextRun, client.All(), now).0; key in t ==> t[key].run >= nextRun
  {
    ChargeAllUnfolds(table, nextRun, client, now);
  }

  lemma ArrivalGoesOn(s: State, s': State, step: Step, key: Key)
    requires Next(s, s', step) && step.Arrive? && key in s.table && s.table[key].failures > 0
    requires !Ends(s, step, key) && s.table[key].last <= s.clock
    ensures SameRunIn(s, s', key) && s'.table[key].last >= s.table[key].last
  {
    var kept := Purge(s.table, step.now);
    if !step.r.Refused? {
      EvictedIsGone(kept, step.gone, step.client, step.now, key);
      WithoutIsPart(kept, step.gone);
      ChargesGoOn(Without(kept, step.gone), s.nextRun, step.client, step.now, key);
    }
  }

  lemma ArrivalEnds(s: State, s': State, step: Step, key: Key)
    requires Next(s, s', step) && step.Arrive? && key in s.table && s.table[key].run < s.nextRun
    requires Ends(s, step, key)
    ensures !SameRunIn(s, s', key)
  {
    var kept := Purge(s.table, step.now);
    if !step.r.Refused? {
      EvictedIsGone(kept, step.gone, step.client, step.now, key);
      ChargesStartAnew(Without(kept, step.gone), s.nextRun, step.client, step.now, key);
    }
  }

  /** A run with failures left ends exactly when its counter is found stale or is
      evicted, or, for a pair, when its client signs in; and until then its last
      failure is never set back. */
  lemma RunEndsExactly(s: State, s': State, step: Step, key: Key)
    requires Inv(s) && Next(s, s', step) && key in s.table && s.table[key].failures > 0
    ensures SameRunIn(s, s', key) <==> !Ends(s, step, key)
    ensures SameRunIn(s, s', key) ==> s'.table[key].last >= s.table[key].last
  {
    match step
    case Arrive(_, _, _, _) =>
      if Ends(s, step, key) {
        ArrivalEnds(s, s', step, key);
      } else {
        ArrivalGoesOn(s, s', step, key);
      }
    case Succeed(a) =>
    case GiveUp(_) =>
  }

  // ---------------------------------------------------------------------
  // Charges in a row
  // ---------------------------------------------------------------------

  predicate ChargedAt(steps: seq<Step>, k: nat, key: Key) {
    k < |steps| && steps[k].Arrive? && steps[k].r.Charged? && key in steps[k].client.KeySet()
  }

  /** The steps `at` charge the key, each less than a lockout after the one before. */
  ghost predicate Streak(steps: seq<Step>, at: seq<nat>, key: Key) {
    && at != [] && (forall m | 0 <= m < |at| :: ChargedAt(steps, at[m], key))
    && forall l, m | 0 <= l < m == l + 1 < |at| :: at[l] < at[m] && steps[at[m]].now < steps[at[l]].now + LOGIN_LOCKOUT_SECONDS
  }

  /** Between steps i and j no eviction drops the key's counter, and no success
      clears it. A network's needs no such thing: it is neither evicted nor cleared. */
  ghost predicate Undisturbed(steps: seq<Step>, i: nat, j: nat, key: Key)
    requires j <= |steps|
  {
    !key.Network? ==>
      forall k | i < k < j :: !Evicted(steps[k], key) && (steps[k].Succeed? ==> steps[k].attempt.client.Account() != key)
  }

  /** The attempt charged at step k does not succeed before step j. A pair's
      charges are never taken back one by one. */
  ghost predicate NotTakenBack(states: seq<State>, steps: seq<Step>, k: nat, j: nat, key: Key)
    requires k < |states| && j <= |steps|
  {
    !key.Pair? ==> forall l | k < l < j && steps[l].Succeed? :: steps[l].attempt.base != |states[k].ledger|
  }

  ghost predicate Unrefunded(states: seq<State>, steps: seq<Step>, at: seq<nat>, j: nat, key: Key)
    requires j <= |steps| && forall m | 0 <= m < |at| :: at[m] < |states|
  {
    forall m | 0 <= m < |at| :: NotTakenBack(states, steps, at[m], j, key)
  }

  /** Where among its attempt's three charges the one to this key is. */
  function Place(key: Key): nat {
    match key
    case Pair(_, _) => 0
    case Network(_) => 1
    case Name(_) => 2
  }

  lemma ChargeIsEntered(s: State, s': State, step: Step, key: Key)
    requires Next(s, s', step) && step.Arrive? && step.r.Charged? && key in step.client.KeySet()
    ensures key in s'.table && s'.table[key].last == step.now == s'.clock
    ensures Holds(s'.ledger, |s.ledger| + Place(key), key, s'.table[key].run)
  {
    PostAllIsChargeAll(Books(Room(s, step), s.nextRun, s.ledger), step.client, step.now);
  }

  /** An entry stays live unless the attempt it belongs to succeeds. */
  lemma EntryStays(s: State, s': State, step: Step, base: nat, key: Key, run: nat)
    requires Inv(s) && Next(s, s', step) && Holds(s.ledger, base + Place(key), key, run)
    requires step.Succeed? ==> key.Pair? || step.attempt.base != base
    ensures Holds(s'.ledger, base + Place(key), key, run)
  {
    match step
    case Arrive(_, _, _, _) => ArrivalExtends(s, s', step);
    case Succeed(a) => SuccessSpares(s.ledger, a, base, key, run);
    case GiveUp(_) =>
  }

  /** A success takes back entries of its own attempt, and never a pair's. */
  lemma SuccessSpares(ledger: Ledger, a: Attempt, base: nat, key: Key, run: nat)
    requires Owns(ledger, a) && Holds(ledger, base + Place(key), key, run) && (key.Pair? || a.base != base)
    ensures Holds(TakeBack(TakeBack(ledger, a.base + 1), a.base + 2), base + Place(key), key, run)
  {
  }

  lemma ArrivalExtends(s: State, s': State, step: Step)
    requires Next(s, s', step) && step.Arrive?
    ensures s.ledger <= s'.ledger
  {
    PostAllIsChargeAll(Books(Room(s, step), s.nextRun, s.ledger), step.client, step.now);
  }

  lemma FreshNetworkStays(s: State, s': State, step: Step, key: Key)
    requires Next(s, s', step) && key.Network? && key in s.table && (step.Arrive? ==> !Stale(s.table[key], step.now))
    ensures !Evicted(step, key)
  {
    if step.Arrive? && !step.r.Refused? {
      EvictionForgetsStale(Purge(s.table, step.now), step.gone, step.client, step.now);
      EvictedIsGone(Purge(s.table, step.now), step.gone, step.client, step.now, key);
    }
  }

  /** The key's counter is in the run of all these charges, none of which was
      taken back, and was last charged at `since` or later. */
  ghost predicate Standing(states: seq<State>, at: seq<nat>, s: State, key: Key, since: nat)
    requires forall m | 0 <= m < |at| :: at[m] < |states|
  {
    key in s.table && s.table[key].last >= since
    && forall m | 0 <= m < |at| :: Holds(s.ledger, |states[at[m]].ledger| + Place(key), key, s.table[key].run)
  }

  lemma StandingHasFailures(states: seq<State>, at: seq<nat>, s: State, key: Key, since: nat)
    requires at != [] && (forall m | 0 <= m < |at| :: at[m] < |states|)
    requires Inv(s) && Standing(states, at, s, key, since)
    ensures s.table[key].failures > 0
  {
    LiveHasEntry(s.ledger, |states[at[0]].ledger| + Place(key));
  }

  /** One step leaves them standing. */
  lemma StandingGoesOn(states: seq<State>, at: seq<nat>, s: State, s': State, step: Step, key: Key, since: nat)
    requires at != [] && (forall m | 0 <= m < |at| :: at[m] < |states|)
    requires Inv(s) && Next(s, s', step) && Standing(states, at, s, key, since)
    requires step.Arrive? ==> step.now < since + LOGIN_LOCKOUT_SECONDS
    requires !key.Network? ==> !Evicted(step, key) && (step.Succeed? ==> step.attempt.client.Account() != key)
    requires step.Succeed? && !key.Pair? ==> forall m | 0 <= m < |at| :: step.attempt.base != |states[at[m]].ledger|
    ensures Standing(states, at, s', key, since)
  {
    StandingHasFailures(states, at, s, key, since);
    if key.Network? {
      FreshNetworkStays(s, s', step, key);
    }
    RunEndsExactly(s, s', step, key);
    forall m | 0 <= m < |at|
      ensures Holds(s'.ledger, |states[at[m]].ledger| + Place(key), key, s'.table[key].run)
    {
      EntryStays(s, s', step, |states[at[m]].ledger|, key, s.table[key].run);
    }
  }

  lemma StreakFront(steps: seq<Step>, at: seq<nat>, key: Key)
    requires Streak(steps, at, key) && |at| > 1
    ensures Streak(steps, at[..|at| - 1], key)
    ensures var n := |at| - 1; at[n - 1] < at[n] && steps[at[n]].now < steps[at[n - 1]].now + LOGIN_LOCKOUT_SECONDS
  {
    var n := |at| - 1;
    assert n == (n - 1) + 1;
  }

  /** Charges in a row, none taken back, are all in the counter's run while less
      than a lockout has passed since the last of them. */
  lemma {:induction false} StreakStands(states: seq<State>, steps: seq<Step>, at: seq<nat>, j: nat, key: Key)
    requires Run(states, steps) && Streak(steps, at, key) && at[|at| - 1] < j <= |steps|
    requires Undisturbed(steps, at[0], j, key) && Unrefunded(states, steps, at, j, key)
    requires states[j].clock < steps[at[|at| - 1]].now + LOGIN_LOCKOUT_SECONDS
    ensures Standing(states, at, states[j], key, steps[at[|at| - 1]].now)
    decreases j, 0
  {
    var k := j - 1;
    if k > at[|at| - 1] {
      StepOf(states, steps, k);
      UndisturbedBefore(states, steps, at, k, key);
      StreakStands(states, steps, at, k, key);
      StandingGoesOn(states, at, states[k], states[j], steps[k], key, steps[at[|at| - 1]].now);
    } else {
      LastStands(states, steps, at, key);
    }
  }

  lemma LastStands(states: seq<State>, steps: seq<Step>, at: seq<nat>, key: Key)
    requires Run(states, steps) && Streak(steps, at, key) && at[|at| - 1] < |steps|
    requires Undisturbed(steps, at[0], at[|at| - 1] + 1, key) && Unrefunded(states, steps, at, at[|at| - 1] + 1, key)
    ensures Standing(states, at, states[at[|at| - 1] + 1], key, steps[at[|at| - 1]].now)
    decreases at[|at| - 1], 2
  {
    var k := at[|at| - 1];
    StepOf(states, steps, k);
    ChargeIsEntered(states[k], states[k + 1], steps[k], key);
    if |at| > 1 {
      FrontStands(states, steps, at, key);
    }
    FrontAndLast(states, at, states[k + 1], key, if |at| > 1 then steps[at[|at| - 2]].now else 0, steps[k].now);
  }

  lemma StepOf(states: seq<State>, steps: seq<Step>, k: nat)
    requires Run(states, steps) && k < |steps|
    ensures Inv(states[k]) && Next(states[k], states[k + 1], steps[k])
    ensures states[k].clock <= states[k + 1].clock
    ensures steps[k].Arrive? ==> steps[k].now == states[k + 1].clock
    ensures |states[k + 1].ledger| >= |states[k].ledger| + if steps[k].Arrive? && steps[k].r.Charged? then 3 else 0
  {
    EveryRunKeepsInv(states, steps, k);
    StepGrows(states[k], states[k + 1], steps[k]);
  }

  lemma UndisturbedBefore(states: seq<State>, steps: seq<Step>, at: seq<nat>, k: nat, key: Key)
    requires |states| == |steps| + 1 && Streak(steps, at, key) && at[|at| - 1] < k < |steps|
    requires Undisturbed(steps, at[0], k + 1, key) && Unrefunded(states, steps, at, k + 1, key)
    ensures Undisturbed(steps, at[0], k, key) && Unrefunded(states, steps, at, k, key)
    ensures !key.Network? ==> !Evicted(steps[k], key) && (steps[k].Succeed? ==> steps[k].attempt.client.Account() != key)
    ensures steps[k].Succeed? && !key.Pair? ==> forall m | 0 <= m < |at| :: steps[k].attempt.base != |states[at[m]].ledger|
  {
    AtRises(steps, at, key, |at| - 1);
    forall m | 0 <= m < |at|
      ensures NotTakenBack(states, steps, at[m], k, key)
      ensures steps[k].Succeed? && !key.Pair? ==> steps[k].attempt.base != |states[at[m]].ledger|
    {
      assert NotTakenBack(states, steps, at[m], k + 1, key);
    }
  }

  lemma FrontAndLast(states: seq<State>, at: seq<nat>, s: State, key: Key, before: nat, since: nat)
    requires at != [] && (forall m | 0 <= m < |at| :: at[m] < |states|) && key in s.table && s.table[key].last >= since
    requires |at| > 1 ==> Standing(states, at[..|at| - 1], s, key, before)
    requires Holds(s.ledger, |states[at[|at| - 1]].ledger| + Place(key), key, s.table[key].run)
    ensures Standing(states, at, s, key, since)
  {
    forall m | 0 <= m < |at|
      ensures Holds(s.ledger, |states[at[m]].ledger| + Place(key), key, s.table[key].run)
    {
      if m < |at| - 1 {
        assert at[..|at| - 1][m] == at[m];
      }
    }
  }

  /** Until the last charge of a row, the ones before it stand; and after it too. */
  lemma FrontStands(states: seq<State>, steps: seq<Step>, at: seq<nat>, key: Key)
    requires Run(states, steps) && Streak(steps, at, key) && |at| > 1 && at[|at| - 1] < |steps|
    requires Undisturbed(steps, at[0], at[|at| - 1] + 1, key) && Unrefunded(states, steps, at, at[|at| - 1] + 1, key)
    ensures Standing(states, at[..|at| - 1], states[at[|at| - 1] + 1], key, steps[at[|at| - 2]].now)
    decreases at[|at| - 1], 1
  {
    var n := |at| - 1;
    var front, k := at[..n], at[n];
    StreakFront(steps, at, key);
    StepOf(states, steps, k);
    forall m | 0 <= m < n
      ensures NotTakenBack(states, steps, front[m], k + 1, key)
    {
      assert NotTakenBack(states, steps, at[m], k + 1, key);
    }
    UndisturbedBefore(states, steps, front, k, key);
    StreakStands(states, steps, front, k, key);
    StandingGoesOn(states, front, states[k], states[k + 1], steps[k], key, steps[at[n - 1]].now);
  }

  lemma {:induction false} AtRises(steps: seq<Step>, at: seq<nat>, key: Key, m: nat)
    requires Streak(steps, at, key) && m < |at|
    ensures forall l | 0 <= l < m :: at[l] < at[m]
  {
    if m > 0 {
      AtRises(steps, at, key, m - 1);
      assert m == (m - 1) + 1;
    }
  }

  // ---------------------------------------------------------------------
  // Counting them
  // ---------------------------------------------------------------------

  ghost predicate Ascends(s: seq<nat>) {
    forall l, m | 0 <= l < m < |s| :: s[l] < s[m]
  }

  lemma {:induction false} LiveAtLeast(ledger: Ledger, spots: seq<nat>, key: Key, run: nat)
    requires Ascends(spots) && forall m | 0 <= m < |spots| :: Holds(ledger, spots[m], key, run)
    ensures Live(ledger, key, run) >= |spots|
  {
    if spots != [] {
      var last, n := |ledger| - 1, |spots| - 1;
      assert Holds(ledger, spots[n], key, run);
      var before := if spots[n] == last then spots[..n] else spots;
      forall m | 0 <= m < |before| ensures Holds(ledger[..last], before[m], key, run) {
        assert Holds(ledger, spots[m], key, run);
      }
      LiveAtLeast(ledger[..last], before, key, run);
    }
  }

  lemma {:induction false} LedgerGrows(states: seq<State>, i: nat, j: nat)
    requires i <= j < |states| && forall k | 0 <= k < |states| - 1 :: Grown(states, k) >= 0
    ensures |states[i].ledger| <= |states[j].ledger|
    decreases j
  {
    if i < j {
      LedgerGrows(states, i, j - 1);
      assert Grown(states, j - 1) >= 0;
    }
  }

  function Grown(states: seq<State>, k: nat): int
    requires k + 1 < |states|
  {
    |states[k + 1].ledger| - |states[k].ledger|
  }

  lemma StepGrows(s: State, s': State, step: Step)
    requires Next(s, s', step)
    ensures |s'.ledger| >= |s.ledger| + if step.Arrive? && step.r.Charged? then 3 else 0
  {
  }

  function Bases(states: seq<State>, at: seq<nat>, key: Key): (r: seq<nat>)
    requires forall m | 0 <= m < |at| :: at[m] < |states|
    ensures |r| == |at| && forall m | 0 <= m < |r| :: r[m] == |states[at[m]].ledger| + Place(key)
  {
    seq(|at|, m requires 0 <= m < |at| => |states[at[m]].ledger| + Place(key))
  }

  lemma BasesRise(states: seq<State>, steps: seq<Step>, at: seq<nat>, key: Key)
    requires Run(states, steps) && Streak(steps, at, key)
    ensures Ascends(Bases(states, at, key))
  {
    forall k | 0 <= k < |steps| ensures Grown(states, k) >= 0 {
      StepOf(states, steps, k);
    }
    forall l, m | 0 <= l < m < |at|
      ensures |states[at[l]].ledger| < |states[at[m]].ledger|
    {
      AtRises(steps, at, key, m);
      StepOf(states, steps, at[l]);
      LedgerGrows(states, at[l] + 1, at[m]);
    }
  }

  /** Over every run: however other attempts interleave, a row of charges to one
      key, each less than a lockout after the one before and none of them taken
      back, has the key's counter at their number or more until a lockout after
      the last; unless the counter is evicted or, for a pair, cleared. */
  lemma FailuresAddUp(states: seq<State>, steps: seq<Step>, at: seq<nat>, j: nat, key: Key, now: nat)
    requires Run(states, steps) && Streak(steps, at, key) && at[|at| - 1] < j <= |steps|
    requires Undisturbed(steps, at[0], j, key) && Unrefunded(states, steps, at, j, key)
    requires states[j].clock <= now < steps[at[|at| - 1]].now + LOGIN_LOCKOUT_SECONDS
    ensures Over(states[j].table, key, now, |at|)
  {
    StreakStands(states, steps, at, j, key);
    EveryRunKeepsInv(states, steps, j);
    BasesRise(states, steps, at, key);
    StandingCounts(states, at, states[j], key, steps[at[|at| - 1]].now);
  }

  lemma StandingCounts(states: seq<State>, at: seq<nat>, s: State, key: Key, since: nat)
    requires forall m | 0 <= m < |at| :: at[m] < |states|
    requires Inv(s) && Standing(states, at, s, key, since) && Ascends(Bases(states, at, key))
    ensures s.table[key].failures >= |at|
  {
    LiveAtLeast(s.ledger, Bases(states, at, key), key, s.table[key].run);
  }

  /** Five failures in a row from one address against one name refuse the next attempt. */
  lemma PairLocksOut(states: seq<State>, steps: seq<Step>, at: seq<nat>, j: nat, address: string, name: string)
    requires Run(states, steps) && Streak(steps, at, Pair(address, name)) && |at| == LOGIN_MAX_FAILURES
    requires at[|at| - 1] < j < |steps| && steps[j].Arrive? && steps[j].client.Account() == Pair(address, name)
    requires forall k | at[0] < k < j :: !Evicted(steps[k], Pair(address, name))
    requires forall k | at[0] < k < j && steps[k].Succeed? :: steps[k].attempt.client.Account() != Pair(address, name)
    requires steps[j].now < steps[at[|at| - 1]].now + LOGIN_LOCKOUT_SECONDS
    ensures steps[j].r == Refused && states[j + 1].ledger == states[j].ledger
  {
    assert Next(states[j], states[j + 1], steps[j]);
    EveryRunKeepsInv(states, steps, j);
    FailuresAddUp(states, steps, at, j, Pair(address, name), steps[j].now);
    LockedClientIsRefused(states[j], states[j + 1], steps[j]);
  }

  /** Twenty-five from one network, whatever names they try and whatever is
      evicted, refuse the network's next attempt. */
  lemma NetworkLocksOut(states: seq<State>, steps: seq<Step>, at: seq<nat>, j: nat, network: string)
    requires Run(states, steps) && Streak(steps, at, Network(network)) && |at| == LOGIN_IP_MAX_FAILURES
    requires at[|at| - 1] < j < |steps| && steps[j].Arrive? && steps[j].client.Ip() == Network(network)
    requires Unrefunded(states, steps, at, j, Network(network))
    requires steps[j].now < steps[at[|at| - 1]].now + LOGIN_LOCKOUT_SECONDS
    ensures steps[j].r == Refused && states[j + 1].ledger == states[j].ledger
  {
    assert Next(states[j], states[j + 1], steps[j]);
    EveryRunKeepsInv(states, steps, j);
    FailuresAddUp(states, steps, at, j, Network(network), steps[j].now);
    LockedClientIsRefused(states[j], states[j + 1], steps[j]);
  }

  /** Fifty against one name, from wherever, trip it. */
  lemma NameTrips(states: seq<State>, steps: seq<Step>, at: seq<nat>, j: nat, name: string, now: nat)
    requires Run(states, steps) && Streak(steps, at, Name(name)) && |at| == LOGIN_ACCOUNT_MAX_FAILURES
    requires at[|at| - 1] < j <= |steps| && states[j].clock <= now
    requires forall k | at[0] < k < j :: !Evicted(steps[k], Name(name))
    requires Unrefunded(states, steps, at, j, Name(name))
    requires now < steps[at[|at| - 1]].now + LOGIN_LOCKOUT_SECONDS
    ensures Tripped(states[j].table, name, now)
  {
    FailuresAddUp(states, steps, at, j, Name(name), now);
  }

  // ---------------------------------------------------------------------
  // Who is let in
  // ---------------------------------------------------------------------

  /** A counter's last failure is a charge that was made to it. */
  lemma {:induction false} CounterWasCharged(states: seq<State>, steps: seq<Step>, n: nat, key: Key) returns (k: nat)
    requires Run(states, steps) && n < |states| && key in states[n].table
    ensures k < n && ChargedAt(steps, k, key) && steps[k].now == states[n].table[key].last
  {
    k := n - 1;
    StepLast(states, steps, k, key);
    if !ChargedAt(steps, k, key) {
      k := CounterWasCharged(states, steps, k, key);
    }
  }

  lemma StepLast(states: seq<State>, steps: seq<Step>, k: nat, key: Key)
    requires Run(states, steps) && k < |steps| && key in states[k + 1].table
    ensures if ChargedAt(steps, k, key) then states[k + 1].table[key].last == steps[k].now
            else key in states[k].table && states[k + 1].table[key].last == states[k].table[key].last
  {
    var s, s', step := states[k], states[k + 1], steps[k];
    assert Next(s, s', step);
    if ChargedAt(steps, k, key) {
      ChargeIsEntered(s, s', step, key);
    } else {
      StepKeepsLast(s, s', step, key);
    }
  }

  lemma StepKeepsLast(s: State, s': State, step: Step, key: Key)
    requires Next(s, s', step) && key in s'.table
    requires !(step.Arrive? && step.r.Charged? && key in step.client.KeySet())
    ensures key in s.table && s'.table[key].last == s.table[key].last
  {
    if step.Arrive? && !step.r.Refused? {
      WithoutIsPart(Purge(s.table, step.now), step.gone);
      ChargeAllUnfolds(Room(s, step), s.nextRun, step.client, step.now);
    }
  }

  /** An address that has not failed against a name for a lockout is let in to try
      it, though the name be tripped, unless its whole network is refused. */
  lemma CleanAddressIsLetIn(states: seq<State>, steps: seq<Step>, j: nat)
    requires Run(states, steps) && j < |steps| && steps[j].Arrive?
    requires forall k | 0 <= k < j && ChargedAt(steps, k, steps[j].client.Account()) ::
               steps[j].now >= steps[k].now + LOGIN_LOCKOUT_SECONDS
    requires !Over(states[j].table, steps[j].client.Ip(), steps[j].now, LOGIN_IP_MAX_FAILURES)
    ensures steps[j].r != Refused
  {
    assert Next(states[j], states[j + 1], steps[j]);
    var pair := steps[j].client.Account();
    if pair in states[j].table {
      var k := CounterWasCharged(states, steps, j, pair);
      assert Stale(states[j].table[pair], steps[j].now);
    }
  }
}
