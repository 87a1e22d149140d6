/** How often an arbitration is restarted. A comment in src/bridge/arbitration.cpp says
    "maximum 2 times"; here is when that holds. */
module BridgeRestarts {
  import opened Words
  import opened BusStates
  import opened Arbitrations
  import opened BusTypes
  import opened BridgeRuns

  /** The restarts of kind v since the last answer. */
  function RestartsSince(attempts: seq<Attempt>, v: ArbState): nat
    decreases |attempts|
  {
    if attempts == [] then 0
    else
      var before, last := RestartsSince(attempts[..|attempts| - 1], v), attempts[|attempts| - 1].verdict;
      if last in {Restart1, Restart2, Arbitrating} then (if last == v then before + 1 else before) else 0
  }

  /** The budget weighs a first-round restart once and a second-round restart twice. */
  lemma {:induction false} SpentIsWeighted(attempts: seq<Attempt>)
    ensures Spent(attempts) == RestartsSince(attempts, Restart1) + 2 * RestartsSince(attempts, Restart2)
    decreases |attempts|
  {
    if attempts != [] {
      SpentIsWeighted(attempts[..|attempts| - 1]);
    }
  }

  lemma SpentInRun(evs: seq<Event>)
    ensures Spent(After(evs).attempts) <= 3
  {
    EveryRunIsSound(evs);
    var run := After(evs);
    if run.bridge.arb.arbitrating {
      var n := |run.attempts| - 1;
      assert run.attempts == run.attempts[..n] + [run.attempts[n]];
      SpentOfPrefix(run.attempts[..n], run.attempts[n]);
      BudgetIsBounded(run.attempts[..n]);
    } else {
      BudgetIsBounded(run.attempts);
    }
  }

  /** The attempts that have ended without an answer since the last answer. */
  function SinceAnswer(attempts: seq<Attempt>): seq<Attempt>
    decreases |attempts|
  {
    if attempts == [] then []
    else
      var before, last := SinceAnswer(attempts[..|attempts| - 1]), attempts[|attempts| - 1];
      match last.verdict
      case Restart1 => before + [last]
      case Restart2 => before + [last]
      case Arbitrating => before
      case _ => []
  }

  /** Nothing was heard but a SYN where the first address belongs. */
  predicate LostFirst(a: Attempt) {
    a.heard == [SYN]
  }

  /** A SYN was heard where the second address belongs. */
  predicate LostSecond(a: Attempt) {
    |a.heard| == 3 && a.heard[0] != SYN && a.heard[0] != a.requested && a.heard[1] == SYN && a.heard[2] == SYN
  }

  lemma RestartIsHeard(a: Attempt, spent: nat)
    requires ProperAttempt(a, spent)
    ensures a.verdict == Restart1 ==> LostFirst(a)
    ensures a.verdict == Restart2 ==> LostSecond(a)
  {
  }

  /** The restarts counted above, one attempt for each. */
  lemma {:induction false} RestartsAreHeard(attempts: seq<Attempt>)
    requires Settled(attempts)
    ensures var since := SinceAnswer(attempts);
      && |since| == RestartsSince(attempts, Restart1) + RestartsSince(attempts, Restart2)
      && (forall k :: 0 <= k < |since| ==> LostFirst(since[k]) || LostSecond(since[k]))
      && (RestartsSince(attempts, Restart2) == 0 <==> forall k :: 0 <= k < |since| ==> LostFirst(since[k]))
    decreases |attempts|
  {
    if attempts != [] {
      var n := |attempts| - 1;
      RestartsAreHeard(attempts[..n]);
      RestartIsHeard(attempts[n], Spent(attempts[..n]));
      OneMoreHeard(SinceAnswer(attempts[..n]), attempts[n], RestartsSince(attempts[..n], Restart2));
    }
  }

  lemma OneMoreHeard(since: seq<Attempt>, a: Attempt, second: nat)
    requires forall k :: 0 <= k < |since| ==> LostFirst(since[k]) || LostSecond(since[k])
    requires second == 0 <==> forall k :: 0 <= k < |since| ==> LostFirst(since[k])
    ensures var all := since + [a];
      && (LostFirst(a) || LostSecond(a) ==> forall k :: 0 <= k < |all| ==> LostFirst(all[k]) || LostSecond(all[k]))
      && (second == 0 && LostFirst(a) <==> forall k :: 0 <= k < |all| ==> LostFirst(all[k]))
  {
    var all := since + [a];
    assert all[|since|] == a && forall k :: 0 <= k < |since| ==> all[k] == since[k];
  }

  lemma OpenIsNoRestart(before: seq<Attempt>, open: Attempt)
    requires open.verdict == Arbitrating
    ensures SinceAnswer(before + [open]) == SinceAnswer(before)
    ensures RestartsSince(before + [open], Restart1) == RestartsSince(before, Restart1)
    ensures RestartsSince(before + [open], Restart2) == RestartsSince(before, Restart2)
  {
    assert (before + [open])[..|before|] == before;
  }

  lemma RestartsInRun(evs: seq<Event>)
    ensures var attempts := After(evs).attempts;
      var since := SinceAnswer(attempts);
      && |since| == RestartsSince(attempts, Restart1) + RestartsSince(attempts, Restart2)
      && (forall k :: 0 <= k < |since| ==> LostFirst(since[k]) || LostSecond(since[k]))
      && (RestartsSince(attempts, Restart2) == 0 <==> forall k :: 0 <= k < |since| ==> LostFirst(since[k]))
  {
    var run := After(evs);
    EveryRunIsSound(evs);
    if run.bridge.arb.arbitrating {
      var n := |run.attempts| - 1;
      assert run.attempts == run.attempts[..n] + [run.attempts[n]];
      OpenIsNoRestart(run.attempts[..n], run.attempts[n]);
      RestartsAreHeard(run.attempts[..n]);
    } else {
      RestartsAreHeard(run.attempts);
    }
  }

  /** At any moment of any run, at most three attempts have been restarted since the last
      answer, each after a SYN where an address belongs. There were more than the two of
      the comment exactly if there were three that heard nothing but that one SYN. */
  lemma MoreThanTwoRestartsExactlyIf(evs: seq<Event>)
    ensures var since := SinceAnswer(After(evs).attempts);
      && |since| <= 3
      && (forall k :: 0 <= k < |since| ==> LostFirst(since[k]) || LostSecond(since[k]))
      && (|since| > 2 <==> |since| == 3 && forall k :: 0 <= k < |since| ==> LostFirst(since[k]))
    ensures var attempts := After(evs).attempts;
      var first, second := RestartsSince(attempts, Restart1), RestartsSince(attempts, Restart2);
      first + second == |SinceAnswer(attempts)| && (first + second > 2 <==> first == 3)
  {
    SpentInRun(evs);
    SpentIsWeighted(After(evs).attempts);
    RestartsInRun(evs);
  }

  // ------------------------------------------------------- it does happen

  function Syn(t: Word): Event {
    Symbol(Input(SYN, t, t, t, false))
  }

  lemma OneMoreAttempt(attempts: seq<Attempt>, x: Attempt, v: ArbState)
    ensures RestartsSince(attempts + [x], v) ==
      if x.verdict in {Restart1, Restart2, Arbitrating}
      then RestartsSince(attempts, v) + if x.verdict == v then 1 else 0
      else 0
  {
    assert (attempts + [x])[..|attempts|] == attempts;
  }

  /** A client's attempt has just started and nothing was heard since. */
  ghost predicate JustStarted(run: Run, spent: nat) {
    && Sound(run)
    && run.bridge.arb.arbitrating && run.bridge.rec.state == ReceivedFirstSyn
    && run.bridge.arb.restartCount == spent
    && run.bridge.reservation.client >= 0
    && run.attempts[|run.attempts| - 1].heard == []
    && RestartsSince(run.attempts, Restart1) == spent
  }

  /** The request stands and nothing has been tried yet. */
  ghost predicate Waiting(run: Run, fd: nat, address: Byte, phase: Phase) {
    && run.attempts == [] && !run.bridge.arb.arbitrating && run.bridge.arb.restartCount == 0
    && run.bridge.rec.state == phase && run.bridge.reservation == Reservation(fd, address)
  }

  lemma WaitsForSecondSyn(run: Run, fd: nat, address: Byte, t: Word)
    requires Waiting(run, fd, address, Startup)
    ensures Waiting(Advance(run, Syn(t)), fd, address, StartupFirstSyn)
  {
  }

  lemma StartsOnSecondSyn(run: Run, fd: nat, address: Byte, t: Word)
    requires Waiting(run, fd, address, StartupFirstSyn) && address != SYN && Sound(Advance(run, Syn(t)))
    ensures JustStarted(Advance(run, Syn(t)), 0)
  {
    var x := Opened(run, Input(SYN, t, t, t, false))[0];
    assert Advance(run, Syn(t)).attempts == [] + [x];
    OneMoreAttempt([], x, Restart1);
  }

  /** A request and two SYNs that start its attempt. */
  function Requested(fd: nat, address: Byte, t: Word): seq<Event> {
    [StartCommand(fd, address), Syn(t), Syn(t)]
  }

  lemma StartedBySyn(fd: nat, address: Byte, t: Word)
    requires address != SYN
    ensures JustStarted(After(Requested(fd, address, t)), 0)
  {
    var one := [StartCommand(fd, address)];
    var two := one + [Syn(t)];
    OneMoreEvent([], StartCommand(fd, address));
    assert [] + [StartCommand(fd, address)] == one;
    OneMoreEvent(one, Syn(t));
    OneMoreEvent(two, Syn(t));
    assert two + [Syn(t)] == Requested(fd, address, t);
    WaitsForSecondSyn(After(one), fd, address, t);
    EveryRunIsSound(two + [Syn(t)]);
    StartsOnSecondSyn(After(two), fd, address, t);
  }

  lemma SynRestarts(b: Bridge, spent: nat, t: Word)
    requires b.arb.arbitrating && b.rec.state == ReceivedFirstSyn && b.arb.restartCount == spent < 3
    requires b.reservation.client >= 0 && b.reservation.address != SYN
    ensures var i := Input(SYN, t, t, t, false);
      && Verdict(b, i).state == Restart1 && Attempted(b, i).result == Started
      && AfterSymbol(b, i).arb.restartCount == spent + 1 && AfterSymbol(b, i).arb.arbitrating
      && AfterSymbol(b, i).rec.state == ReceivedFirstSyn && AfterSymbol(b, i).reservation == b.reservation
  {
  }

  lemma OneMoreRestart(before: seq<Attempt>, open: Attempt, x: Attempt, y: Attempt)
    requires open.verdict == y.verdict == Arbitrating && x.verdict == Restart1
    ensures RestartsSince((before + [x]) + [y], Restart1) == RestartsSince(before + [open], Restart1) + 1
  {
    OneMoreAttempt(before, open, Restart1);
    OneMoreAttempt(before, x, Restart1);
    OneMoreAttempt(before + [x], y, Restart1);
  }

  lemma AttemptsOfRestart(run: Run, i: Input)
    requires run.bridge.arb.arbitrating && run.attempts != []
    requires Verdict(run.bridge, i).state == Restart1 && Attempted(run.bridge, i).result == Started
    ensures var n := |run.attempts| - 1;
      var next := Advance(run, Symbol(i)).attempts;
      && |next| == n + 2 && next == (run.attempts[..n] + [next[n]]) + [next[n + 1]]
      && next[n].verdict == Restart1 && next[n + 1].verdict == Arbitrating && next[n + 1].heard == []
  {
  }

  /** A SYN instead of an address restarts the attempt on that very SYN. */
  lemma RestartedBySyn(evs: seq<Event>, spent: nat, t: Word)
    requires JustStarted(After(evs), spent) && spent < 3
    ensures JustStarted(After(evs + [Syn(t)]), spent + 1)
  {
    var run, i := After(evs), Input(SYN, t, t, t, false);
    var n := |run.attempts| - 1;
    OneMoreEvent(evs, Syn(t));
    EveryRunIsSound(evs + [Syn(t)]);
    LastIsOpen(run);
    SynRestarts(run.bridge, spent, t);
    AttemptsOfRestart(run, i);
    var next := Advance(run, Syn(t)).attempts;
    assert run.attempts == run.attempts[..n] + [run.attempts[n]];
    OneMoreRestart(run.attempts[..n], run.attempts[n], next[n], next[n + 1]);
  }

  function WithSyns(evs: seq<Event>, n: nat, t: Word): seq<Event> {
    if n == 0 then evs else WithSyns(evs, n - 1, t) + [Syn(t)]
  }

  lemma {:induction false} RestartedEachTime(evs: seq<Event>, n: nat, t: Word)
    requires JustStarted(After(evs), 0) && n <= 3
    ensures JustStarted(After(WithSyns(evs, n, t)), n)
  {
    if n > 0 {
      RestartedEachTime(evs, n - 1, t);
      RestartedBySyn(WithSyns(evs, n - 1, t), n - 1, t);
    }
  }

  /** So it happens that there are three restarts, for every client and address: three
      more SYNs, one after the other. */
  lemma ThreeRestartsHappen(fd: nat, address: Byte, t: Word)
    requires address != SYN
    ensures var run := After(WithSyns(Requested(fd, address, t), 3, t));
      RestartsSince(run.attempts, Restart1) == 3 && run.bridge.arb.arbitrating
  {
    StartedBySyn(fd, address, t);
    RestartedEachTime(Requested(fd, address, t), 3, t);
  }
}
