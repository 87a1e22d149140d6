/** Conservation over whole runs of the bridge: statistics, symbols on the wire,
    and what each client gets to see. */
module BridgeLedger {
  import opened Words
  import opened BusStates
  import opened Arbitrations
  import opened BusTypes
  import opened BridgeRuns

  // ------------------------------------------------------------- statistics

  function CountOf(attempts: seq<Attempt>, v: ArbState): nat
    decreases |attempts|
  {
    if attempts == [] then 0
    else CountOf(attempts[..|attempts| - 1], v) + if attempts[|attempts| - 1].verdict == v then 1 else 0
  }

  lemma CountOfAppend(attempts: seq<Attempt>, x: Attempt, v: ArbState)
    ensures CountOf(attempts + [x], v) == CountOf(attempts, v) + if x.verdict == v then 1 else 0
  {
    assert (attempts + [x])[..|attempts|] == attempts;
  }

  /** Number of attempts that ended, one way or another. */
  function Ended(attempts: seq<Attempt>): nat {
    CountOf(attempts, Won1) + CountOf(attempts, Won2) + CountOf(attempts, Lost1) + CountOf(attempts, Lost2)
    + CountOf(attempts, Error) + CountOf(attempts, Restart1) + CountOf(attempts, Restart2)
  }

  /** The 32-bit statistics are the wrapped counts of the history. */
  ghost predicate Tallied(c: Counters, attempts: seq<Attempt>) {
    && c.arbitrations == ToInt32(|attempts|)
    && c.won1 == ToInt32(CountOf(attempts, Won1))
    && c.won2 == ToInt32(CountOf(attempts, Won2))
    && c.lost1 == ToInt32(CountOf(attempts, Lost1))
    && c.lost2 == ToInt32(CountOf(attempts, Lost2))
    && c.errors == ToInt32(CountOf(attempts, Error))
    && c.restarts1 == ToInt32(CountOf(attempts, Restart1))
    && c.restarts2 == ToInt32(CountOf(attempts, Restart2))
  }

  lemma CountOfReplaced(before: seq<Attempt>, open: Attempt, x: Attempt, v: ArbState)
    requires open.verdict == Arbitrating != v
    ensures CountOf(before + [x], v) == CountOf(before + [open], v) + if x.verdict == v then 1 else 0
  {
    CountOfAppend(before, x, v);
    CountOfAppend(before, open, v);
  }

  lemma TallyVerdict(c: Counters, before: seq<Attempt>, open: Attempt, x: Attempt)
    requires Tallied(c, before + [open]) && open.verdict == Arbitrating && x.verdict != Idle
    ensures Tallied(Count(c, x.verdict, NotStarted), before + [x])
  {
    CountOfReplaced(before, open, x, Won1);
    CountOfReplaced(before, open, x, Won2);
    CountOfReplaced(before, open, x, Lost1);
    CountOfReplaced(before, open, x, Lost2);
    CountOfReplaced(before, open, x, Error);
    CountOfReplaced(before, open, x, Restart1);
    CountOfReplaced(before, open, x, Restart2);
    if x.verdict != Arbitrating {
      BumpCounts(CountOf(before + [open], x.verdict));
    }
  }

  lemma TallyStart(c: Counters, attempts: seq<Attempt>, x: Attempt)
    requires Tallied(c, attempts) && x.verdict == Arbitrating
    ensures Tallied(Count(c, Idle, Started), attempts + [x])
  {
    forall v: ArbState
      ensures CountOf(attempts + [x], v) == CountOf(attempts, v) + if v == Arbitrating then 1 else 0
    {
      CountOfAppend(attempts, x, v);
    }
    BumpCounts(|attempts|);
  }

  /** Number of starts that came too late. */
  function Lates(starts: seq<StartResult>): nat
    decreases |starts|
  {
    if starts == [] then 0
    else Lates(starts[..|starts| - 1]) + if starts[|starts| - 1] == Late then 1 else 0
  }

  lemma LatesAppend(starts: seq<StartResult>, x: StartResult)
    ensures Lates(starts + [x]) == Lates(starts) + if x == Late then 1 else 0
  {
    assert (starts + [x])[..|starts|] == starts;
  }

  /** A start is recorded as late exactly if one is due and the window is missed: the
      request stands, nothing is going on after the verdict, the bus has just seen the
      SYN of a free bus, and the start bit is too old or a symbol is waiting. */
  lemma LateExactlyIf(b: Bridge, i: Input)
    ensures Attempted(b, i).result == Late <==>
      && b.reservation.client >= 0 && b.reservation.address != SYN
      && Verdict(b, i).state in {Idle, Restart1, Restart2} && !Verdict(b, i).arb.arbitrating
      && Next(b.rec.state, i.symbol) == ReceivedFirstSyn
      && (!InTime(i.now, i.startBit) || i.pending)
  {
  }

  lemma CountOfLate(c: Counters, v: ArbState, st: StartResult)
    ensures Count(c, v, st).late == if st == Late then Bump(c.late) else c.late
  {
  }

  lemma LateOfSymbol(run: Run, i: Input)
    requires run.bridge.counters.late == ToInt32(Lates(run.starts))
    ensures var next := Advance(run, Symbol(i)); next.bridge.counters.late == ToInt32(Lates(next.starts))
  {
    CountOfLate(run.bridge.counters, Verdict(run.bridge, i).state, Attempted(run.bridge, i).result);
    LatesAppend(run.starts, Attempted(run.bridge, i).result);
    BumpCounts(Lates(run.starts));
  }

  lemma {:induction false} LateStartsAreCounted(evs: seq<Event>)
    ensures After(evs).bridge.counters.late == ToInt32(Lates(After(evs).starts))
    decreases |evs|
  {
    if evs != [] {
      LateStartsAreCounted(evs[..|evs| - 1]);
      match evs[|evs| - 1] {
        case StartCommand(fd, address) =>
        case Pop =>
        case Symbol(i) => LateOfSymbol(After(evs[..|evs| - 1]), i);
      }
    }
  }

  lemma {:induction false} AttemptsAreTallied(evs: seq<Event>)
    ensures Tallied(After(evs).bridge.counters, After(evs).attempts)
    decreases |evs|
  {
    if evs != [] {
      var run := After(evs[..|evs| - 1]);
      AttemptsAreTallied(evs[..|evs| - 1]);
      EveryRunIsSound(evs[..|evs| - 1]);
      match evs[|evs| - 1] {
        case StartCommand(fd, address) =>
        case Pop =>
        case Symbol(i) => TallySymbol(run, i);
      }
    }
  }

  /** All nine counters follow the history of every run: eight the attempts, the ninth
      the starts that came too late. */
  lemma EveryRunIsTallied(evs: seq<Event>)
    ensures Tallied(After(evs).bridge.counters, After(evs).attempts)
    ensures After(evs).bridge.counters.late == ToInt32(Lates(After(evs).starts))
  {
    AttemptsAreTallied(evs);
    LateStartsAreCounted(evs);
  }

  lemma TallyGrown(c: Counters, was: seq<Attempt>, ext: seq<Attempt>, arbitrating: bool, i: Input, v: DataEffect)
    requires Tallied(c, was) && Grown(was, ext, arbitrating, i, v)
    ensures Tallied(Count(c, v.state, NotStarted), ext)
  {
    if arbitrating {
      var n := |was| - 1;
      assert was == was[..n] + [was[n]] && ext == was[..n] + [ext[n]];
      TallyVerdict(c, was[..n], was[n], ext[n]);
    }
  }

  lemma TallyBegun(c: Counters, ext: seq<Attempt>, begun: seq<Attempt>, st: StartResult, sw: seq<Byte>)
    requires Tallied(c, ext) && Begun(begun, st, sw)
    ensures Tallied(Count(c, Idle, st), ext + begun)
  {
    if st == Started {
      assert begun == [begun[0]];
      TallyStart(c, ext, begun[0]);
    } else {
      assert ext + begun == ext;
    }
  }

  lemma TallySymbol(run: Run, i: Input)
    requires Sound(run) && Tallied(run.bridge.counters, run.attempts)
    ensures var next := Advance(run, Symbol(i)); Tallied(next.bridge.counters, next.attempts)
  {
    var v, st := Verdict(run.bridge, i), Attempted(run.bridge, i);
    SymbolStep(run, i);
    TallyGrown(run.bridge.counters, run.attempts, Extended(run, i), run.bridge.arb.arbitrating, i, v);
    TallyBegun(Count(run.bridge.counters, v.state, NotStarted), Extended(run, i), Opened(run, i), st.result, st.writes);
  }

  lemma EndedAppend(before: seq<Attempt>, x: Attempt)
    ensures Ended(before + [x]) == Ended(before) + if x.verdict in {Arbitrating, Idle} then 0 else 1
  {
    CountOfAppend(before, x, Won1);
    CountOfAppend(before, x, Won2);
    CountOfAppend(before, x, Lost1);
    CountOfAppend(before, x, Lost2);
    CountOfAppend(before, x, Error);
    CountOfAppend(before, x, Restart1);
    CountOfAppend(before, x, Restart2);
  }

  lemma {:induction false} SettledHasNoOpen(attempts: seq<Attempt>)
    requires Settled(attempts)
    ensures |attempts| == Ended(attempts)
    decreases |attempts|
  {
    if attempts == [] {
      assert Ended(attempts) == 0;
    } else {
      var n := |attempts| - 1;
      SettledHasNoOpen(attempts[..n]);
      SettledAt(attempts, n);
      EndedAppend(attempts[..n], attempts[n]);
      assert attempts == attempts[..n] + [attempts[n]];
    }
  }

  /** Conservation of attempts: in every reachable state the attempts begun are the
      attempts won, lost, failed or restarted plus the one in progress. */
  lemma AttemptsBalance(evs: seq<Event>)
    ensures var run := After(evs);
      |run.attempts| == Ended(run.attempts) + if run.bridge.arb.arbitrating then 1 else 0
  {
    EveryRunIsSound(evs);
    AccountedBalance(After(evs).bridge, After(evs).attempts);
  }

  lemma AccountedBalance(b: Bridge, attempts: seq<Attempt>)
    requires Accounted(b, attempts)
    ensures |attempts| == Ended(attempts) + if b.arb.arbitrating then 1 else 0
  {
    if b.arb.arbitrating {
      var n := |attempts| - 1;
      SettledHasNoOpen(attempts[..n]);
      EndedAppend(attempts[..n], attempts[n]);
      assert attempts == attempts[..n] + [attempts[n]];
    } else {
      SettledHasNoOpen(attempts);
    }
  }

  /** What the device's statistics say has ended, plus the attempt in progress. */
  function Reported(c: Counters, arbitrating: bool): int {
    c.won1 + c.won2 + c.lost1 + c.lost2 + c.errors + c.restarts1 + c.restarts2 + if arbitrating then 1 else 0
  }

  /** `begun` attempts were begun and the statistics account for all of them: exactly
      while fewer than 2^31 were begun, and modulo 2^32 for ever. */
  ghost predicate Balanced(c: Counters, begun: nat, arbitrating: bool) {
    && (begun < TWO31 ==> c.arbitrations == Reported(c, arbitrating))
    && (c.arbitrations - Reported(c, arbitrating)) % TWO32 == 0
  }

  /** The same balance on the statistics the device reports. */
  lemma StatisticsBalance(evs: seq<Event>)
    ensures Balanced(After(evs).bridge.counters, |After(evs).attempts|, After(evs).bridge.arb.arbitrating)
  {
    EveryRunIsTallied(evs);
    AttemptsBalance(evs);
    TalliedBalance(After(evs).bridge.counters, After(evs).attempts, After(evs).bridge.arb.arbitrating);
  }

  lemma TalliedBalance(c: Counters, a: seq<Attempt>, arbitrating: bool)
    requires Tallied(c, a) && |a| == Ended(a) + if arbitrating then 1 else 0
    ensures Balanced(c, |a|, arbitrating)
  {
    var t := Ended(a) + if arbitrating then 1 else 0;
    var k := ReportedModulo(c, a, arbitrating);
    var k0 := ModuloOfInt32(t);
    assert c.arbitrations - Reported(c, arbitrating) == 0 + (k - k0) * TWO32;
    WrapShift(0, k - k0);
    if |a| < TWO31 {
      SmallCountsAreExact(|a|);
      ReportedExactly(c, a);
    }
  }

  lemma ReportedExactly(c: Counters, a: seq<Attempt>)
    requires Tallied(c, a) && Ended(a) < TWO31
    ensures Reported(c, false) == Ended(a)
  {
    SmallCountsAreExact(CountOf(a, Won1));
    SmallCountsAreExact(CountOf(a, Won2));
    SmallCountsAreExact(CountOf(a, Lost1));
    SmallCountsAreExact(CountOf(a, Lost2));
    SmallCountsAreExact(CountOf(a, Error));
    SmallCountsAreExact(CountOf(a, Restart1));
    SmallCountsAreExact(CountOf(a, Restart2));
  }

  lemma ReportedModulo(c: Counters, a: seq<Attempt>, arbitrating: bool) returns (k: int)
    requires Tallied(c, a)
    ensures Reported(c, arbitrating) == Ended(a) + (if arbitrating then 1 else 0) - k * TWO32
  {
    var k1 := ModuloOfInt32(CountOf(a, Won1));
    var k2 := ModuloOfInt32(CountOf(a, Won2));
    var k3 := ModuloOfInt32(CountOf(a, Lost1));
    var k4 := ModuloOfInt32(CountOf(a, Lost2));
    var k5 := ModuloOfInt32(CountOf(a, Error));
    var k6 := ModuloOfInt32(CountOf(a, Restart1));
    var k7 := ModuloOfInt32(CountOf(a, Restart2));
    k := k1 + k2 + k3 + k4 + k5 + k6 + k7;
  }

  lemma ModuloOfInt32(n: nat) returns (k: int)
    ensures ToInt32(n) == n - k * TWO32
  {
    k := (n + TWO31) / TWO32;
  }

  // ------------------------------------------------------- symbols on the wire

  function Symbols(ps: seq<Put>): seq<Byte> {
    seq(|ps|, k requires 0 <= k < |ps| => ps[k].symbol)
  }

  function Wire(attempts: seq<Attempt>): seq<Byte>
    decreases |attempts|
  {
    if attempts == [] then []
    else Wire(attempts[..|attempts| - 1]) + Symbols(attempts[|attempts| - 1].wrote)
  }

  lemma WireAppend(attempts: seq<Attempt>, x: Attempt)
    ensures Wire(attempts + [x]) == Wire(attempts) + Symbols(x.wrote)
  {
    assert (attempts + [x])[..|attempts|] == attempts;
  }

  /** Everything arbitration ever put on the wire belongs to some attempt, in
      order; with AttemptsFollowTheRule that is at most two symbols per attempt, all
      of them the requested address. */
  lemma {:induction false} WireBelongsToAttempts(evs: seq<Event>)
    ensures After(evs).bridge.written == Wire(After(evs).attempts)
    decreases |evs|
  {
    if evs != [] {
      var run := After(evs[..|evs| - 1]);
      WireBelongsToAttempts(evs[..|evs| - 1]);
      EveryRunIsSound(evs[..|evs| - 1]);
      match evs[|evs| - 1] {
        case StartCommand(fd, address) =>
        case Pop =>
        case Symbol(i) => WireOfSymbol(run, i);
      }
    }
  }

  lemma WireGrown(was: seq<Attempt>, ext: seq<Attempt>, arbitrating: bool, i: Input, v: DataEffect)
    requires Grown(was, ext, arbitrating, i, v)
    ensures Wire(ext) == Wire(was) + v.writes
  {
    if arbitrating {
      var n := |was| - 1;
      assert was == was[..n] + [was[n]] && ext == was[..n] + [ext[n]];
      WireAppend(was[..n], was[n]);
      WireAppend(was[..n], ext[n]);
      assert Symbols(ext[n].wrote) == Symbols(was[n].wrote) + v.writes;
    }
  }

  lemma WireBegun(ext: seq<Attempt>, begun: seq<Attempt>, st: StartResult, sw: seq<Byte>)
    requires Begun(begun, st, sw)
    ensures Wire(ext + begun) == Wire(ext) + sw
  {
    if st == Started {
      assert begun == [begun[0]];
      WireAppend(ext, begun[0]);
      assert Symbols(begun[0].wrote) == sw;
    } else {
      assert ext + begun == ext;
    }
  }

  lemma WireOfSymbol(run: Run, i: Input)
    requires Sound(run) && run.bridge.written == Wire(run.attempts)
    ensures var next := Advance(run, Symbol(i)); next.bridge.written == Wire(next.attempts)
  {
    var v, st := Verdict(run.bridge, i), Attempted(run.bridge, i);
    SymbolStep(run, i);
    WireGrown(run.attempts, Extended(run, i), run.bridge.arb.arbitrating, i, v);
    WireBegun(Extended(run, i), Opened(run, i), st.result, st.writes);
  }
}
