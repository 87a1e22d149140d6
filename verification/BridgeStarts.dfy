/** On which symbols attempts start, told from the symbols that were heard. */
module BridgeStarts {
  import opened Words
  import opened Sequences
  import opened BusStates
  import opened Arbitrations
  import opened BusTypes
  import opened BridgeRuns
  import opened BridgeDelivery

  lemma OneMoreHeard(evs: seq<Event>, e: Event)
    ensures SymbolsOf(evs + [e]) == SymbolsOf(evs) + if e.Symbol? then [e.input.symbol] else []
  {
    assert (evs + [e])[..|evs|] == evs;
  }

  lemma OneEventOfPhase(run: Run, e: Event)
    ensures Advance(run, e).bridge.rec.state ==
      if e.Symbol? then Next(run.bridge.rec.state, e.input.symbol) else run.bridge.rec.state
  {
  }

  /** The phase of the bus in any run is what the symbols of the run mean. */
  lemma {:induction false} PhaseOfRun(evs: seq<Event>)
    ensures After(evs).bridge.rec.state == Reading(SymbolsOf(evs))
    decreases |evs|
  {
    if evs != [] {
      var before, e := evs[..|evs| - 1], evs[|evs| - 1];
      SplitLast([], evs);
      PhaseOfRun(before);
      OneEventOfPhase(After(before), e);
      OneMoreHeard(before, e);
      EmptyIsNeutral(SymbolsOf(before));
      if e.Symbol? {
        NextIsReading(SymbolsOf(before), e.input.symbol);
      }
    }
  }

  lemma FreeSynIsHeard(w: seq<Byte>)
    ensures Reading(w) == ReceivedFirstSyn <==> FreeSyn(w)
  {
    if w != [] && w[|w| - 1] == SYN {
      assert w[..|w|] == w;
    }
  }

  lemma ExtendedKeepsLength(run: Run, i: Input)
    requires Sound(run)
    ensures |Extended(run, i)| == |run.attempts|
  {
  }

  lemma StartedExactlyIf(b: Bridge, i: Input)
    requires b.reservation.client >= 0 ==> b.reservation.address != SYN
    ensures Attempted(b, i).result == Started <==>
      && b.reservation.client >= 0
      && Verdict(b, i).state in {Idle, Restart1, Restart2} && !Verdict(b, i).arb.arbitrating
      && Next(b.rec.state, i.symbol) == ReceivedFirstSyn
      && Elapsed(i.now, i.startBit) <= 4456 && !i.pending
  {
  }

  lemma FreeToStart(b: Bridge, i: Input)
    ensures (Verdict(b, i).state in {Idle, Restart1, Restart2} && !Verdict(b, i).arb.arbitrating)
       <==> (!b.arb.arbitrating || Verdict(b, i).state in {Restart1, Restart2})
  {
    VerdictShape(b, i);
    if b.arb.arbitrating && Verdict(b, i).state != Arbitrating {
      BudgetOfVerdict(b.arb, Observe(b.rec, i.symbol, i.synTime), i.symbol, i.pending);
    }
  }

  /** A symbol starts an attempt exactly if a request stands, nothing is going on or has
      just been restarted, the symbol is the SYN of a free bus, its start bit is said to be
      at most 4456 us old and no other symbol is waiting. */
  lemma AttemptStartsExactlyIf(evs: seq<Event>, i: Input)
    ensures var was, now := After(evs), After(evs + [Symbol(i)]);
      |now.attempts| > |was.attempts| <==>
        && was.bridge.reservation.client >= 0
        && (!was.bridge.arb.arbitrating || Verdict(was.bridge, i).state in {Restart1, Restart2})
        && FreeSyn(SymbolsOf(evs) + [i.symbol])
        && Elapsed(i.now, i.startBit) <= 4456 && !i.pending
  {
    var run := After(evs);
    OneMoreEvent(evs, Symbol(i));
    EveryRunIsSound(evs);
    PhaseOfRun(evs);
    NextIsReading(SymbolsOf(evs), i.symbol);
    FreeSynIsHeard(SymbolsOf(evs) + [i.symbol]);
    ExtendedKeepsLength(run, i);
    StartedExactlyIf(run.bridge, i);
    FreeToStart(run.bridge, i);
  }

  /** So while no SYN of a free bus has been heard, nothing starts and nothing is put on
      the bus by arbitration. */
  lemma {:induction false} NothingStartsBefore(evs: seq<Event>)
    requires forall n :: 0 <= n <= |SymbolsOf(evs)| ==> !FreeSyn(SymbolsOf(evs)[..n])
    ensures After(evs).attempts == [] && After(evs).bridge.written == []
    decreases |evs|
  {
    if evs != [] {
      var before, e := evs[..|evs| - 1], evs[|evs| - 1];
      assert evs == before + [e];
      OneMoreHeard(before, e);
      forall n | 0 <= n <= |SymbolsOf(before)|
        ensures !FreeSyn(SymbolsOf(before)[..n])
      {
        assert SymbolsOf(evs)[..n] == SymbolsOf(before)[..n];
      }
      NothingStartsBefore(before);
      if e.Symbol? {
        assert SymbolsOf(evs)[..|SymbolsOf(evs)|] == SymbolsOf(before) + [e.input.symbol];
        AttemptStartsExactlyIf(before, e.input);
        NothingWritten(before, e.input);
      }
    }
  }

  lemma NothingWritten(before: seq<Event>, i: Input)
    requires After(before).attempts == [] && After(before).bridge.written == []
    requires |After(before + [Symbol(i)]).attempts| == 0
    ensures After(before + [Symbol(i)]).bridge.written == []
  {
    var b := After(before).bridge;
    OneMoreEvent(before, Symbol(i));
    EveryRunIsSound(before);
    VerdictShape(b, i);
    StartShape(b, i);
  }

  /** In particular nothing starts after power-up while all that was heard is a first pair
      SYN x SYN: the second SYN may be that of somebody else's arbitration. */
  lemma NothingStartsInTheFirstPair(evs: seq<Event>, w: seq<Byte>, x: Byte)
    requires SYN !in w && x != SYN && SymbolsOf(evs) <= w + [SYN] + [x] + [SYN]
    ensures After(evs).attempts == [] && After(evs).bridge.written == []
  {
    var all := w + [SYN] + [x] + [SYN];
    FirstPairIsNotFree(w, x);
    forall n | 0 <= n <= |SymbolsOf(evs)|
      ensures !FreeSyn(SymbolsOf(evs)[..n])
    {
      assert SymbolsOf(evs)[..n] == all[..n];
      if n <= |w| {
        assert n > 0 ==> all[..n][n - 1] == w[n - 1];
      } else if n == |w| + 1 {
        assert all[..n] == w + [SYN];
      } else if n == |w| + 2 {
        assert all[..n] == w + [SYN] + [x];
      } else {
        assert all[..n] == all;
      }
    }
    NothingStartsBefore(evs);
  }
}
