/** How long a client can be kept waiting: every attempt is decided within four
    symbols, and a request that is not cancelled and whose restarts start in time is
    answered within eight. */
module BridgeProgress {
  import opened Words
  import opened BusStates
  import opened Arbitrations
  import opened BusTypes
  import opened BridgeRuns

  /** The symbols left until the answer, at worst, for an attempt that has heard
      `heard` symbols with `spent` of the restart budget used. A second-round restart
      costs three symbols and two of the budget, a first-round restart one and one. */
  function SymbolsLeft(spent: nat, heard: nat): nat
    requires spent <= 3 && heard <= 3
  {
    if heard == 3 then 1
    else if heard >= 1 then (if spent == 0 then 6 else if spent == 1 then 5 else 2) + 2 - heard
    else if spent == 0 then 8
    else if spent == 1 then 7
    else if spent == 2 then 5
    else 4
  }

  function HeardIn(phase: Phase): nat {
    match phase
    case ReceivedAddressAfterFirstSyn => 1
    case ReceivedSecondSyn => 2
    case ReceivedAddressAfterSecondSyn => 3
    case _ => 0
  }

  /** Client fd's own attempt is under way and its reservation stands. */
  ghost predicate Underway(b: Bridge, fd: nat) {
    && b.arb.arbitrating
    && b.rec.state in {ReceivedFirstSyn, ReceivedAddressAfterFirstSyn, ReceivedSecondSyn, ReceivedAddressAfterSecondSyn}
    && b.clientFd == fd
    && b.reservation == Reservation(fd, b.arb.address)
    && b.arb.address != SYN
    && 0 <= b.arb.restartCount <= 3
  }

  /** Whenever the attempt has to be restarted, the restart is in the window. */
  predicate RestartsInTime(b: Bridge, inputs: seq<Input>)
    decreases |inputs|
  {
    inputs == [] ||
    var i := inputs[0];
    && (Verdict(b, i).state in {Restart1, Restart2} ==> InTime(i.now, i.startBit) && !i.pending)
    && RestartsInTime(AfterSymbol(b, i), inputs[1..])
  }

  /** Client fd gets its answer during these symbols. */
  predicate Answered(b: Bridge, fd: nat, inputs: seq<Input>)
    decreases |inputs|
  {
    inputs != [] &&
    var i := inputs[0];
    || (Final(Verdict(b, i).state) && b.clientFd == fd)
    || (!Final(Verdict(b, i).state) && Answered(AfterSymbol(b, i), fd, inputs[1..]))
  }

  /** One symbol either answers the client or leaves its request under way with
      fewer symbols to go. */
  lemma OneSymbolCloser(b: Bridge, fd: nat, i: Input)
    requires Underway(b, fd)
    requires Verdict(b, i).state in {Restart1, Restart2} ==> InTime(i.now, i.startBit) && !i.pending
    requires !Final(Verdict(b, i).state)
    ensures var next := AfterSymbol(b, i);
      && Underway(next, fd)
      && SymbolsLeft(next.arb.restartCount, HeardIn(next.rec.state)) <
        SymbolsLeft(b.arb.restartCount, HeardIn(b.rec.state))
  {
    var v := Verdict(b, i);
    if v.state in {Restart1, Restart2} {
      assert Next(b.rec.state, i.symbol) == ReceivedFirstSyn;
      assert Attempted(b, i).result == Started;
    }
  }

  /** A request that is not cancelled and whose restarts all start in time gets its
      started, failed or error answer within eight symbols of its first start. */
  lemma {:induction false} AnswerWithinEight(b: Bridge, fd: nat, inputs: seq<Input>)
    requires Underway(b, fd) && RestartsInTime(b, inputs)
    requires |inputs| >= SymbolsLeft(b.arb.restartCount, HeardIn(b.rec.state))
    ensures Answered(b, fd, inputs)
    decreases |inputs|
  {
    var i := inputs[0];
    if !Final(Verdict(b, i).state) {
      OneSymbolCloser(b, fd, i);
      AnswerWithinEight(AfterSymbol(b, i), fd, inputs[1..]);
    }
  }

  /** Nobody cancels: no start command with SYN among the events. Start commands with
      an address may come from anybody, and clients may be served in between. */
  predicate Uncancelled(evs: seq<Event>) {
    forall k :: 0 <= k < |evs| && evs[k].StartCommand? ==> evs[k].address != SYN
  }

  function SymbolCount(evs: seq<Event>): nat
    decreases |evs|
  {
    if evs == [] then 0 else (if evs[0].Symbol? then 1 else 0) + SymbolCount(evs[1..])
  }

  /** RestartsInTime for events. */
  predicate RestartsInTimeDuring(run: Run, evs: seq<Event>)
    decreases |evs|
  {
    evs == [] ||
    (&& (evs[0].Symbol? && Verdict(run.bridge, evs[0].input).state in {Restart1, Restart2} ==>
           InTime(evs[0].input.now, evs[0].input.startBit) && !evs[0].input.pending)
     && RestartsInTimeDuring(Advance(run, evs[0]), evs[1..]))
  }

  /** Client fd gets its answer during these events. */
  predicate AnsweredDuring(run: Run, fd: nat, evs: seq<Event>)
    decreases |evs|
  {
    evs != [] &&
    (|| (evs[0].Symbol? && Final(Verdict(run.bridge, evs[0].input).state) && run.bridge.clientFd == fd)
     || (!(evs[0].Symbol? && Final(Verdict(run.bridge, evs[0].input).state))
         && AnsweredDuring(Advance(run, evs[0]), fd, evs[1..])))
  }

  /** Pops, and start commands that do not cancel, leave a request under way alone. */
  lemma OthersDoNotDisturb(run: Run, fd: nat, e: Event)
    requires Underway(run.bridge, fd) && !e.Symbol? && (e.StartCommand? ==> e.address != SYN)
    ensures var next := Advance(run, e).bridge;
      Underway(next, fd) && next.arb == run.bridge.arb && next.rec == run.bridge.rec
  {
  }

  /** Whatever else clients do, a request under way that is not cancelled and whose
      restarts start in time is answered once enough symbols came in. */
  lemma {:induction false} AnsweredWhateverClientsDo(run: Run, fd: nat, evs: seq<Event>)
    requires Underway(run.bridge, fd) && Uncancelled(evs) && RestartsInTimeDuring(run, evs)
    requires SymbolCount(evs) >= SymbolsLeft(run.bridge.arb.restartCount, HeardIn(run.bridge.rec.state))
    ensures AnsweredDuring(run, fd, evs)
    decreases |evs|
  {
    var e, rest := evs[0], evs[1..];
    assert Uncancelled(rest) by {
      assert forall k :: 0 <= k < |rest| ==> rest[k] == evs[k + 1];
    }
    if !e.Symbol? {
      OthersDoNotDisturb(run, fd, e);
      AnsweredWhateverClientsDo(Advance(run, e), fd, rest);
    } else if !Final(Verdict(run.bridge, e.input).state) {
      OneSymbolCloser(run.bridge, fd, e.input);
      AnsweredWhateverClientsDo(Advance(run, e), fd, rest);
    }
  }

  /** The whole bound on runs: after any history, an attempt that is running for a
      request that still stands is answered within eight further symbols. */
  lemma EveryStandingRequestIsAnswered(before: seq<Event>, evs: seq<Event>)
    requires var b := After(before).bridge;
      b.arb.arbitrating && b.reservation == Reservation(b.clientFd, b.arb.address)
    requires Uncancelled(evs) && RestartsInTimeDuring(After(before), evs) && SymbolCount(evs) >= 8
    ensures After(before).bridge.clientFd >= 0
    ensures AnsweredDuring(After(before), After(before).bridge.clientFd, evs)
  {
    UncancelledIsUnderway(before);
    AnsweredWhateverClientsDo(After(before), After(before).bridge.clientFd, evs);
  }

  /** Every request under way in a run is under way in this sense, unless it was
      cancelled: the hypothesis of AnswerWithinEight is the reservation alone. */
  lemma UncancelledIsUnderway(evs: seq<Event>)
    requires After(evs).bridge.arb.arbitrating
    requires After(evs).bridge.reservation == Reservation(After(evs).bridge.clientFd, After(evs).bridge.arb.address)
    ensures After(evs).bridge.clientFd >= 0
    ensures Underway(After(evs).bridge, After(evs).bridge.clientFd)
    ensures SymbolsLeft(After(evs).bridge.arb.restartCount, HeardIn(After(evs).bridge.rec.state)) <= 8
  {
    EveryRunIsSound(evs);
    var run := After(evs);
    assert Open(run.bridge, run.attempts[|run.attempts| - 1], Spent(run.attempts[..|run.attempts| - 1]));
  }

  function In(s: Byte, t: Word): Input {
    Input(s, t, t, t, false)
  }

  /** The least favourable symbol: it neither answers the client nor wastes any of
      the symbols left. */
  lemma WorstSymbol(b: Bridge, fd: nat, t: Word) returns (i: Input)
    requires Underway(b, fd) && SymbolsLeft(b.arb.restartCount, HeardIn(b.rec.state)) > 1
    ensures !Final(Verdict(b, i).state) && InTime(i.now, i.startBit) && !i.pending
    ensures Underway(AfterSymbol(b, i), fd)
    ensures var next := AfterSymbol(b, i);
      SymbolsLeft(next.arb.restartCount, HeardIn(next.rec.state)) ==
        SymbolsLeft(b.arb.restartCount, HeardIn(b.rec.state)) - 1
  {
    var spent := b.arb.restartCount;
    var other: Byte := if b.arb.address == 0x10 then 0x33 else 0x10;
    match HeardIn(b.rec.state) {
      case 0 => i := In(if spent in {0, 2} then SYN else other, t);
      case 1 => i := In(SYN, t);
      case _ => i := In(if spent < 2 then SYN else other, t);
    }
    OneSymbolCloser(b, fd, i);
  }

  /** The bound is attained from every state: one symbol less, with every restart in
      time, can leave the client without an answer. */
  lemma {:induction false} OneLessIsNotEnough(b: Bridge, fd: nat, t: Word) returns (inputs: seq<Input>)
    requires Underway(b, fd)
    ensures |inputs| == SymbolsLeft(b.arb.restartCount, HeardIn(b.rec.state)) - 1
    ensures RestartsInTime(b, inputs) && !Answered(b, fd, inputs)
    decreases SymbolsLeft(b.arb.restartCount, HeardIn(b.rec.state))
  {
    if SymbolsLeft(b.arb.restartCount, HeardIn(b.rec.state)) == 1 {
      inputs := [];
    } else {
      var i := WorstSymbol(b, fd, t);
      var rest := OneLessIsNotEnough(AfterSymbol(b, i), fd, t);
      inputs := [i] + rest;
      assert inputs[1..] == rest;
    }
  }
}
