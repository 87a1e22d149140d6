/** Who takes part in the second round of arbitration, and who is told to have won it.
    The code compares the address heard in the second round with its own, and does not
    ask whether it has put it there (src/bridge/arbitration.cpp:151-158). */
module BridgeRounds {
  import opened Words
  import opened Sequences
  import opened BusStates
  import opened Arbitrations
  import opened BusTypes
  import opened BridgeRuns
  import opened BridgeRestarts

  /** An attempt that won the second round heard its address there behind any other
      address and a SYN. It had written that address a second time exactly if the other
      one is of its own class and nothing was waiting behind the SYN. */
  ghost predicate WonAsHeard(a: Attempt) {
    && |a.heard| == |a.waiting| == 3
    && a.heard[0] != SYN && a.heard[0] != a.requested && a.heard[1] == SYN && a.heard[2] == a.requested
    && (a.wrote == [Put(0, a.requested), Put(2, a.requested)] <==> SameClass(a.heard[0], a.requested) && !a.waiting[1])
    && (a.wrote == [Put(0, a.requested)] <==> !SameClass(a.heard[0], a.requested) || a.waiting[1])
  }

  lemma WonSecondRound(a: Attempt, spent: nat)
    requires ProperAttempt(a, spent) && a.verdict == Won2
    ensures WonAsHeard(a)
  {
  }

  /** So it is in every run, for every attempt that is reported to have won the second
      round. */
  lemma SecondRoundIsWonAsHeard(evs: seq<Event>, k: nat)
    requires k < |After(evs).attempts| && After(evs).attempts[k].verdict == Won2
    ensures WonAsHeard(After(evs).attempts[k])
  {
    AttemptsFollowTheRule(evs, k);
    WonSecondRound(After(evs).attempts[k], Spent(After(evs).attempts[..k]));
  }

  // ----------------------------------------------------------- it does happen

  function Heard(s: Byte, t: Word, pending: bool): Input {
    Input(s, t, t, t, pending)
  }

  /** The run has one attempt, which is still open. */
  ghost predicate OnlyAttempt(run: Run, a: Attempt) {
    run.attempts == [a] && Open(run.bridge, a, 0)
  }

  lemma FirstStarts(run: Run, fd: nat, address: Byte, t: Word)
    requires Waiting(run, fd, address, StartupFirstSyn) && address != SYN
    ensures OnlyAttempt(Advance(run, Syn(t)), Begin(Reservation(fd, address), [address]))
  {
    var i := Heard(SYN, t, false);
    StartOpens(run.bridge, i, 0);
    EmptyIsNeutral(Opened(run, i));
  }

  lemma RequestStarts(fd: nat, address: Byte, t: Word)
    requires address != SYN
    ensures OnlyAttempt(After(Requested(fd, address, t)), Begin(Reservation(fd, address), [address]))
  {
    var one := [StartCommand(fd, address)];
    var two := one + [Syn(t)];
    OneMoreEvent([], StartCommand(fd, address));
    EmptyIsNeutral(one);
    OneMoreEvent(one, Syn(t));
    OneMoreEvent(two, Syn(t));
    assert two + [Syn(t)] == Requested(fd, address, t);
    WaitsForSecondSyn(After(one), fd, address, t);
    FirstStarts(After(two), fd, address, t);
  }

  lemma ExtendedAlone(run: Run, a: Attempt, i: Input)
    requires OnlyAttempt(run, a)
    ensures Extended(run, i) == [Extend(a, i, Verdict(run.bridge, i))]
  {
    assert run.attempts[..0] == [];
    EmptyIsNeutral([Extend(a, i, Verdict(run.bridge, i))]);
  }

  lemma GoesOn(run: Run, a: Attempt, i: Input)
    requires OnlyAttempt(run, a) && Verdict(run.bridge, i).state == Arbitrating
    ensures OnlyAttempt(Advance(run, Symbol(i)), Extend(a, i, Verdict(run.bridge, i)))
  {
    ExtendedAlone(run, a, i);
    ExtendKeepsOpen(run.bridge, a, 0, i);
    ListeningGoesOn(run.bridge, a.requested, a.heard, i);
    EmptyIsNeutral(Extended(run, i));
  }

  /** A request that is started, hears x and then SYN, behind which another symbol may be
      waiting, and then its own address. */
  function WonBehind(fd: nat, address: Byte, x: Byte, waiting: bool, t: Word): seq<Event> {
    Requested(fd, address, t)
    + [Symbol(Heard(x, t, false)), Symbol(Heard(SYN, t, waiting)), Symbol(Heard(address, t, false))]
  }

  lemma WonBehindSteps(fd: nat, address: Byte, x: Byte, waiting: bool, t: Word)
    ensures After(WonBehind(fd, address, x, waiting, t)) ==
      Advance(Advance(Advance(After(Requested(fd, address, t)), Symbol(Heard(x, t, false))),
                      Symbol(Heard(SYN, t, waiting))), Symbol(Heard(address, t, false)))
  {
    var asked := Requested(fd, address, t);
    var (e1, e2, e3) := (Symbol(Heard(x, t, false)), Symbol(Heard(SYN, t, waiting)), Symbol(Heard(address, t, false)));
    OneMoreEvent(asked, e1);
    OneMoreEvent(asked + [e1], e2);
    OneMoreEvent((asked + [e1]) + [e2], e3);
    assert ((asked + [e1]) + [e2]) + [e3] == WonBehind(fd, address, x, waiting, t);
  }

  function SecondPut(address: Byte, x: Byte, waiting: bool): seq<Put> {
    if SameClass(x, address) && !waiting then [Put(2, address)] else []
  }

  /** The attempt when the second SYN has come. */
  function AtSecondSyn(fd: nat, address: Byte, x: Byte, waiting: bool): Attempt {
    Attempt(fd, address, [x, SYN], [false, waiting], [Put(0, address)] + SecondPut(address, x, waiting), Arbitrating)
  }

  lemma UntilSecondSyn(run: Run, fd: nat, address: Byte, x: Byte, waiting: bool, t: Word)
    requires OnlyAttempt(run, Begin(Reservation(fd, address), [address])) && x != SYN && x != address && address != SYN
    ensures OnlyAttempt(Advance(Advance(run, Symbol(Heard(x, t, false))), Symbol(Heard(SYN, t, waiting))),
                        AtSecondSyn(fd, address, x, waiting))
  {
    var a0 := Begin(Reservation(fd, address), [address]);
    var (i1, i2) := (Heard(x, t, false), Heard(SYN, t, waiting));
    VerdictIsRuling(run.bridge, address, [], i1);
    WritesOfVerdict(run.bridge, address, [], i1);
    assert [] + [x] == [x];
    GoesOn(run, a0, i1);
    var run1 := Advance(run, Symbol(i1));
    var a1 := Extend(a0, i1, Verdict(run.bridge, i1));
    assert a1 == Attempt(fd, address, [x], [false], [Put(0, address)], Arbitrating);
    VerdictIsRuling(run1.bridge, address, [x], i2);
    WritesOfVerdict(run1.bridge, address, [x], i2);
    assert [x] + [SYN] == [x, SYN];
    GoesOn(run1, a1, i2);
    assert Extend(a1, i2, Verdict(run1.bridge, i2)) == AtSecondSyn(fd, address, x, waiting);
  }

  lemma OwnAddressWins(run: Run, fd: nat, address: Byte, x: Byte, waiting: bool, t: Word)
    requires OnlyAttempt(run, AtSecondSyn(fd, address, x, waiting))
    ensures var now := Advance(run, Symbol(Heard(address, t, false)));
      && now.attempts ==
         [Attempt(fd, address, [x, SYN, address], [false, waiting, false],
                  [Put(0, address)] + SecondPut(address, x, waiting), Won2)]
      && now.bridge.queue == run.bridge.queue +
         [Item(true, STARTED, address, fd, fd), Item(false, RECEIVED, address, fd, fd)]
  {
    var (a, i) := (AtSecondSyn(fd, address, x, waiting), Heard(address, t, false));
    VerdictIsRuling(run.bridge, address, [x, SYN], i);
    WritesOfVerdict(run.bridge, address, [x, SYN], i);
    assert [x, SYN] + [address] == [x, SYN, address];
    ExtendedAlone(run, a, i);
    var b := Extend(a, i, Verdict(run.bridge, i));
    EmptyIsNeutral(a.wrote);
    assert b.waiting == [false, waiting, false];
    assert b.heard == [x, SYN, address];
    assert b.wrote == a.wrote;
    assert b.verdict == Won2;
    EmptyIsNeutral([b]);
    AnswerToWinner(run.bridge, fd, address, [x, SYN], i);
  }

  lemma AnswerToWinner(b: Bridge, fd: nat, address: Byte, heard: seq<Byte>, i: Input)
    requires Listening(b, address, heard) && |heard| == 2 && b.clientFd == fd && i.symbol == address
    ensures Attempted(b, i).result != Started
    ensures AfterSymbol(b, i).queue == b.queue
      + [Item(true, STARTED, address, fd, fd), Item(false, RECEIVED, address, fd, fd)]
  {
  }

  /** For every client, address and other address x there is such a run, and its client is
      told to have started. Behind an address of another class, or with a symbol waiting,
      the attempt has written nothing in the round it won. */
  lemma SecondRoundCanBeWonUnasked(fd: nat, address: Byte, x: Byte, waiting: bool, t: Word)
    requires address != SYN && x != SYN && x != address
    ensures var run := After(WonBehind(fd, address, x, waiting, t));
      && run.attempts ==
         [Attempt(fd, address, [x, SYN, address], [false, waiting, false],
                  [Put(0, address)] + SecondPut(address, x, waiting), Won2)]
      && Item(true, STARTED, address, fd, fd) in run.bridge.queue
  {
    var asked := After(Requested(fd, address, t));
    WonBehindSteps(fd, address, x, waiting, t);
    RequestStarts(fd, address, t);
    UntilSecondSyn(asked, fd, address, x, waiting, t);
    var run := Advance(Advance(asked, Symbol(Heard(x, t, false))), Symbol(Heard(SYN, t, waiting)));
    OwnAddressWins(run, fd, address, x, waiting, t);
    var items := [Item(true, STARTED, address, fd, fd), Item(false, RECEIVED, address, fd, fd)];
    assert (run.bridge.queue + items)[|run.bridge.queue|] == items[0];
  }
}
