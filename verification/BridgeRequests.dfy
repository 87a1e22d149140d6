/** What becomes of a request. A request is a client with the address it asked for. It
    stands while the reservation is for it, and it runs while the attempt is for it; any
    client's start command with SYN takes the reservation away and leaves the attempt. */
module BridgeRequests {
  import opened Words
  import opened Sequences
  import opened BusStates
  import opened Arbitrations
  import opened BusTypes
  import opened BridgeRuns
  import opened BridgeRestarts
  import opened BridgeRounds

  datatype Request = Request(fd: nat, address: Byte)

  predicate Running(b: Bridge, q: Request) {
    b.arb.arbitrating && b.clientFd == q.fd && b.arb.address == q.address
  }

  predicate Standing(b: Bridge, q: Request) {
    b.reservation == Reservation(q.fd, q.address)
  }

  predicate Alive(b: Bridge, q: Request) {
    Running(b, q) || Standing(b, q)
  }

  /** The symbol of the receipt has brought the answer to this very request, not to
      another one of the same client. */
  predicate Answers(r: Receipt, q: Request) {
    && r.attempt.Some? && Final(r.verdict)
    && r.attempt.value.owner == q.fd && r.attempt.value.requested == q.address
  }

  function LastReceipt(run: Run): Receipt
    requires run.receipts != []
  {
    run.receipts[|run.receipts| - 1]
  }

  lemma LastAttemptIsThis(run: Run)
    requires Sound(run) && run.bridge.arb.arbitrating
    ensures run.attempts != []
    ensures var last := run.attempts[|run.attempts| - 1];
      last.owner == run.bridge.clientFd && last.requested == run.bridge.arb.address
  {
  }

  lemma NotedIs(run: Run, i: Input)
    requires run.bridge.arb.arbitrating && run.attempts != []
    ensures var v := Verdict(run.bridge, i);
      Noted(run, i) == Receipt(i.symbol, v.state, Some(Extend(run.attempts[|run.attempts| - 1], i, v)))
  {
  }

  lemma NotedAnswers(run: Run, i: Input, q: Request)
    requires Sound(run)
    ensures Answers(Noted(run, i), q) <==> Running(run.bridge, q) && Final(Verdict(run.bridge, i).state)
  {
    if run.bridge.arb.arbitrating {
      LastAttemptIsThis(run);
      NotedIs(run, i);
    }
  }

  lemma EndedAttempt(b: Bridge, i: Input, q: Request)
    requires b.arb.arbitrating && Verdict(b, i).state != Arbitrating
    ensures Alive(AfterSymbol(b, i), q) <==> Standing(b, q) && !Final(Verdict(b, i).state)
  {
    BudgetOfVerdict(b.arb, Observe(b.rec, i.symbol, i.synTime), i.symbol, i.pending);
  }

  lemma OngoingAttempt(b: Bridge, i: Input)
    requires Verdict(b, i).state == Arbitrating
    ensures var next := AfterSymbol(b, i);
      && next.arb.arbitrating == b.arb.arbitrating && next.arb.address == b.arb.address
      && next.clientFd == b.clientFd && next.reservation == b.reservation
  {
  }

  /** One symbol. The request is answered if it runs and the symbol decides the attempt.
      It goes on unless the attempt is decided, or it runs, has been cancelled and is to
      be restarted. */
  lemma FateAtASymbol(run: Run, i: Input, q: Request)
    requires Sound(run) && Alive(run.bridge, q)
    ensures var v, next := Verdict(run.bridge, i).state, Advance(run, Symbol(i));
      && (Answers(LastReceipt(next), q) <==> Running(run.bridge, q) && Final(v))
      && (Alive(next.bridge, q) <==> !Final(v) && (v in {Restart1, Restart2} ==> Standing(run.bridge, q)))
  {
    NotedAnswers(run, i, q);
    VerdictShape(run.bridge, i);
    if run.bridge.arb.arbitrating {
      if Verdict(run.bridge, i).state == Arbitrating {
        OngoingAttempt(run.bridge, i);
      } else {
        EndedAttempt(run.bridge, i, q);
      }
    }
  }

  /** The fate of every request of every run, one event at a time: a start command with
      SYN is the end of it unless it runs; a symbol does what FateAtASymbol says. */
  lemma FateOfARequest(evs: seq<Event>, e: Event, q: Request)
    requires Alive(After(evs).bridge, q)
    ensures var was, now := After(evs).bridge, After(evs + [e]).bridge;
      && (e.StartCommand? ==> (Alive(now, q) <==> e.address != SYN || Running(was, q)))
      && (e.Pop? ==> Alive(now, q))
    ensures e.Symbol? ==>
      var was, now, v := After(evs).bridge, After(evs + [e]), Verdict(After(evs).bridge, e.input).state;
      && now.receipts != []
      && (Answers(LastReceipt(now), q) <==> Running(was, q) && Final(v))
      && (Alive(now.bridge, q) <==> !Final(v) && (v in {Restart1, Restart2} ==> Standing(was, q)))
  {
    OneMoreEvent(evs, e);
    EveryRunIsSound(evs);
    match e {
      case StartCommand(_, _) =>
      case Pop =>
      case Symbol(i) => FateAtASymbol(After(evs), i, q);
    }
  }

  // ------------------------------------------------------- from start to verdict

  /** The reservation that the start commands alone make of r. */
  function Held(r: Reservation, evs: seq<Event>): Reservation
    decreases |evs|
  {
    if evs == [] then r
    else
      var before := Held(r, evs[..|evs| - 1]);
      match evs[|evs| - 1]
      case StartCommand(fd, address) => if address == SYN then FREE else Reserve(before, fd, address)
      case _ => before
  }

  /** None of the symbols decides the attempt. */
  predicate Undecisive(before: seq<Event>, evs: seq<Event>)
    decreases |evs|
  {
    evs == [] ||
    var n := |evs| - 1;
    && Undecisive(before, evs[..n])
    && (evs[n].Symbol? ==> Verdict(After(before + evs[..n]).bridge, evs[n].input).state == Arbitrating)
  }

  lemma {:induction false} RunsOn(before: seq<Event>, evs: seq<Event>, p: Request)
    requires Running(After(before).bridge, p) && Undecisive(before, evs)
    ensures Running(After(before + evs).bridge, p)
    ensures After(before + evs).bridge.reservation == Held(After(before).bridge.reservation, evs)
    decreases |evs|
  {
    if evs == [] {
      EmptyIsNeutral(before);
    } else {
      var n := |evs| - 1;
      RunsOn(before, evs[..n], p);
      SplitLast(before, evs);
      OneMoreEvent(before + evs[..n], evs[n]);
      if evs[n].Symbol? {
        OngoingAttempt(After(before + evs[..n]).bridge, evs[n].input);
      }
    }
  }

  /** The whole course of an attempt for p: whatever clients do until the symbol that ends
      it, an answer goes to p and to no other request, exactly if the attempt is decided;
      and a request lives on exactly if the attempt is restarted and the start commands
      have left the reservation to it. */
  lemma EndOfAnAttempt(before: seq<Event>, evs: seq<Event>, i: Input, p: Request, q: Request)
    requires Running(After(before).bridge, p) && Undecisive(before, evs)
    requires Verdict(After(before + evs).bridge, i).state != Arbitrating
    ensures var v, end := Verdict(After(before + evs).bridge, i).state, After(before + evs + [Symbol(i)]);
      var held := Held(After(before).bridge.reservation, evs);
      && end.receipts != []
      && (Answers(LastReceipt(end), q) <==> Final(v) && q == p)
      && (Alive(end.bridge, q) <==> !Final(v) && held == Reservation(q.fd, q.address))
  {
    var was := After(before + evs);
    RunsOn(before, evs, p);
    OneMoreEvent(before + evs, Symbol(i));
    EveryRunIsSound(before + evs);
    NotedAnswers(was, i, q);
    EndedAttempt(was.bridge, i, q);
  }

  /** The request is gone and the symbol has not brought its answer. */
  ghost predicate LostWith(end: Run, q: Request) {
    end.receipts != [] && !Answers(LastReceipt(end), q) && !Alive(end.bridge, q)
  }

  /** Which requests are lost without an answer when the attempt for p ends: p itself,
      exactly if it is restarted and the reservation has been taken from it; and one that
      has taken its place, exactly if the attempt is decided. */
  lemma LostExactlyIf(before: seq<Event>, evs: seq<Event>, i: Input, p: Request, q: Request)
    requires Running(After(before).bridge, p) && Undecisive(before, evs)
    requires Verdict(After(before + evs).bridge, i).state != Arbitrating
    requires Alive(After(before + evs).bridge, q)
    ensures var v, held := Verdict(After(before + evs).bridge, i).state, Held(After(before).bridge.reservation, evs);
      LostWith(After(before + evs + [Symbol(i)]), q) <==>
        if Final(v) then q != p else held != Reservation(q.fd, q.address)
    ensures q == p || Held(After(before).bridge.reservation, evs) == Reservation(q.fd, q.address)
  {
    RunsOn(before, evs, p);
    EndOfAnAttempt(before, evs, i, p, q);
  }

  // ------------------------------------------------------------ seen by the client

  /** What a single symbol does to the reservation, and to the client that holds it: it
      stays unless the attempt is decided, and then this client is sent an answer exactly
      if the attempt was one of its own, for whatever address. */
  lemma FateOfTheReservation(b: Bridge, i: Input, fd: nat, address: Byte)
    requires b.reservation == Reservation(fd, address)
    ensures var next := AfterSymbol(b, i);
      && (next.reservation == b.reservation <==> !Final(Verdict(b, i).state))
      && (Final(Verdict(b, i).state) ==>
           && next.reservation == FREE
           && ((exists it :: it in next.queue[|b.queue|..] && it.enhanced && it.clientFd == fd) <==> b.clientFd == fd))
  {
    var v := Verdict(b, i).state;
    var items := Items(v, i.symbol, AfterSymbol(b, i).rec.master, b.clientFd, b.reservation.client);
    assert AfterSymbol(b, i).queue[|b.queue|..] == items;
    if Final(v) {
      assert items[0].enhanced && items[0].clientFd == b.clientFd;
      assert items[0] in items;
      assert !items[1].enhanced;
    }
  }

  /** A client gives up somebody's reservation and asks for itself. */
  function Replacing(g: nat, address: Byte): seq<Event> {
    [StartCommand(g, SYN), StartCommand(g, address)]
  }

  lemma HeldAfterReplacing(before: seq<Event>, r: Reservation, g: nat, address: Byte)
    requires address != SYN
    ensures Undecisive(before, Replacing(g, address)) && Held(r, Replacing(g, address)) == Reservation(g, address)
  {
    var evs := Replacing(g, address);
    assert evs[..1] == [StartCommand(g, SYN)] && evs[..1][..0] == [];
    assert Held(r, evs[..1]) == FREE;
  }

  /** After any history in which an attempt is running: if client g cancels with a start
      SYN, asks anew, for itself or for another address, and the next symbol decides the
      attempt, then the new request is gone without an answer and nothing is running.
      What g is sent, if anything, is the answer to the old request. */
  lemma ReplacedRequestIsDropped(before: seq<Event>, p: Request, q: Request, i: Input)
    requires Running(After(before).bridge, p) && q != p && q.address != SYN
    requires Final(Verdict(After(before + Replacing(q.fd, q.address)).bridge, i).state)
    ensures var was := After(before + Replacing(q.fd, q.address));
      var end := After(before + Replacing(q.fd, q.address) + [Symbol(i)]);
      && Standing(was.bridge, q)
      && LostWith(end, q) && Answers(LastReceipt(end), p)
      && end.bridge.reservation == FREE && !end.bridge.arb.arbitrating
      && |end.bridge.queue| >= |was.bridge.queue|
      && ((exists it :: it in end.bridge.queue[|was.bridge.queue|..] && it.enhanced && it.clientFd == q.fd)
           <==> p.fd == q.fd)
  {
    var evs := Replacing(q.fd, q.address);
    var was := After(before + evs);
    HeldAfterReplacing(before, After(before).bridge.reservation, q.fd, q.address);
    RunsOn(before, evs, p);
    EndOfAnAttempt(before, evs, i, p, p);
    EndOfAnAttempt(before, evs, i, p, q);
    OneMoreEvent(before + evs, Symbol(i));
    FateOfTheReservation(was.bridge, i, q.fd, q.address);
    NothingRuns(was.bridge, i);
  }

  lemma NothingRuns(b: Bridge, i: Input)
    requires b.arb.arbitrating && Final(Verdict(b, i).state)
    ensures !AfterSymbol(b, i).arb.arbitrating && |AfterSymbol(b, i).queue| >= |b.queue|
  {
  }

  lemma HeldAfterCancel(before: seq<Event>, r: Reservation, g: nat)
    ensures Undecisive(before, [StartCommand(g, SYN)]) && Held(r, [StartCommand(g, SYN)]) == FREE
  {
    assert [StartCommand(g, SYN)][..0] == [];
  }

  /** After any history in which an attempt for p is running: if anybody cancels and the
      next symbol has the attempt restarted, p is gone without an answer, and nothing is
      running or reserved. */
  lemma CancelledRequestIsLost(before: seq<Event>, p: Request, g: nat, i: Input)
    requires Running(After(before).bridge, p)
    requires Verdict(After(before + [StartCommand(g, SYN)]).bridge, i).state in {Restart1, Restart2}
    ensures var was := After(before + [StartCommand(g, SYN)]);
      var end := After(before + [StartCommand(g, SYN)] + [Symbol(i)]);
      && LostWith(end, p)
      && end.bridge.reservation == FREE && !end.bridge.arb.arbitrating
      && end.bridge.queue == was.bridge.queue + [Item(false, RECEIVED, i.symbol, -1, -1)]
  {
    var evs := [StartCommand(g, SYN)];
    HeldAfterCancel(before, After(before).bridge.reservation, g);
    RunsOn(before, evs, p);
    EndOfAnAttempt(before, evs, i, p, p);
    OneMoreEvent(before + evs, Symbol(i));
    NothingToRestart(After(before + evs).bridge, i);
  }

  lemma NothingToRestart(b: Bridge, i: Input)
    requires b.arb.arbitrating && b.reservation == FREE && Verdict(b, i).state in {Restart1, Restart2}
    ensures var next := AfterSymbol(b, i);
      && next.reservation == FREE && !next.arb.arbitrating
      && next.queue == b.queue + [Item(false, RECEIVED, i.symbol, -1, -1)]
  {
    BudgetOfVerdict(b.arb, Observe(b.rec, i.symbol, i.synTime), i.symbol, i.pending);
  }

  // ----------------------------------------------------------- both do happen

  /** Nobody has been sent an answer. */
  predicate Unanswered(run: Run) {
    && run.popped == []
    && forall k :: 0 <= k < |run.bridge.queue| ==> !run.bridge.queue[k].enhanced
  }

  lemma NoAnswerYet(run: Run, e: Event)
    requires Unanswered(run) && !e.Pop? && (e.Symbol? ==> !Final(Verdict(run.bridge, e.input).state))
    ensures Unanswered(Advance(run, e))
  {
  }

  lemma IdleIsNotFinal(b: Bridge, i: Input)
    requires !b.arb.arbitrating
    ensures !Final(Verdict(b, i).state)
  {
  }

  lemma RequestRuns(fd: nat, address: Byte, t: Word)
    requires address != SYN
    ensures var run := After(Requested(fd, address, t));
      && Unanswered(run) && Running(run.bridge, Request(fd, address)) && run.bridge.rec.state == ReceivedFirstSyn
      && run.bridge.arb.restartCount == 0
  {
    var one := [StartCommand(fd, address)];
    var two := one + [Syn(t)];
    RequestStarts(fd, address, t);
    OneMoreEvent([], StartCommand(fd, address));
    EmptyIsNeutral(one);
    OneMoreEvent(one, Syn(t));
    OneMoreEvent(two, Syn(t));
    assert two + [Syn(t)] == Requested(fd, address, t);
    WaitsForSecondSyn(After(one), fd, address, t);
    NoAnswerYet(After([]), StartCommand(fd, address));
    IdleIsNotFinal(After(one).bridge, Input(SYN, t, t, t, false));
    NoAnswerYet(After(one), Syn(t));
    IdleIsNotFinal(After(two).bridge, Input(SYN, t, t, t, false));
    NoAnswerYet(After(two), Syn(t));
  }

  lemma SynRestartsFirst(b: Bridge, t: Word)
    requires b.arb.arbitrating && b.rec.state == ReceivedFirstSyn && b.arb.restartCount == 0
    ensures Verdict(b, Input(SYN, t, t, t, false)).state == Restart1
  {
  }

  lemma OwnAddressDecides(b: Bridge, t: Word)
    requires b.arb.arbitrating && b.rec.state == ReceivedFirstSyn && b.arb.address != SYN
    ensures Verdict(b, Input(b.arb.address, t, t, t, false)).state == Won1
    ensures AfterSymbol(b, Input(b.arb.address, t, t, t, false)).queue == b.queue +
      [Item(true, STARTED, b.arb.address, b.clientFd, b.clientFd),
        Item(false, RECEIVED, b.arb.address, b.clientFd, b.clientFd)]
  {
  }

  /** A request whose attempt has started, then a start SYN from anybody, then a SYN in
      time: the request is never answered. */
  lemma ARequestIsLost(fd: nat, address: Byte, g: nat, t: Word)
    requires address != SYN
    ensures var end := After(Requested(fd, address, t) + [StartCommand(g, SYN)] + [Syn(t)]);
      && Running(After(Requested(fd, address, t)).bridge, Request(fd, address))
      && LostWith(end, Request(fd, address)) && Unanswered(end)
      && end.bridge.reservation == FREE && !end.bridge.arb.arbitrating
  {
    var asked := Requested(fd, address, t);
    var evs := asked + [StartCommand(g, SYN)];
    RequestRuns(fd, address, t);
    OneMoreEvent(asked, StartCommand(g, SYN));
    NoAnswerYet(After(asked), StartCommand(g, SYN));
    SynRestartsFirst(After(evs).bridge, t);
    CancelledRequestIsLost(asked, Request(fd, address), g, Input(SYN, t, t, t, false));
    OneMoreEvent(evs, Syn(t));
    NoAnswerYet(After(evs), Syn(t));
  }

  /** A request whose attempt has started, then another request in its place, by another
      client or by the same one for another address: the symbol that wins the attempt
      answers the first request, and the second is gone. */
  lemma AReplacementIsLost(fd: nat, address: Byte, g: nat, other: Byte, t: Word)
    requires address != SYN && other != SYN && Request(g, other) != Request(fd, address)
    ensures var asked := Requested(fd, address, t) + Replacing(g, other);
      var end := After(asked + [Symbol(Input(address, t, t, t, false))]);
      && Standing(After(asked).bridge, Request(g, other))
      && LostWith(end, Request(g, other)) && Answers(LastReceipt(end), Request(fd, address))
      && end.bridge.reservation == FREE && !end.bridge.arb.arbitrating
      && Unanswered(After(asked))
      && end.bridge.queue == After(asked).bridge.queue +
         [Item(true, STARTED, address, fd, fd), Item(false, RECEIVED, address, fd, fd)]
  {
    var (before, evs) := (Requested(fd, address, t), Replacing(g, other));
    var i := Input(address, t, t, t, false);
    RequestRuns(fd, address, t);
    ReplacingKeepsQueue(before, g, other);
    HeldAfterReplacing(before, After(before).bridge.reservation, g, other);
    RunsOn(before, evs, Request(fd, address));
    OwnAddressDecides(After(before + evs).bridge, t);
    ReplacedRequestIsDropped(before, Request(fd, address), Request(g, other), i);
    OneMoreEvent(before + evs, Symbol(i));
  }

  lemma ReplacingKeepsQueue(before: seq<Event>, g: nat, other: Byte)
    ensures var was, now := After(before), After(before + Replacing(g, other));
      && now.bridge == was.bridge.(reservation := now.bridge.reservation) && now.popped == was.popped
  {
    var one := before + [StartCommand(g, SYN)];
    OneMoreEvent(before, StartCommand(g, SYN));
    OneMoreEvent(one, StartCommand(g, other));
    assert one + [StartCommand(g, other)] == before + Replacing(g, other);
  }
}
