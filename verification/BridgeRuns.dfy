/** Whole runs of the bridge: any interleaving of client start commands, received
    symbols and reads, with the history needed to say what the clients were
    promised. */
module BridgeRuns {
  import opened Words
  import opened Sequences
  import opened BusStates
  import opened Arbitrations
  import opened BusTypes

  // ---------------------------------------------------------------- reference

  datatype Judgement =
    | Undecided
    | WonRound(second: bool)
    | LostTo(sameClass: bool)   // another station holds the bus
    | NoAddress(second: bool)   // a SYN where the address of that round belongs
    | CutShort                  // a SYN right after the address of the second round

  /** The verdict on an attempt for `address`, read off the symbols that followed
      the SYN it started on. This is the rule of the bus, without any state. */
  function Judge(address: Byte, heard: seq<Byte>): Judgement {
    if |heard| == 0 then Undecided
    else if heard[0] == SYN then NoAddress(false)
    else if heard[0] == address then WonRound(false)
    else if |heard| == 1 then Undecided
    else if heard[1] != SYN then LostTo(SameClass(heard[0], address))
    else if |heard| == 2 then Undecided
    else if heard[2] == SYN then NoAddress(true)
    else if heard[2] == address then WonRound(true)
    else if |heard| == 3 then Undecided
    else if heard[3] == SYN then CutShort
    else LostTo(SameClass(heard[0], address))
  }

  /** What the code reports for a judgement when `spent` of the restart budget is
      used up. */
  function Ruling(j: Judgement, spent: int): ArbState {
    match j
    case Undecided => Arbitrating
    case WonRound(second) => if second then Won2 else Won1
    case LostTo(sameClass) => if sameClass then Lost2 else Lost1
    case NoAddress(second) =>
      if !second && spent < 3 then Restart1
      else if second && spent < 2 then Restart2
      else Error
    case CutShort => Error
  }

  /** The address that holds the bus after the symbols heard. */
  function Holder(heard: seq<Byte>): Byte
    requires heard != []
  {
    if |heard| <= 2 then heard[0] else heard[2]
  }

  // ------------------------------------------------------------------ history

  /** A symbol put on the wire after `after` symbols of the attempt were heard. */
  datatype Put = Put(after: nat, symbol: Byte)

  /** The symbols heard, and for each of them whether another one was already waiting
      when it was read. */
  datatype Attempt = Attempt(
    owner: Fd, requested: Byte, heard: seq<Byte>, waiting: seq<bool>, wrote: seq<Put>, verdict: ArbState)

  /** One answer or echo as an enhanced client sees it. */
  datatype Frame = Frame(c: Byte, d: Byte)

  /** What the history says about one received symbol. */
  datatype Receipt = Receipt(symbol: Byte, verdict: ArbState, attempt: Option<Attempt>)

  datatype Event =
    | StartCommand(fd: nat, address: Byte)
    | Symbol(input: Input)
    | Pop

  /** The bridge, the attempts so far, a receipt and the outcome of the start that was
      tried (if any) for every symbol, and what clients were served. */
  datatype Run = Run(
    bridge: Bridge, attempts: seq<Attempt>, receipts: seq<Receipt>, starts: seq<StartResult>, popped: seq<Item>)

  const IDLE_RUN := Run(FRESH, [], [], [], [])

  function Stamp(ws: seq<Byte>, after: nat): seq<Put> {
    seq(|ws|, k requires 0 <= k < |ws| => Put(after, ws[k]))
  }

  /** The open attempt after it heard one more symbol. */
  function Extend(a: Attempt, i: Input, v: DataEffect): Attempt {
    a.(heard := a.heard + [i.symbol], waiting := a.waiting + [i.pending],
       wrote := a.wrote + Stamp(v.writes, |a.heard| + 1), verdict := v.state)
  }

  /** An attempt that has just been started with the symbols ws. */
  function Begin(r: Reservation, ws: seq<Byte>): Attempt {
    Attempt(r.client, r.address, [], [], Stamp(ws, 0), Arbitrating)
  }

  function Extended(run: Run, i: Input): seq<Attempt>
  {
    if run.bridge.arb.arbitrating && run.attempts != [] then
      var n := |run.attempts| - 1;
      run.attempts[..n] + [Extend(run.attempts[n], i, Verdict(run.bridge, i))]
    else run.attempts
  }

  function Opened(run: Run, i: Input): seq<Attempt> {
    var st := Attempted(run.bridge, i);
    if st.result == Started then
      [Begin(run.bridge.reservation, st.writes)]
    else []
  }

  function Noted(run: Run, i: Input): Receipt {
    var ext := Extended(run, i);
    Receipt(i.symbol, Verdict(run.bridge, i).state,
      if run.bridge.arb.arbitrating && ext != [] then Some(ext[|ext| - 1]) else None)
  }

  function Advance(run: Run, e: Event): Run {
    match e
    case StartCommand(fd, address) =>
      run.(bridge := run.bridge.(reservation :=
        if address == SYN then FREE else Reserve(run.bridge.reservation, fd, address)))
    case Symbol(i) =>
      Run(AfterSymbol(run.bridge, i), Extended(run, i) + Opened(run, i), run.receipts + [Noted(run, i)],
          run.starts + [Attempted(run.bridge, i).result], run.popped)
    case Pop =>
      var (b, d) := ReadSpec(run.bridge, None);
      run.(bridge := b, popped := if d.Some? then run.popped + [d.value] else run.popped)
  }

  function After(evs: seq<Event>): Run
    decreases |evs|
  {
    if evs == [] then IDLE_RUN
    else Advance(After(evs[..|evs| - 1]), evs[|evs| - 1])
  }

  lemma OneMoreEvent(evs: seq<Event>, e: Event)
    ensures After(evs + [e]) == Advance(After(evs), e)
  {
    assert (evs + [e])[..|evs|] == evs;
  }

  // -------------------------------------------------------- attempts, verdicts

  /** Restart budget used by the attempts since the last answer: a first-round
      restart costs one, a second-round restart two. */
  function Spent(attempts: seq<Attempt>): nat
    decreases |attempts|
  {
    if attempts == [] then 0
    else
      var before := Spent(attempts[..|attempts| - 1]);
      match attempts[|attempts| - 1].verdict
      case Restart1 => before + 1
      case Restart2 => before + 2
      case Arbitrating => before
      case _ => 0
  }

  /** The attempt takes part in the second round: a SYN has followed an address of its
      own class, and no other symbol was waiting behind that SYN. */
  predicate TakesPart(a: Attempt)
    requires |a.waiting| == |a.heard|
  {
    |a.heard| >= 2 && SameClass(a.heard[0], a.requested) && a.heard[0] != SYN && a.heard[1] == SYN && !a.waiting[1]
  }

  /** The symbols written by an attempt: the requested address right after the SYN, and
      once more after the second SYN exactly if it takes part in the second round. */
  ghost predicate ProperWrites(a: Attempt) {
    && |a.waiting| == |a.heard|
    && a.wrote == [Put(0, a.requested)] + if TakesPart(a) then [Put(2, a.requested)] else []
  }

  /** An attempt is judged by the rule of the bus at the first symbol that
      decides it, and not before. */
  ghost predicate ProperAttempt(a: Attempt, spent: nat) {
    && a.owner >= 0
    && a.requested != SYN
    && |a.heard| <= 4
    && a.verdict == Ruling(Judge(a.requested, a.heard), spent)
    && (a.heard != [] ==> Judge(a.requested, a.heard[..|a.heard| - 1]) == Undecided)
    && ProperWrites(a)
  }

  function PhaseAfter(n: nat): Phase {
    if n == 0 then ReceivedFirstSyn
    else if n == 1 then ReceivedAddressAfterFirstSyn
    else if n == 2 then ReceivedSecondSyn
    else ReceivedAddressAfterSecondSyn
  }

  /** The bridge is in the middle of an attempt for `address` that has heard the
      symbols `heard` and is still undecided. */
  ghost predicate Listening(b: Bridge, address: Byte, heard: seq<Byte>) {
    && b.arb.arbitrating
    && b.arb.address == address != SYN
    && |heard| <= 3
    && Judge(address, heard) == Undecided
    && b.arb.participateSecond == (heard != [] && SameClass(heard[0], address))
    && b.rec.state == PhaseAfter(|heard|)
    && (heard != [] ==> b.rec.master == Holder(heard))
  }

  /** The open attempt of the history together with the bridge that runs it. */
  ghost predicate Open(b: Bridge, a: Attempt, spent: nat) {
    && ProperAttempt(a, spent)
    && a.verdict == Arbitrating
    && Listening(b, a.requested, a.heard)
    && b.clientFd == a.owner
    && b.arb.restartCount == spent
  }

  lemma SpentOfPrefix(a: seq<Attempt>, x: Attempt)
    ensures Spent(a + [x]) == match x.verdict
      case Restart1 => Spent(a) + 1
      case Restart2 => Spent(a) + 2
      case Arbitrating => Spent(a)
      case _ => 0
  {
    assert (a + [x])[..|a|] == a;
  }

  /** The judgement on one more symbol, by how many were heard before. */
  function JudgeMore(address: Byte, h: seq<Byte>, s: Byte): Judgement
    requires |h| <= 3
  {
    if |h| == 0 then
      if s == SYN then NoAddress(false) else if s == address then WonRound(false) else Undecided
    else if |h| == 1 then
      if s == SYN then Undecided else LostTo(SameClass(h[0], address))
    else if |h| == 2 then
      if s == SYN then NoAddress(true) else if s == address then WonRound(true) else Undecided
    else
      if s == SYN then CutShort else LostTo(SameClass(h[0], address))
  }

  lemma JudgeNext(address: Byte, h: seq<Byte>, s: Byte)
    requires |h| <= 3 && Judge(address, h) == Undecided
    ensures Judge(address, h + [s]) == JudgeMore(address, h, s)
  {
  }

  /** Judging one more symbol of an undecided attempt: the code's case analysis
      on its own state gives the ruling of the reference rule. */
  lemma VerdictIsRuling(b: Bridge, address: Byte, heard: seq<Byte>, i: Input)
    requires Listening(b, address, heard) && b.arb.restartCount >= 0
    ensures Verdict(b, i).state == Ruling(Judge(address, heard + [i.symbol]), b.arb.restartCount)
  {
    JudgeNext(address, heard, i.symbol);
    var rec := Observe(b.rec, i.symbol, i.synTime);
    assert rec.previous == PhaseAfter(|heard|);
    assert rec.state == Next(PhaseAfter(|heard|), i.symbol);
  }

  /** A second write happens only on the SYN of a second round of the own class. */
  lemma WritesOfVerdict(b: Bridge, address: Byte, heard: seq<Byte>, i: Input)
    requires Listening(b, address, heard)
    ensures Verdict(b, i).writes ==
      if |heard| == 1 && i.symbol == SYN && SameClass(heard[0], address) && !i.pending then [address] else []
  {
    assert Observe(b.rec, i.symbol, i.synTime).state == Next(PhaseAfter(|heard|), i.symbol);
  }

  /** An undecided attempt goes on listening. */
  lemma ListeningGoesOn(b: Bridge, address: Byte, heard: seq<Byte>, i: Input)
    requires Listening(b, address, heard) && b.arb.restartCount >= 0 && Verdict(b, i).state == Arbitrating
    ensures Listening(AfterSymbol(b, i), address, heard + [i.symbol])
    ensures Attempted(b, i).result != Started && AfterSymbol(b, i).arb.restartCount == b.arb.restartCount
  {
    VerdictIsRuling(b, address, heard, i);
    JudgeNext(address, heard, i.symbol);
    var h := heard + [i.symbol];
    assert h[|heard|] == i.symbol;
    if heard != [] {
      assert h[0] == heard[0];
    }
  }

  /** An attempt that hears a symbol stays proper. */
  lemma ExtendKeepsProper(b: Bridge, a: Attempt, spent: nat, i: Input)
    requires Open(b, a, spent)
    ensures ProperAttempt(Extend(a, i, Verdict(b, i)), spent)
  {
    var v := Verdict(b, i);
    var x := Extend(a, i, v);
    VerdictIsRuling(b, a.requested, a.heard, i);
    WritesOfVerdict(b, a.requested, a.heard, i);
    assert x.heard[..|x.heard| - 1] == a.heard;
    assert forall k :: 0 <= k < |a.heard| ==> x.heard[k] == a.heard[k];
    assert forall k :: 0 <= k < |a.heard| ==> x.waiting[k] == a.waiting[k];
    if v.writes != [] {
      assert x.wrote == a.wrote + [Put(2, a.requested)];
      assert a.heard[0] != SYN;
      assert a.wrote == [Put(0, a.requested)];
    } else {
      assert x.wrote == a.wrote;
    }
  }

  /** An undecided attempt stays open. */
  lemma ExtendKeepsOpen(b: Bridge, a: Attempt, spent: nat, i: Input)
    requires Open(b, a, spent) && Verdict(b, i).state == Arbitrating
    ensures Open(AfterSymbol(b, i), Extend(a, i, Verdict(b, i)), spent)
  {
    ExtendKeepsProper(b, a, spent, i);
    ListeningGoesOn(b, a.requested, a.heard, i);
    WritesOfVerdict(b, a.requested, a.heard, i);
  }

  // ------------------------------------------------------------ every run

  /** Every attempt is over and was judged by the rule of the bus. */
  ghost predicate Settled(attempts: seq<Attempt>)
    decreases |attempts|
  {
    attempts == [] ||
    var n := |attempts| - 1;
    && Settled(attempts[..n])
    && ProperAttempt(attempts[n], Spent(attempts[..n]))
    && attempts[n].verdict != Arbitrating
  }

  /** The fields of the bridge agree with the history of attempts. */
  ghost predicate Accounted(b: Bridge, attempts: seq<Attempt>) {
    var n := |attempts| - 1;
    && (if b.arb.arbitrating
        then n >= 0 && Settled(attempts[..n]) && Open(b, attempts[n], Spent(attempts[..n]))
        else Settled(attempts) && b.arb.restartCount == Spent(attempts))
    && b.arb.restartCount <= 3
    && (b.reservation.client >= 0 ==> b.reservation.address != SYN)
  }

  ghost predicate Sound(run: Run) {
    Accounted(run.bridge, run.attempts)
  }

  lemma SettledAppend(attempts: seq<Attempt>, x: Attempt)
    requires Settled(attempts) && ProperAttempt(x, Spent(attempts)) && x.verdict != Arbitrating
    ensures Settled(attempts + [x])
  {
    assert (attempts + [x])[..|attempts|] == attempts;
  }

  /** A started attempt is in progress, for the holder of the reservation. */
  lemma StartOpens(b: Bridge, i: Input, spent: nat)
    requires Attempted(b, i).result == Started && Verdict(b, i).arb.restartCount == spent
    ensures var a := Begin(b.reservation, Attempted(b, i).writes);
      && Open(AfterSymbol(b, i), a, spent)
      && a.owner >= 0 && a.requested != SYN
  {
    var st := Attempted(b, i);
    assert st.writes == [b.reservation.address];
    assert Stamp(st.writes, 0) == [Put(0, b.reservation.address)];
  }

  /** How a verdict moves the restart budget. */
  lemma BudgetOfVerdict(a: Arb, r: Recogniser, s: Byte, pending: bool)
    requires a.arbitrating && DataSpec(a, r, s, pending).state != Arbitrating
    ensures var v := DataSpec(a, r, s, pending);
      && !v.arb.arbitrating
      && v.state != Idle
      && (v.state == Restart1 ==> a.restartCount < 3 && v.arb.restartCount == a.restartCount + 1)
      && (v.state == Restart2 ==> a.restartCount < 2 && v.arb.restartCount == a.restartCount + 2)
      && (Final(v.state) ==> v.arb.restartCount == 0)
  {
  }

  /** A verdict other than "still arbitrating" ends the attempt and leaves the
      budget that the history accounts for. */
  lemma VerdictEnds(b: Bridge, before: seq<Attempt>, x: Attempt, i: Input)
    requires b.arb.arbitrating && b.arb.restartCount == Spent(before)
    requires x.verdict == Verdict(b, i).state != Arbitrating
    ensures !Verdict(b, i).arb.arbitrating
    ensures Verdict(b, i).arb.restartCount == Spent(before + [x])
    ensures Spent(before) <= 3 ==> Spent(before + [x]) <= 3
  {
    BudgetOfVerdict(b.arb, Observe(b.rec, i.symbol, i.synTime), i.symbol, i.pending);
    SpentOfPrefix(before, x);
  }

  /** After the last attempt closed, the next one may start at once. */
  lemma ClosedIsAccounted(b: Bridge, ext: seq<Attempt>, i: Input)
    requires Settled(ext) && Verdict(b, i).state != Arbitrating
    requires !Verdict(b, i).arb.arbitrating && Verdict(b, i).arb.restartCount == Spent(ext) <= 3
    requires b.reservation.client >= 0 ==> b.reservation.address != SYN
    ensures Attempted(b, i).result != Started ==> Accounted(AfterSymbol(b, i), ext)
    ensures Attempted(b, i).result == Started ==>
      Accounted(AfterSymbol(b, i), ext + [Begin(b.reservation, Attempted(b, i).writes)])
  {
    var st := Attempted(b, i);
    assert AfterSymbol(b, i).arb == st.arb && st.arb.restartCount == Spent(ext);
    assert AfterSymbol(b, i).reservation in {FREE, b.reservation};
    if st.result == Started {
      StartOpens(b, i, Spent(ext));
      var a := Begin(b.reservation, st.writes);
      assert (ext + [a])[..|ext|] == ext;
    } else {
      assert st.arb == Verdict(b, i).arb;
    }
  }

  lemma CloseKeepsSound(run: Run, i: Input, ext: seq<Attempt>)
    requires Settled(ext) && Verdict(run.bridge, i).state != Arbitrating
    requires !Verdict(run.bridge, i).arb.arbitrating && Verdict(run.bridge, i).arb.restartCount == Spent(ext) <= 3
    requires run.bridge.reservation.client >= 0 ==> run.bridge.reservation.address != SYN
    requires Extended(run, i) == ext
    ensures Sound(Advance(run, Symbol(i)))
  {
    ClosedIsAccounted(run.bridge, ext, i);
    assert ext + [] == ext;
  }

  /** While the verdict is out the attempt stays open. */
  lemma OpenIsAccounted(b: Bridge, before: seq<Attempt>, a: Attempt, i: Input)
    requires Settled(before) && Open(b, a, Spent(before)) && Verdict(b, i).state == Arbitrating
    requires b.arb.restartCount <= 3 && (b.reservation.client >= 0 ==> b.reservation.address != SYN)
    ensures Attempted(b, i).result != Started
    ensures Accounted(AfterSymbol(b, i), before + [Extend(a, i, Verdict(b, i))])
  {
    var ext := before + [Extend(a, i, Verdict(b, i))];
    ExtendKeepsOpen(b, a, Spent(before), i);
    assert ext[..|before|] == before;
    assert AfterSymbol(b, i).reservation == b.reservation;
    BudgetStands(b.arb, Observe(b.rec, i.symbol, i.synTime), i.symbol, i.pending);
  }

  lemma BudgetStands(a: Arb, r: Recogniser, s: Byte, pending: bool)
    requires DataSpec(a, r, s, pending).state == Arbitrating
    ensures DataSpec(a, r, s, pending).arb.restartCount == a.restartCount
  {
  }

  lemma ExtendedIs(run: Run, i: Input, before: seq<Attempt>, a: Attempt)
    requires run.bridge.arb.arbitrating && run.attempts == before + [a]
    ensures Extended(run, i) == before + [Extend(a, i, Verdict(run.bridge, i))]
  {
    assert run.attempts[..|run.attempts| - 1] == before;
  }

  lemma BusyGoesOn(run: Run, i: Input, before: seq<Attempt>, a: Attempt)
    requires run.bridge.arb.arbitrating && run.attempts == before + [a]
    requires Settled(before) && Open(run.bridge, a, Spent(before)) && Verdict(run.bridge, i).state == Arbitrating
    requires run.bridge.arb.restartCount <= 3
    requires run.bridge.reservation.client >= 0 ==> run.bridge.reservation.address != SYN
    ensures Sound(Advance(run, Symbol(i)))
  {
    ExtendedIs(run, i, before, a);
    OpenIsAccounted(run.bridge, before, a, i);
    EmptyIsNeutral(Extended(run, i));
  }

  lemma BusyEnds(run: Run, i: Input, before: seq<Attempt>, a: Attempt)
    requires run.bridge.arb.arbitrating && run.attempts == before + [a]
    requires Settled(before) && Open(run.bridge, a, Spent(before)) && Verdict(run.bridge, i).state != Arbitrating
    requires run.bridge.arb.restartCount <= 3
    requires run.bridge.reservation.client >= 0 ==> run.bridge.reservation.address != SYN
    ensures Sound(Advance(run, Symbol(i)))
  {
    var x := Extend(a, i, Verdict(run.bridge, i));
    ExtendedIs(run, i, before, a);
    ExtendKeepsProper(run.bridge, a, Spent(before), i);
    VerdictEnds(run.bridge, before, x, i);
    SettledAppend(before, x);
    CloseKeepsSound(run, i, before + [x]);
  }

  lemma BusySymbolKeepsSound(run: Run, i: Input)
    requires Sound(run) && run.bridge.arb.arbitrating
    ensures Sound(Advance(run, Symbol(i)))
  {
    var n := |run.attempts| - 1;
    var before, a := run.attempts[..n], run.attempts[n];
    assert run.attempts == before + [a];
    if Verdict(run.bridge, i).state == Arbitrating {
      BusyGoesOn(run, i, before, a);
    } else {
      BusyEnds(run, i, before, a);
    }
  }

  lemma AdvanceKeepsSound(run: Run, e: Event)
    requires Sound(run)
    ensures Sound(Advance(run, e))
  {
    match e {
      case StartCommand(fd, address) =>
      case Pop =>
      case Symbol(i) =>
        if run.bridge.arb.arbitrating {
          BusySymbolKeepsSound(run, i);
        } else {
          CloseKeepsSound(run, i, run.attempts);
        }
    }
  }

  lemma {:induction false} EveryRunIsSound(evs: seq<Event>)
    ensures Sound(After(evs))
    decreases |evs|
  {
    if evs != [] {
      EveryRunIsSound(evs[..|evs| - 1]);
      AdvanceKeepsSound(After(evs[..|evs| - 1]), evs[|evs| - 1]);
    }
  }

  /** The weighted restart budget never exceeds three. */
  lemma {:induction false} BudgetIsBounded(attempts: seq<Attempt>)
    requires Settled(attempts)
    ensures Spent(attempts) <= 3
    decreases |attempts|
  {
    if attempts != [] {
      BudgetIsBounded(attempts[..|attempts| - 1]);
    }
  }

  lemma {:induction false} SettledAt(attempts: seq<Attempt>, k: nat)
    requires Settled(attempts) && k < |attempts|
    ensures ProperAttempt(attempts[k], Spent(attempts[..k])) && attempts[k].verdict != Arbitrating
    ensures Spent(attempts[..k]) <= 3
    decreases |attempts|
  {
    var n := |attempts| - 1;
    BudgetIsBounded(attempts[..n]);
    if k < n {
      SettledAt(attempts[..n], k);
      assert attempts[..n][..k] == attempts[..k];
    }
  }

  /** In every run, every attempt belongs to a client that asked with a non-SYN
      address, is decided by the rule of the bus within four symbols, wrote at most
      twice and only that address, and was ruled with exactly the restart budget its
      predecessors left; the only attempt still open is the last one, and it is open
      exactly while the code is arbitrating. */
  lemma AttemptsFollowTheRule(evs: seq<Event>, k: nat)
    requires k < |After(evs).attempts|
    ensures var run := After(evs);
      && ProperAttempt(run.attempts[k], Spent(run.attempts[..k]))
      && Spent(run.attempts[..k]) <= 3
      && (run.attempts[k].verdict == Arbitrating <==> run.bridge.arb.arbitrating && k == |run.attempts| - 1)
  {
    var run := After(evs);
    var n := |run.attempts| - 1;
    EveryRunIsSound(evs);
    if run.bridge.arb.arbitrating {
      BudgetIsBounded(run.attempts[..n]);
      if k < n {
        SettledAt(run.attempts[..n], k);
        assert run.attempts[..n][..k] == run.attempts[..k];
      }
    } else {
      SettledAt(run.attempts, k);
    }
  }

  /** The open attempt, if any, heard the symbol. */
  ghost predicate Grown(was: seq<Attempt>, ext: seq<Attempt>, arbitrating: bool, i: Input, v: DataEffect) {
    var n := |was| - 1;
    if arbitrating then
      && n >= 0
      && |ext| == n + 1
      && ext[..n] == was[..n]
      && was[n].verdict == Arbitrating
      && ext[n] == Extend(was[n], i, v)
      && v.state != Idle
    else
      ext == was && v.state == Idle && v.writes == []
  }

  ghost predicate Begun(begun: seq<Attempt>, st: StartResult, sw: seq<Byte>) {
    if st == Started then
      |begun| == 1 && begun[0].heard == [] && begun[0].wrote == Stamp(sw, 0) && begun[0].verdict == Arbitrating
    else
      begun == [] && sw == []
  }

  lemma StartShape(b: Bridge, i: Input)
    ensures var st := Attempted(b, i); st.writes == if st.result == Started then [b.reservation.address] else []
  {
  }

  lemma VerdictShape(b: Bridge, i: Input)
    ensures var v := Verdict(b, i); if b.arb.arbitrating then v.state != Idle else v == DataEffect(b.arb, Idle, [])
  {
  }

  /** How one symbol moves the history, without the code's case analysis. */
  lemma LastIsOpen(run: Run)
    requires Sound(run) && run.bridge.arb.arbitrating
    ensures run.attempts != [] && run.attempts[|run.attempts| - 1].verdict == Arbitrating
  {
  }

  lemma LastIsExtended(run: Run, i: Input)
    requires run.bridge.arb.arbitrating ==>
      run.attempts != [] && run.attempts[|run.attempts| - 1].verdict == Arbitrating
    ensures Grown(run.attempts, Extended(run, i), run.bridge.arb.arbitrating, i, Verdict(run.bridge, i))
  {
    VerdictShape(run.bridge, i);
  }

  lemma OpenedHasBegun(run: Run, i: Input)
    ensures var st := Attempted(run.bridge, i); Begun(Opened(run, i), st.result, st.writes)
  {
    StartShape(run.bridge, i);
  }

  lemma SymbolStep(run: Run, i: Input)
    requires Sound(run)
    ensures Grown(run.attempts, Extended(run, i), run.bridge.arb.arbitrating, i, Verdict(run.bridge, i))
    ensures var st := Attempted(run.bridge, i); Begun(Opened(run, i), st.result, st.writes)
  {
    if run.bridge.arb.arbitrating {
      LastIsOpen(run);
    }
    LastIsExtended(run, i);
    OpenedHasBegun(run, i);
  }
}
