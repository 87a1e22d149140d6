/** What the clients of the bridge get to see over a whole run. Items that were
    popped from the queue were handed to the clients, items still queued will be;
    the statements are about both together, in order. */
module BridgeDelivery {
  import opened Words
  import opened Sequences
  import opened BusStates
  import opened Arbitrations
  import opened BusTypes
  import opened BridgeRuns

  // -------------------------------------------------------------- the routing

  /** What one queued item means for a plain or read-only client. */
  function Plain(it: Item): seq<Byte> {
    if it.enhanced then [] else [it.d]
  }

  /** What one queued item means for the enhanced client f: answers go to the client
      they name, symbols to every client but the one they name. */
  function Shown(f: nat, it: Item): seq<Frame> {
    if it.enhanced == (it.clientFd == f) then [Frame(it.c, it.d)] else []
  }

  function Broadcast(items: seq<Item>): seq<Byte>
    decreases |items|
  {
    if items == [] then [] else Broadcast(items[..|items| - 1]) + Plain(items[|items| - 1])
  }

  function Route(f: nat, items: seq<Item>): seq<Frame>
    decreases |items|
  {
    if items == [] then [] else Route(f, items[..|items| - 1]) + Shown(f, items[|items| - 1])
  }

  // ------------------------------------------------------------- expectations

  /** The answer an attempt earns its client: the requested address if it won, the
      address that holds the bus if it lost, or an error. The codes are those of the
      enhanced protocol: started 0x2, failed 0xA, bus error 0xB. */
  function Answer(a: Attempt): Frame
    requires a.heard != []
  {
    match a.verdict
    case Won1 => Frame(0x2, a.requested)
    case Won2 => Frame(0x2, a.requested)
    case Error => Frame(0xB, 0)
    case _ => Frame(0xA, Holder(a.heard))
  }

  predicate Owns(f: nat, r: Receipt) {
    r.attempt.Some? && r.attempt.value.owner == f
  }

  /** A client does not see the symbols of its own attempt, up to and including the
      one that wins. */
  predicate Withheld(f: nat, r: Receipt) {
    Owns(f, r) && r.verdict in {Arbitrating, Won1, Won2}
  }

  function Promised(f: nat, r: Receipt): seq<Frame> {
    (if Owns(f, r) && Final(r.verdict) && r.attempt.value.heard != [] then [Answer(r.attempt.value)] else [])
    + (if Withheld(f, r) then [] else [Frame(0x1, r.symbol)])
  }

  /** Everything the enhanced client f is promised, in order. */
  function Expected(f: nat, rs: seq<Receipt>): seq<Frame>
    decreases |rs|
  {
    if rs == [] then [] else Expected(f, rs[..|rs| - 1]) + Promised(f, rs[|rs| - 1])
  }

  /** The symbols received during a run of events. */
  function SymbolsOf(evs: seq<Event>): seq<Byte>
    decreases |evs|
  {
    if evs == [] then []
    else
      var e := evs[|evs| - 1];
      SymbolsOf(evs[..|evs| - 1]) + if e.Symbol? then [e.input.symbol] else []
  }

  /** The symbols not withheld from client f. */
  function Visible(f: nat, rs: seq<Receipt>): seq<Byte>
    decreases |rs|
  {
    if rs == [] then []
    else Visible(f, rs[..|rs| - 1]) + if Withheld(f, rs[|rs| - 1]) then [] else [rs[|rs| - 1].symbol]
  }

  /** One answer for every attempt of client f that was won, lost or failed, in the
      order of the attempts. */
  function Due(f: nat, attempts: seq<Attempt>): seq<Frame>
    decreases |attempts|
  {
    if attempts == [] then []
    else
      var a := attempts[|attempts| - 1];
      Due(f, attempts[..|attempts| - 1]) + if a.owner == f && Final(a.verdict) && a.heard != [] then [Answer(a)] else []
  }

  // ------------------------------------------------------------------ algebra

  lemma OneMoreShown(f: nat, items: seq<Item>, x: Item)
    ensures Route(f, items + [x]) == Route(f, items) + Shown(f, x)
  {
    assert (items + [x])[..|items|] == items;
  }

  lemma OneMoreBroadcast(items: seq<Item>, x: Item)
    ensures Broadcast(items + [x]) == Broadcast(items) + Plain(x)
  {
    assert (items + [x])[..|items|] == items;
  }

  /** Items are delivered in the order they were queued. */
  lemma {:induction false} RouteAppend(f: nat, xs: seq<Item>, ys: seq<Item>)
    ensures Route(f, xs + ys) == Route(f, xs) + Route(f, ys)
    decreases |ys|
  {
    if ys == [] {
      EmptyIsNeutral(xs);
      EmptyIsNeutral(Route(f, xs));
    } else {
      var init, x := ys[..|ys| - 1], ys[|ys| - 1];
      SplitLast(xs, ys);
      RouteAppend(f, xs, init);
      OneMoreShown(f, init, x);
      OneMoreShown(f, xs + init, x);
      Associative(Route(f, xs), Route(f, init), Shown(f, x));
    }
  }

  lemma {:induction false} BroadcastAppend(xs: seq<Item>, ys: seq<Item>)
    ensures Broadcast(xs + ys) == Broadcast(xs) + Broadcast(ys)
    decreases |ys|
  {
    if ys == [] {
      EmptyIsNeutral(xs);
      EmptyIsNeutral(Broadcast(xs));
    } else {
      var init, x := ys[..|ys| - 1], ys[|ys| - 1];
      SplitLast(xs, ys);
      BroadcastAppend(xs, init);
      OneMoreBroadcast(init, x);
      OneMoreBroadcast(xs + init, x);
      Associative(Broadcast(xs), Broadcast(init), Plain(x));
    }
  }

  lemma RouteOfOne(f: nat, x: Item)
    ensures Route(f, [x]) == Shown(f, x) && Broadcast([x]) == Plain(x)
  {
    assert [x][..0] == [];
  }

  lemma RouteOfTwo(f: nat, x: Item, y: Item)
    ensures Route(f, [x, y]) == Shown(f, x) + Shown(f, y) && Broadcast([x, y]) == Plain(x) + Plain(y)
  {
    RouteOfOne(f, x);
    assert [x, y][..1] == [x];
  }

  // ---------------------------------------------------------------- one symbol

  /** The master byte in an answer is the requested address after a win and the
      address of the station that holds the bus, a different one, after a loss. */
  lemma AnswerNamesTheHolder(b: Bridge, a: Attempt, spent: nat, i: Input)
    requires Open(b, a, spent)
    ensures var x := Extend(a, i, Verdict(b, i));
      var master := Observe(b.rec, i.symbol, i.synTime).master;
      && (x.verdict in {Won1, Won2} ==> master == a.requested)
      && (x.verdict in {Lost1, Lost2} ==> master == Holder(x.heard) != a.requested)
  {
    VerdictIsRuling(b, a.requested, a.heard, i);
    JudgeNext(a.requested, a.heard, i.symbol);
    var x := Extend(a, i, Verdict(b, i));
    assert x.heard[|a.heard|] == i.symbol;
    assert forall k :: 0 <= k < |a.heard| ==> x.heard[k] == a.heard[k];
    if x.verdict in {Lost1, Lost2} {
      assert |a.heard| == 1 || |a.heard| == 3;
      assert !AwaitsAddress(b.rec.state);
      assert Holder(x.heard) == Holder(a.heard);
    }
  }

  /** While an attempt is undecided its owner sees nothing. */
  lemma UndecidedItems(s: Byte, owner: Fd, x: Attempt, f: nat)
    requires owner == x.owner >= 0 && x.verdict == Arbitrating
    ensures Route(f, [Item(false, RECEIVED, s, owner, owner)]) == Promised(f, Receipt(s, Arbitrating, Some(x)))
    ensures Broadcast([Item(false, RECEIVED, s, owner, owner)]) == [s]
  {
    RouteOfOne(f, Item(false, RECEIVED, s, owner, owner));
  }

  /** Winning: the owner gets the answer instead of the symbol. */
  lemma WonItems(v: ArbState, s: Byte, owner: Fd, x: Attempt, f: nat)
    requires v in {Won1, Won2} && owner == x.owner >= 0 && x.verdict == v && x.heard != []
    ensures var answer, echo := Item(true, STARTED, x.requested, owner, owner), Item(false, RECEIVED, s, owner, owner);
      && Route(f, [answer, echo]) == Promised(f, Receipt(s, v, Some(x)))
      && Broadcast([answer, echo]) == [s]
  {
    RouteOfTwo(f, Item(true, STARTED, x.requested, owner, owner), Item(false, RECEIVED, s, owner, owner));
  }

  /** Losing or failing: the owner gets the answer and then the symbol like all. */
  lemma UnluckyItems(v: ArbState, s: Byte, owner: Fd, x: Attempt, f: nat)
    requires v in {Lost1, Lost2, Error} && owner == x.owner >= 0 && x.verdict == v && x.heard != []
    ensures var answer, echo := Item(true, Answer(x).c, Answer(x).d, owner, owner), Item(false, RECEIVED, s, -1, owner);
      && Route(f, [answer, echo]) == Promised(f, Receipt(s, v, Some(x)))
      && Broadcast([answer, echo]) == [s]
  {
    RouteOfTwo(f, Item(true, Answer(x).c, Answer(x).d, owner, owner), Item(false, RECEIVED, s, -1, owner));
  }

  /** Outside attempts, and on a restart, everybody sees the symbol. */
  lemma OpenItems(v: ArbState, s: Byte, requester: Fd, attempt: Option<Attempt>, f: nat)
    requires v in {Idle, Restart1, Restart2}
    ensures Route(f, [Item(false, RECEIVED, s, -1, requester)]) == Promised(f, Receipt(s, v, attempt))
    ensures Broadcast([Item(false, RECEIVED, s, -1, requester)]) == [s]
  {
    RouteOfOne(f, Item(false, RECEIVED, s, -1, requester));
  }

  /** The items queued for one symbol are what the history promises client f. */
  lemma ItemsKeepThePromise(v: ArbState, s: Byte, master: Byte, owner: Fd, requester: Fd, x: Attempt, f: nat)
    requires v != Idle && owner == x.owner >= 0 && x.verdict == v && x.heard != []
    requires v in {Won1, Won2} ==> master == x.requested
    requires v in {Lost1, Lost2} ==> master == Holder(x.heard)
    ensures Route(f, Items(v, s, master, owner, requester)) == Promised(f, Receipt(s, v, Some(x)))
    ensures Broadcast(Items(v, s, master, owner, requester)) == [s]
  {
    match v {
      case Arbitrating => UndecidedItems(s, owner, x, f);
      case Won1 => WonItems(v, s, owner, x, f);
      case Won2 => WonItems(v, s, owner, x, f);
      case Lost1 => UnluckyItems(v, s, owner, x, f);
      case Lost2 => UnluckyItems(v, s, owner, x, f);
      case Error => UnluckyItems(v, s, owner, x, f);
      case _ => OpenItems(v, s, requester, Some(x), f);
    }
  }

  lemma BusyItemsKeepThePromise(b: Bridge, a: Attempt, spent: nat, i: Input, f: nat)
    requires Open(b, a, spent)
    ensures var v := Verdict(b, i);
      var master := Observe(b.rec, i.symbol, i.synTime).master;
      var items := Items(v.state, i.symbol, master, b.clientFd, b.reservation.client);
      && Route(f, items) == Promised(f, Receipt(i.symbol, v.state, Some(Extend(a, i, v))))
      && Broadcast(items) == [i.symbol]
  {
    var v := Verdict(b, i);
    var master := Observe(b.rec, i.symbol, i.synTime).master;
    VerdictShape(b, i);
    AnswerNamesTheHolder(b, a, spent, i);
    ItemsKeepThePromise(v.state, i.symbol, master, b.clientFd, b.reservation.client, Extend(a, i, v), f);
  }

  lemma NotedBusy(run: Run, i: Input)
    requires Sound(run) && run.bridge.arb.arbitrating
    ensures var v := Verdict(run.bridge, i);
      Noted(run, i) == Receipt(i.symbol, v.state, Some(Extend(run.attempts[|run.attempts| - 1], i, v)))
  {
  }

  lemma SymbolKeepsThePromise(run: Run, i: Input, f: nat)
    requires Sound(run)
    ensures var b := run.bridge;
      var master := Observe(b.rec, i.symbol, i.synTime).master;
      var items := Items(Verdict(b, i).state, i.symbol, master, b.clientFd, b.reservation.client);
      && AfterSymbol(b, i).queue == b.queue + items
      && Route(f, items) == Promised(f, Noted(run, i))
      && Broadcast(items) == [i.symbol]
  {
    var b := run.bridge;
    if b.arb.arbitrating {
      var n := |run.attempts| - 1;
      BusyItemsKeepThePromise(b, run.attempts[n], Spent(run.attempts[..n]), i, f);
      NotedBusy(run, i);
    } else {
      VerdictShape(b, i);
      OpenItems(Idle, i.symbol, b.reservation.client, None, f);
    }
  }

  // ---------------------------------------------------------------- every run

  function Delivered(run: Run): seq<Item> {
    run.popped + run.bridge.queue
  }

  /** Delivery conservation. Plain clients get exactly the received symbols in
      order; the enhanced client f gets exactly what the history promises it. */
  lemma {:induction false} EveryRunDelivers(evs: seq<Event>, f: nat)
    ensures var run := After(evs);
      && Broadcast(Delivered(run)) == SymbolsOf(evs)
      && Route(f, Delivered(run)) == Expected(f, run.receipts)
    decreases |evs|
  {
    if evs != [] {
      var n := |evs| - 1;
      var run := After(evs[..n]);
      EveryRunDelivers(evs[..n], f);
      EveryRunIsSound(evs[..n]);
      match evs[n] {
        case StartCommand(fd, address) =>
        case Pop => PopKeepsOrder(run);
        case Symbol(i) => SymbolDelivers(run, i, f);
      }
    }
  }

  lemma PopKeepsOrder(run: Run)
    ensures Delivered(Advance(run, Pop)) == Delivered(run)
  {
    var q := run.bridge.queue;
    if q != [] {
      assert q == [q[0]] + q[1..];
      assert Delivered(Advance(run, Pop)) == (run.popped + [q[0]]) + q[1..];
    }
  }

  lemma QueueAppends(f: nat, popped: seq<Item>, queue: seq<Item>, items: seq<Item>)
    ensures Route(f, popped + (queue + items)) == Route(f, popped + queue) + Route(f, items)
    ensures Broadcast(popped + (queue + items)) == Broadcast(popped + queue) + Broadcast(items)
  {
    assert popped + (queue + items) == (popped + queue) + items;
    RouteAppend(f, popped + queue, items);
    BroadcastAppend(popped + queue, items);
  }

  lemma ExpectedAppend(f: nat, rs: seq<Receipt>, r: Receipt)
    ensures Expected(f, rs + [r]) == Expected(f, rs) + Promised(f, r)
  {
    assert (rs + [r])[..|rs|] == rs;
  }

  lemma SymbolDelivers(run: Run, i: Input, f: nat)
    requires Sound(run)
    ensures var next := Advance(run, Symbol(i));
      && Broadcast(Delivered(next)) == Broadcast(Delivered(run)) + [i.symbol]
      && Route(f, Delivered(next)) == Route(f, Delivered(run)) + Promised(f, Noted(run, i))
      && Expected(f, next.receipts) == Expected(f, run.receipts) + Promised(f, Noted(run, i))
  {
    var b := run.bridge;
    var master := Observe(b.rec, i.symbol, i.synTime).master;
    var items := Items(Verdict(b, i).state, i.symbol, master, b.clientFd, b.reservation.client);
    SymbolKeepsThePromise(run, i, f);
    QueueAppends(f, run.popped, b.queue, items);
    ExpectedAppend(f, run.receipts, Noted(run, i));
  }

  // ------------------------------------------- answers and echoes, separately

  function AnswersIn(fs: seq<Frame>): seq<Frame>
    decreases |fs|
  {
    if fs == [] then []
    else AnswersIn(fs[..|fs| - 1]) + if fs[|fs| - 1].c != RECEIVED then [fs[|fs| - 1]] else []
  }

  function EchoesIn(fs: seq<Frame>): seq<Byte>
    decreases |fs|
  {
    if fs == [] then []
    else EchoesIn(fs[..|fs| - 1]) + if fs[|fs| - 1].c == RECEIVED then [fs[|fs| - 1].d] else []
  }

  lemma SplitAppend(fs: seq<Frame>, x: Frame)
    ensures AnswersIn(fs + [x]) == AnswersIn(fs) + if x.c != RECEIVED then [x] else []
    ensures EchoesIn(fs + [x]) == EchoesIn(fs) + if x.c == RECEIVED then [x.d] else []
  {
    assert (fs + [x])[..|fs|] == fs;
  }

  /** The answer promised for one symbol, if any. */
  function Reply(f: nat, r: Receipt): seq<Frame> {
    if Owns(f, r) && Final(r.verdict) && r.attempt.value.heard != [] then [Answer(r.attempt.value)] else []
  }

  lemma SplitPromise(fs: seq<Frame>, f: nat, r: Receipt)
    ensures AnswersIn(fs + Promised(f, r)) == AnswersIn(fs) + Reply(f, r)
    ensures EchoesIn(fs + Promised(f, r)) == EchoesIn(fs) + if Withheld(f, r) then [] else [r.symbol]
  {
    var mid := fs + Reply(f, r);
    if Reply(f, r) != [] {
      SplitAppend(fs, Answer(r.attempt.value));
    } else {
      assert mid == fs;
    }
    if Withheld(f, r) {
      assert fs + Promised(f, r) == mid;
    } else {
      SplitAppend(mid, Frame(RECEIVED, r.symbol));
      assert fs + Promised(f, r) == mid + [Frame(RECEIVED, r.symbol)];
    }
  }

  lemma {:induction false} EchoesAreVisible(f: nat, rs: seq<Receipt>)
    ensures EchoesIn(Expected(f, rs)) == Visible(f, rs)
    decreases |rs|
  {
    if rs != [] {
      var n := |rs| - 1;
      EchoesAreVisible(f, rs[..n]);
      SplitPromise(Expected(f, rs[..n]), f, rs[n]);
    }
  }

  lemma DueAppend(f: nat, attempts: seq<Attempt>, x: Attempt)
    ensures Due(f, attempts + [x]) ==
            Due(f, attempts) + if x.owner == f && Final(x.verdict) && x.heard != [] then [Answer(x)] else []
  {
    assert (attempts + [x])[..|attempts|] == attempts;
  }

  lemma DueGrown(f: nat, was: seq<Attempt>, ext: seq<Attempt>, i: Input, v: DataEffect)
    requires Grown(was, ext, true, i, v)
    ensures Due(f, ext) == Due(f, was) + Reply(f, Receipt(i.symbol, v.state, Some(ext[|was| - 1])))
  {
    var n := |was| - 1;
    assert was == was[..n] + [was[n]] && ext == was[..n] + [ext[n]];
    DueReplaced(f, was[..n], was[n], ext[n], i.symbol);
  }

  lemma DueReplaced(f: nat, before: seq<Attempt>, open: Attempt, x: Attempt, s: Byte)
    requires open.verdict == Arbitrating && x.heard != []
    ensures Due(f, before + [x]) == Due(f, before + [open]) + Reply(f, Receipt(s, x.verdict, Some(x)))
  {
    DueAppend(f, before, open);
    DueAppend(f, before, x);
    assert Due(f, before) + [] == Due(f, before);
  }

  lemma DueBegun(f: nat, ext: seq<Attempt>, begun: seq<Attempt>, st: StartResult, sw: seq<Byte>)
    requires Begun(begun, st, sw)
    ensures Due(f, ext + begun) == Due(f, ext)
  {
    if st == Started {
      assert begun == [begun[0]];
      DueAppend(f, ext, begun[0]);
    } else {
      assert ext + begun == ext;
    }
  }

  lemma DueOfSymbol(run: Run, i: Input, f: nat)
    requires Sound(run)
    ensures Due(f, Advance(run, Symbol(i)).attempts) == Due(f, run.attempts) + Reply(f, Noted(run, i))
  {
    var v, st := Verdict(run.bridge, i), Attempted(run.bridge, i);
    SymbolStep(run, i);
    if run.bridge.arb.arbitrating {
      NotedBusy(run, i);
      DueGrown(f, run.attempts, Extended(run, i), i, v);
    }
    DueBegun(f, Extended(run, i), Opened(run, i), st.result, st.writes);
  }

  lemma {:induction false} AnswersAreDue(evs: seq<Event>, f: nat)
    ensures AnswersIn(Expected(f, After(evs).receipts)) == Due(f, After(evs).attempts)
    decreases |evs|
  {
    if evs != [] {
      var n := |evs| - 1;
      var run := After(evs[..n]);
      AnswersAreDue(evs[..n], f);
      EveryRunIsSound(evs[..n]);
      match evs[n] {
        case StartCommand(fd, address) =>
        case Pop =>
        case Symbol(i) =>
          SymbolDelivers(run, i, f);
          SplitPromise(Expected(f, run.receipts), f, Noted(run, i));
          DueOfSymbol(run, i, f);
      }
    }
  }

  /** What the enhanced client f sees over any run: one answer for each of its
      attempts that was won, lost or failed, in order, and every received symbol
      except those its own attempts consumed. */
  lemma EnhancedClientSees(evs: seq<Event>, f: nat)
    ensures var run := After(evs);
      && AnswersIn(Route(f, Delivered(run))) == Due(f, run.attempts)
      && EchoesIn(Route(f, Delivered(run))) == Visible(f, run.receipts)
  {
    EveryRunDelivers(evs, f);
    AnswersAreDue(evs, f);
    EchoesAreVisible(f, After(evs).receipts);
  }

  /** A started answer tells the client that its address won by the rule of the bus, a
      failed answer that another one did, and which. */
  lemma AnswersTellTheTruth(evs: seq<Event>, k: nat)
    requires k < |After(evs).attempts| && Final(After(evs).attempts[k].verdict)
    ensures Truthful(After(evs).attempts[k])
  {
    AttemptsFollowTheRule(evs, k);
    FinalAnswers(After(evs).attempts[k], Spent(After(evs).attempts[..k]));
  }

  ghost predicate Truthful(a: Attempt) {
    && a.heard != []
    && (Answer(a).c == STARTED <==> Judge(a.requested, a.heard).WonRound?)
    && (Answer(a).c == FAILED <==> Judge(a.requested, a.heard).LostTo?)
    && (Answer(a).c == STARTED ==> Answer(a).d == a.requested)
    && (Answer(a).c == FAILED ==> Answer(a).d == Holder(a.heard) != a.requested)
  }

  lemma FinalAnswers(a: Attempt, spent: nat)
    requires ProperAttempt(a, spent) && Final(a.verdict)
    ensures Truthful(a)
  {
  }
}
