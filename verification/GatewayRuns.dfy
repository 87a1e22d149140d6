/** Runs of the whole gateway: bytes arrive from the clients, dataProcess handles them,
    reads the bus and fans out. Every such run is a run of the bridge, and what an
    enhanced client finds on its connection is woven from two streams: the replies to its
    own commands, and the bus data routed to it. */
module GatewayRuns {
  import opened Words
  import opened Sequences
  import opened BusStates
  import opened BusTypes
  import opened BridgeRuns
  import opened BridgeDelivery
  import opened ClientProtocol

  /** What comes in from the network before a call of dataProcess, how many bytes the
      transmit buffer takes for each plain client, and the bus symbol that is waiting. */
  datatype Turn = Turn(plainIn: seq<seq<Byte>>, enhancedIn: seq<seq<Byte>>, rooms: seq<nat>, symbol: Option<Input>)

  predicate FullTurn(t: Turn) {
    |t.plainIn| == |t.enhancedIn| == |t.rooms| == MAX_WIFI_CLIENTS
  }

  function Receiving(c: Client, bytes: seq<Byte>): Client {
    if c.connected then c.(inbox := c.inbox + bytes) else c
  }

  function AllReceiving(cs: seq<Client>, ins: seq<seq<Byte>>): (r: seq<Client>)
    requires |ins| == |cs|
    ensures |r| == |cs| && forall k :: 0 <= k < |cs| ==> r[k] == Receiving(cs[k], ins[k])
  {
    seq(|cs|, k requires 0 <= k < |cs| => Receiving(cs[k], ins[k]))
  }

  function Arrived(h: Hub, t: Turn): (r: Hub)
    requires FullHub(h) && FullTurn(t)
    ensures FullHub(r)
  {
    h.(plain := AllReceiving(h.plain, t.plainIn), enhanced := AllReceiving(h.enhanced, t.enhancedIn))
  }

  function TurnDone(h: Hub, t: Turn): (r: Hub)
    requires FullHub(h) && FullTurn(t)
    ensures FullHub(r)
  {
    Processed(Arrived(h, t), t.rooms, t.symbol)
  }

  // -------------------------------------------------------- the run of the bridge

  /** The start commands, code 2, among what a client sends. */
  function StartEvents(fd: nat, cmds: seq<Frame>): seq<Event>
    decreases |cmds|
  {
    if cmds == [] then []
    else if cmds[0].c == 2 then [StartCommand(fd, cmds[0].d)] + StartEvents(fd, cmds[1..])
    else StartEvents(fd, cmds[1..])
  }

  function ClientEvents(c: Client): seq<Event> {
    if c.connected then StartEvents(c.fd, Batch(c.inbox).cmds) else []
  }

  function SlotEvents(h: Hub, n: nat): seq<Event>
    requires FullHub(h) && n <= MAX_WIFI_CLIENTS
  {
    if n == 0 then [] else SlotEvents(h, n - 1) + ClientEvents(h.enhanced[n - 1])
  }

  function BusEvents(i: Option<Input>): seq<Event> {
    (if i.Some? then [Symbol(i.value)] else []) + [Pop]
  }

  /** What one turn is for the bridge: the start commands in the order of the slots, the
      symbol, and a pop. */
  function TurnEvents(h: Hub, t: Turn): seq<Event>
    requires FullHub(h) && FullTurn(t)
  {
    SlotEvents(Arrived(h, t), MAX_WIFI_CLIENTS) + BusEvents(t.symbol)
  }

  function AdvanceAll(run: Run, evs: seq<Event>): Run
    decreases |evs|
  {
    if evs == [] then run else Advance(AdvanceAll(run, evs[..|evs| - 1]), evs[|evs| - 1])
  }

  lemma {:induction false} AdvanceAllConcat(run: Run, a: seq<Event>, b: seq<Event>)
    ensures AdvanceAll(run, a + b) == AdvanceAll(AdvanceAll(run, a), b)
    decreases |b|
  {
    if b == [] {
      EmptyIsNeutral(a);
    } else {
      SplitLast(a, b);
      AdvanceAllConcat(run, a, b[..|b| - 1]);
      AdvanceAllOneMore(run, a + b[..|b| - 1], b[|b| - 1]);
    }
  }

  lemma AdvanceAllOneMore(run: Run, evs: seq<Event>, e: Event)
    ensures AdvanceAll(run, evs + [e]) == Advance(AdvanceAll(run, evs), e)
  {
    assert (evs + [e])[..|evs|] == evs;
  }

  lemma {:induction false} AfterIsAdvanceAll(evs: seq<Event>)
    ensures After(evs) == AdvanceAll(IDLE_RUN, evs)
    decreases |evs|
  {
    if evs != [] {
      AfterIsAdvanceAll(evs[..|evs| - 1]);
    }
  }

  lemma AfterConcat(a: seq<Event>, b: seq<Event>)
    ensures After(a + b) == AdvanceAll(After(a), b)
  {
    AfterIsAdvanceAll(a);
    AfterIsAdvanceAll(a + b);
    AdvanceAllConcat(IDLE_RUN, a, b);
  }

  /** Equal but for the transmit line, which carries the clients' own bytes besides. */
  predicate Alike(a: Bridge, b: Bridge) {
    a.(written := []) == b.(written := [])
  }

  lemma AlikeAfterSymbol(a: Bridge, b: Bridge, i: Input)
    requires Alike(a, b)
    ensures Alike(AfterSymbol(a, i), AfterSymbol(b, i))
  {
    assert Verdict(a, i) == Verdict(b, i);
    assert Attempted(a, i) == Attempted(b, i);
  }

  lemma AlikeAfterRead(a: Bridge, b: Bridge, i: Option<Input>)
    requires Alike(a, b)
    ensures Alike(ReadSpec(a, i).0, ReadSpec(b, i).0) && ReadSpec(a, i).1 == ReadSpec(b, i).1
  {
    if i.Some? {
      AlikeAfterSymbol(a, b, i.value);
    }
  }

  /** Processing a command does to the reservation what its start event does. */
  lemma CommandIsEvent(g: Effects, fd: nat, f: Frame)
    ensures Process(g, fd, f).reservation ==
      if f.c == 2 then (if f.d == SYN then FREE else Reserve(g.reservation, fd, f.d)) else g.reservation
  {
  }

  function WithReservation(run: Run, r: Reservation): Run {
    run.(bridge := run.bridge.(reservation := r))
  }

  lemma {:induction false} CommandsAreEvents(run: Run, g: Effects, fd: nat, cmds: seq<Frame>)
    requires run.bridge.reservation == g.reservation
    ensures AdvanceAll(run, StartEvents(fd, cmds)) == WithReservation(run, ProcessAll(g, fd, cmds).reservation)
    decreases |cmds|
  {
    if cmds != [] {
      var next := Process(g, fd, cmds[0]);
      CommandIsEvent(g, fd, cmds[0]);
      CommandsAreEvents(WithReservation(run, next.reservation), next, fd, cmds[1..]);
      if cmds[0].c == 2 {
        var e := StartCommand(fd, cmds[0].d);
        AdvanceAllConcat(run, [e], StartEvents(fd, cmds[1..]));
        AdvanceAllOneMore(run, [], e);
        assert [] + [e] == [e];
      }
    }
  }

  lemma ObeyingIsEvents(run: Run, b: Bridge, c: Client)
    requires Alike(b, run.bridge)
    ensures Alike(Obeyed(b, c).0, AdvanceAll(run, ClientEvents(c)).bridge)
    ensures AdvanceAll(run, ClientEvents(c)).popped == run.popped
  {
    if c.connected {
      CommandsAreEvents(run, Effects(b.reservation, b.written, c.outbox), c.fd, Batch(c.inbox).cmds);
    }
  }

  /** Handling the slots leaves later slots as they were. */
  lemma {:induction false} LaterSlotsWait(h: Hub, n: nat, rooms: seq<nat>, k: nat)
    requires FullHub(h) && n <= k < MAX_WIFI_CLIENTS == |rooms|
    ensures SlotsHandled(h, n, rooms).enhanced[k] == h.enhanced[k]
  {
    if n > 0 {
      LaterSlotsWait(h, n - 1, rooms, k);
    }
  }

  lemma OneSlotIsEvents(run: Run, h: Hub, i: nat, room: nat)
    requires FullHub(h) && i < MAX_WIFI_CLIENTS && Alike(h.bridge, run.bridge)
    ensures Alike(SlotHandled(h, i, room).bridge, AdvanceAll(run, ClientEvents(h.enhanced[i])).bridge)
    ensures AdvanceAll(run, ClientEvents(h.enhanced[i])).popped == run.popped
  {
    var mid := PlainHandled(h, i, room);
    assert Alike(mid.bridge, h.bridge);
    ObeyingIsEvents(run, mid.bridge, h.enhanced[i]);
  }

  lemma {:induction false} HandlingIsEvents(run: Run, h: Hub, n: nat, rooms: seq<nat>)
    requires FullHub(h) && n <= MAX_WIFI_CLIENTS == |rooms| && Alike(h.bridge, run.bridge)
    ensures Alike(SlotsHandled(h, n, rooms).bridge, AdvanceAll(run, SlotEvents(h, n)).bridge)
    ensures AdvanceAll(run, SlotEvents(h, n)).popped == run.popped
  {
    if n > 0 {
      HandlingIsEvents(run, h, n - 1, rooms);
      LaterSlotsWait(h, n - 1, rooms, n - 1);
      AdvanceAllConcat(run, SlotEvents(h, n - 1), ClientEvents(h.enhanced[n - 1]));
      OneSlotIsEvents(AdvanceAll(run, SlotEvents(h, n - 1)), SlotsHandled(h, n - 1, rooms), n - 1, rooms[n - 1]);
    }
  }

  lemma ReadingIsEvents(run: Run, b: Bridge, i: Option<Input>)
    requires Alike(b, run.bridge)
    ensures var (after, d) := ReadSpec(b, i);
      && Alike(after, AdvanceAll(run, BusEvents(i)).bridge)
      && AdvanceAll(run, BusEvents(i)).popped == run.popped + if d.Some? then [d.value] else []
  {
    AlikeAfterRead(b, run.bridge, i);
    AdvanceAllOneMore(run, if i.Some? then [Symbol(i.value)] else [], Pop);
    if i.Some? {
      AdvanceAllOneMore(run, [], Symbol(i.value));
      assert [] + [Symbol(i.value)] == [Symbol(i.value)];
    }
    EmptyIsNeutral(run.popped);
  }

  /** One turn of the gateway is its events for the bridge. */
  lemma TurnIsEvents(run: Run, h: Hub, t: Turn)
    requires FullHub(h) && FullTurn(t) && Alike(h.bridge, run.bridge)
    ensures Alike(TurnDone(h, t).bridge, AdvanceAll(run, TurnEvents(h, t)).bridge)
    ensures AdvanceAll(run, TurnEvents(h, t)).popped == run.popped + Popped(h, t)
  {
    var h1 := Arrived(h, t);
    var mid := AdvanceAll(run, SlotEvents(h1, MAX_WIFI_CLIENTS));
    HandlingIsEvents(run, h1, MAX_WIFI_CLIENTS, t.rooms);
    AdvanceAllConcat(run, SlotEvents(h1, MAX_WIFI_CLIENTS), BusEvents(t.symbol));
    ReadingIsEvents(mid, SlotsHandled(h1, MAX_WIFI_CLIENTS, t.rooms).bridge, t.symbol);
  }

  /** The item the turn fans out, if any. */
  function Popped(h: Hub, t: Turn): seq<Item>
    requires FullHub(h) && FullTurn(t)
  {
    var d := ReadSpec(SlotsHandled(Arrived(h, t), MAX_WIFI_CLIENTS, t.rooms).bridge, t.symbol).1;
    if d.Some? then [d.value] else []
  }

  // ------------------------------------------------------------ one connection

  /** A frame on an enhanced connection: the reply to a command, or bus data. */
  datatype Sending = Reply(frame: Frame) | Data(frame: Frame)

  function Replies(fs: seq<Frame>): (r: seq<Sending>)
    ensures |r| == |fs| && forall k :: 0 <= k < |fs| ==> r[k] == Reply(fs[k])
  {
    seq(|fs|, k requires 0 <= k < |fs| => Reply(fs[k]))
  }

  function Datas(fs: seq<Frame>): (r: seq<Sending>)
    ensures |r| == |fs| && forall k :: 0 <= k < |fs| ==> r[k] == Data(fs[k])
  {
    seq(|fs|, k requires 0 <= k < |fs| => Data(fs[k]))
  }

  function FramesOf(ss: seq<Sending>): (r: seq<Frame>)
    ensures |r| == |ss| && forall k :: 0 <= k < |ss| ==> r[k] == ss[k].frame
  {
    seq(|ss|, k requires 0 <= k < |ss| => ss[k].frame)
  }

  /** The two streams that are woven into one. */
  function RepliesIn(ss: seq<Sending>): seq<Frame>
    decreases |ss|
  {
    if ss == [] then []
    else RepliesIn(ss[..|ss| - 1]) + if ss[|ss| - 1].Reply? then [ss[|ss| - 1].frame] else []
  }

  function DataIn(ss: seq<Sending>): seq<Frame>
    decreases |ss|
  {
    if ss == [] then []
    else DataIn(ss[..|ss| - 1]) + if ss[|ss| - 1].Data? then [ss[|ss| - 1].frame] else []
  }

  lemma {:induction false} StreamsOfConcat(a: seq<Sending>, b: seq<Sending>)
    ensures RepliesIn(a + b) == RepliesIn(a) + RepliesIn(b) && DataIn(a + b) == DataIn(a) + DataIn(b)
    decreases |b|
  {
    if b == [] {
      EmptyIsNeutral(a);
      EmptyIsNeutral(RepliesIn(a));
      EmptyIsNeutral(DataIn(a));
    } else {
      var (init, x) := (b[..|b| - 1], b[|b| - 1]);
      SplitLast(a, b);
      StreamsOfConcat(a, init);
      assert (a + b)[..|a + b| - 1] == a + init;
      Associative(RepliesIn(a), RepliesIn(init), if x.Reply? then [x.frame] else []);
      Associative(DataIn(a), DataIn(init), if x.Data? then [x.frame] else []);
    }
  }

  lemma {:induction false} StreamsOfOneKind(fs: seq<Frame>)
    ensures RepliesIn(Replies(fs)) == fs && DataIn(Replies(fs)) == []
    ensures DataIn(Datas(fs)) == fs && RepliesIn(Datas(fs)) == []
    decreases |fs|
  {
    if fs != [] {
      var init := fs[..|fs| - 1];
      StreamsOfOneKind(init);
      assert Replies(fs)[..|fs| - 1] == Replies(init) && Datas(fs)[..|fs| - 1] == Datas(init);
      assert fs == init + [fs[|fs| - 1]];
    }
  }

  /** What processCmd answers: an init, code 0, is confirmed with resetted; a start behind
      somebody else's request is refused with a host error. */
  function ReplyTo(r: Reservation, fd: nat, f: Frame): seq<Frame> {
    if f.c == 0 then [Frame(0x0, 0)]
    else if f.c == 2 && f.d != SYN && r.client >= 0 && r.client != fd then [Frame(0xC, 0)]
    else []
  }

  function RepliesTo(g: Effects, fd: nat, cmds: seq<Frame>): seq<Frame>
    decreases |cmds|
  {
    if cmds == [] then []
    else ReplyTo(g.reservation, fd, cmds[0]) + RepliesTo(Process(g, fd, cmds[0]), fd, cmds[1..])
  }

  lemma OneReply(g: Effects, fd: nat, f: Frame)
    ensures Process(g, fd, f).outbox == g.outbox + FrameBytes(ReplyTo(g.reservation, fd, f))
  {
    EmptyIsNeutral(g.outbox);
    EmptyIsNeutral(Encode(RESETTED, 0));
    EmptyIsNeutral(Encode(ERROR_HOST, ERR_FRAMING));
  }

  lemma {:induction false} CommandsAreAnswered(g: Effects, fd: nat, cmds: seq<Frame>)
    ensures ProcessAll(g, fd, cmds).outbox == g.outbox + FrameBytes(RepliesTo(g, fd, cmds))
    decreases |cmds|
  {
    if cmds == [] {
      EmptyIsNeutral(g.outbox);
    } else {
      var next, first := Process(g, fd, cmds[0]), ReplyTo(g.reservation, fd, cmds[0]);
      OneReply(g, fd, cmds[0]);
      CommandsAreAnswered(next, fd, cmds[1..]);
      FrameBytesAppend(first, RepliesTo(next, fd, cmds[1..]));
      Associative(g.outbox, FrameBytes(first), FrameBytes(RepliesTo(next, fd, cmds[1..])));
    }
  }

  /** The replies to what client k sent this turn. */
  function TurnReplies(h: Hub, t: Turn, k: nat): seq<Frame>
    requires FullHub(h) && FullTurn(t) && k < MAX_WIFI_CLIENTS
  {
    var h1 := Arrived(h, t);
    var c, b := h1.enhanced[k], PlainHandled(SlotsHandled(h1, k, t.rooms), k, t.rooms[k]).bridge;
    RepliesTo(Effects(b.reservation, b.written, c.outbox), c.fd, Batch(c.inbox).cmds)
  }

  /** What client k is sent this turn. */
  function TurnSendings(h: Hub, t: Turn, k: nat): seq<Sending>
    requires FullHub(h) && FullTurn(t) && k < MAX_WIFI_CLIENTS
  {
    Replies(TurnReplies(h, t, k)) + Datas(Route(h.enhanced[k].fd, Popped(h, t)))
  }

  lemma ObeyingAnswers(b: Bridge, c: Client)
    requires Obeyed(b, c).1.connected
    ensures c.connected
    ensures Obeyed(b, c).1.fd == c.fd
    ensures Obeyed(b, c).1.outbox ==
      c.outbox + FrameBytes(RepliesTo(Effects(b.reservation, b.written, c.outbox), c.fd, Batch(c.inbox).cmds))
  {
    var g := Effects(b.reservation, b.written, c.outbox);
    CommandsAreAnswered(g, c.fd, Batch(c.inbox).cmds);
    assert Chars("") == [];
    EmptyIsNeutral(ProcessAll(g, c.fd, Batch(c.inbox).cmds).outbox);
  }

  lemma {:induction false} SlotStaysHandled(h: Hub, n: nat, rooms: seq<nat>, k: nat)
    requires FullHub(h) && k < n <= MAX_WIFI_CLIENTS == |rooms|
    ensures SlotsHandled(h, n, rooms).enhanced[k] == SlotsHandled(h, k + 1, rooms).enhanced[k]
  {
    if n > k + 1 {
      SlotStaysHandled(h, n - 1, rooms, k);
    }
  }

  lemma SlotAnswers(h: Hub, t: Turn, k: nat)
    requires FullHub(h) && FullTurn(t) && k < MAX_WIFI_CLIENTS
    requires SlotsHandled(Arrived(h, t), MAX_WIFI_CLIENTS, t.rooms).enhanced[k].connected
    ensures var after := SlotsHandled(Arrived(h, t), MAX_WIFI_CLIENTS, t.rooms).enhanced[k];
      && h.enhanced[k].connected && after.fd == h.enhanced[k].fd
      && after.outbox == h.enhanced[k].outbox + FrameBytes(TurnReplies(h, t, k))
  {
    var h1 := Arrived(h, t);
    SlotStaysHandled(h1, MAX_WIFI_CLIENTS, t.rooms, k);
    LaterSlotsWait(h1, k, t.rooms, k);
    ObeyingAnswers(PlainHandled(SlotsHandled(h1, k, t.rooms), k, t.rooms[k]).bridge, h1.enhanced[k]);
  }

  lemma FramesOfTurn(h: Hub, t: Turn, k: nat)
    requires FullHub(h) && FullTurn(t) && k < MAX_WIFI_CLIENTS
    ensures FrameBytes(FramesOf(TurnSendings(h, t, k))) ==
      FrameBytes(TurnReplies(h, t, k)) + FrameBytes(Route(h.enhanced[k].fd, Popped(h, t)))
  {
    var rs, ds := TurnReplies(h, t, k), Route(h.enhanced[k].fd, Popped(h, t));
    assert FramesOf(Replies(rs) + Datas(ds)) == rs + ds;
    FrameBytesAppend(rs, ds);
  }

  lemma RouteOfPopped(f: nat, d: Option<Item>)
    ensures Route(f, if d.Some? then [d.value] else []) == if d.Some? then Shown(f, d.value) else []
  {
    if d.Some? {
      RouteOfOne(f, d.value);
    }
  }

  /** A turn adds to the connection of a client that stays connected exactly the replies to
      its commands and then the bus data routed to it. */
  lemma TurnIsSent(h: Hub, t: Turn, k: nat)
    requires FullHub(h) && FullTurn(t) && k < MAX_WIFI_CLIENTS && TurnDone(h, t).enhanced[k].connected
    ensures var was, now := h.enhanced[k], TurnDone(h, t).enhanced[k];
      && was.connected && now.fd == was.fd
      && now.outbox == was.outbox + FrameBytes(FramesOf(TurnSendings(h, t, k)))
  {
    var h1 := SlotsHandled(Arrived(h, t), MAX_WIFI_CLIENTS, t.rooms);
    var (b, d) := ReadSpec(h1.bridge, t.symbol);
    var data := FrameBytes(Route(h.enhanced[k].fd, Popped(h, t)));
    SlotAnswers(h, t, k);
    RouteOfPopped(h.enhanced[k].fd, d);
    FramesOfTurn(h, t, k);
    Associative(h.enhanced[k].outbox, FrameBytes(TurnReplies(h, t, k)), data);
    EmptyIsNeutral(h1.enhanced[k].outbox);
  }

  // ------------------------------------------------------------------- every run

  predicate FullTurns(ts: seq<Turn>) {
    forall j :: 0 <= j < |ts| ==> FullTurn(ts[j])
  }

  /** The gateway after the turns. */
  function HubAfter(h: Hub, ts: seq<Turn>): (r: Hub)
    requires FullHub(h) && FullTurns(ts)
    ensures FullHub(r)
    decreases |ts|
  {
    if ts == [] then h else TurnDone(HubAfter(h, ts[..|ts| - 1]), ts[|ts| - 1])
  }

  /** The run of the bridge inside. */
  function EventsOf(h: Hub, ts: seq<Turn>): seq<Event>
    requires FullHub(h) && FullTurns(ts)
    decreases |ts|
  {
    if ts == [] then []
    else
      var before, t := ts[..|ts| - 1], ts[|ts| - 1];
      EventsOf(h, before) + TurnEvents(HubAfter(h, before), t)
  }

  /** What client k has been sent. */
  function SendingsTo(h: Hub, ts: seq<Turn>, k: nat): seq<Sending>
    requires FullHub(h) && FullTurns(ts) && k < MAX_WIFI_CLIENTS
    decreases |ts|
  {
    if ts == [] then []
    else
      var before, t := ts[..|ts| - 1], ts[|ts| - 1];
      SendingsTo(h, before, k) + TurnSendings(HubAfter(h, before), t, k)
  }

  /** And the replies among it, from the commands it sent. */
  function RepliesDue(h: Hub, ts: seq<Turn>, k: nat): seq<Frame>
    requires FullHub(h) && FullTurns(ts) && k < MAX_WIFI_CLIENTS
    decreases |ts|
  {
    if ts == [] then []
    else
      var before, t := ts[..|ts| - 1], ts[|ts| - 1];
      RepliesDue(h, before, k) + TurnReplies(HubAfter(h, before), t, k)
  }

  /** Nothing has happened yet. */
  predicate Fresh(h: Hub) {
    FullHub(h) && h.bridge == FRESH && forall k :: 0 <= k < MAX_WIFI_CLIENTS ==> h.enhanced[k].outbox == []
  }

  /** Every run of the gateway is a run of the bridge, with the clients' start commands
      as its start events. */
  lemma {:induction false} EveryGatewayRunIsABridgeRun(h: Hub, ts: seq<Turn>)
    requires Fresh(h) && FullTurns(ts)
    ensures Alike(HubAfter(h, ts).bridge, After(EventsOf(h, ts)).bridge)
    decreases |ts|
  {
    if ts != [] {
      var before, t := ts[..|ts| - 1], ts[|ts| - 1];
      EveryGatewayRunIsABridgeRun(h, before);
      AfterConcat(EventsOf(h, before), TurnEvents(HubAfter(h, before), t));
      TurnIsEvents(After(EventsOf(h, before)), HubAfter(h, before), t);
    }
  }

  ghost predicate Woven(h: Hub, ts: seq<Turn>, k: nat)
    requires FullHub(h) && FullTurns(ts) && k < MAX_WIFI_CLIENTS
  {
    var now, sent := HubAfter(h, ts).enhanced[k], SendingsTo(h, ts, k);
    && now.fd == h.enhanced[k].fd
    && now.outbox == FrameBytes(FramesOf(sent))
    && RepliesIn(sent) == RepliesDue(h, ts, k)
    && DataIn(sent) == Route(now.fd, After(EventsOf(h, ts)).popped)
  }

  lemma StreamsOfTurn(h: Hub, t: Turn, k: nat)
    requires FullHub(h) && FullTurn(t) && k < MAX_WIFI_CLIENTS
    ensures RepliesIn(TurnSendings(h, t, k)) == TurnReplies(h, t, k)
    ensures DataIn(TurnSendings(h, t, k)) == Route(h.enhanced[k].fd, Popped(h, t))
  {
    var rs, ds := TurnReplies(h, t, k), Route(h.enhanced[k].fd, Popped(h, t));
    StreamsOfConcat(Replies(rs), Datas(ds));
    StreamsOfOneKind(rs);
    StreamsOfOneKind(ds);
    EmptyIsNeutral(rs);
    EmptyIsNeutral(ds);
  }

  lemma FramesOfConcat(a: seq<Sending>, b: seq<Sending>)
    ensures FrameBytes(FramesOf(a + b)) == FrameBytes(FramesOf(a)) + FrameBytes(FramesOf(b))
  {
    assert FramesOf(a + b) == FramesOf(a) + FramesOf(b);
    FrameBytesAppend(FramesOf(a), FramesOf(b));
  }

  /** Whatever arrives and in whatever pieces: an enhanced client that is still connected
      has been sent whole frames, the replies to its own commands and the bus data routed
      to it, each of the two streams complete and in order. */
  lemma {:induction false} ConnectionIsWoven(h: Hub, ts: seq<Turn>, k: nat)
    requires Fresh(h) && FullTurns(ts) && k < MAX_WIFI_CLIENTS && HubAfter(h, ts).enhanced[k].connected
    ensures Woven(h, ts, k)
    decreases |ts|
  {
    if ts != [] {
      var before, t := ts[..|ts| - 1], ts[|ts| - 1];
      var was := HubAfter(h, before);
      TurnIsSent(was, t, k);
      ConnectionIsWoven(h, before, k);
      EveryGatewayRunIsABridgeRun(h, before);
      AfterConcat(EventsOf(h, before), TurnEvents(was, t));
      TurnIsEvents(After(EventsOf(h, before)), was, t);
      StreamsOfConcat(SendingsTo(h, before, k), TurnSendings(was, t, k));
      StreamsOfTurn(was, t, k);
      FramesOfConcat(SendingsTo(h, before, k), TurnSendings(was, t, k));
      RouteAppend(was.enhanced[k].fd, After(EventsOf(h, before)).popped, Popped(was, t));
    }
  }

  /** End to end: the bus data on the connection, with what is still queued, is exactly
      what the history of the bus promises the client. */
  lemma BusDataIsWhatIsPromised(h: Hub, ts: seq<Turn>, k: nat)
    requires Fresh(h) && FullTurns(ts) && k < MAX_WIFI_CLIENTS && HubAfter(h, ts).enhanced[k].connected
    ensures var run, f := After(EventsOf(h, ts)), h.enhanced[k].fd;
      && run.bridge.queue == HubAfter(h, ts).bridge.queue
      && DataIn(SendingsTo(h, ts, k)) + Route(f, run.bridge.queue) == Expected(f, run.receipts)
  {
    var run, f := After(EventsOf(h, ts)), h.enhanced[k].fd;
    ConnectionIsWoven(h, ts, k);
    EveryGatewayRunIsABridgeRun(h, ts);
    EveryRunDelivers(EventsOf(h, ts), f);
    RouteAppend(f, run.popped, run.bridge.queue);
  }

  // ------------------------------------------------------------- a refused client

  lemma ObeyingRefuses(b: Bridge, c: Client)
    requires c.connected && !Obeyed(b, c).1.connected
    ensures var g := Effects(b.reservation, b.written, c.outbox);
      && Batch(c.inbox).error != ""
      && Obeyed(b, c).1.outbox ==
         c.outbox + FrameBytes(RepliesTo(g, c.fd, Batch(c.inbox).cmds)) + Chars(Batch(c.inbox).error)
  {
    CommandsAreAnswered(Effects(b.reservation, b.written, c.outbox), c.fd, Batch(c.inbox).cmds);
  }

  /** What the turn finds to complain about in what client k has sent. */
  function Complaint(h: Hub, t: Turn, k: nat): string
    requires FullHub(h) && FullTurn(t) && k < MAX_WIFI_CLIENTS
  {
    Batch(Arrived(h, t).enhanced[k].inbox).error
  }

  lemma HandledOnce(h: Hub, t: Turn, k: nat)
    requires FullHub(h) && FullTurn(t) && k < MAX_WIFI_CLIENTS
    ensures var h1 := Arrived(h, t);
      SlotsHandled(h1, MAX_WIFI_CLIENTS, t.rooms).enhanced[k] ==
        Obeyed(PlainHandled(SlotsHandled(h1, k, t.rooms), k, t.rooms[k]).bridge, h1.enhanced[k]).1
  {
    SlotStaysHandled(Arrived(h, t), MAX_WIFI_CLIENTS, t.rooms, k);
    LaterSlotsWait(Arrived(h, t), k, t.rooms, k);
  }

  lemma NotToldWhenGone(h: Hub, t: Turn, k: nat)
    requires FullHub(h) && FullTurn(t) && k < MAX_WIFI_CLIENTS
    requires !SlotsHandled(Arrived(h, t), MAX_WIFI_CLIENTS, t.rooms).enhanced[k].connected
    ensures TurnDone(h, t).enhanced[k] == SlotsHandled(Arrived(h, t), MAX_WIFI_CLIENTS, t.rooms).enhanced[k]
  {
  }

  lemma StillThere(h: Hub, t: Turn, k: nat)
    requires FullHub(h) && FullTurn(t) && k < MAX_WIFI_CLIENTS
    ensures TurnDone(h, t).enhanced[k].connected ==
      SlotsHandled(Arrived(h, t), MAX_WIFI_CLIENTS, t.rooms).enhanced[k].connected
  {
  }

  /** A client that is gone is neither read nor written. */
  lemma GoneIsLeftAlone(h: Hub, t: Turn, k: nat)
    requires FullHub(h) && FullTurn(t) && k < MAX_WIFI_CLIENTS && !h.enhanced[k].connected
    ensures TurnDone(h, t).enhanced[k] == h.enhanced[k]
  {
    HandledOnce(h, t, k);
    NotToldWhenGone(h, t, k);
  }

  /** The turn that drops a client adds the replies to the commands in front of the error
      and the complaint. */
  lemma TurnRefuses(h: Hub, t: Turn, k: nat)
    requires FullHub(h) && FullTurn(t) && k < MAX_WIFI_CLIENTS
    requires h.enhanced[k].connected && !TurnDone(h, t).enhanced[k].connected
    ensures Complaint(h, t, k) != ""
    ensures TurnDone(h, t).enhanced[k].outbox ==
      h.enhanced[k].outbox + FrameBytes(TurnReplies(h, t, k)) + Chars(Complaint(h, t, k))
  {
    var h1 := Arrived(h, t);
    StillThere(h, t, k);
    HandledOnce(h, t, k);
    NotToldWhenGone(h, t, k);
    ObeyingRefuses(PlainHandled(SlotsHandled(h1, k, t.rooms), k, t.rooms[k]).bridge, h1.enhanced[k]);
  }

  lemma FramesOfReplies(a: seq<Sending>, fs: seq<Frame>)
    ensures FrameBytes(FramesOf(a + Replies(fs))) == FrameBytes(FramesOf(a)) + FrameBytes(fs)
  {
    assert FramesOf(a + Replies(fs)) == FramesOf(a) + fs;
    FrameBytesAppend(FramesOf(a), fs);
  }

  /** The client was refused in turn t after the turns `past`: it has been sent what
      ConnectionIsWoven says up to that turn, then the replies to its last commands, then
      the complaint, and nothing more. */
  ghost predicate RefusedBy(h: Hub, past: seq<Turn>, t: Turn, k: nat, sent: seq<Byte>)
    requires FullHub(h) && FullTurns(past) && FullTurn(t) && k < MAX_WIFI_CLIENTS
  {
    var was := HubAfter(h, past);
    && was.enhanced[k].connected && Woven(h, past, k) && Complaint(was, t, k) != ""
    && sent == FrameBytes(FramesOf(SendingsTo(h, past, k) + Replies(TurnReplies(was, t, k))))
      + Chars(Complaint(was, t, k))
  }

  ghost predicate RefusedIn(h: Hub, ts: seq<Turn>, k: nat, j: nat)
    requires FullHub(h) && FullTurns(ts) && k < MAX_WIFI_CLIENTS
  {
    j < |ts| && RefusedBy(h, ts[..j], ts[j], k, HubAfter(h, ts).enhanced[k].outbox)
  }

  lemma RefusedJustNow(h: Hub, past: seq<Turn>, t: Turn, k: nat)
    requires Fresh(h) && FullTurns(past) && FullTurn(t) && k < MAX_WIFI_CLIENTS
    requires HubAfter(h, past).enhanced[k].connected
    requires !TurnDone(HubAfter(h, past), t).enhanced[k].connected
    ensures RefusedBy(h, past, t, k, TurnDone(HubAfter(h, past), t).enhanced[k].outbox)
  {
    var was := HubAfter(h, past);
    ConnectionIsWoven(h, past, k);
    TurnRefuses(was, t, k);
    FramesOfReplies(SendingsTo(h, past, k), TurnReplies(was, t, k));
  }

  lemma EarlierTurns(ts: seq<Turn>, n: nat, j: nat)
    requires j < n <= |ts|
    ensures ts[..n][..j] == ts[..j] && ts[..n][j] == ts[j]
  {
  }

  /** So it is for every client that was connected at first and is not any more. */
  lemma {:induction false} RefusedConnection(h: Hub, ts: seq<Turn>, k: nat) returns (j: nat)
    requires Fresh(h) && FullTurns(ts) && k < MAX_WIFI_CLIENTS
    requires h.enhanced[k].connected && !HubAfter(h, ts).enhanced[k].connected
    ensures RefusedIn(h, ts, k, j)
    decreases |ts|
  {
    var n := |ts| - 1;
    if HubAfter(h, ts[..n]).enhanced[k].connected {
      j := n;
      RefusedJustNow(h, ts[..n], ts[n], k);
    } else {
      j := RefusedConnection(h, ts[..n], k);
      GoneIsLeftAlone(HubAfter(h, ts[..n]), ts[n], k);
      EarlierTurns(ts, n, j);
    }
  }

  // ------------------------------------------------------- what the client decodes

  predicate ProperCodes(fs: seq<Frame>) {
    forall j :: 0 <= j < |fs| ==> fs[j].c < 16
  }

  lemma ProperConcat(a: seq<Frame>, b: seq<Frame>)
    ensures ProperCodes(a + b) <==> ProperCodes(a) && ProperCodes(b)
  {
    if ProperCodes(a + b) {
      assert forall j :: 0 <= j < |a| ==> (a + b)[j] == a[j];
      assert forall j :: 0 <= j < |b| ==> (a + b)[|a| + j] == b[j];
    }
  }

  lemma {:induction false} BothStreamsProper(ss: seq<Sending>)
    requires ProperCodes(RepliesIn(ss)) && ProperCodes(DataIn(ss))
    ensures ProperCodes(FramesOf(ss))
    decreases |ss|
  {
    if ss != [] {
      var init, x := ss[..|ss| - 1], ss[|ss| - 1];
      ProperConcat(RepliesIn(init), if x.Reply? then [x.frame] else []);
      ProperConcat(DataIn(init), if x.Data? then [x.frame] else []);
      BothStreamsProper(init);
      assert [x.frame][0] == x.frame;
      forall j | 0 <= j < |ss|
        ensures FramesOf(ss)[j].c < 16
      {
        assert j < |init| ==> FramesOf(init)[j] == FramesOf(ss)[j];
      }
    }
  }

  lemma {:induction false} RepliesAreProper(g: Effects, fd: nat, cmds: seq<Frame>)
    ensures ProperCodes(RepliesTo(g, fd, cmds))
    decreases |cmds|
  {
    if cmds != [] {
      RepliesAreProper(Process(g, fd, cmds[0]), fd, cmds[1..]);
    }
  }

  lemma {:induction false} DueRepliesAreProper(h: Hub, ts: seq<Turn>, k: nat)
    requires FullHub(h) && FullTurns(ts) && k < MAX_WIFI_CLIENTS
    ensures ProperCodes(RepliesDue(h, ts, k))
    decreases |ts|
  {
    if ts != [] {
      var before, t := ts[..|ts| - 1], ts[|ts| - 1];
      var h1 := Arrived(HubAfter(h, before), t);
      var c, b := h1.enhanced[k], PlainHandled(SlotsHandled(h1, k, t.rooms), k, t.rooms[k]).bridge;
      DueRepliesAreProper(h, before, k);
      RepliesAreProper(Effects(b.reservation, b.written, c.outbox), c.fd, Batch(c.inbox).cmds);
    }
  }

  /** Taken apart two by two, the bytes on the connection are exactly the frames that were
      sent: no reply is ever mistaken for bus data cut in half, or the other way round. */
  lemma ClientDecodesWhatIsSent(h: Hub, ts: seq<Turn>, k: nat)
    requires Fresh(h) && FullTurns(ts) && k < MAX_WIFI_CLIENTS && HubAfter(h, ts).enhanced[k].connected
    ensures Unframe(HubAfter(h, ts).enhanced[k].outbox) == FramesOf(SendingsTo(h, ts, k))
  {
    var run, f, sent := After(EventsOf(h, ts)), h.enhanced[k].fd, SendingsTo(h, ts, k);
    ConnectionIsWoven(h, ts, k);
    BusDataIsWhatIsPromised(h, ts, k);
    forall j | 0 <= j < |Expected(f, run.receipts)|
      ensures Expected(f, run.receipts)[j].c < 16
    {
      RouteHasProperCodes(f, run.receipts, j);
    }
    assert ProperCodes(Expected(f, run.receipts));
    ProperConcat(DataIn(sent), Route(f, run.bridge.queue));
    DueRepliesAreProper(h, ts, k);
    BothStreamsProper(sent);
    FramesRoundTrip(FramesOf(sent));
  }
}
