/** What the gateway puts on the bus. In every run the transmit line is woven from the
    writes of the arbitration, the bytes of the send commands of each enhanced client, and
    the bytes of each plain client, each of them complete and in order. And what plain and
    read-only clients get to see. */
module GatewayLines {
  import opened Words
  import opened Sequences
  import opened BusTypes
  import opened BridgeRuns
  import opened BridgeDelivery
  import opened BridgeLedger
  import opened ClientProtocol
  import opened GatewayRuns

  // ---------------------------------------------------------------- one client

  /** The bytes that a client asks to be sent: those of its commands with code 1. */
  function SendBytes(cmds: seq<Frame>): seq<Byte>
    decreases |cmds|
  {
    if cmds == [] then [] else (if cmds[0].c == 1 then [cmds[0].d] else []) + SendBytes(cmds[1..])
  }

  /** Commands write exactly these bytes, in order. */
  lemma {:induction false} SendsAreWritten(g: Effects, fd: nat, cmds: seq<Frame>)
    ensures ProcessAll(g, fd, cmds).written == g.written + SendBytes(cmds)
    decreases |cmds|
  {
    if cmds == [] {
      EmptyIsNeutral(g.written);
    } else {
      var next := Process(g, fd, cmds[0]);
      SendsAreWritten(next, fd, cmds[1..]);
      OneSend(g, fd, cmds[0]);
      Associative(g.written, if cmds[0].c == 1 then [cmds[0].d] else [], SendBytes(cmds[1..]));
    }
  }

  lemma OneSend(g: Effects, fd: nat, f: Frame)
    ensures Process(g, fd, f).written == g.written + if f.c == 1 then [f.d] else []
  {
    EmptyIsNeutral(g.written);
  }

  /** handleClient takes from the front of what waits, in order; it stops when nothing
      waits or the bus takes no more. */
  lemma ForwardingConserves(b: Bridge, c: Client, room: nat)
    requires c.connected
    ensures var (b1, c1) := Forwarded(b, c, room);
      && b1.written + c1.inbox == b.written + c.inbox
      && |b.written| <= |b1.written| <= |b.written| + room
      && (c1.inbox == [] || |b1.written| == |b.written| + room)
  {
    var n := Least(|c.inbox|, room);
    assert c.inbox == c.inbox[..n] + c.inbox[n..];
    Associative(b.written, c.inbox[..n], c.inbox[n..]);
  }

  // ------------------------------------------------------------------- the weave

  datatype Source = Arbitration | Plain(slot: nat) | Enhanced(slot: nat)

  /** A byte on the transmit line, and who has put it there. */
  datatype Writing = Writing(source: Source, byte: Byte)

  function Tagged(s: Source, bytes: seq<Byte>): (ws: seq<Writing>)
    ensures |ws| == |bytes| && forall k :: 0 <= k < |ws| ==> ws[k] == Writing(s, bytes[k])
  {
    seq(|bytes|, k requires 0 <= k < |bytes| => Writing(s, bytes[k]))
  }

  function Line(ws: seq<Writing>): (bytes: seq<Byte>)
    ensures |bytes| == |ws| && forall k :: 0 <= k < |ws| ==> bytes[k] == ws[k].byte
  {
    seq(|ws|, k requires 0 <= k < |ws| => ws[k].byte)
  }

  /** The bytes of one source, in order. */
  function From(ws: seq<Writing>, s: Source): seq<Byte>
    decreases |ws|
  {
    if ws == [] then []
    else From(ws[..|ws| - 1], s) + if ws[|ws| - 1].source == s then [ws[|ws| - 1].byte] else []
  }

  lemma LineOfConcat(a: seq<Writing>, b: seq<Writing>)
    ensures Line(a + b) == Line(a) + Line(b)
  {
  }

  lemma LineOfTagged(s: Source, bytes: seq<Byte>)
    ensures Line(Tagged(s, bytes)) == bytes
  {
  }

  lemma {:induction false} FromConcat(a: seq<Writing>, b: seq<Writing>, s: Source)
    ensures From(a + b, s) == From(a, s) + From(b, s)
    decreases |b|
  {
    if b == [] {
      EmptyIsNeutral(a);
      EmptyIsNeutral(From(a, s));
    } else {
      var init, x := b[..|b| - 1], b[|b| - 1];
      SplitLast(a, b);
      FromConcat(a, init, s);
      FromOneMore(a + init, x, s);
      Associative(From(a, s), From(init, s), if x.source == s then [x.byte] else []);
    }
  }

  lemma FromOneMore(ws: seq<Writing>, x: Writing, s: Source)
    ensures From(ws + [x], s) == From(ws, s) + if x.source == s then [x.byte] else []
  {
    assert (ws + [x])[..|ws|] == ws;
  }

  lemma {:induction false} FromTagged(t: Source, bytes: seq<Byte>, s: Source)
    ensures From(Tagged(t, bytes), s) == if t == s then bytes else []
    decreases |bytes|
  {
    if bytes != [] {
      var n := |bytes| - 1;
      FromTagged(t, bytes[..n], s);
      assert Tagged(t, bytes) == Tagged(t, bytes[..n]) + [Writing(t, bytes[n])];
      FromOneMore(Tagged(t, bytes[..n]), Writing(t, bytes[n]), s);
      assert bytes == bytes[..n] + [bytes[n]];
    }
  }

  // -------------------------------------------------------------------- one turn

  /** What a plain client gets through. */
  function PlainBytes(c: Client, room: nat): seq<Byte> {
    if c.connected then c.inbox[..Least(|c.inbox|, room)] else []
  }

  /** What an enhanced client has sent. */
  function EnhancedBytes(c: Client): seq<Byte> {
    if c.connected then SendBytes(Batch(c.inbox).cmds) else []
  }

  function SlotWritings(h: Hub, n: nat, rooms: seq<nat>): seq<Writing>
    requires FullHub(h) && n <= MAX_WIFI_CLIENTS == |rooms|
  {
    if n == 0 then []
    else
      SlotWritings(h, n - 1, rooms)
      + (Tagged(Plain(n - 1), PlainBytes(h.plain[n - 1], rooms[n - 1]))
         + Tagged(Enhanced(n - 1), EnhancedBytes(h.enhanced[n - 1])))
  }

  lemma {:induction false} LaterPlainWaits(h: Hub, n: nat, rooms: seq<nat>, k: nat)
    requires FullHub(h) && n <= k < MAX_WIFI_CLIENTS == |rooms|
    ensures SlotsHandled(h, n, rooms).plain[k] == h.plain[k]
  {
    if n > 0 {
      LaterPlainWaits(h, n - 1, rooms, k);
    }
  }

  lemma PlainWrites(b: Bridge, c: Client, room: nat)
    ensures Forwarded(b, c, room).0.written == b.written + PlainBytes(c, room)
  {
  }

  lemma EnhancedWrites(b: Bridge, c: Client)
    ensures Obeyed(b, c).0.written == b.written + EnhancedBytes(c)
  {
    EmptyIsNeutral(b.written);
    SendsAreWritten(Effects(b.reservation, b.written, c.outbox), c.fd, Batch(c.inbox).cmds);
  }

  lemma OneSlotWrites(h: Hub, i: nat, room: nat, p: seq<Byte>, e: seq<Byte>)
    requires FullHub(h) && i < MAX_WIFI_CLIENTS
    requires p == PlainBytes(h.plain[i], room) && e == EnhancedBytes(h.enhanced[i])
    ensures SlotHandled(h, i, room).bridge.written == h.bridge.written + (p + e)
  {
    PlainWrites(h.bridge, h.plain[i], room);
    EnhancedWrites(PlainHandled(h, i, room).bridge, h.enhanced[i]);
    Associative(h.bridge.written, p, e);
  }

  lemma {:induction false} SlotsWrite(h: Hub, n: nat, rooms: seq<nat>)
    requires FullHub(h) && n <= MAX_WIFI_CLIENTS == |rooms|
    ensures SlotsHandled(h, n, rooms).bridge.written == h.bridge.written + Line(SlotWritings(h, n, rooms))
  {
    if n == 0 {
      EmptyIsNeutral(h.bridge.written);
    } else {
      var (before, ws) := (SlotsHandled(h, n - 1, rooms), SlotWritings(h, n - 1, rooms));
      var (p, e) := (PlainBytes(h.plain[n - 1], rooms[n - 1]), EnhancedBytes(h.enhanced[n - 1]));
      SlotsWrite(h, n - 1, rooms);
      LaterPlainWaits(h, n - 1, rooms, n - 1);
      LaterSlotsWait(h, n - 1, rooms, n - 1);
      OneSlotWrites(before, n - 1, rooms[n - 1], p, e);
      LineOfSlot(ws, n - 1, p, e);
      Associative(h.bridge.written, Line(ws), p + e);
    }
  }

  lemma LineOfSlot(ws: seq<Writing>, i: nat, p: seq<Byte>, e: seq<Byte>)
    ensures Line(ws + (Tagged(Plain(i), p) + Tagged(Enhanced(i), e))) == Line(ws) + (p + e)
  {
    LineOfConcat(ws, Tagged(Plain(i), p) + Tagged(Enhanced(i), e));
    LineOfConcat(Tagged(Plain(i), p), Tagged(Enhanced(i), e));
    LineOfTagged(Plain(i), p);
    LineOfTagged(Enhanced(i), e);
  }

  /** What arbitration writes on a symbol. */
  function BusBytes(b: Bridge, i: Option<Input>): seq<Byte> {
    if i.Some? then Verdict(b, i.value).writes + Attempted(b, i.value).writes else []
  }

  lemma ReadingWrites(b: Bridge, i: Option<Input>)
    ensures ReadSpec(b, i).0.written == b.written + BusBytes(b, i)
  {
    EmptyIsNeutral(b.written);
    if i.Some? {
      Associative(b.written, Verdict(b, i.value).writes, Attempted(b, i.value).writes);
    }
  }

  function TurnWritings(h: Hub, t: Turn): seq<Writing>
    requires FullHub(h) && FullTurn(t)
  {
    var h1 := Arrived(h, t);
    SlotWritings(h1, MAX_WIFI_CLIENTS, t.rooms)
    + Tagged(Arbitration, BusBytes(SlotsHandled(h1, MAX_WIFI_CLIENTS, t.rooms).bridge, t.symbol))
  }

  lemma TurnWrites(h: Hub, t: Turn)
    requires FullHub(h) && FullTurn(t)
    ensures TurnDone(h, t).bridge.written == h.bridge.written + Line(TurnWritings(h, t))
  {
    var h1 := Arrived(h, t);
    var b := SlotsHandled(h1, MAX_WIFI_CLIENTS, t.rooms).bridge;
    var ws := SlotWritings(h1, MAX_WIFI_CLIENTS, t.rooms);
    SlotsWrite(h1, MAX_WIFI_CLIENTS, t.rooms);
    ReadingWrites(b, t.symbol);
    LineOfConcat(ws, Tagged(Arbitration, BusBytes(b, t.symbol)));
    LineOfTagged(Arbitration, BusBytes(b, t.symbol));
    Associative(h.bridge.written, Line(ws), BusBytes(b, t.symbol));
  }

  // ---------------------------------------------------------- one turn, by source

  function SlotBytes(h: Hub, n: nat, rooms: seq<nat>, s: Source): seq<Byte>
    requires FullHub(h) && n <= MAX_WIFI_CLIENTS == |rooms|
  {
    match s
    case Arbitration => []
    case Plain(k) => if k < n then PlainBytes(h.plain[k], rooms[k]) else []
    case Enhanced(k) => if k < n then EnhancedBytes(h.enhanced[k]) else []
  }

  lemma OneMoreSlotBytes(h: Hub, n: nat, rooms: seq<nat>, s: Source)
    requires FullHub(h) && n < MAX_WIFI_CLIENTS == |rooms|
    ensures SlotBytes(h, n + 1, rooms, s) == SlotBytes(h, n, rooms, s)
      + ((if s == Plain(n) then PlainBytes(h.plain[n], rooms[n]) else [])
         + (if s == Enhanced(n) then EnhancedBytes(h.enhanced[n]) else []))
  {
    EmptyIsNeutral(PlainBytes(h.plain[n], rooms[n]));
    EmptyIsNeutral(EnhancedBytes(h.enhanced[n]));
    EmptyIsNeutral(SlotBytes(h, n, rooms, s));
  }

  lemma {:induction false} SlotsBySource(h: Hub, n: nat, rooms: seq<nat>, s: Source)
    requires FullHub(h) && n <= MAX_WIFI_CLIENTS == |rooms|
    ensures From(SlotWritings(h, n, rooms), s) == SlotBytes(h, n, rooms, s)
  {
    if n > 0 {
      var p, e := PlainBytes(h.plain[n - 1], rooms[n - 1]), EnhancedBytes(h.enhanced[n - 1]);
      SlotsBySource(h, n - 1, rooms, s);
      SlotBySource(SlotWritings(h, n - 1, rooms), n - 1, p, e, s);
      OneMoreSlotBytes(h, n - 1, rooms, s);
    }
  }

  lemma SlotBySource(ws: seq<Writing>, i: nat, p: seq<Byte>, e: seq<Byte>, s: Source)
    ensures From(ws + (Tagged(Plain(i), p) + Tagged(Enhanced(i), e)), s) ==
      From(ws, s) + ((if s == Plain(i) then p else []) + (if s == Enhanced(i) then e else []))
  {
    FromConcat(ws, Tagged(Plain(i), p) + Tagged(Enhanced(i), e), s);
    FromConcat(Tagged(Plain(i), p), Tagged(Enhanced(i), e), s);
    FromTagged(Plain(i), p, s);
    FromTagged(Enhanced(i), e, s);
  }

  lemma TurnBySource(h: Hub, t: Turn, s: Source)
    requires FullHub(h) && FullTurn(t)
    ensures var h1 := Arrived(h, t);
      From(TurnWritings(h, t), s) ==
        if s.Arbitration? then BusBytes(SlotsHandled(h1, MAX_WIFI_CLIENTS, t.rooms).bridge, t.symbol)
        else SlotBytes(h1, MAX_WIFI_CLIENTS, t.rooms, s)
  {
    var h1 := Arrived(h, t);
    var bytes := BusBytes(SlotsHandled(h1, MAX_WIFI_CLIENTS, t.rooms).bridge, t.symbol);
    SlotsBySource(h1, MAX_WIFI_CLIENTS, t.rooms, s);
    FromConcat(SlotWritings(h1, MAX_WIFI_CLIENTS, t.rooms), Tagged(Arbitration, bytes), s);
    FromTagged(Arbitration, bytes, s);
    EmptyIsNeutral(bytes);
    EmptyIsNeutral(SlotBytes(h1, MAX_WIFI_CLIENTS, t.rooms, s));
  }

  // ------------------------------------------------------------------ every run

  /** All that has been put on the line. */
  function WritingsOf(h: Hub, ts: seq<Turn>): seq<Writing>
    requires FullHub(h) && FullTurns(ts)
    decreases |ts|
  {
    if ts == [] then []
    else
      var before, t := ts[..|ts| - 1], ts[|ts| - 1];
      WritingsOf(h, before) + TurnWritings(HubAfter(h, before), t)
  }

  lemma {:induction false} LineIsWritings(h: Hub, ts: seq<Turn>)
    requires Fresh(h) && FullTurns(ts)
    ensures HubAfter(h, ts).bridge.written == Line(WritingsOf(h, ts))
    decreases |ts|
  {
    if ts != [] {
      var before, t := ts[..|ts| - 1], ts[|ts| - 1];
      LineIsWritings(h, before);
      TurnWrites(HubAfter(h, before), t);
      LineOfConcat(WritingsOf(h, before), TurnWritings(HubAfter(h, before), t));
    }
  }

  /** The bytes of the send commands that enhanced client k has given, turn by turn, as
      long as it is connected. */
  function SentBy(h: Hub, ts: seq<Turn>, k: nat): seq<Byte>
    requires FullHub(h) && FullTurns(ts) && k < MAX_WIFI_CLIENTS
    decreases |ts|
  {
    if ts == [] then []
    else
      var before, t := ts[..|ts| - 1], ts[|ts| - 1];
      var c := HubAfter(h, before).enhanced[k];
      SentBy(h, before, k) + if c.connected then SendBytes(Batch(c.inbox + t.enhancedIn[k]).cmds) else []
  }

  lemma EnhancedInTurn(h: Hub, t: Turn, k: nat)
    requires FullHub(h) && FullTurn(t) && k < MAX_WIFI_CLIENTS
    ensures var c := h.enhanced[k];
      From(TurnWritings(h, t), Enhanced(k)) ==
        if c.connected then SendBytes(Batch(c.inbox + t.enhancedIn[k]).cmds) else []
  {
    TurnBySource(h, t, Enhanced(k));
  }

  lemma {:induction false} EnhancedIsComplete(h: Hub, ts: seq<Turn>, k: nat)
    requires FullHub(h) && FullTurns(ts) && k < MAX_WIFI_CLIENTS
    ensures From(WritingsOf(h, ts), Enhanced(k)) == SentBy(h, ts, k)
    decreases |ts|
  {
    if ts != [] {
      var before, t := ts[..|ts| - 1], ts[|ts| - 1];
      EnhancedIsComplete(h, before, k);
      EnhancedInTurn(HubAfter(h, before), t, k);
      FromConcat(WritingsOf(h, before), TurnWritings(HubAfter(h, before), t), Enhanced(k));
    }
  }

  lemma {:induction false} HandledBoxIsEmpty(h: Hub, n: nat, rooms: seq<nat>, k: nat)
    requires FullHub(h) && n <= MAX_WIFI_CLIENTS == |rooms| && k < n && h.enhanced[k].connected
    ensures SlotsHandled(h, n, rooms).enhanced[k].inbox == []
  {
    if n > k + 1 {
      HandledBoxIsEmpty(h, n - 1, rooms, k);
    } else {
      LaterSlotsWait(h, n - 1, rooms, k);
    }
  }

  /** An enhanced client's bytes are all taken in the turn in which they come. */
  lemma NothingIsLeft(h: Hub, t: Turn, k: nat)
    requires FullHub(h) && FullTurn(t) && k < MAX_WIFI_CLIENTS && h.enhanced[k].connected
    ensures TurnDone(h, t).enhanced[k].inbox == []
  {
    HandledBoxIsEmpty(Arrived(h, t), MAX_WIFI_CLIENTS, t.rooms, k);
  }

  /** What has come in from plain client k. */
  function CameIn(ts: seq<Turn>, k: nat): seq<Byte>
    requires FullTurns(ts) && k < MAX_WIFI_CLIENTS
    decreases |ts|
  {
    if ts == [] then [] else CameIn(ts[..|ts| - 1], k) + ts[|ts| - 1].plainIn[k]
  }

  lemma {:induction false} PlainInSlots(h: Hub, n: nat, rooms: seq<nat>, k: nat)
    requires FullHub(h) && n <= MAX_WIFI_CLIENTS == |rooms| && k < n && h.plain[k].connected
    ensures var now := SlotsHandled(h, n, rooms).plain[k];
      && now.connected
      && PlainBytes(h.plain[k], rooms[k]) + now.inbox == h.plain[k].inbox
      && |PlainBytes(h.plain[k], rooms[k])| <= rooms[k]
      && (now.inbox == [] || |PlainBytes(h.plain[k], rooms[k])| == rooms[k])
  {
    if n > k + 1 {
      PlainInSlots(h, n - 1, rooms, k);
    } else {
      LaterPlainWaits(h, n - 1, rooms, k);
      var c := h.plain[k];
      assert c.inbox == c.inbox[..Least(|c.inbox|, rooms[k])] + c.inbox[Least(|c.inbox|, rooms[k])..];
    }
  }

  lemma PlainInTurn(h: Hub, t: Turn, k: nat)
    requires FullHub(h) && FullTurn(t) && k < MAX_WIFI_CLIENTS && h.plain[k].connected
    ensures var (now, bytes) := (TurnDone(h, t).plain[k], From(TurnWritings(h, t), Plain(k)));
      && now.connected && bytes + now.inbox == h.plain[k].inbox + t.plainIn[k]
      && |bytes| <= t.rooms[k] && (now.inbox == [] || |bytes| == t.rooms[k])
  {
    PlainInSlots(Arrived(h, t), MAX_WIFI_CLIENTS, t.rooms, k);
    TurnBySource(h, t, Plain(k));
  }

  /** What came in from a plain client has been put on the line in order, but for what
      still waits; in every turn as much is put there as the transmit buffer takes. */
  lemma {:induction false} PlainIsComplete(h: Hub, ts: seq<Turn>, k: nat)
    requires FullHub(h) && FullTurns(ts) && k < MAX_WIFI_CLIENTS && h.plain[k].connected
    ensures HubAfter(h, ts).plain[k].connected
    ensures From(WritingsOf(h, ts), Plain(k)) + HubAfter(h, ts).plain[k].inbox == h.plain[k].inbox + CameIn(ts, k)
    decreases |ts|
  {
    if ts == [] {
      EmptyIsNeutral(h.plain[k].inbox);
    } else {
      var before, t := ts[..|ts| - 1], ts[|ts| - 1];
      var was := HubAfter(h, before);
      var bytes, now := From(TurnWritings(was, t), Plain(k)), HubAfter(h, ts).plain[k].inbox;
      PlainIsComplete(h, before, k);
      PlainInTurn(was, t, k);
      FromConcat(WritingsOf(h, before), TurnWritings(was, t), Plain(k));
      Associative(From(WritingsOf(h, before), Plain(k)), bytes, now);
      Associative(From(WritingsOf(h, before), Plain(k)), was.plain[k].inbox, t.plainIn[k]);
      Associative(h.plain[k].inbox, CameIn(before, k), t.plainIn[k]);
    }
  }

  // --------------------------------------------------------------- arbitration

  predicate StartsOnly(evs: seq<Event>) {
    forall k :: 0 <= k < |evs| ==> evs[k].StartCommand?
  }

  lemma {:induction false} StartsWriteNothing(run: Run, evs: seq<Event>)
    requires StartsOnly(evs)
    ensures AdvanceAll(run, evs).bridge.written == run.bridge.written
    decreases |evs|
  {
    if evs != [] {
      StartsWriteNothing(run, evs[..|evs| - 1]);
    }
  }

  lemma {:induction false} StartEventsStart(fd: nat, cmds: seq<Frame>)
    ensures StartsOnly(StartEvents(fd, cmds))
    decreases |cmds|
  {
    if cmds != [] {
      StartEventsStart(fd, cmds[1..]);
    }
  }

  lemma {:induction false} SlotEventsStart(h: Hub, n: nat)
    requires FullHub(h) && n <= MAX_WIFI_CLIENTS
    ensures StartsOnly(SlotEvents(h, n))
  {
    if n > 0 {
      SlotEventsStart(h, n - 1);
      StartEventsStart(h.enhanced[n - 1].fd, Batch(h.enhanced[n - 1].inbox).cmds);
    }
  }

  lemma AlikeWriteTheSame(a: Bridge, b: Bridge, i: Option<Input>)
    requires Alike(a, b)
    ensures BusBytes(a, i) == BusBytes(b, i)
  {
    if i.Some? {
      assert Verdict(a, i.value) == Verdict(b, i.value);
      assert Attempted(a, i.value) == Attempted(b, i.value);
    }
  }

  lemma BusEventsWrite(run: Run, i: Option<Input>)
    ensures AdvanceAll(run, BusEvents(i)).bridge.written == run.bridge.written + BusBytes(run.bridge, i)
  {
    AdvanceAllOneMore(run, if i.Some? then [Symbol(i.value)] else [], Pop);
    if i.Some? {
      AdvanceAllOneMore(run, [], Symbol(i.value));
      EmptyIsNeutral([Symbol(i.value)]);
      Associative(run.bridge.written, Verdict(run.bridge, i.value).writes, Attempted(run.bridge, i.value).writes);
    } else {
      EmptyIsNeutral(run.bridge.written);
    }
  }

  lemma TurnEventsWrite(run: Run, h: Hub, t: Turn)
    requires FullHub(h) && FullTurn(t) && Alike(h.bridge, run.bridge)
    ensures AdvanceAll(run, TurnEvents(h, t)).bridge.written ==
      run.bridge.written + From(TurnWritings(h, t), Arbitration)
  {
    var h1 := Arrived(h, t);
    var starts := SlotEvents(h1, MAX_WIFI_CLIENTS);
    var mid := AdvanceAll(run, starts);
    SlotEventsStart(h1, MAX_WIFI_CLIENTS);
    StartsWriteNothing(run, starts);
    HandlingIsEvents(run, h1, MAX_WIFI_CLIENTS, t.rooms);
    AdvanceAllConcat(run, starts, BusEvents(t.symbol));
    BusEventsWrite(mid, t.symbol);
    AlikeWriteTheSame(SlotsHandled(h1, MAX_WIFI_CLIENTS, t.rooms).bridge, mid.bridge, t.symbol);
    TurnBySource(h, t, Arbitration);
  }

  lemma {:induction false} ArbitrationIsTheRun(h: Hub, ts: seq<Turn>)
    requires Fresh(h) && FullTurns(ts)
    ensures From(WritingsOf(h, ts), Arbitration) == After(EventsOf(h, ts)).bridge.written
    decreases |ts|
  {
    if ts != [] {
      var before, t := ts[..|ts| - 1], ts[|ts| - 1];
      var was := HubAfter(h, before);
      ArbitrationIsTheRun(h, before);
      EveryGatewayRunIsABridgeRun(h, before);
      TurnEventsWrite(After(EventsOf(h, before)), was, t);
      AfterConcat(EventsOf(h, before), TurnEvents(was, t));
      FromConcat(WritingsOf(h, before), TurnWritings(was, t), Arbitration);
    }
  }

  /** The transmit line of every run of the gateway: every byte on it has a source. Those
      of arbitration are the writes of the attempts, those of an enhanced client the bytes
      it has asked to be sent, and those of a plain client what came in from it, each
      complete and in order. */
  lemma LineIsWoven(h: Hub, ts: seq<Turn>, k: nat)
    requires Fresh(h) && FullTurns(ts) && k < MAX_WIFI_CLIENTS
    ensures var ws := WritingsOf(h, ts);
      && HubAfter(h, ts).bridge.written == Line(ws)
      && From(ws, Arbitration) == BridgeLedger.Wire(After(EventsOf(h, ts)).attempts)
      && From(ws, Enhanced(k)) == SentBy(h, ts, k)
      && (h.plain[k].connected ==>
           From(ws, Plain(k)) + HubAfter(h, ts).plain[k].inbox == h.plain[k].inbox + CameIn(ts, k))
  {
    LineIsWritings(h, ts);
    ArbitrationIsTheRun(h, ts);
    WireBelongsToAttempts(EventsOf(h, ts));
    EnhancedIsComplete(h, ts, k);
    if h.plain[k].connected {
      PlainIsComplete(h, ts, k);
    }
  }

  predicate HasSource(w: Writing) {
    match w.source
    case Arbitration => true
    case Plain(k) => k < MAX_WIFI_CLIENTS
    case Enhanced(k) => k < MAX_WIFI_CLIENTS
  }

  predicate AllHaveSource(ws: seq<Writing>) {
    forall j :: 0 <= j < |ws| ==> HasSource(ws[j])
  }

  lemma SourcesConcat(a: seq<Writing>, b: seq<Writing>)
    requires AllHaveSource(a) && AllHaveSource(b)
    ensures AllHaveSource(a + b)
  {
  }

  lemma {:induction false} SlotsAreSources(h: Hub, n: nat, rooms: seq<nat>)
    requires FullHub(h) && n <= MAX_WIFI_CLIENTS == |rooms|
    ensures AllHaveSource(SlotWritings(h, n, rooms))
  {
    if n > 0 {
      var p := Tagged(Plain(n - 1), PlainBytes(h.plain[n - 1], rooms[n - 1]));
      var e := Tagged(Enhanced(n - 1), EnhancedBytes(h.enhanced[n - 1]));
      SlotsAreSources(h, n - 1, rooms);
      SourcesConcat(p, e);
      SourcesConcat(SlotWritings(h, n - 1, rooms), p + e);
    }
  }

  /** And there are no other sources. */
  lemma {:induction false} NoOtherSource(h: Hub, ts: seq<Turn>)
    requires FullHub(h) && FullTurns(ts)
    ensures AllHaveSource(WritingsOf(h, ts))
    decreases |ts|
  {
    if ts != [] {
      var before, t := ts[..|ts| - 1], ts[|ts| - 1];
      var h1 := Arrived(HubAfter(h, before), t);
      var bytes := BusBytes(SlotsHandled(h1, MAX_WIFI_CLIENTS, t.rooms).bridge, t.symbol);
      NoOtherSource(h, before);
      SlotsAreSources(h1, MAX_WIFI_CLIENTS, t.rooms);
      SourcesConcat(SlotWritings(h1, MAX_WIFI_CLIENTS, t.rooms), Tagged(Arbitration, bytes));
      SourcesConcat(WritingsOf(h, before), TurnWritings(HubAfter(h, before), t));
    }
  }

  // ------------------------------------------------- what everybody gets to see

  lemma PlainOutbox(b: Bridge, c: Client, room: nat)
    ensures Forwarded(b, c, room).1.outbox == c.outbox && Forwarded(b, c, room).1.connected == c.connected
  {
  }

  lemma {:induction false} SlotsTellNothing(h: Hub, n: nat, rooms: seq<nat>, k: nat)
    requires FullHub(h) && n <= MAX_WIFI_CLIENTS == |rooms| && k < MAX_WIFI_CLIENTS
    ensures var now := SlotsHandled(h, n, rooms);
      && now.readOnly == h.readOnly
      && now.plain[k].outbox == h.plain[k].outbox && now.plain[k].connected == h.plain[k].connected
    decreases n
  {
    if n > 0 {
      SlotsTellNothing(h, n - 1, rooms, k);
      PlainOutbox(SlotsHandled(h, n - 1, rooms).bridge, SlotsHandled(h, n - 1, rooms).plain[n - 1], rooms[n - 1]);
    }
  }

  lemma BroadcastOfPopped(d: Option<Item>)
    ensures Broadcast(if d.Some? then [d.value] else []) == if d.Some? then BridgeDelivery.Plain(d.value) else []
  {
    if d.Some? {
      assert [d.value][..0] == [];
    }
  }

  /** One turn: a plain or read-only client that is connected is told the symbol that is
      popped, if one is. */
  lemma TurnTellsEverybody(h: Hub, t: Turn, k: nat)
    requires FullHub(h) && FullTurn(t) && k < MAX_WIFI_CLIENTS
    ensures var now, told := TurnDone(h, t), Broadcast(Popped(h, t));
      && now.plain[k].connected == h.plain[k].connected && now.readOnly[k].connected == h.readOnly[k].connected
      && (h.plain[k].connected ==> now.plain[k].outbox == h.plain[k].outbox + told)
      && (h.readOnly[k].connected ==> now.readOnly[k].outbox == h.readOnly[k].outbox + told)
  {
    var h1 := Arrived(h, t);
    SlotsTellNothing(h1, MAX_WIFI_CLIENTS, t.rooms, k);
    BroadcastOfPopped(ReadSpec(SlotsHandled(h1, MAX_WIFI_CLIENTS, t.rooms).bridge, t.symbol).1);
    EmptyIsNeutral(h.plain[k].outbox);
    EmptyIsNeutral(h.readOnly[k].outbox);
  }

  /** The client has been told these bytes since the beginning. */
  predicate HasBeenTold(was: Client, now: Client, bytes: seq<Byte>) {
    now.connected == was.connected && (was.connected ==> now.outbox == was.outbox + bytes)
  }

  lemma ToldOneMore(was: Client, mid: Client, now: Client, a: seq<Byte>, b: seq<Byte>)
    requires HasBeenTold(was, mid, a) && HasBeenTold(mid, now, b)
    ensures HasBeenTold(was, now, a + b)
  {
    Associative(was.outbox, a, b);
  }

  lemma {:induction false} EverybodyIsTold(h: Hub, ts: seq<Turn>, k: nat)
    requires Fresh(h) && FullTurns(ts) && k < MAX_WIFI_CLIENTS
    ensures var now, told := HubAfter(h, ts), Broadcast(After(EventsOf(h, ts)).popped);
      HasBeenTold(h.plain[k], now.plain[k], told) && HasBeenTold(h.readOnly[k], now.readOnly[k], told)
    decreases |ts|
  {
    if ts == [] {
      EmptyIsNeutral(h.plain[k].outbox);
      EmptyIsNeutral(h.readOnly[k].outbox);
    } else {
      var before, t := ts[..|ts| - 1], ts[|ts| - 1];
      var was := HubAfter(h, before);
      var popped := After(EventsOf(h, before)).popped;
      EverybodyIsTold(h, before, k);
      TurnTellsEverybody(was, t, k);
      EveryGatewayRunIsABridgeRun(h, before);
      AfterConcat(EventsOf(h, before), TurnEvents(was, t));
      TurnIsEvents(After(EventsOf(h, before)), was, t);
      BroadcastAppend(popped, Popped(was, t));
      ToldOneMore(h.plain[k], was.plain[k], TurnDone(was, t).plain[k], Broadcast(popped), Broadcast(Popped(was, t)));
      ToldOneMore(h.readOnly[k], was.readOnly[k], TurnDone(was, t).readOnly[k], Broadcast(popped),
        Broadcast(Popped(was, t)));
    }
  }

  /** End to end for the others: what a plain or a read-only client has been told, with
      what is still queued, is exactly the symbols received from the bus, in order. */
  lemma EverybodyHearsTheBus(h: Hub, ts: seq<Turn>, k: nat)
    requires Fresh(h) && FullTurns(ts) && k < MAX_WIFI_CLIENTS
    ensures var run, now := After(EventsOf(h, ts)), HubAfter(h, ts);
      var told := Broadcast(run.popped);
      && HasBeenTold(h.plain[k], now.plain[k], told) && HasBeenTold(h.readOnly[k], now.readOnly[k], told)
      && told + Broadcast(now.bridge.queue) == SymbolsOf(EventsOf(h, ts))
  {
    var run := After(EventsOf(h, ts));
    EverybodyIsTold(h, ts, k);
    EveryGatewayRunIsABridgeRun(h, ts);
    EveryRunDelivers(EventsOf(h, ts), 0);
    BroadcastAppend(run.popped, run.bridge.queue);
  }
}
