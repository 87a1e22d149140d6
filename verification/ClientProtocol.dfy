/** The enhanced client protocol (src/bridge/client.cpp): two-byte frames, the command
    parser, the commands themselves and the fan-out of bus data to the clients. */
module ClientProtocol {
  import opened Words
  import opened Sequences
  import opened BusStates
  import opened BusTypes
  import opened BridgeRuns
  import opened BridgeDelivery

  // Request codes.
  const CMD_INIT: Byte := 0
  const CMD_SEND: Byte := 1
  const CMD_START: Byte := 2

  const FIRST_ERROR := "first command signature error"
  const SECOND_MISSING := "second command missing"
  const SECOND_ERROR := "second command signature error"

  // ------------------------------------------------------------------- frames

  /** 11ccccdd 10dddddd; bits of c above the fourth are lost in the marker. */
  function Encode(c: Byte, d: Byte): seq<Byte> {
    [0xC0 + 4 * (c % 16) + d / 64, 0x80 + d % 64]
  }

  function Decode(b1: Byte, b2: Byte): Frame {
    Frame((b1 / 4) % 16, (b1 % 4) * 64 + b2 % 64)
  }

  /** A frame survives the trip exactly if its command has four bits. */
  lemma FrameRoundTrip(c: Byte, d: Byte)
    ensures var f := Encode(c, d);
      && f[0] >= 0xC0 && f[1] / 64 == 2
      && Decode(f[0], f[1]).d == d
      && Decode(f[0], f[1]).c == c % 16
      && (Decode(f[0], f[1]) == Frame(c, d) <==> c < 16)
  {
    var x := 0xC0 + 4 * (c % 16) + d / 64;
    assert x / 4 == 48 + c % 16;
    assert x % 4 == d / 64;
    assert (48 + c % 16) % 16 == c % 16;
    assert (0x80 + d % 64) / 64 == 2 && (0x80 + d % 64) % 64 == d % 64;
    assert (d / 64) * 64 + d % 64 == d;
  }

  /** Every properly marked pair of bytes is the encoding of what it decodes to. */
  lemma FrameIsCanonical(b1: Byte, b2: Byte)
    requires b1 >= 0xC0 && b2 / 64 == 2
    ensures var f := Decode(b1, b2); f.c < 16 && Encode(f.c, f.d) == [b1, b2]
  {
    var c, d := (b1 / 4) % 16, (b1 % 4) * 64 + b2 % 64;
    assert b1 / 4 == 48 + c;
    assert b1 == 4 * (b1 / 4) + b1 % 4;
    assert d / 64 == b1 % 4 && d % 64 == b2 % 64;
    assert b2 == 128 + b2 % 64;
  }

  // ------------------------------------------------------------------- parsing

  datatype Reading =
    | Command(frame: Frame, used: nat)
    | Refused(error: string)

  /** The first command of a non-empty batch of bytes. A value below 0x80 on its own
      is the short form of a send command. */
  function ReadFirst(s: seq<Byte>): (r: Reading)
    requires s != []
    ensures r.Command? ==> 1 <= r.used <= 2 && r.used <= |s|
  {
    if s[0] < 0x80 then Command(Frame(CMD_SEND, s[0]), 1)
    else if s[0] < 0xC0 then Refused(FIRST_ERROR)
    else if |s| == 1 then Refused(SECOND_MISSING)
    else if s[1] / 64 != 2 then Refused(SECOND_ERROR)
    else Command(Decode(s[0], s[1]), 2)
  }

  /** The commands of a batch up to the first error, and the error ("" if none). */
  datatype Parsed = Parsed(cmds: seq<Frame>, error: string)

  function Batch(s: seq<Byte>): Parsed
    decreases |s|
  {
    if s == [] then Parsed([], "")
    else
      match ReadFirst(s)
      case Refused(e) => Parsed([], e)
      case Command(f, used) =>
        var rest := Batch(s[used..]);
        Parsed([f] + rest.cmds, rest.error)
  }

  /** A command as a client may write it. */
  datatype Wire = Framed(c: Byte, d: Byte) | Short(d: Byte)

  predicate Proper(w: Wire) {
    match w
    case Framed(c, d) => c < 16
    case Short(d) => d < 0x80
  }

  function Meaning(w: Wire): Frame {
    match w
    case Framed(c, d) => Frame(c, d)
    case Short(d) => Frame(CMD_SEND, d)
  }

  function BytesOf(w: Wire): seq<Byte> {
    match w
    case Framed(c, d) => Encode(c, d)
    case Short(d) => [d]
  }

  function EncodeAll(ws: seq<Wire>): seq<Byte> {
    if ws == [] then [] else BytesOf(ws[0]) + EncodeAll(ws[1..])
  }

  function Meanings(ws: seq<Wire>): seq<Frame> {
    if ws == [] then [] else [Meaning(ws[0])] + Meanings(ws[1..])
  }

  predicate AllProper(ws: seq<Wire>) {
    forall k :: 0 <= k < |ws| ==> Proper(ws[k])
  }

  lemma ReadOne(w: Wire, rest: seq<Byte>)
    requires Proper(w)
    ensures BytesOf(w) + rest != []
    ensures ReadFirst(BytesOf(w) + rest) == Command(Meaning(w), |BytesOf(w)|)
    ensures (BytesOf(w) + rest)[|BytesOf(w)|..] == rest
  {
    var s := BytesOf(w) + rest;
    if w.Framed? {
      FrameRoundTrip(w.c, w.d);
      assert s[0] == Encode(w.c, w.d)[0] && s[1] == Encode(w.c, w.d)[1];
    } else {
      assert s[0] == w.d;
    }
  }

  /** Reading back any sequence of commands, each framed or in short form, returns
      exactly that sequence without an error. */
  lemma {:induction false} CommandsRoundTrip(ws: seq<Wire>)
    requires AllProper(ws)
    ensures Batch(EncodeAll(ws)) == Parsed(Meanings(ws), "")
    decreases |ws|
  {
    if ws != [] {
      ReadOne(ws[0], EncodeAll(ws[1..]));
      CommandsRoundTrip(ws[1..]);
    }
  }

  /** The command at the front of a batch, as it was written. */
  function FirstWire(s: seq<Byte>): Wire
    requires s != [] && ReadFirst(s).Command?
  {
    var r := ReadFirst(s);
    if r.used == 1 then Short(s[0]) else Framed(r.frame.c, r.frame.d)
  }

  /** The commands a batch was written with. */
  function Rewire(s: seq<Byte>): seq<Wire>
    decreases |s|
  {
    if s == [] || ReadFirst(s).Refused? then [] else [FirstWire(s)] + Rewire(s[ReadFirst(s).used..])
  }

  lemma FirstWireIsWritten(s: seq<Byte>)
    requires s != [] && ReadFirst(s).Command?
    ensures Proper(FirstWire(s)) && s == BytesOf(FirstWire(s)) + s[ReadFirst(s).used..]
  {
    var used := ReadFirst(s).used;
    if used == 2 {
      FrameIsCanonical(s[0], s[1]);
    }
    assert BytesOf(FirstWire(s)) == s[..used];
  }

  lemma OneMoreWire(w: Wire, ws: seq<Wire>)
    ensures EncodeAll([w] + ws) == BytesOf(w) + EncodeAll(ws)
    ensures AllProper([w] + ws) <==> Proper(w) && AllProper(ws)
  {
    assert ([w] + ws)[1..] == ws;
    if AllProper([w] + ws) {
      assert Proper(([w] + ws)[0]);
      assert forall k :: 0 <= k < |ws| ==> ws[k] == ([w] + ws)[k + 1];
    }
  }

  /** Conversely the parser accepts nothing but such encodings: a batch is read
      without an error exactly if it is the encoding of proper commands. */
  lemma {:induction false} AcceptsExactlyEncodings(s: seq<Byte>)
    ensures Batch(s).error == "" <==> AllProper(Rewire(s)) && EncodeAll(Rewire(s)) == s
    decreases |s|
  {
    if s != [] && ReadFirst(s).Command? {
      var rest := s[ReadFirst(s).used..];
      AcceptsExactlyEncodings(rest);
      FirstWireIsWritten(s);
      OneMoreWire(FirstWire(s), Rewire(rest));
      SameFront(BytesOf(FirstWire(s)), EncodeAll(Rewire(rest)), rest);
    }
  }

  lemma FirstOfConcatenation(x: seq<Byte>, y: seq<Byte>)
    requires x != [] && ReadFirst(x).Command?
    ensures ReadFirst(x + y) == ReadFirst(x)
    ensures (x + y)[ReadFirst(x).used..] == x[ReadFirst(x).used..] + y
  {
    assert (x + y)[0] == x[0] && (|x| >= 2 ==> (x + y)[1] == x[1]);
  }

  lemma BatchStep(x: seq<Byte>)
    requires x != [] && ReadFirst(x).Command?
    ensures var rest := x[ReadFirst(x).used..];
      Batch(x) == Parsed([ReadFirst(x).frame] + Batch(rest).cmds, Batch(rest).error)
  {
  }

  /** Batches that are each read without an error say together what their
      concatenation says. */
  lemma {:induction false} BatchesConcatenate(x: seq<Byte>, y: seq<Byte>)
    requires Batch(x).error == ""
    ensures Batch(x + y) == Parsed(Batch(x).cmds + Batch(y).cmds, Batch(y).error)
    decreases |x|
  {
    if x == [] {
      assert x + y == y;
    } else {
      var r := ReadFirst(x);
      var rest := x[r.used..];
      FirstOfConcatenation(x, y);
      BatchStep(x);
      BatchStep(x + y);
      BatchesConcatenate(rest, y);
      Associative([r.frame], Batch(rest).cmds, Batch(y).cmds);
    }
  }

  /** The bytes of the first j commands. */
  function Boundary(ws: seq<Wire>, j: nat): nat
    requires j <= |ws|
  {
    |EncodeAll(ws[..j])|
  }

  /** A well-formed stream cut after k bytes: the part is read without an error
      exactly if the cut falls between two commands. The parser does not wait for the
      second byte of a frame; a client whose frame is split between two batches is
      refused. */
  lemma {:induction false} CutsMustFallBetweenCommands(ws: seq<Wire>, k: nat)
    requires AllProper(ws) && k <= |EncodeAll(ws)|
    ensures Batch(EncodeAll(ws)[..k]).error in {"", SECOND_MISSING}
    ensures Batch(EncodeAll(ws)[..k]).error == "" <==> exists j :: 0 <= j <= |ws| && k == Boundary(ws, j)
    decreases |ws|
  {
    var e := EncodeAll(ws);
    if k == 0 {
      assert ws[..0] == [];
      assert k == Boundary(ws, 0);
    } else {
      var n := |BytesOf(ws[0])|;
      var rest := EncodeAll(ws[1..]);
      BoundaryOfRest(ws);
      if k < n {
        assert e[..k] == [e[0]];
        FrameRoundTrip(ws[0].c, ws[0].d);
        assert e[0] == BytesOf(ws[0])[0];
      } else {
        assert e[..k] == BytesOf(ws[0]) + rest[..k - n];
        ReadOne(ws[0], rest[..k - n]);
        CutsMustFallBetweenCommands(ws[1..], k - n);
        if exists j :: 0 <= j <= |ws| && k == Boundary(ws, j) {
          var j :| 0 <= j <= |ws| && k == Boundary(ws, j);
          assert k - n == Boundary(ws[1..], j - 1);
        }
        if exists j :: 0 <= j <= |ws| - 1 && k - n == Boundary(ws[1..], j) {
          var j :| 0 <= j <= |ws| - 1 && k - n == Boundary(ws[1..], j);
          assert k == Boundary(ws, j + 1);
        }
      }
    }
  }

  lemma BoundaryOfRest(ws: seq<Wire>)
    requires ws != []
    ensures Boundary(ws, 0) == 0
    ensures forall j :: 1 <= j <= |ws| ==> Boundary(ws, j) == |BytesOf(ws[0])| + Boundary(ws[1..], j - 1)
  {
    assert ws[..0] == [];
    forall j | 1 <= j <= |ws|
      ensures Boundary(ws, j) == |BytesOf(ws[0])| + Boundary(ws[1..], j - 1)
    {
      assert ws[..j][1..] == ws[1..][..j - 1];
    }
  }

  // ------------------------------------------------------------------ commands

  /** What a command can touch: the reservation, the transmit line, and the bytes
      sent back to the client. */
  datatype Effects = Effects(reservation: Reservation, written: seq<Byte>, outbox: seq<Byte>)

  function Process(g: Effects, fd: nat, f: Frame): Effects {
    if f.c == CMD_INIT then g.(outbox := g.outbox + Encode(RESETTED, 0))
    else if f.c == CMD_START then
      if f.d == SYN then g.(reservation := FREE)
      else if g.reservation.client < 0 || g.reservation.client == fd then
        g.(reservation := Reserve(g.reservation, fd, f.d))
      else g.(outbox := g.outbox + Encode(ERROR_HOST, ERR_FRAMING))
    else if f.c == CMD_SEND then g.(written := g.written + [f.d])
    else g
  }

  function ProcessAll(g: Effects, fd: nat, fs: seq<Frame>): Effects
    decreases |fs|
  {
    if fs == [] then g else ProcessAll(Process(g, fd, fs[0]), fd, fs[1..])
  }

  function Chars(text: string): seq<Byte> {
    seq(|text|, k requires 0 <= k < |text| => (text[k] as int) % 256)
  }

  class Socket {
    const fd: nat
    var connected: bool
    var inbox: seq<Byte>
    var outbox: seq<Byte>

    constructor (fd: nat)
      ensures this.fd == fd && connected && inbox == [] && outbox == []
    {
      this.fd := fd;
      connected, inbox, outbox := true, [], [];
    }

    /** A non-blocking read of one byte, -1 if there is none. */
    method ReadByte() returns (b: int)
      modifies this`inbox
      ensures if old(inbox) == [] then b == -1 && inbox == [] else b == old(inbox)[0] && inbox == old(inbox)[1..]
    {
      if inbox == [] {
        return -1;
      }
      b := inbox[0];
      inbox := inbox[1..];
    }

    method Write(bytes: seq<Byte>)
      modifies this`outbox
      ensures outbox == old(outbox) + bytes
    {
      outbox := outbox + bytes;
    }

    /** Complains to the client and drops the connection. */
    method Refuse(error: string)
      modifies this
      ensures !connected && inbox == [] && outbox == old(outbox) + Chars(error)
    {
      Write(Chars(error));
      connected := false;
      inbox := [];
    }
  }

  /** readCmd: the next command from a client that has bytes waiting. */
  method ReadCmd(client: Socket) returns (ok: bool, f: Frame)
    requires client.inbox != []
    modifies client
    ensures match ReadFirst(old(client.inbox))
      case Command(frame, used) =>
        && ok && f == frame
        && client.inbox == old(client.inbox)[used..]
        && client.outbox == old(client.outbox) && client.connected == old(client.connected)
      case Refused(e) =>
        && !ok && !client.connected && client.inbox == [] && client.outbox == old(client.outbox) + Chars(e)
  {
    f := Frame(0, 0);
    var b := client.ReadByte();
    if b < 0x80 {
      return true, Frame(CMD_SEND, b);
    }
    if b < 0xC0 {
      client.Refuse(FIRST_ERROR);
      return false, f;
    }
    var b2 := client.ReadByte();
    if b2 < 0 {
      client.Refuse(SECOND_MISSING);
      return false, f;
    }
    if b2 / 64 != 2 {
      client.Refuse(SECOND_ERROR);
      return false, f;
    }
    return true, Decode(b, b2);
  }

  // --------------------------------------------------- the gateway, on values

  const MAX_WIFI_CLIENTS := 4

  datatype Client = Client(fd: nat, connected: bool, inbox: seq<Byte>, outbox: seq<Byte>)

  /** The bridge and the slots of the three kinds of clients. */
  datatype Hub = Hub(bridge: Bridge, plain: seq<Client>, readOnly: seq<Client>, enhanced: seq<Client>)

  predicate FullHub(h: Hub) {
    |h.plain| == |h.readOnly| == |h.enhanced| == MAX_WIFI_CLIENTS
  }

  function Least(a: nat, b: nat): nat {
    if a < b then a else b
  }

  /** handleClient: a plain client's bytes go to the bus while it takes any. */
  function Forwarded(b: Bridge, c: Client, room: nat): (Bridge, Client) {
    var n := if c.connected then Least(|c.inbox|, room) else 0;
    (b.(written := b.written + c.inbox[..n]), c.(inbox := c.inbox[n..]))
  }

  /** handleClientEnhanced */
  function Obeyed(b: Bridge, c: Client): (Bridge, Client) {
    if !c.connected then (b, c)
    else
      var p := Batch(c.inbox);
      var g := ProcessAll(Effects(b.reservation, b.written, c.outbox), c.fd, p.cmds);
      (b.(reservation := g.reservation, written := g.written),
       Client(c.fd, p.error == "", [], g.outbox + Chars(p.error)))
  }

  function PlainHandled(h: Hub, i: nat, room: nat): (r: Hub)
    requires FullHub(h) && i < MAX_WIFI_CLIENTS
    ensures FullHub(r)
  {
    var (b, c) := Forwarded(h.bridge, h.plain[i], room);
    h.(bridge := b, plain := h.plain[i := c])
  }

  function EnhancedHandled(h: Hub, i: nat): (r: Hub)
    requires FullHub(h) && i < MAX_WIFI_CLIENTS
    ensures FullHub(r)
  {
    var (b, c) := Obeyed(h.bridge, h.enhanced[i]);
    h.(bridge := b, enhanced := h.enhanced[i := c])
  }

  function SlotHandled(h: Hub, i: nat, room: nat): (r: Hub)
    requires FullHub(h) && i < MAX_WIFI_CLIENTS
    ensures FullHub(r)
  {
    EnhancedHandled(PlainHandled(h, i, room), i)
  }

  function SlotsHandled(h: Hub, n: nat, rooms: seq<nat>): (r: Hub)
    requires FullHub(h) && n <= MAX_WIFI_CLIENTS == |rooms|
    ensures FullHub(r)
  {
    if n == 0 then h else SlotHandled(SlotsHandled(h, n - 1, rooms), n - 1, rooms[n - 1])
  }

  function Told(c: Client, bytes: seq<Byte>): Client {
    if c.connected then c.(outbox := c.outbox + bytes) else c
  }

  function ToldPlain(cs: seq<Client>, it: Item): (r: seq<Client>)
    ensures |r| == |cs| && forall k :: 0 <= k < |cs| ==> r[k] == Told(cs[k], Plain(it))
  {
    seq(|cs|, k requires 0 <= k < |cs| => Told(cs[k], Plain(it)))
  }

  function ToldFrames(cs: seq<Client>, it: Item): (r: seq<Client>)
    ensures |r| == |cs| && forall k :: 0 <= k < |cs| ==> r[k] == Told(cs[k], FrameBytes(Shown(cs[k].fd, it)))
  {
    seq(|cs|, k requires 0 <= k < |cs| => Told(cs[k], FrameBytes(Shown(cs[k].fd, it))))
  }

  /** The fan-out of one item. */
  function Served(h: Hub, it: Item): (r: Hub)
    ensures FullHub(h) ==> FullHub(r)
  {
    Hub(h.bridge, ToldPlain(h.plain, it), ToldPlain(h.readOnly, it), ToldFrames(h.enhanced, it))
  }

  /** dataProcess: all clients are handled, the bus is read once, and what it returns is
      fanned out. */
  function Processed(h: Hub, rooms: seq<nat>, i: Option<Input>): (r: Hub)
    requires FullHub(h) && |rooms| == MAX_WIFI_CLIENTS
    ensures FullHub(r)
  {
    var h1 := SlotsHandled(h, MAX_WIFI_CLIENTS, rooms);
    var (b, d) := ReadSpec(h1.bridge, i);
    if d.Some? then Served(h1.(bridge := b), d.value) else h1.(bridge := b)
  }

  lemma NothingForwarded(b: Bridge, c: Client, room: nat)
    requires !c.connected
    ensures Forwarded(b, c, room) == (b, c)
  {
    assert c.inbox[..0] == [] && c.inbox[0..] == c.inbox;
    EmptyIsNeutral(b.written);
  }

  class Gateway {
    const bus: BusType
    var plain: seq<Socket>
    var readOnly: seq<Socket>
    var enhanced: seq<Socket>

    constructor (bus: BusType, plain: seq<Socket>, readOnly: seq<Socket>, enhanced: seq<Socket>)
      ensures this.bus == bus && this.plain == plain && this.readOnly == readOnly && this.enhanced == enhanced
    {
      this.bus := bus;
      this.plain, this.readOnly, this.enhanced := plain, readOnly, enhanced;
    }

    function EffectsOn(client: Socket): Effects
      reads this, client, bus.reservation, bus.uart
    {
      Effects(bus.reservation.Abs(), bus.uart.written, client.outbox)
    }

    ghost function ClientOf(c: Socket): Client
      reads c
    {
      Client(c.fd, c.connected, c.inbox, c.outbox)
    }

    ghost function ClientsOf(cs: seq<Socket>): (r: seq<Client>)
      reads cs
      ensures |r| == |cs| && forall k :: 0 <= k < |cs| ==> r[k] == ClientOf(cs[k])
    {
      seq(|cs|, k requires 0 <= k < |cs| reads cs => ClientOf(cs[k]))
    }

    ghost function Abs(): Hub
      reads this, bus, bus.busState, bus.arbitration, bus.reservation, bus.uart, plain, readOnly, enhanced
    {
      Hub(bus.Abs(), ClientsOf(plain), ClientsOf(readOnly), ClientsOf(enhanced))
    }

    /** processCmd */
    method ProcessCmd(client: Socket, f: Frame)
      modifies client`outbox, bus.reservation, bus.uart
      ensures EffectsOn(client) == Process(old(EffectsOn(client)), client.fd, f)
    {
      if f.c == CMD_INIT {
        client.Write(Encode(RESETTED, 0));
        return;
      }
      if f.c == CMD_START {
        if f.d == SYN {
          bus.reservation.Clear();
          return;
        } else {
          var ok, holder, held := bus.reservation.Set(client.fd, f.d);
          if !ok && client.fd != holder {
            client.Write(Encode(ERROR_HOST, ERR_FRAMING));
          }
          return;
        }
      }
      if f.c == CMD_SEND {
        bus.uart.Write(f.d);
        return;
      }
    }

    /** handleClientEnhanced: all waiting bytes of one client, up to the first error. */
    method HandleClientEnhanced(client: Socket)
      requires client.connected
      modifies client, bus.reservation, bus.uart
      ensures client.inbox == []
      ensures var p := Batch(old(client.inbox));
        var g := ProcessAll(old(EffectsOn(client)), client.fd, p.cmds);
        && client.connected == (p.error == "")
        && EffectsOn(client) == g.(outbox := g.outbox + Chars(p.error))
    {
      ghost var all := Batch(client.inbox);
      ghost var done := ProcessAll(EffectsOn(client), client.fd, all.cmds);
      while client.inbox != []
        invariant client.connected
        invariant Batch(client.inbox).error == all.error
        invariant ProcessAll(EffectsOn(client), client.fd, Batch(client.inbox).cmds) == done
        decreases |client.inbox|
      {
        ghost var p := Batch(client.inbox);
        var ok, f := ReadCmd(client);
        if ok {
          ProcessCmd(client, f);
          assert p.cmds[1..] == Batch(client.inbox).cmds;
        } else {
          assert p.cmds == [];
          return;
        }
      }
      assert done.outbox + Chars("") == done.outbox;
    }

    /** handleClient; `room` is what the transmit buffer takes. */
    method HandleClient(client: Socket, room: nat)
      modifies client`inbox, bus.uart
      ensures (bus.Abs(), ClientOf(client)) == Forwarded(old(bus.Abs()), old(ClientOf(client)), room)
    {
      if !client.connected {
        NothingForwarded(bus.Abs(), ClientOf(client), room);
        return;
      }
      ghost var n, all, was := Least(|client.inbox|, room), client.inbox, bus.uart.written;
      var left := room;
      while client.inbox != [] && left > 0
        invariant 0 <= room - left <= n && left >= 0
        invariant client.inbox == all[room - left..]
        invariant bus.uart.written == was + all[..room - left]
        decreases left
      {
        TakeOneMore(all, room - left);
        Associative(was, all[..room - left], [all[room - left]]);
        var value := client.ReadByte();
        bus.uart.Write(value);
        left := left - 1;
      }
    }

    /** The slots of all clients hold different connections. */
    ghost predicate SlotsDistinct()
      reads this
    {
      && |plain| == |readOnly| == |enhanced| == MAX_WIFI_CLIENTS
      && (forall j, k :: 0 <= j < MAX_WIFI_CLIENTS && 0 <= k < MAX_WIFI_CLIENTS ==>
            plain[j] != readOnly[k] && plain[j] != enhanced[k] && readOnly[j] != enhanced[k])
      && (forall j, k :: 0 <= j < k < MAX_WIFI_CLIENTS ==>
            plain[j] != plain[k] && readOnly[j] != readOnly[k] && enhanced[j] != enhanced[k])
    }

    /** The fan-out of dataProcess: one popped item goes to every client that is to see
        it, as a plain byte or as a frame, once. */
    method FanOut(it: Item)
      requires SlotsDistinct()
      modifies plain, readOnly, enhanced
      ensures forall c :: c in plain || c in readOnly ==> GotPlain(c, it)
      ensures forall c :: c in enhanced ==> GotFrames(c, it)
    {
      for i := 0 to MAX_WIFI_CLIENTS
        invariant forall k :: 0 <= k < i ==>
          GotPlain(plain[k], it) && GotPlain(readOnly[k], it) && GotFrames(enhanced[k], it)
        invariant forall k :: i <= k < MAX_WIFI_CLIENTS ==>
          unchanged(plain[k]) && unchanged(readOnly[k]) && unchanged(enhanced[k])
      {
        ServeSlot(plain[i], readOnly[i], enhanced[i], it);
      }
    }

    method ObeyClient(client: Socket)
      modifies client, bus.reservation, bus.uart
      ensures (bus.Abs(), ClientOf(client)) == Obeyed(old(bus.Abs()), old(ClientOf(client)))
    {
      if client.connected {
        HandleClientEnhanced(client);
      }
    }

    lemma ClientsAre(cs: seq<Socket>, want: seq<Client>)
      requires |want| == |cs| && forall k :: 0 <= k < |cs| ==> ClientOf(cs[k]) == want[k]
      ensures ClientsOf(cs) == want
    {
    }

    /** Only the i-th plain client and the bus have changed. */
    lemma PlainSlotOnly(was: Hub, i: nat)
      requires FullHub(was) && |plain| == |readOnly| == |enhanced| == MAX_WIFI_CLIENTS && i < MAX_WIFI_CLIENTS
      requires forall k :: 0 <= k < MAX_WIFI_CLIENTS ==> k == i || ClientOf(plain[k]) == was.plain[k]
      requires forall k :: 0 <= k < MAX_WIFI_CLIENTS ==> ClientOf(readOnly[k]) == was.readOnly[k]
      requires forall k :: 0 <= k < MAX_WIFI_CLIENTS ==> ClientOf(enhanced[k]) == was.enhanced[k]
      ensures Abs() == Hub(bus.Abs(), was.plain[i := ClientOf(plain[i])], was.readOnly, was.enhanced)
    {
      ClientsAre(plain, was.plain[i := ClientOf(plain[i])]);
      ClientsAre(readOnly, was.readOnly);
      ClientsAre(enhanced, was.enhanced);
    }

    method HandlePlainSlot(i: nat, room: nat)
      requires SlotsDistinct() && i < MAX_WIFI_CLIENTS
      modifies plain[i], bus.uart
      ensures Abs() == PlainHandled(old(Abs()), i, room)
    {
      ghost var was := Abs();
      HandleClient(plain[i], room);
      PlainSlotOnly(was, i);
    }

    method HandleEnhancedSlot(i: nat)
      requires SlotsDistinct() && i < MAX_WIFI_CLIENTS
      modifies enhanced[i], bus.reservation, bus.uart
      ensures Abs() == EnhancedHandled(old(Abs()), i)
    {
      ghost var was := Abs();
      ObeyClient(enhanced[i]);
      ClientsAre(plain, was.plain);
      ClientsAre(readOnly, was.readOnly);
      ClientsAre(enhanced, was.enhanced[i := ClientOf(enhanced[i])]);
    }

    /** One round of the loop over the clients in dataProcess. */
    method HandleSlot(i: nat, room: nat)
      requires SlotsDistinct() && i < MAX_WIFI_CLIENTS
      modifies plain[i], enhanced[i], bus.reservation, bus.uart
      ensures Abs() == SlotHandled(old(Abs()), i, room)
    {
      HandlePlainSlot(i, room);
      HandleEnhancedSlot(i);
    }

    /** FanOut, on the hub. */
    method Serve(it: Item)
      requires SlotsDistinct()
      modifies plain, readOnly, enhanced
      ensures Abs() == Served(old(Abs()), it)
    {
      ghost var was := Abs();
      FanOut(it);
      forall k | 0 <= k < MAX_WIFI_CLIENTS
        ensures ClientOf(plain[k]) == Told(was.plain[k], Plain(it))
        ensures ClientOf(readOnly[k]) == Told(was.readOnly[k], Plain(it))
        ensures ClientOf(enhanced[k]) == Told(was.enhanced[k], FrameBytes(Shown(was.enhanced[k].fd, it)))
      {
        assert GotPlain(plain[k], it) && GotPlain(readOnly[k], it) && GotFrames(enhanced[k], it);
      }
      ClientsAre(plain, ToldPlain(was.plain, it));
      ClientsAre(readOnly, ToldPlain(was.readOnly, it));
      ClientsAre(enhanced, ToldFrames(was.enhanced, it));
    }

    method ReadBus(i: Option<Input>) returns (d: Option<Item>)
      modifies bus, bus.busState, bus.arbitration, bus.reservation, bus.uart
      ensures d == ReadSpec(old(bus.Abs()), i).1
      ensures Abs() == old(Abs()).(bridge := ReadSpec(old(bus.Abs()), i).0)
    {
      ghost var was := Abs();
      d := bus.Read(i);
      ClientsAre(plain, was.plain);
      ClientsAre(readOnly, was.readOnly);
      ClientsAre(enhanced, was.enhanced);
    }

    method HandleSlots(rooms: seq<nat>)
      requires SlotsDistinct() && |rooms| == MAX_WIFI_CLIENTS
      modifies plain, enhanced, bus.reservation, bus.uart
      ensures Abs() == SlotsHandled(old(Abs()), MAX_WIFI_CLIENTS, rooms)
    {
      ghost var was := Abs();
      for n := 0 to MAX_WIFI_CLIENTS
        invariant Abs() == SlotsHandled(was, n, rooms)
      {
        HandleSlot(n, rooms[n]);
      }
    }

    /** dataProcess */
    method DataProcess(rooms: seq<nat>, i: Option<Input>)
      requires SlotsDistinct() && |rooms| == MAX_WIFI_CLIENTS
      modifies bus, bus.busState, bus.arbitration, bus.reservation, bus.uart, plain, readOnly, enhanced
      ensures Abs() == Processed(old(Abs()), rooms, i)
    {
      HandleSlots(rooms);
      var d := ReadBus(i);
      if d.Some? {
        Serve(d.value);
      }
    }

    /** What FanOut does for one slot of each kind. */
    method ServeSlot(p: Socket, r: Socket, e: Socket, it: Item)
      requires p != r && r != e && p != e
      modifies p, r, e
      ensures GotPlain(p, it) && GotPlain(r, it) && GotFrames(e, it)
    {
      if it.enhanced {
        if it.clientFd == e.fd {
          PushClientEnhanced(e, it.c, it.d);
        }
      } else {
        PushClient(p, it.d);
        PushClient(r, it.d);
        if it.clientFd != e.fd {
          PushClientEnhanced(e, it.c, it.d);
        }
      }
    }

    twostate predicate GotPlain(c: Socket, it: Item)
      reads c
    {
      && c.inbox == old(c.inbox) && c.connected == old(c.connected)
      && c.outbox == old(c.outbox) + if c.connected then Plain(it) else []
    }

    twostate predicate GotFrames(c: Socket, it: Item)
      reads c
    {
      && c.inbox == old(c.inbox) && c.connected == old(c.connected)
      && c.outbox == old(c.outbox) + if c.connected then FrameBytes(Shown(c.fd, it)) else []
    }

    method PushClient(client: Socket, b: Byte)
      modifies client`outbox
      ensures client.outbox == old(client.outbox) + if client.connected then [b] else []
    {
      if client.connected {
        client.Write([b]);
      }
    }

    method PushClientEnhanced(client: Socket, c: Byte, d: Byte)
      modifies client`outbox
      ensures client.outbox == old(client.outbox) + if client.connected then FrameBytes([Frame(c, d)]) else []
    {
      if client.connected {
        client.Write(Encode(c, d));
      }
    }
  }

  /** A list of frames as bytes, and back. */
  function FrameBytes(fs: seq<Frame>): seq<Byte> {
    if fs == [] then [] else Encode(fs[0].c, fs[0].d) + FrameBytes(fs[1..])
  }

  function Unframe(bytes: seq<Byte>): seq<Frame> {
    if |bytes| < 2 then [] else [Decode(bytes[0], bytes[1])] + Unframe(bytes[2..])
  }

  lemma {:induction false} FramesRoundTrip(fs: seq<Frame>)
    requires forall k :: 0 <= k < |fs| ==> fs[k].c < 16
    ensures Unframe(FrameBytes(fs)) == fs
    decreases |fs|
  {
    if fs != [] {
      FrameRoundTrip(fs[0].c, fs[0].d);
      FramesRoundTrip(fs[1..]);
      assert FrameBytes(fs)[2..] == FrameBytes(fs[1..]);
      assert fs == [fs[0]] + fs[1..];
    }
  }

  lemma {:induction false} FrameBytesAppend(xs: seq<Frame>, ys: seq<Frame>)
    ensures FrameBytes(xs + ys) == FrameBytes(xs) + FrameBytes(ys)
    decreases |xs|
  {
    if xs == [] {
      assert xs + ys == ys;
    } else {
      FrameBytesAppend(xs[1..], ys);
      assert (xs + ys)[0] == xs[0] && (xs + ys)[1..] == xs[1..] + ys;
      Associative(Encode(xs[0].c, xs[0].d), FrameBytes(xs[1..]), FrameBytes(ys));
    }
  }

  /** The bytes that fanning out a list of items adds to what client f receives. */
  function FannedOut(f: nat, items: seq<Item>): seq<Byte>
    decreases |items|
  {
    if items == [] then []
    else FannedOut(f, items[..|items| - 1]) + FrameBytes(Shown(f, items[|items| - 1]))
  }

  lemma {:induction false} RouteHasProperCodes(f: nat, rs: seq<Receipt>, k: nat)
    requires k < |Expected(f, rs)|
    ensures Expected(f, rs)[k].c < 16
    decreases |rs|
  {
    var n := |rs| - 1;
    if k < |Expected(f, rs[..n])| {
      RouteHasProperCodes(f, rs[..n], k);
    }
  }

  lemma {:induction false} FannedOutIsRouted(f: nat, items: seq<Item>)
    ensures FannedOut(f, items) == FrameBytes(Route(f, items))
    decreases |items|
  {
    if items != [] {
      var n := |items| - 1;
      FannedOutIsRouted(f, items[..n]);
      FrameBytesAppend(Route(f, items[..n]), Shown(f, items[n]));
    }
  }

  /** The bus data alone: the bytes that the items of any run add up to for enhanced
      client f, taken apart two by two, are exactly the answers and echoes the history of
      the bus promises it, in order. GatewayRuns adds the replies to commands. */
  lemma ClientReceivesWhatIsPromised(evs: seq<Event>, f: nat)
    ensures Unframe(FannedOut(f, Delivered(After(evs)))) == Expected(f, After(evs).receipts)
  {
    var run := After(evs);
    EveryRunDelivers(evs, f);
    FannedOutIsRouted(f, Delivered(run));
    forall k | 0 <= k < |Expected(f, run.receipts)|
      ensures Expected(f, run.receipts)[k].c < 16
    {
      RouteHasProperCodes(f, run.receipts, k);
    }
    FramesRoundTrip(Expected(f, run.receipts));
  }
}
