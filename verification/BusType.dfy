/** The driver that feeds every received symbol to the recogniser and to the
    arbitration, owns the single reservation and decides who gets to see the
    symbol (src/bridge/bus_type.cpp). */
module BusTypes {
  import opened Words
  import opened BusStates
  import opened Arbitrations

  // Response codes of the enhanced protocol.
  const RESETTED: Byte := 0x0
  const RECEIVED: Byte := 0x1
  const STARTED: Byte := 0x2
  const FAILED: Byte := 0xA
  const ERROR_EBUS: Byte := 0xB
  const ERROR_HOST: Byte := 0xC

  const ERR_FRAMING: Byte := 0x00

  /** A client descriptor, or -1 for nobody. */
  type Fd = x: int | x >= -1

  datatype Item = Item(enhanced: bool, c: Byte, d: Byte, clientFd: Fd, logToClientFd: Fd)

  /** The two globals behind getArbitrationClient; the address of a free
      reservation is -1, which reads as 0xFF. */
  datatype Reservation = Reservation(client: Fd, address: Byte)

  const FREE := Reservation(-1, 0xFF)

  datatype Counters = Counters(
    restarts1: int, restarts2: int, arbitrations: int,
    lost1: int, lost2: int, won1: int, won2: int, errors: int, late: int)

  const NO_COUNTS := Counters(0, 0, 0, 0, 0, 0, 0, 0, 0)

  /** One received symbol with everything the environment decides: the clock when
      it was read, when a SYN was stamped and when a start was tried, and whether
      another symbol was already waiting. */
  datatype Input = Input(symbol: Byte, startBit: Word, synTime: Word, now: Word, pending: bool)

  datatype Bridge = Bridge(
    rec: Recogniser,
    arb: Arb,
    clientFd: Fd,
    reservation: Reservation,
    counters: Counters,
    queue: seq<Item>,
    written: seq<Byte>)

  const FRESH := Bridge(RESET, IDLE_ARB, -1, FREE, NO_COUNTS, [], [])

  function Reserve(r: Reservation, fd: nat, address: Byte): Reservation {
    if r.client < 0 then Reservation(fd, address) else r
  }

  /** The arbitration verdict on the next symbol. */
  function Verdict(b: Bridge, i: Input): DataEffect {
    DataSpec(b.arb, Observe(b.rec, i.symbol, i.synTime), i.symbol, i.pending)
  }

  /** The start attempted in the same call, when there is one: nothing is going
      on after the verdict and somebody holds the reservation. */
  function Attempted(b: Bridge, i: Input): StartEffect {
    var v := Verdict(b, i);
    if v.state in {Idle, Restart1, Restart2} && b.reservation.client >= 0 then
      StartSpec(v.arb, Next(b.rec.state, i.symbol), b.reservation.address, i.startBit, i.now, i.pending)
    else
      StartEffect(v.arb, NotStarted, [])
  }

  function Count(c: Counters, verdict: ArbState, start: StartResult): Counters {
    var c1 := match verdict
      case Restart1 => c.(restarts1 := Bump(c.restarts1))
      case Restart2 => c.(restarts2 := Bump(c.restarts2))
      case Won1 => c.(won1 := Bump(c.won1))
      case Won2 => c.(won2 := Bump(c.won2))
      case Lost1 => c.(lost1 := Bump(c.lost1))
      case Lost2 => c.(lost2 := Bump(c.lost2))
      case Error => c.(errors := Bump(c.errors))
      case _ => c;
    match start
    case Started => c1.(arbitrations := Bump(c1.arbitrations))
    case Late => c1.(late := Bump(c1.late))
    case NotStarted => c1
  }

  predicate Final(v: ArbState) {
    v in {Won1, Won2, Lost1, Lost2, Error}
  }

  /** What is queued for the symbol s when the verdict is v. */
  function Items(v: ArbState, s: Byte, master: Byte, owner: Fd, requester: Fd): seq<Item> {
    match v
    case Arbitrating => [Item(false, RECEIVED, s, owner, owner)]
    case Won1 => [Item(true, STARTED, master, owner, owner), Item(false, RECEIVED, s, owner, owner)]
    case Won2 => [Item(true, STARTED, master, owner, owner), Item(false, RECEIVED, s, owner, owner)]
    case Lost1 => [Item(true, FAILED, master, owner, owner), Item(false, RECEIVED, s, -1, owner)]
    case Lost2 => [Item(true, FAILED, master, owner, owner), Item(false, RECEIVED, s, -1, owner)]
    case Error => [Item(true, ERROR_EBUS, ERR_FRAMING, owner, owner), Item(false, RECEIVED, s, -1, owner)]
    case _ => [Item(false, RECEIVED, s, -1, requester)]
  }

  /** The bridge after `receive`. */
  function AfterSymbol(b: Bridge, i: Input): Bridge {
    var rec := Observe(b.rec, i.symbol, i.synTime);
    var v := Verdict(b, i);
    var st := Attempted(b, i);
    Bridge(
      rec,
      st.arb,
      if Final(v.state) then -1 else if v.state == Arbitrating then b.clientFd else b.reservation.client,
      if Final(v.state) then FREE else b.reservation,
      Count(b.counters, v.state, st.result),
      b.queue + Items(v.state, i.symbol, rec.master, b.clientFd, b.reservation.client),
      b.written + v.writes + st.writes)
  }

  /** The bridge after `read`: at most one symbol in, at most one item out. */
  function ReadSpec(b: Bridge, i: Option<Input>): (Bridge, Option<Item>) {
    var b1 := if i.Some? then AfterSymbol(b, i.value) else b;
    if b1.queue == [] then (b1, None)
    else (b1.(queue := b1.queue[1..]), Some(b1.queue[0]))
  }

  /** The reservation globals and the functions that guard them. */
  class ReservationCell {
    var client: Fd
    var address: Byte

    function Abs(): Reservation
      reads this
    {
      Reservation(client, address)
    }

    constructor ()
      ensures Abs() == FREE
    {
      client, address := -1, 0xFF;
    }

    /** getArbitrationClient */
    method Get() returns (fd: Fd, ad: Byte)
      ensures Reservation(fd, ad) == Abs()
    {
      return client, address;
    }

    /** clearArbitrationClient, also called arbitrationDone */
    method Clear()
      modifies this
      ensures Abs() == FREE
    {
      client := -1;
      address := 0xFF;
    }

    /** setArbitrationClient: on refusal the holder is reported back. */
    method Set(fd: nat, ad: Byte) returns (ok: bool, holder: Fd, held: Byte)
      modifies this
      ensures Abs() == Reserve(old(Abs()), fd, ad)
      ensures ok == (old(client) < 0) && Reservation(holder, held) == Abs()
    {
      if client < 0 {
        client := fd;
        address := ad;
        return true, fd, ad;
      } else {
        return false, client, address;
      }
    }
  }

  class BusType {
    const busState: BusState
    const arbitration: Arbitration
    const reservation: ReservationCell
    const uart: UartPort
    var clientFd: Fd
    var queue: seq<Item>
    var nbr: Counters

    function Abs(): Bridge
      reads this, busState, arbitration, reservation, uart
    {
      Bridge(busState.Abs(), arbitration.Abs(), clientFd, reservation.Abs(), nbr, queue, uart.written)
    }

    constructor ()
      ensures Abs() == FRESH
      ensures fresh(busState) && fresh(arbitration) && fresh(reservation) && fresh(uart)
    {
      busState := new BusState();
      arbitration := new Arbitration();
      reservation := new ReservationCell();
      uart := new UartPort();
      clientFd := -1;
      queue := [];
      nbr := NO_COUNTS;
    }

    method Push(d: Item)
      modifies this`queue
      ensures queue == old(queue) + [d]
    {
      queue := queue + [d];
    }

    /** The part of `receive` that runs when no attempt is going on: serve the
        reservation, then show the symbol to everybody. */
    method Offer(i: Input)
      modifies this`clientFd, this`nbr, this`queue, arbitration, uart
      ensures var b := old(Abs());
        var st := if b.reservation.client >= 0
                  then StartSpec(b.arb, b.rec.state, b.reservation.address, i.startBit, i.now, i.pending)
                  else StartEffect(b.arb, NotStarted, []);
        Abs() == b.(arb := st.arb, clientFd := b.reservation.client,
                    counters := Count(b.counters, Idle, st.result),
                    queue := b.queue + [Item(false, RECEIVED, i.symbol, -1, b.reservation.client)],
                    written := b.written + st.writes)
    {
      var fd, address := reservation.Get();
      clientFd := fd;
      if clientFd >= 0 {
        var r := arbitration.Start(busState, address, i.startBit, i.now, i.pending, uart);
        match r {
          case Started => nbr := nbr.(arbitrations := Bump(nbr.arbitrations));
          case Late => nbr := nbr.(late := Bump(nbr.late));
          case NotStarted =>
        }
      }
      Push(Item(false, RECEIVED, i.symbol, -1, clientFd));
    }

    method Receive(i: Input)
      modifies this, busState, arbitration, reservation, uart
      ensures Abs() == AfterSymbol(old(Abs()), i)
    {
      busState.Data(i.symbol, i.synTime);
      var state := arbitration.Data(busState, i.symbol, i.pending, uart);
      if state in {Restart1, Restart2, Idle} {
        if state == Restart1 {
          nbr := nbr.(restarts1 := Bump(nbr.restarts1));
        } else if state == Restart2 {
          nbr := nbr.(restarts2 := Bump(nbr.restarts2));
        }
        Offer(i);
      } else if state == Arbitrating {
        Push(Item(false, RECEIVED, i.symbol, clientFd, clientFd));
      } else {
        Settle(state, i.symbol);
      }
    }

    /** The part of `receive` that ends an attempt: count it, drop the reservation
        and answer the arbitrating client. */
    method Settle(state: ArbState, s: Byte)
      requires Final(state)
      modifies this, reservation
      ensures var b := old(Abs());
        Abs() == b.(clientFd := -1, reservation := FREE, counters := Count(b.counters, state, NotStarted),
                    queue := b.queue + Items(state, s, b.rec.master, b.clientFd, b.reservation.client))
    {
      match state {
        case Won1 => nbr := nbr.(won1 := Bump(nbr.won1));
        case Won2 => nbr := nbr.(won2 := Bump(nbr.won2));
        case Lost1 => nbr := nbr.(lost1 := Bump(nbr.lost1));
        case Lost2 => nbr := nbr.(lost2 := Bump(nbr.lost2));
        case Error => nbr := nbr.(errors := Bump(nbr.errors));
      }
      reservation.Clear();
      if state in {Won1, Won2} {
        Push(Item(true, STARTED, busState.master, clientFd, clientFd));
        Push(Item(false, RECEIVED, s, clientFd, clientFd));
      } else if state in {Lost1, Lost2} {
        Push(Item(true, FAILED, busState.master, clientFd, clientFd));
        Push(Item(false, RECEIVED, s, -1, clientFd));
      } else {
        Push(Item(true, ERROR_EBUS, ERR_FRAMING, clientFd, clientFd));
        Push(Item(false, RECEIVED, s, -1, clientFd));
      }
      clientFd := -1;
    }

    method Read(i: Option<Input>) returns (d: Option<Item>)
      modifies this, busState, arbitration, reservation, uart
      ensures (Abs(), d) == ReadSpec(old(Abs()), i)
    {
      if i.Some? {
        Receive(i.value);
      }
      if |queue| > 0 {
        d := Some(queue[0]);
        queue := queue[1..];
      } else {
        d := None;
      }
    }
  }
}
