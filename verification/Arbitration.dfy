/** Two-round bus arbitration (src/bridge/arbitration.cpp) in the synchronous
    build. The clock and the receive buffer are inputs, the transmit side of the
    UART is an object that remembers what was written. */
module Arbitrations {
  import opened Words
  import opened BusStates

  /** Longest time after the start bit of a SYN at which an address may still
      be sent, in microseconds (section 3.2 of the eBUS test specification
      v1.1.1). */
  const LATEST_START: Word := 4456

  const MAX_RESTARTS := 3

  datatype StartResult = Started | NotStarted | Late

  datatype ArbState =
    | Idle          // "none" in the code: no arbitration ongoing
    | Arbitrating
    | Won1
    | Won2
    | Lost1
    | Lost2
    | Error
    | Restart1
    | Restart2

  /** All fields of an Arbitration object. */
  datatype Arb = Arb(arbitrating: bool, participateSecond: bool, address: Byte, restartCount: int)

  const IDLE_ARB := Arb(false, false, 0, 0)

  /** Same low nibble, that is, same priority class. */
  predicate SameClass(a: Byte, b: Byte) {
    a % 16 == b % 16
  }

  predicate InTime(now: Word, startBit: Word) {
    Elapsed(now, startBit) <= LATEST_START
  }

  datatype StartEffect = StartEffect(arb: Arb, result: StartResult, writes: seq<Byte>)

  /** What a call of `start` does. */
  function StartSpec(a: Arb, phase: Phase, master: Byte, startBit: Word, now: Word, pending: bool): StartEffect {
    if a.arbitrating || master == SYN || !phase.ReceivedFirstSyn? then
      StartEffect(a, NotStarted, [])
    else if !InTime(now, startBit) || pending then
      StartEffect(a, Late, [])
    else
      StartEffect(Arb(true, false, master, a.restartCount), Started, [master])
  }

  datatype DataEffect = DataEffect(arb: Arb, state: ArbState, writes: seq<Byte>)

  /** A SYN arrived where it ends the attempt: restart while the budget lasts.
      A restart after the second round costs twice as much as one after the
      first, because both post-increments are evaluated. */
  function AddressLost(a: Arb, previous: Phase): DataEffect {
    if a.restartCount < MAX_RESTARTS && previous.ReceivedFirstSyn? then
      DataEffect(a.(arbitrating := false, restartCount := a.restartCount + 1), Restart1, [])
    else if a.restartCount + 1 < MAX_RESTARTS && previous.ReceivedSecondSyn? then
      DataEffect(a.(arbitrating := false, restartCount := a.restartCount + 2), Restart2, [])
    else
      DataEffect(a.(arbitrating := false, restartCount := 0), Error, [])
  }

  /** What a call of `data` does, given the recogniser that already saw s. */
  function DataSpec(a: Arb, r: Recogniser, s: Byte, pending: bool): DataEffect {
    if !a.arbitrating then DataEffect(a, Idle, [])
    else
      match r.state
      case ReceivedAddressAfterFirstSyn =>
        if s == a.address then DataEffect(a.(arbitrating := false, restartCount := 0), Won1, [])
        else DataEffect(a.(participateSecond := a.participateSecond || SameClass(s, a.address)), Arbitrating, [])
      case ReceivedSecondSyn =>
        DataEffect(a, Arbitrating, if a.participateSecond && !pending then [a.address] else [])
      case ReceivedAddressAfterSecondSyn =>
        if s == a.address then DataEffect(a.(arbitrating := false, restartCount := 0), Won2, [])
        else DataEffect(a, Arbitrating, [])
      case Busy =>
        DataEffect(a.(arbitrating := false, restartCount := 0), if a.participateSecond then Lost2 else Lost1, [])
      case _ =>
        AddressLost(a, r.previous)
  }

  /** An attempt starts exactly when nothing is going on, the address is not SYN, the bus
      has just seen the SYN of a free bus, the time given for its start bit is at most
      4456 us ago, and no symbol is waiting to be read. The times are unbounded readings
      of which the code keeps 32 bits; the equivalence needs the reading to be less than
      2^32 us old. */
  lemma StartsExactlyInWindow(a: Arb, phase: Phase, master: Byte, startBit: nat, now: nat, pending: bool)
    requires startBit <= now < startBit + TWO32
    ensures StartSpec(a, phase, master, Wrap(startBit), Wrap(now), pending).result == Started
       <==> !a.arbitrating && master != SYN && phase == ReceivedFirstSyn && now - startBit <= 4456 && !pending
  {
    ElapsedAcrossWrap(startBit, now);
  }

  /** In this build the time given for the start bit is the one at which the symbol was
      read. So the window of section 3.2, which counts from the start bit itself, is missed
      exactly if the delay between the two is what makes the difference. */
  lemma WindowCountsFromTheReading(startBit: nat, read: nat, now: nat)
    requires startBit <= read <= now < read + TWO32
    ensures InTime(Wrap(now), Wrap(read)) != (now - startBit <= 4456)
       <==> 4456 < now - startBit <= 4456 + (read - startBit)
  {
    ElapsedAcrossWrap(read, now);
  }

  /** Beyond 2^32 us the 32-bit comparison goes wrong: a start bit that is over an
      hour old passes for a fresh one. */
  lemma StaleStartBitLooksFresh(startBit: nat)
    ensures InTime(Wrap(startBit + TWO32), Wrap(startBit))
  {
    WrapShift(startBit, 1);
  }

  /** The transmit side of the UART. */
  class UartPort {
    var written: seq<Byte>

    constructor ()
      ensures written == []
    {
      written := [];
    }

    method Write(b: Byte)
      modifies this
      ensures written == old(written) + [b]
    {
      written := written + [b];
    }
  }

  class Arbitration {
    var arbitrating: bool
    var participateSecond: bool
    var address: Byte
    var restartCount: int

    function Abs(): Arb
      reads this
    {
      Arb(arbitrating, participateSecond, address, restartCount)
    }

    constructor ()
      ensures Abs() == IDLE_ARB
    {
      arbitrating, participateSecond := false, false;
      address, restartCount := 0, 0;
    }

    method Start(busState: BusState, master: Byte, startBit: Word, now: Word, pending: bool, bus: UartPort)
      returns (result: StartResult)
      modifies this, bus
      ensures var e := StartSpec(old(Abs()), busState.state, master, startBit, now, pending);
        result == e.result && Abs() == e.arb && bus.written == old(bus.written) + e.writes
    {
      if arbitrating {
        return NotStarted;
      }
      if master == SYN {
        return NotStarted;
      }
      if busState.state != ReceivedFirstSyn {
        return NotStarted;
      }
      var timeSinceStartBit := Elapsed(now, startBit);
      if timeSinceStartBit > LATEST_START || pending {
        return Late;
      }
      bus.Write(master);
      address := master;
      arbitrating := true;
      participateSecond := false;
      return Started;
    }

    method Data(busState: BusState, s: Byte, pending: bool, bus: UartPort) returns (result: ArbState)
      modifies this, bus
      ensures var e := DataSpec(old(Abs()), busState.Abs(), s, pending);
        result == e.state && Abs() == e.arb && bus.written == old(bus.written) + e.writes
    {
      if !arbitrating {
        return Idle;
      }
      match busState.state {
        case ReceivedAddressAfterFirstSyn =>
          if s == address {
            arbitrating := false;
            restartCount := 0;
            return Won1;
          } else if s % 16 == address % 16 {
            participateSecond := true;
          }
          return Arbitrating;
        case ReceivedSecondSyn =>
          if participateSecond && !pending {
            bus.Write(address);
          }
          return Arbitrating;
        case ReceivedAddressAfterSecondSyn =>
          if s == address {
            arbitrating := false;
            restartCount := 0;
            return Won2;
          }
          return Arbitrating;
        case Busy =>
          arbitrating := false;
          restartCount := 0;
          return if participateSecond then Lost2 else Lost1;
        case _ =>
          result := Lost(busState.previous);
      }
    }

    /** A SYN came where an address belongs. */
    method Lost(previous: Phase) returns (result: ArbState)
      modifies this
      ensures var e := AddressLost(old(Abs()), previous); result == e.state && Abs() == e.arb
    {
      arbitrating := false;
      restartCount := restartCount + 1;
      if restartCount - 1 < MAX_RESTARTS && previous == ReceivedFirstSyn {
        return Restart1;
      }
      restartCount := restartCount + 1;
      if restartCount - 1 < MAX_RESTARTS && previous == ReceivedSecondSyn {
        return Restart2;
      }
      restartCount := 0;
      return Error;
    }
  }
}
