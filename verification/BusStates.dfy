/** The recogniser that follows the SYN / address / SYN / address pattern on the
    eBUS wire (include/bridge/bus_state.hpp). */
module BusStates {
  import opened Words

  const SYN: Byte := 0xAA

  datatype Phase =
    | Startup
    | StartupFirstSyn
    | StartupSymbolAfterFirstSyn
    | StartupSecondSyn
    | ReceivedFirstSyn
    | ReceivedAddressAfterFirstSyn
    | ReceivedSecondSyn
    | ReceivedAddressAfterSecondSyn
    | Busy

  /** All fields of a BusState object. */
  datatype Recogniser = Recogniser(
    state: Phase,
    previous: Phase,
    master: Byte,
    symbol: Byte,
    synTime: Word,
    previousSynTime: Word)

  const RESET := Recogniser(Startup, Startup, 0, 0, 0, 0)

  /** The phase a SYN leads to, and the phase any other symbol leads to. */
  function Next(phase: Phase, s: Byte): Phase {
    if s == SYN then
      match phase
      case Startup => StartupFirstSyn
      case StartupSymbolAfterFirstSyn => StartupSecondSyn
      case ReceivedAddressAfterFirstSyn => ReceivedSecondSyn
      case _ => ReceivedFirstSyn
    else
      match phase
      case Startup => Startup
      case StartupFirstSyn => StartupSymbolAfterFirstSyn
      case ReceivedFirstSyn => ReceivedAddressAfterFirstSyn
      case ReceivedSecondSyn => ReceivedAddressAfterSecondSyn
      case _ => Busy
  }

  predicate AwaitsAddress(phase: Phase) {
    phase.ReceivedFirstSyn? || phase.ReceivedSecondSyn?
  }

  /** The recogniser after one more symbol; `now` is the clock read on a SYN. */
  function Observe(r: Recogniser, s: Byte, now: Word): Recogniser {
    Recogniser(
      Next(r.state, s),
      r.state,
      if AwaitsAddress(r.state) then s else r.master,
      r.symbol,
      if s == SYN then now else r.synTime,
      if s == SYN then r.synTime else r.previousSynTime)
  }

  /** A received symbol with the clock reading taken while it is processed. */
  datatype Heard = Heard(symbol: Byte, now: Word)

  function ObserveAll(r: Recogniser, hs: seq<Heard>): Recogniser
    decreases |hs|
  {
    if hs == [] then r
    else
      var before := ObserveAll(r, hs[..|hs| - 1]);
      Observe(before, hs[|hs| - 1].symbol, hs[|hs| - 1].now)
  }

  /** Whatever came before, two SYNs in a row lead to ReceivedFirstSyn. */
  lemma TwoSynsSynchronise(r: Recogniser, t0: Word, t1: Word)
    ensures Observe(Observe(r, SYN, t0), SYN, t1).state == ReceivedFirstSyn
  {
    assert Next(r.state, SYN) in {StartupFirstSyn, StartupSecondSyn, ReceivedSecondSyn, ReceivedFirstSyn};
  }

  /** The phases from which a SYN leads somewhere else than to ReceivedFirstSyn. */
  predicate Special(phase: Phase) {
    phase in {Startup, StartupSymbolAfterFirstSyn, ReceivedAddressAfterFirstSyn}
  }

  /** One SYN is not enough: it makes two recognisers agree exactly if they agreed
      before or neither was in one of the three special phases. */
  lemma OneSynSynchronisesExactlyIf(p: Phase, q: Phase)
    ensures Next(p, SYN) == Next(q, SYN) <==> p == q || (!Special(p) && !Special(q))
  {
  }

  ghost predicate AgreeAfterSync(r1: Recogniser, r2: Recogniser, hs: seq<Heard>) {
    var s1, s2 := ObserveAll(r1, hs), ObserveAll(r2, hs);
    && s1.state == s2.state
    && s1.synTime == s2.synTime
    && s1.previousSynTime == s2.previousSynTime
    && (|hs| >= 3 ==> s1.previous == s2.previous && s1.master == s2.master)
  }

  /** Self-synchronisation. Two recognisers with arbitrary different histories
      that hear the same symbols, the first two of them SYN, agree on the phase
      and the SYN times from then on, and from one symbol later on every field
      that the code ever assigns. */
  lemma {:induction false} SelfSynchronisation(r1: Recogniser, r2: Recogniser, hs: seq<Heard>)
    requires |hs| >= 2 && hs[0].symbol == SYN && hs[1].symbol == SYN
    ensures AgreeAfterSync(r1, r2, hs)
    decreases |hs|
  {
    var n := |hs| - 1;
    if n == 1 {
      assert hs[..1][..0] == [];
      assert ObserveAll(r1, hs[..1]) == Observe(r1, SYN, hs[0].now);
      assert ObserveAll(r2, hs[..1]) == Observe(r2, SYN, hs[0].now);
      TwoSynsSynchronise(r1, hs[0].now, hs[1].now);
      TwoSynsSynchronise(r2, hs[0].now, hs[1].now);
    } else {
      SelfSynchronisation(r1, r2, hs[..n]);
      if n == 2 {
        EndsInFirstSyn(r1, hs[..2]);
        EndsInFirstSyn(r2, hs[..2]);
      }
    }
  }

  lemma EndsInFirstSyn(r: Recogniser, hs: seq<Heard>)
    requires |hs| == 2 && hs[0].symbol == SYN && hs[1].symbol == SYN
    ensures ObserveAll(r, hs).state == ReceivedFirstSyn
  {
    assert hs[..1][..0] == [];
    assert ObserveAll(r, hs[..1]) == Observe(r, SYN, hs[0].now);
    TwoSynsSynchronise(r, hs[0].now, hs[1].now);
  }

  /** The field `symbol` keeps its initial value: the assignments in the code
      write to the parameter of the same name. */
  lemma {:induction false} SymbolFieldNeverChanges(r: Recogniser, hs: seq<Heard>)
    ensures ObserveAll(r, hs).symbol == r.symbol
    decreases |hs|
  {
    if hs != [] {
      SymbolFieldNeverChanges(r, hs[..|hs| - 1]);
    }
  }

  // ------------------------------------------------- the phase, read off the symbols

  function Syns(w: seq<Byte>): nat {
    if w == [] then 0 else Syns(w[..|w| - 1]) + if w[|w| - 1] == SYN then 1 else 0
  }

  /** The number of symbols behind the last SYN. */
  function Behind(w: seq<Byte>): (n: nat)
    ensures n <= |w|
    ensures n < |w| ==> w[|w| - n - 1] == SYN
    ensures forall k :: |w| - n <= k < |w| ==> w[k] != SYN
  {
    if w == [] || w[|w| - 1] == SYN then 0 else Behind(w[..|w| - 1]) + 1
  }

  /** w ends with the second SYN of a pair SYN x SYN, of which the first one is not
      itself the second of such a pair. */
  predicate SecondOfPair(w: seq<Byte>) {
    var n := |w|;
    n >= 3 && w[n - 3] == SYN && w[n - 2] != SYN && w[n - 1] == SYN && !SecondOfPair(w[..n - 2])
  }

  /** The SYN of a free bus: not the first one that is heard, and not the second of a
      pair. */
  predicate FreeSyn(w: seq<Byte>) {
    w != [] && w[|w| - 1] == SYN && Syns(w) >= 2 && !SecondOfPair(w)
  }

  /** What the symbols heard since power-up mean, without any state. */
  function Reading(w: seq<Byte>): Phase {
    var n := Behind(w);
    var upTo := w[..|w| - n];
    if Syns(w) == 0 then Startup
    else if n >= 2 then Busy
    else if Syns(w) == 1 then (if n == 0 then StartupFirstSyn else StartupSymbolAfterFirstSyn)
    else if !SecondOfPair(upTo) then (if n == 0 then ReceivedFirstSyn else ReceivedAddressAfterFirstSyn)
    else if Syns(w) == 2 then (if n == 0 then StartupSecondSyn else Busy)
    else (if n == 0 then ReceivedSecondSyn else ReceivedAddressAfterSecondSyn)
  }

  lemma OneMoreSymbol(w: seq<Byte>, s: Byte)
    ensures var v := w + [s];
      && v[..|v| - 1] == w && v[|v| - 1] == s
      && Syns(v) == Syns(w) + (if s == SYN then 1 else 0)
      && Behind(v) == (if s == SYN then 0 else Behind(w) + 1)
      && v[..|v| - Behind(v)] == (if s == SYN then v else w[..|w| - Behind(w)])
  {
    var v := w + [s];
    assert v[..|v| - 1] == w;
  }

  lemma {:induction false} SynsAndBehind(w: seq<Byte>)
    ensures Syns(w) == 0 <==> Behind(w) == |w|
    decreases |w|
  {
    if w != [] {
      SynsAndBehind(w[..|w| - 1]);
    }
  }

  lemma OneMoreSyn(w: seq<Byte>)
    ensures SecondOfPair(w + [SYN]) <==> Behind(w) == 1 && Syns(w) > 0 && !SecondOfPair(w[..|w| - 1])
  {
    SynsAndBehind(w);
    var v := w + [SYN];
    if |w| >= 2 {
      assert v[..|v| - 2] == w[..|w| - 1];
    }
    if Behind(w) == 1 {
      assert w[|w| - 1] != SYN;
    }
  }

  lemma PairHasTwoSyns(w: seq<Byte>)
    requires SecondOfPair(w)
    ensures Syns(w) >= 2
  {
    var n := |w|;
    assert w[..n - 1][..n - 2] == w[..n - 2];
    assert Syns(w) == Syns(w[..n - 2]) + 1;
  }

  lemma SynsUpTo(w: seq<Byte>)
    requires Behind(w) == 1
    ensures Syns(w[..|w| - 1]) == Syns(w)
  {
    assert w[|w| - 1] != SYN;
  }

  lemma NextIsReading(w: seq<Byte>, s: Byte)
    ensures Next(Reading(w), s) == Reading(w + [s])
  {
    OneMoreSymbol(w, s);
    SynsAndBehind(w);
    if s == SYN {
      OneMoreSyn(w);
      if Behind(w) == 1 {
        SynsUpTo(w);
        if SecondOfPair(w[..|w| - 1]) {
          PairHasTwoSyns(w[..|w| - 1]);
        }
      }
    }
  }

  function SymbolsIn(hs: seq<Heard>): (w: seq<Byte>)
    ensures |w| == |hs| && forall k :: 0 <= k < |w| ==> w[k] == hs[k].symbol
  {
    seq(|hs|, k requires 0 <= k < |hs| => hs[k].symbol)
  }

  /** The phase of the recogniser is what the symbols heard since power-up mean. */
  lemma {:induction false} PhaseIsReading(hs: seq<Heard>)
    ensures ObserveAll(RESET, hs).state == Reading(SymbolsIn(hs))
    decreases |hs|
  {
    if hs != [] {
      var n := |hs| - 1;
      PhaseIsReading(hs[..n]);
      assert SymbolsIn(hs) == SymbolsIn(hs[..n]) + [hs[n].symbol];
      NextIsReading(SymbolsIn(hs[..n]), hs[n].symbol);
    }
  }

  /** A SYN is the SYN of a free bus in three places: directly behind another SYN; two
      symbols or more behind the last SYN; or one symbol behind a SYN that was itself the
      second of a pair. */
  lemma FreeSynExactlyIf(w: seq<Byte>)
    requires w != [] && w[|w| - 1] == SYN
    ensures var before := w[..|w| - 1];
      FreeSyn(w) <==>
        && Syns(before) > 0
        && (|| Behind(before) == 0 || Behind(before) >= 2
            || (Behind(before) == 1 && SecondOfPair(before[..|before| - 1])))
  {
    var before := w[..|w| - 1];
    assert w == before + [SYN];
    OneMoreSyn(before);
  }

  lemma {:induction false} QuietHasNoSyn(w: seq<Byte>)
    requires SYN !in w
    ensures Syns(w) == 0 && !SecondOfPair(w)
    decreases |w|
  {
    if w != [] {
      assert w[|w| - 1] in w && forall s :: s in w[..|w| - 1] ==> s in w;
      QuietHasNoSyn(w[..|w| - 1]);
    }
  }

  /** After power-up the first pair SYN x SYN has no SYN of a free bus in it. */
  lemma FirstPairIsNotFree(w: seq<Byte>, x: Byte)
    requires SYN !in w && x != SYN
    ensures !FreeSyn(w + [SYN]) && !FreeSyn(w + [SYN] + [x]) && !FreeSyn(w + [SYN] + [x] + [SYN])
  {
    QuietHasNoSyn(w);
    OneMoreSymbol(w, SYN);
    OneMoreSymbol(w + [SYN], x);
    OneMoreSyn(w);
    OneMoreSyn(w + [SYN] + [x]);
    assert (w + [SYN] + [x])[..|w| + 1] == w + [SYN];
  }

  /** The two SYN times are those of the last two SYNs. */
  lemma {:induction false} SynTimesAreTheLastTwo(r: Recogniser, hs: seq<Heard>, i: nat, j: nat)
    requires i < j < |hs| && hs[i].symbol == hs[j].symbol == SYN
    requires forall k :: i < k < |hs| && k != j ==> hs[k].symbol != SYN
    ensures ObserveAll(r, hs).synTime == hs[j].now && ObserveAll(r, hs).previousSynTime == hs[i].now
    decreases |hs|
  {
    var n := |hs| - 1;
    if j < n {
      SynTimesAreTheLastTwo(r, hs[..n], i, j);
    } else {
      SynTimeIsTheLast(r, hs[..n], i);
    }
  }

  lemma {:induction false} SynTimeIsTheLast(r: Recogniser, hs: seq<Heard>, j: nat)
    requires j < |hs| && hs[j].symbol == SYN && forall k :: j < k < |hs| ==> hs[k].symbol != SYN
    ensures ObserveAll(r, hs).synTime == hs[j].now
    decreases |hs|
  {
    var n := |hs| - 1;
    if j < n {
      SynTimeIsTheLast(r, hs[..n], j);
    }
  }

  class BusState {
    var state: Phase
    var previous: Phase
    var master: Byte
    var symbol: Byte
    var synTime: Word
    var previousSynTime: Word

    function Abs(): Recogniser
      reads this
    {
      Recogniser(state, previous, master, symbol, synTime, previousSynTime)
    }

    constructor ()
      ensures Abs() == RESET
    {
      state, previous := Startup, Startup;
      master, symbol := 0, 0;
      synTime, previousSynTime := 0, 0;
    }

    /** Records the time of a SYN and passes the next phase through; the code's
        `error` does the same after a log message. */
    method Syn(next: Phase, now: Word) returns (r: Phase)
      modifies this`synTime, this`previousSynTime
      ensures r == next && synTime == now && previousSynTime == old(synTime)
    {
      previousSynTime := synTime;
      synTime := now;
      r := next;
    }

    method Data(s: Byte, now: Word)
      modifies this
      ensures Abs() == Observe(old(Abs()), s, now)
    {
      match state {
        case Startup =>
          previous := state;
          if s == SYN { state := Syn(StartupFirstSyn, now); } else { state := Startup; }
        case StartupFirstSyn =>
          previous := state;
          if s == SYN { state := Syn(ReceivedFirstSyn, now); } else { state := StartupSymbolAfterFirstSyn; }
        case StartupSymbolAfterFirstSyn =>
          previous := state;
          if s == SYN { state := Syn(StartupSecondSyn, now); } else { state := Busy; }
        case StartupSecondSyn =>
          previous := state;
          if s == SYN { state := Syn(ReceivedFirstSyn, now); } else { state := Busy; }
        case ReceivedFirstSyn =>
          previous := state;
          if s == SYN { state := Syn(ReceivedFirstSyn, now); } else { state := ReceivedAddressAfterFirstSyn; }
          master := s;
        case ReceivedAddressAfterFirstSyn =>
          previous := state;
          if s == SYN { state := Syn(ReceivedSecondSyn, now); } else { state := Busy; }
        case ReceivedSecondSyn =>
          previous := state;
          if s == SYN { state := Syn(ReceivedFirstSyn, now); } else { state := ReceivedAddressAfterSecondSyn; }
          master := s;
        case ReceivedAddressAfterSecondSyn =>
          previous := state;
          if s == SYN { state := Syn(ReceivedFirstSyn, now); } else { state := Busy; }
        case Busy =>
          previous := state;
          if s == SYN { state := Syn(ReceivedFirstSyn, now); } else { state := Busy; }
      }
    }
  }
}
