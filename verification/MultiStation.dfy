/** Several stations that all run the bridge code on one bus, starting their
    attempts on the same SYN. */
module MultiStation {
  import opened Words
  import opened Sequences
  import opened BusStates
  import opened Arbitrations
  import opened BusTypes
  import opened BridgeRuns
  import opened WiredAnd

  // ----------------------------------------------------------------- the bus

  /** In one slot every station receives the same symbol, each with its own clock
      readings and receive buffer. */
  ghost predicate Shared(ins: seq<Input>, n: nat, s: Byte) {
    |ins| == n && forall k :: 0 <= k < n ==> ins[k].symbol == s
  }

  function Advanced(sts: seq<Bridge>, ins: seq<Input>): seq<Bridge>
    requires |ins| == |sts|
  {
    seq(|sts|, k requires 0 <= k < |sts| => AfterSymbol(sts[k], ins[k]))
  }

  /** What one station writes in reaction to one symbol. */
  function Written(b: Bridge, i: Input): seq<Byte> {
    Verdict(b, i).writes + Attempted(b, i).writes
  }

  /** Everything written in one slot. */
  function Sent(sts: seq<Bridge>, ins: seq<Input>): seq<Byte>
    requires |ins| == |sts|
  {
    if sts == [] then [] else Written(sts[0], ins[0]) + Sent(sts[1..], ins[1..])
  }

  predicate Won(v: ArbState) {
    v in {Won1, Won2}
  }

  ghost predicate SomebodyWins(sts: seq<Bridge>, ins: seq<Input>)
    requires |ins| == |sts|
  {
    exists k :: 0 <= k < |sts| && Won(Verdict(sts[k], ins[k]).state)
  }

  /** What the next slot carries: the AND of what was written; if nothing was
      written, a symbol other than SYN from the station that holds the bus; and the
      SYN of an idle bus if nobody holds it. */
  ghost predicate Carries(written: seq<Byte>, held: bool, s: Byte) {
    if written != [] then s == AndAll(written)
    else if held then s != SYN
    else s == SYN
  }

  /** The stations hear the symbols of `wire`, one a slot, and each slot carries what
      the medium makes of the slot before. */
  ghost predicate OnTheBus(sts: seq<Bridge>, slots: seq<seq<Input>>, wire: seq<Byte>, written: seq<Byte>, held: bool)
    decreases |slots|
  {
    && |wire| == |slots|
    && (slots != [] ==>
        && Shared(slots[0], |sts|, wire[0])
        && Carries(written, held, wire[0])
        && OnTheBus(Advanced(sts, slots[0]), slots[1..], wire[1..],
                    Sent(sts, slots[0]), held || SomebodyWins(sts, slots[0])))
  }

  predicate Rectangular(slots: seq<seq<Input>>, n: nat) {
    forall j :: 0 <= j < |slots| ==> |slots[j]| == n
  }

  /** The first verdict of station k other than "still arbitrating". */
  ghost function Fate(sts: seq<Bridge>, slots: seq<seq<Input>>, k: nat): ArbState
    requires k < |sts| && Rectangular(slots, |sts|)
    decreases |slots|
  {
    if slots == [] then Arbitrating
    else
      var v := Verdict(sts[k], slots[0][k]).state;
      if v != Arbitrating then v else Fate(Advanced(sts, slots[0]), slots[1..], k)
  }

  /** Every station starts its attempt on this SYN. */
  ghost predicate AllStart(sts: seq<Bridge>, ins: seq<Input>) {
    && Shared(ins, |sts|, SYN)
    && (forall k :: 0 <= k < |sts| ==> Attempted(sts[k], ins[k]).result == Started)
    && (forall k :: 0 <= k < |sts| ==> Verdict(sts[k], ins[k]).arb.restartCount >= 0)
  }

  function Addresses(sts: seq<Bridge>): seq<Byte> {
    seq(|sts|, k requires 0 <= k < |sts| => sts[k].reservation.address)
  }

  /** Order of priority: first the low nibble, then the high one. */
  predicate Precedes(a: Byte, b: Byte) {
    Low(a) < Low(b) || (Low(a) == Low(b) && High(a) < High(b))
  }

  // --------------------------------------------------------- a single station

  /** A station that is through with the attempt keeps quiet. */
  predicate Through(b: Bridge) {
    !b.arb.arbitrating && b.reservation.client < 0
  }

  lemma FinalIsThrough(b: Bridge, i: Input)
    requires Final(Verdict(b, i).state)
    ensures Through(AfterSymbol(b, i)) && Written(b, i) == []
  {
  }

  lemma StartListens(b: Bridge, i: Input)
    requires Attempted(b, i).result == Started && Verdict(b, i).arb.restartCount >= 0
    ensures Listening(AfterSymbol(b, i), b.reservation.address, [])
    ensures AfterSymbol(b, i).arb.restartCount >= 0
    ensures Written(b, i) == [b.reservation.address]
  {
    StartOpens(b, i, Verdict(b, i).arb.restartCount);
    assert Verdict(b, i).writes == [];
  }

  /** One slot of a station in the middle of its attempt. */
  lemma StationSlot(b: Bridge, address: Byte, heard: seq<Byte>, i: Input)
    requires Listening(b, address, heard) && b.arb.restartCount >= 0
    ensures var v := Verdict(b, i).state;
      && v == Ruling(Judge(address, heard + [i.symbol]), b.arb.restartCount)
      && (v == Arbitrating ==>
          && Listening(AfterSymbol(b, i), address, heard + [i.symbol])
          && AfterSymbol(b, i).arb.restartCount == b.arb.restartCount
          && Written(b, i) == if |heard| == 1 && SameClass(heard[0], address) && !i.pending then [address] else [])
      && (Final(v) ==> Through(AfterSymbol(b, i)) && Written(b, i) == [])
  {
    VerdictIsRuling(b, address, heard, i);
    WritesOfVerdict(b, address, heard, i);
    JudgeNext(address, heard, i.symbol);
    StartShape(b, i);
    if Verdict(b, i).state == Arbitrating {
      ListeningGoesOn(b, address, heard, i);
    } else if Final(Verdict(b, i).state) {
      FinalIsThrough(b, i);
    }
  }

  /** A judgement stands whatever is heard afterwards. */
  lemma JudgementStands(address: Byte, heard: seq<Byte>, rest: seq<Byte>)
    requires Judge(address, heard) != Undecided
    ensures Judge(address, heard + rest) == Judge(address, heard)
  {
    assert forall k :: 0 <= k < |heard| ==> (heard + rest)[k] == heard[k];
  }

  /** The fate of a station is the judgement on the symbols it hears. */
  lemma {:induction false} FateIsJudged(sts: seq<Bridge>, slots: seq<seq<Input>>, wire: seq<Byte>, k: nat,
      address: Byte, heard: seq<Byte>)
    requires k < |sts| && |wire| == |slots| && Rectangular(slots, |sts|)
    requires forall j :: 0 <= j < |slots| ==> slots[j][k].symbol == wire[j]
    requires Listening(sts[k], address, heard) && sts[k].arb.restartCount >= 0
    ensures Fate(sts, slots, k) == Ruling(Judge(address, heard + wire), sts[k].arb.restartCount)
    decreases |slots|
  {
    if slots == [] {
      assert heard + wire == heard;
    } else {
      var s := wire[0];
      assert heard + wire == (heard + [s]) + wire[1..];
      StationSlot(sts[k], address, heard, slots[0][k]);
      if Judge(address, heard + [s]) == Undecided {
        FateIsJudged(Advanced(sts, slots[0]), slots[1..], wire[1..], k, address, heard + [s]);
      } else {
        JudgementStands(address, heard + [s], wire[1..]);
      }
    }
  }

  // ------------------------------------------------------------ all stations

  ghost predicate AllListening(sts: seq<Bridge>, addresses: seq<Byte>, heard: seq<Byte>) {
    && |sts| == |addresses|
    && forall k :: 0 <= k < |sts| ==> Listening(sts[k], addresses[k], heard) && sts[k].arb.restartCount >= 0
  }

  /** Station w is through and the others are still listening. */
  ghost predicate OneThrough(sts: seq<Bridge>, addresses: seq<Byte>, heard: seq<Byte>, w: nat) {
    && |sts| == |addresses|
    && w < |sts| && Through(sts[w])
    && forall k :: 0 <= k < |sts| && k != w ==> Listening(sts[k], addresses[k], heard) && sts[k].arb.restartCount >= 0
  }

  lemma {:induction false} SentNothing(sts: seq<Bridge>, ins: seq<Input>)
    requires |ins| == |sts| && forall k :: 0 <= k < |sts| ==> Written(sts[k], ins[k]) == []
    ensures Sent(sts, ins) == []
    decreases |sts|
  {
    if sts != [] {
      SentNothing(sts[1..], ins[1..]);
    }
  }

  /** The addresses of the class of c, in order. */
  function OfClass(addresses: seq<Byte>, c: Byte): seq<Byte> {
    if addresses == [] then []
    else (if SameClass(c, addresses[0]) then [addresses[0]] else []) + OfClass(addresses[1..], c)
  }

  lemma {:induction false} OfClassMembers(addresses: seq<Byte>, c: Byte, x: Byte)
    ensures x in OfClass(addresses, c) <==> x in addresses && SameClass(c, x)
  {
    if addresses != [] {
      OfClassMembers(addresses[1..], c, x);
      assert addresses == [addresses[0]] + addresses[1..];
    }
  }

  lemma {:induction false} SentByClass(sts: seq<Bridge>, ins: seq<Input>, addresses: seq<Byte>, c: Byte)
    requires |ins| == |sts| == |addresses|
    requires forall k :: 0 <= k < |sts| ==>
      Written(sts[k], ins[k]) == if SameClass(c, addresses[k]) then [addresses[k]] else []
    ensures Sent(sts, ins) == OfClass(addresses, c)
    decreases |sts|
  {
    if sts != [] {
      SentByClass(sts[1..], ins[1..], addresses[1..], c);
    }
  }

  lemma {:induction false} SentByAll(sts: seq<Bridge>, ins: seq<Input>, addresses: seq<Byte>)
    requires |ins| == |sts| == |addresses|
    requires forall k :: 0 <= k < |sts| ==> Written(sts[k], ins[k]) == [addresses[k]]
    ensures Sent(sts, ins) == addresses
    decreases |sts|
  {
    if sts != [] {
      SentByAll(sts[1..], ins[1..], addresses[1..]);
      assert addresses == [addresses[0]] + addresses[1..];
    }
  }

  lemma AllStartListening(sts: seq<Bridge>, ins: seq<Input>)
    requires AllStart(sts, ins)
    ensures AllListening(Advanced(sts, ins), Addresses(sts), [])
    ensures Sent(sts, ins) == Addresses(sts)
  {
    var A := Addresses(sts);
    forall k | 0 <= k < |sts|
      ensures Listening(Advanced(sts, ins)[k], A[k], []) && Advanced(sts, ins)[k].arb.restartCount >= 0
      ensures Written(sts[k], ins[k]) == [A[k]]
    {
      StartListens(sts[k], ins[k]);
    }
    SentByAll(sts, ins, A);
  }

  /** A slot that decides nothing for anybody. */
  lemma UndecidedSlot(sts: seq<Bridge>, ins: seq<Input>, A: seq<Byte>, heard: seq<Byte>, s: Byte)
    requires AllListening(sts, A, heard) && Shared(ins, |sts|, s)
    requires forall k :: 0 <= k < |A| ==> Judge(A[k], heard + [s]) == Undecided
    ensures AllListening(Advanced(sts, ins), A, heard + [s])
    ensures !SomebodyWins(sts, ins)
    ensures |heard| != 1 ==> Sent(sts, ins) == []
    ensures |heard| == 1 && (forall k :: 0 <= k < |ins| ==> !ins[k].pending) ==> Sent(sts, ins) == OfClass(A, heard[0])
  {
    forall k | 0 <= k < |sts|
      ensures Verdict(sts[k], ins[k]).state == Arbitrating
      ensures Listening(Advanced(sts, ins)[k], A[k], heard + [s]) && Advanced(sts, ins)[k].arb.restartCount >= 0
      ensures Written(sts[k], ins[k]) ==
        if |heard| == 1 && SameClass(heard[0], A[k]) && !ins[k].pending then [A[k]] else []
    {
      assert Judge(A[k], heard + [s]) == Undecided;
      StationSlot(sts[k], A[k], heard, ins[k]);
    }
    if |heard| != 1 {
      SentNothing(sts, ins);
    } else if forall k :: 0 <= k < |ins| ==> !ins[k].pending {
      SentByClass(sts, ins, A, heard[0]);
    }
  }

  /** A slot that station w wins while the others learn nothing yet. */
  lemma WinningSlot(sts: seq<Bridge>, ins: seq<Input>, A: seq<Byte>, heard: seq<Byte>, s: Byte, w: nat)
    requires AllListening(sts, A, heard) && Shared(ins, |sts|, s) && w < |sts| && |heard| != 1
    requires Judge(A[w], heard + [s]).WonRound?
    requires forall k :: 0 <= k < |A| && k != w ==> Judge(A[k], heard + [s]) == Undecided
    ensures OneThrough(Advanced(sts, ins), A, heard + [s], w)
    ensures SomebodyWins(sts, ins)
    ensures Sent(sts, ins) == []
  {
    forall k | 0 <= k < |sts|
      ensures Written(sts[k], ins[k]) == []
      ensures k == w ==> Won(Verdict(sts[k], ins[k]).state) && Through(Advanced(sts, ins)[k])
      ensures k != w ==>
        Listening(Advanced(sts, ins)[k], A[k], heard + [s]) && Advanced(sts, ins)[k].arb.restartCount >= 0
    {
      StationSlot(sts[k], A[k], heard, ins[k]);
    }
    SentNothing(sts, ins);
  }

  // ----------------------------------------------------------------- theorems

  lemma {:induction false} BusIsRectangular(sts: seq<Bridge>, slots: seq<seq<Input>>, wire: seq<Byte>,
      written: seq<Byte>, held: bool)
    requires OnTheBus(sts, slots, wire, written, held)
    ensures Rectangular(slots, |sts|)
    ensures forall j, k :: 0 <= j < |slots| && 0 <= k < |sts| ==> slots[j][k].symbol == wire[j]
    decreases |slots|
  {
    if slots != [] {
      BusIsRectangular(Advanced(sts, slots[0]), slots[1..], wire[1..],
                       Sent(sts, slots[0]), held || SomebodyWins(sts, slots[0]));
      assert forall j :: 0 < j < |slots| ==> slots[j] == slots[1..][j - 1] && wire[j] == wire[1..][j - 1];
    }
  }

  /** After a won round the next symbol is not a SYN. */
  lemma HeldBusCarriesData(sts: seq<Bridge>, slots: seq<seq<Input>>, wire: seq<Byte>, written: seq<Byte>, held: bool)
    requires OnTheBus(sts, slots, wire, written, held) && |slots| >= 2
    requires SomebodyWins(sts, slots[0]) && Sent(sts, slots[0]) == []
    ensures wire[1] != SYN
  {
    assert wire[1] == wire[1..][0];
  }

  lemma BusGoesOn(sts: seq<Bridge>, slots: seq<seq<Input>>, wire: seq<Byte>, written: seq<Byte>, held: bool)
    requires OnTheBus(sts, slots, wire, written, held) && slots != []
    ensures Shared(slots[0], |sts|, wire[0]) && Carries(written, held, wire[0])
    ensures OnTheBus(Advanced(sts, slots[0]), slots[1..], wire[1..],
                     Sent(sts, slots[0]), held || SomebodyWins(sts, slots[0]))
  {
  }

  /** The stations' receive buffers are empty when the second round is due. */
  predicate QuietSecondRound(slots: seq<seq<Input>>) {
    |slots| >= 2 && forall k :: 0 <= k < |slots[1]| ==> !slots[1][k].pending
  }

  lemma MastersAvoidSyn(a: Byte)
    requires ValidMaster(a)
    ensures a != SYN
  {
    assert High(SYN) == 10;
  }

  lemma SameAddressSameNibbles(a: Byte, b: Byte)
    ensures a == b <==> High(a) == High(b) && Low(a) == Low(b)
    ensures SameClass(a, b) <==> Low(a) == Low(b)
  {
    NibblesOf(a, High(b), Low(b));
  }

  /** If the AND of the first round is somebody's address, the symbols on the bus are
      that address and then something else than SYN. */
  lemma DecidedInFirstRound(sts: seq<Bridge>, slots: seq<seq<Input>>, wire: seq<Byte>, A: seq<Byte>, w: nat)
    requires AllListening(sts, A, []) && OnTheBus(sts, slots, wire, A, false) && |slots| >= 2
    requires Distinct(A) && w < |A| && A[w] == AndAll(A)
    ensures wire[0] == A[w] && wire[1] != SYN
  {
    BusGoesOn(sts, slots, wire, A, false);
    assert Listening(sts[w], A[w], []);
    assert [] + [wire[0]] == [wire[0]];
    WinningSlot(sts, slots[0], A, [], wire[0], w);
    HeldBusCarriesData(sts, slots, wire, A, false);
  }

  /** If it is nobody's, a SYN follows and then the AND of the addresses of the
      class that won the first round. */
  lemma GoesToSecondRound(sts: seq<Bridge>, slots: seq<seq<Input>>, wire: seq<Byte>, A: seq<Byte>)
    requires AllListening(sts, A, []) && OnTheBus(sts, slots, wire, A, false) && |slots| >= 3 && A != []
    requires QuietSecondRound(slots)
    requires AndAll(A) != SYN && AndAll(A) !in A
    ensures wire[0] == AndAll(A) && wire[1] == SYN
    ensures |slots[0]| == |slots[1]| == |sts|
    ensures var sts2, slots2, wire2 := Advanced(Advanced(sts, slots[0]), slots[1]), slots[2..], wire[2..];
      && AllListening(sts2, A, [wire[0], SYN])
      && OnTheBus(sts2, slots2, wire2, OfClass(A, wire[0]), false)
  {
    BusIsRectangular(sts, slots, wire, A, false);
    UndecidedFirstRound(sts, slots, wire, A);
    SecondSyn(Advanced(sts, slots[0]), slots[1..], wire[1..], A, wire[0]);
    assert slots[1..][1..] == slots[2..] && wire[1..][1..] == wire[2..];
  }

  lemma UndecidedFirstRound(sts: seq<Bridge>, slots: seq<seq<Input>>, wire: seq<Byte>, A: seq<Byte>)
    requires AllListening(sts, A, []) && OnTheBus(sts, slots, wire, A, false) && |slots| >= 2 && A != []
    requires AndAll(A) != SYN && AndAll(A) !in A
    ensures wire[0] == AndAll(A) && |slots[0]| == |sts|
    ensures AllListening(Advanced(sts, slots[0]), A, [wire[0]])
    ensures OnTheBus(Advanced(sts, slots[0]), slots[1..], wire[1..], [], false)
  {
    BusGoesOn(sts, slots, wire, A, false);
    assert forall k :: 0 <= k < |A| ==> Judge(A[k], [wire[0]]) == Undecided;
    assert [] + [wire[0]] == [wire[0]];
    UndecidedSlot(sts, slots[0], A, [], wire[0]);
  }

  lemma SynDecidesNothing(address: Byte, c: Byte)
    requires Judge(address, [c]) == Undecided
    ensures Judge(address, [c] + [SYN]) == Undecided
  {
  }

  lemma SynDecidesNowhere(sts: seq<Bridge>, A: seq<Byte>, c: Byte)
    requires AllListening(sts, A, [c])
    ensures forall k :: 0 <= k < |A| ==> Judge(A[k], [c] + [SYN]) == Undecided
  {
    forall k | 0 <= k < |A|
      ensures Judge(A[k], [c] + [SYN]) == Undecided
    {
      assert Listening(sts[k], A[k], [c]);
      SynDecidesNothing(A[k], c);
    }
  }

  lemma SecondSyn(sts: seq<Bridge>, slots: seq<seq<Input>>, wire: seq<Byte>, A: seq<Byte>, c: Byte)
    requires AllListening(sts, A, [c]) && OnTheBus(sts, slots, wire, [], false) && |slots| >= 2 && A != []
    requires forall k :: 0 <= k < |slots[0]| ==> !slots[0][k].pending
    ensures wire[0] == SYN && |slots[0]| == |sts|
    ensures AllListening(Advanced(sts, slots[0]), A, [c, SYN])
    ensures OnTheBus(Advanced(sts, slots[0]), slots[1..], wire[1..], OfClass(A, c), false)
  {
    BusGoesOn(sts, slots, wire, [], false);
    SynDecidesNowhere(sts, A, c);
    UndecidedSlot(sts, slots[0], A, [c], SYN);
    assert [c] + [SYN] == [c, SYN];
  }

  /** The second round is won by whoever's address its AND is. */
  lemma DecidedInSecondRound(sts: seq<Bridge>, slots: seq<seq<Input>>, wire: seq<Byte>, A: seq<Byte>, c: Byte, w: nat)
    requires AllListening(sts, A, [c, SYN]) && |slots| >= 2
    requires OfClass(A, c) != [] && OnTheBus(sts, slots, wire, OfClass(A, c), false)
    requires Distinct(A) && w < |A| && A[w] == AndAll(OfClass(A, c)) != SYN
    ensures wire[0] == A[w] && wire[1] != SYN
  {
    BusGoesOn(sts, slots, wire, OfClass(A, c), false);
    assert Listening(sts[w], A[w], [c, SYN]);
    assert [c, SYN] + [wire[0]] == [c, SYN, wire[0]];
    forall k | 0 <= k < |A|
      ensures Judge(A[k], [c, SYN, wire[0]]) == if k == w then WonRound(true) else Undecided
    {
      assert Listening(sts[k], A[k], [c, SYN]);
      assert Judge(A[k], [c, SYN]) == Undecided;
    }
    WinningSlot(sts, slots[0], A, [c, SYN], wire[0], w);
    HeldBusCarriesData(sts, slots, wire, OfClass(A, c), false);
  }

  /** Who the AND of the addresses lets win: the owner of the AND itself, or of the
      AND within its class. Either is the least address by class and then rank. */
  lemma WinnerOf(A: seq<Byte>) returns (w: nat)
    requires A != [] && AllMasters(A) && Distinct(A)
    ensures w < |A| && forall k :: 0 <= k < |A| && k != w ==> Precedes(A[w], A[k])
    ensures AndAll(A) != SYN
    ensures A[w] != SYN
    ensures AndAll(A) in A ==> A[w] == AndAll(A)
    ensures AndAll(A) !in A ==> OfClass(A, AndAll(A)) != [] && A[w] == AndAll(OfClass(A, AndAll(A)))
  {
    var c := AndAll(A);
    AndOfMasters(A);
    LeastIsMaster(c, A);
    MastersAvoidSyn(c);
    var C := OfClass(A, c);
    var l :| 0 <= l < |A| && Low(c) == Low(A[l]);
    SameAddressSameNibbles(c, A[l]);
    OfClassMembers(A, c, A[l]);
    ClassIsMasters(A, c);
    AndOfMasters(C);
    var m := LeastOfClass(A, c);
    assert A[m] == AndAll(C);
    w := m;
    forall k | 0 <= k < |A| && k != w
      ensures Precedes(A[w], A[k])
    {
      assert Low(c) <= Low(A[k]);
      if Low(A[k]) == Low(c) {
        SameAddressSameNibbles(c, A[k]);
        OfClassMembers(A, c, A[k]);
        var j :| 0 <= j < |C| && C[j] == A[k];
        assert High(A[w]) <= High(C[j]);
        SameAddressSameNibbles(A[w], A[k]);
        assert A[w] != A[k];
      }
    }
    MastersAvoidSyn(A[w]);
    if c in A {
      OfClassMembers(A, c, c);
      var j :| 0 <= j < |C| && C[j] == c;
      assert High(A[w]) <= High(C[j]);
      SameAddressSameNibbles(c, A[w]);
    }
  }

  lemma ClassIsMasters(A: seq<Byte>, c: Byte)
    requires AllMasters(A)
    ensures AllMasters(OfClass(A, c))
  {
    forall k | 0 <= k < |OfClass(A, c)|
      ensures ValidMaster(OfClass(A, c)[k])
    {
      OfClassMembers(A, c, OfClass(A, c)[k]);
    }
  }

  /** The AND within a class is the address of its member of the highest rank. */
  lemma LeastOfClass(A: seq<Byte>, c: Byte) returns (m: nat)
    requires OfClass(A, c) != [] && NibblewiseLeast(AndAll(OfClass(A, c)), OfClass(A, c))
    ensures m < |A| && A[m] == AndAll(OfClass(A, c)) && SameClass(c, A[m])
  {
    var C := OfClass(A, c);
    var r := AndAll(C);
    var h :| 0 <= h < |C| && High(r) == High(C[h]);
    var l :| 0 <= l < |C| && Low(r) == Low(C[l]);
    OfClassMembers(A, c, C[h]);
    OfClassMembers(A, c, C[l]);
    SameAddressSameNibbles(c, C[h]);
    SameAddressSameNibbles(c, C[l]);
    SameAddressSameNibbles(r, C[h]);
    m :| 0 <= m < |A| && A[m] == C[h];
  }

  /** What the bus carries during the four slots after the common SYN. */
  lemma WireOfElection(sts: seq<Bridge>, slots: seq<seq<Input>>, wire: seq<Byte>, A: seq<Byte>) returns (w: nat)
    requires AllListening(sts, A, []) && OnTheBus(sts, slots, wire, A, false) && |slots| == 4
    requires A != [] && AllMasters(A) && Distinct(A) && QuietSecondRound(slots)
    ensures w < |A| && forall k :: 0 <= k < |A| && k != w ==> Precedes(A[w], A[k])
    ensures A[w] != SYN && wire[0] != SYN
    ensures || (wire[0] == A[w] && wire[1] != SYN)
            || (wire[0] !in A && wire[1] == SYN && wire[2] == A[w] && wire[3] != SYN)
  {
    w := WinnerOf(A);
    if AndAll(A) in A {
      DecidedInFirstRound(sts, slots, wire, A, w);
    } else {
      GoesToSecondRound(sts, slots, wire, A);
      var sts2 := Advanced(Advanced(sts, slots[0]), slots[1]);
      DecidedInSecondRound(sts2, slots[2..], wire[2..], A, wire[0], w);
      assert wire[3] == wire[2..][1];
    }
  }

  predicate Lost(v: ArbState) {
    v in {Lost1, Lost2}
  }

  /** Station k's fate after the common start is the judgement on the wire. */
  lemma FateAfterStart(sts: seq<Bridge>, start: seq<Input>, slots: seq<seq<Input>>, wire: seq<Byte>, k: nat)
    requires AllStart(sts, start) && k < |sts|
    requires OnTheBus(Advanced(sts, start), slots, wire, Sent(sts, start), false)
    ensures Rectangular(slots, |sts|)
    ensures Won(Fate(Advanced(sts, start), slots, k)) <==> Judge(Addresses(sts)[k], wire).WonRound?
    ensures Lost(Fate(Advanced(sts, start), slots, k)) <==> Judge(Addresses(sts)[k], wire).LostTo?
  {
    var A, now := Addresses(sts), Advanced(sts, start);
    AllStartListening(sts, start);
    BusIsRectangular(now, slots, wire, Sent(sts, start), false);
    assert Listening(now[k], A[k], []);
    assert [] + wire == wire;
    FateIsJudged(now, slots, wire, k, A[k], []);
    RulingKinds(Judge(A[k], wire), now[k].arb.restartCount);
  }

  lemma RulingKinds(j: Judgement, spent: int)
    ensures Won(Ruling(j, spent)) <==> j.WonRound?
    ensures Lost(Ruling(j, spent)) <==> j.LostTo?
  {
  }

  /** The election. Any number of stations with distinct valid master addresses that
      start on the same SYN elect, within four symbols, exactly the one whose address
      is least by low nibble and then by high nibble; all others are told they lost. */
  lemma OneStationWins(sts: seq<Bridge>, start: seq<Input>, slots: seq<seq<Input>>, wire: seq<Byte>) returns (w: nat)
    requires sts != [] && AllStart(sts, start)
    requires AllMasters(Addresses(sts)) && Distinct(Addresses(sts))
    requires |slots| == 4 && QuietSecondRound(slots)
    requires OnTheBus(Advanced(sts, start), slots, wire, Sent(sts, start), false)
    ensures Rectangular(slots, |sts|) && w < |sts|
    ensures forall k :: 0 <= k < |sts| && k != w ==> Precedes(Addresses(sts)[w], Addresses(sts)[k])
    ensures Won(Fate(Advanced(sts, start), slots, w))
    ensures forall k :: 0 <= k < |sts| && k != w ==> Lost(Fate(Advanced(sts, start), slots, k))
  {
    var A := Addresses(sts);
    AllStartListening(sts, start);
    w := WireOfElection(Advanced(sts, start), slots, wire, A);
    forall k | 0 <= k < |sts|
      ensures Rectangular(slots, |sts|)
      ensures if k == w then Won(Fate(Advanced(sts, start), slots, k)) else Lost(Fate(Advanced(sts, start), slots, k))
    {
      FateAfterStart(sts, start, slots, wire, k);
      assert k != w ==> A[k] != A[w];
    }
    FateAfterStart(sts, start, slots, wire, w);
  }

  /** Two stations that hear the same symbols both take themselves for the winner
      exactly if one address wins the first round, a SYN follows, and then the other
      address is heard. */
  lemma TwoWinnersExactlyWhen(a: Byte, b: Byte, wire: seq<Byte>)
    requires a != b && a != SYN && b != SYN
    ensures Judge(a, wire).WonRound? && Judge(b, wire).WonRound?
       <==> |wire| >= 3 && wire[1] == SYN && ((wire[0] == a && wire[2] == b) || (wire[0] == b && wire[2] == a))
  {
  }

  /** After a first round that carries some station's address, no SYN follows. */
  lemma FirstRoundWinnerTalks(sts: seq<Bridge>, slots: seq<seq<Input>>, wire: seq<Byte>, A: seq<Byte>, m: nat)
    requires AllListening(sts, A, []) && OnTheBus(sts, slots, wire, A, false)
    requires Distinct(A) && m < |A| && |wire| >= 2 && wire[0] == A[m]
    ensures wire[1] != SYN
  {
    BusGoesOn(sts, slots, wire, A, false);
    assert Listening(sts[m], A[m], []);
    assert [] + [wire[0]] == [wire[0]];
    WinningSlot(sts, slots[0], A, [], wire[0], m);
    HeldBusCarriesData(sts, slots, wire, A, false);
  }

  /** For distinct addresses of any kind the medium rules that out: at most one
      station wins. */
  lemma AtMostOneWins(sts: seq<Bridge>, start: seq<Input>, slots: seq<seq<Input>>, wire: seq<Byte>, j: nat, k: nat)
    requires AllStart(sts, start) && Distinct(Addresses(sts)) && j < k < |sts|
    requires OnTheBus(Advanced(sts, start), slots, wire, Sent(sts, start), false)
    ensures Rectangular(slots, |sts|)
    ensures !(Won(Fate(Advanced(sts, start), slots, j)) && Won(Fate(Advanced(sts, start), slots, k)))
  {
    var A := Addresses(sts);
    AllStartListening(sts, start);
    FateAfterStart(sts, start, slots, wire, j);
    FateAfterStart(sts, start, slots, wire, k);
    assert Listening(Advanced(sts, start)[j], A[j], []) && Listening(Advanced(sts, start)[k], A[k], []);
    TwoWinnersExactlyWhen(A[j], A[k], wire);
    if |wire| >= 2 && wire[0] == A[j] {
      FirstRoundWinnerTalks(Advanced(sts, start), slots, wire, A, j);
    } else if |wire| >= 2 && wire[0] == A[k] {
      FirstRoundWinnerTalks(Advanced(sts, start), slots, wire, A, k);
    }
  }

  function Hear(n: nat, s: Byte): seq<Input> {
    seq(n, _ => Input(s, 0, 0, 0, false))
  }

  /** The medium always has a next symbol: from any stations and any writes a quiet bus
      of any length follows, so the assumptions about it can be met after every start. */
  lemma {:induction false} TheBusGoesOn(sts: seq<Bridge>, written: seq<Byte>, held: bool, n: nat)
    returns (slots: seq<seq<Input>>, wire: seq<Byte>)
    ensures |slots| == n && OnTheBus(sts, slots, wire, written, held)
    ensures n >= 2 ==> QuietSecondRound(slots)
    ensures forall j :: 0 <= j < n ==> slots[j] == Hear(|sts|, wire[j])
    decreases n
  {
    slots, wire := [], [];
    if n > 0 {
      var s := if written != [] then AndAll(written) else if held then 0 else SYN;
      var ins := Hear(|sts|, s);
      var laterSlots, laterWire :=
        TheBusGoesOn(Advanced(sts, ins), Sent(sts, ins), held || SomebodyWins(sts, ins), n - 1);
      slots, wire := [ins] + laterSlots, [s] + laterWire;
      assert slots[1..] == laterSlots && wire[1..] == laterWire;
    }
  }
}
