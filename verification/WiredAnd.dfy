/** The medium: the bus is low as soon as one station pulls it low, so a slot
    carries the bitwise AND of everything written in it. */
module WiredAnd {
  import opened Words

  /** x without the bit of weight w, when that is the highest bit it may have. */
  function Rest(x: nat, w: nat): nat {
    if x >= w then x - w else x
  }

  /** Bitwise AND of two numbers below 2 * w, from the bit of weight w downwards. */
  function And(x: nat, y: nat, w: nat): (r: nat)
    ensures r <= x && r <= y
  {
    if w == 0 then 0
    else And(Rest(x, w), Rest(y, w), w / 2) + if x >= w && y >= w then w else 0
  }

  function Low(a: Byte): nat {
    a % 16
  }

  function High(a: Byte): nat {
    a / 16
  }

  /** Bitwise AND of two bytes: of their high nibbles and of their low nibbles. */
  function AndByte(a: Byte, b: Byte): Byte {
    16 * And(High(a), High(b), 8) + And(Low(a), Low(b), 8)
  }

  function AndAll(ws: seq<Byte>): Byte {
    if ws == [] then 0xFF else AndByte(ws[0], AndAll(ws[1..]))
  }

  /** The nibbles an eBUS master address is made of. */
  const MASTER_NIBBLES: set<nat> := {0x0, 0x1, 0x3, 0x7, 0xF}

  predicate ValidMaster(a: Byte) {
    High(a) in MASTER_NIBBLES && Low(a) in MASTER_NIBBLES
  }

  function Min(x: nat, y: nat): nat {
    if x <= y then x else y
  }

  // ----------------------------------------------------- AND of valid masters

  const WEIGHTS: set<nat> := {0, 1, 2, 4, 8}

  /** The bits of x, from weight w down, are zeros followed by ones. */
  predicate LowRun(x: nat, w: nat) {
    if w == 0 then x == 0
    else if x >= w then x == 2 * w - 1
    else LowRun(x, w / 2)
  }

  lemma MasterNibblesAreRuns(x: nat)
    ensures LowRun(x, 8) <==> x in MASTER_NIBBLES
  {
    assert LowRun(x, 1) <==> x in {0, 1};
    assert LowRun(x, 2) <==> x in {0, 1, 3};
    assert LowRun(x, 4) <==> x in {0, 1, 3, 7};
  }

  lemma RestOfRun(x: nat, w: nat)
    requires w in WEIGHTS && w > 0 && LowRun(x, w)
    ensures x <= 2 * w - 1 && LowRun(Rest(x, w), w / 2)
    ensures Rest(x, w) <= w - 1
  {
    if x < w && w > 1 {
      assert w / 2 in WEIGHTS;
    }
  }

  /** Nested bit patterns: AND is the minimum. */
  lemma {:induction false} AndOfRuns(x: nat, y: nat, w: nat)
    requires w in WEIGHTS && LowRun(x, w) && LowRun(y, w)
    ensures And(x, y, w) == Min(x, y)
    decreases w
  {
    if w != 0 {
      RestOfRun(x, w);
      RestOfRun(y, w);
      AndOfRuns(Rest(x, w), Rest(y, w), w / 2);
    }
  }

  lemma AndOfNibbles(x: nat, y: nat)
    requires x in MASTER_NIBBLES && y in MASTER_NIBBLES
    ensures And(x, y, 8) == Min(x, y)
  {
    MasterNibblesAreRuns(x);
    MasterNibblesAreRuns(y);
    AndOfRuns(x, y, 8);
  }

  lemma NibblesOf(a: Byte, h: nat, l: nat)
    requires l < 16
    ensures a == 16 * h + l <==> High(a) == h && Low(a) == l
  {
  }

  lemma AndOfTwoMasters(a: Byte, b: Byte)
    requires ValidMaster(a) && ValidMaster(b)
    ensures Low(AndByte(a, b)) == Min(Low(a), Low(b))
    ensures High(AndByte(a, b)) == Min(High(a), High(b))
  {
    AndOfNibbles(High(a), High(b));
    AndOfNibbles(Low(a), Low(b));
    NibblesOf(AndByte(a, b), Min(High(a), High(b)), Min(Low(a), Low(b)));
  }

  /** Nibble by nibble r is the least of ws, and somebody attains each nibble. */
  ghost predicate NibblewiseLeast(r: Byte, ws: seq<Byte>) {
    && (forall k :: 0 <= k < |ws| ==> Low(r) <= Low(ws[k]) && High(r) <= High(ws[k]))
    && (exists k :: 0 <= k < |ws| && Low(r) == Low(ws[k]))
    && (exists k :: 0 <= k < |ws| && High(r) == High(ws[k]))
  }

  ghost predicate AllMasters(ws: seq<Byte>) {
    forall k :: 0 <= k < |ws| ==> ValidMaster(ws[k])
  }

  lemma LeastIsMaster(r: Byte, ws: seq<Byte>)
    requires NibblewiseLeast(r, ws) && AllMasters(ws)
    ensures ValidMaster(r)
  {
  }

  lemma LeastGrows(a: Byte, r: Byte, s: Byte, ws: seq<Byte>)
    requires NibblewiseLeast(r, ws)
    requires Low(s) == Min(Low(a), Low(r)) && High(s) == Min(High(a), High(r))
    ensures NibblewiseLeast(s, [a] + ws)
  {
    var all := [a] + ws;
    assert all[0] == a;
    forall k | 0 <= k < |all|
      ensures Low(s) <= Low(all[k]) && High(s) <= High(all[k])
    {
      assert k > 0 ==> all[k] == ws[k - 1];
    }
    var l :| 0 <= l < |ws| && Low(r) == Low(ws[l]);
    var h :| 0 <= h < |ws| && High(r) == High(ws[h]);
    assert all[l + 1] == ws[l] && all[h + 1] == ws[h];
    assert Low(s) == Low(all[if Low(a) <= Low(r) then 0 else l + 1]);
    assert High(s) == High(all[if High(a) <= High(r) then 0 else h + 1]);
  }

  lemma LeastOfOne(a: Byte, s: Byte)
    requires Low(s) == Low(a) && High(s) == High(a)
    ensures NibblewiseLeast(s, [a])
  {
    assert [a][0] == a;
  }

  /** The AND of valid addresses is their nibblewise minimum. */
  lemma {:induction false} AndOfMasters(ws: seq<Byte>)
    requires ws != [] && AllMasters(ws)
    ensures NibblewiseLeast(AndAll(ws), ws)
    decreases |ws|
  {
    var a, rest := ws[0], ws[1..];
    assert ws == [a] + rest;
    if rest == [] {
      assert ValidMaster(0xFF) && Low(0xFF) == 15 && High(0xFF) == 15;
      AndOfTwoMasters(a, 0xFF);
      assert ValidMaster(a) && Low(a) <= 15 && High(a) <= 15;
      assert AndAll(rest) == 0xFF && AndAll(ws) == AndByte(a, 0xFF);
      LeastOfOne(a, AndAll(ws));
    } else {
      AndOfMasters(rest);
      LeastIsMaster(AndAll(rest), rest);
      AndOfTwoMasters(a, AndAll(rest));
      LeastGrows(a, AndAll(rest), AndAll(ws), rest);
    }
  }
}
