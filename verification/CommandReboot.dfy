/** The commands across a restart of the device: the saved file is loaded into an empty
    store over an empty pool, and there is room for every name in it. */
module CommandReboots {
  import opened Sequences
  import opened StringPools
  import opened CommandStores
  import opened CommandFiles
  import opened CommandRuns
  import opened CommandRestores

  /** What texts take up in the buffer, each with its zero. */
  function Total(ts: seq<Text>): nat
    decreases |ts|
  {
    if ts == [] then 0 else Total(ts[..|ts| - 1]) + |ts[|ts| - 1]| + 1
  }

  lemma TotalOfMore(ts: seq<Text>, t: Text)
    ensures Total(ts + [t]) == Total(ts) + |t| + 1
  {
    assert (ts + [t])[..|ts|] == ts;
  }

  lemma {:induction false} TotalOfConcat(a: seq<Text>, b: seq<Text>)
    ensures Total(a + b) == Total(a) + Total(b)
    decreases |b|
  {
    if b == [] {
      EmptyIsNeutral(a);
    } else {
      SplitLast(a, b);
      TotalOfConcat(a, b[..|b| - 1]);
      TotalOfMore(a + b[..|b| - 1], b[|b| - 1]);
    }
  }

  lemma TotalWithout(ts: seq<Text>, k: nat)
    requires k < |ts|
    ensures Total(ts) == Total(ts[..k] + ts[k + 1..]) + |ts[k]| + 1
  {
    CutOpen(ts, k);
    TotalOfConcat(ts[..k] + [ts[k]], ts[k + 1..]);
    TotalOfMore(ts[..k], ts[k]);
    TotalOfConcat(ts[..k], ts[k + 1..]);
  }

  lemma OthersRemain(ts: seq<Text>, k: nat, x: Text)
    requires k < |ts| && x in ts && x != ts[k]
    ensures x in ts[..k] + ts[k + 1..]
  {
    var j :| 0 <= j < |ts| && ts[j] == x;
    if j < k {
      assert ts[..k][j] == x;
    } else {
      assert ts[k + 1..][j - k - 1] == x;
    }
  }

  lemma FrontIsDistinct(ts: seq<Text>)
    requires ts != [] && Distinct(ts)
    ensures Distinct(ts[..|ts| - 1]) && ts[|ts| - 1] !in ts[..|ts| - 1]
  {
    EmptyIsNeutral(ts);
    SplitLast([], ts);
    DistinctGrows(ts[..|ts| - 1], ts[|ts| - 1]);
  }

  /** Different texts from a list are no more and take up no more than the list. */
  lemma {:induction false} PartIsSmaller(part: seq<Text>, all: seq<Text>)
    requires Distinct(part) && forall t :: t in part ==> t in all
    ensures |part| <= |all| && Total(part) <= Total(all)
    decreases |part|
  {
    if part != [] {
      var before, x := part[..|part| - 1], part[|part| - 1];
      assert x in part;
      var k :| 0 <= k < |all| && all[k] == x;
      FrontIsDistinct(part);
      forall t | t in before
        ensures t in all[..k] + all[k + 1..]
      {
        assert t in part;
        OthersRemain(all, k, t);
      }
      PartIsSmaller(before, all[..k] + all[k + 1..]);
      TotalWithout(all, k);
    }
  }

  // ----------------------------------------------------------- the saved pool

  /** The texts are all in the used part of the buffer, one behind the other. */
  predicate Roomy(p: Pool)
    requires Inside(p)
  {
    Total(Texts(p)) <= |p.used|
  }

  lemma OutcomeTotal(ts: seq<Text>, s: Text, fits: bool, after: seq<Text>, id: nat)
    requires Outcome(ts, s, fits, after, id)
    ensures Total(after) <= Total(ts) + if s != [] && s !in ts && fits then |s| + 1 else 0
  {
    TotalOfMore(ts, Stored(s));
  }

  lemma UsedGrows(p: Pool, s: Text)
    requires Inside(p)
    ensures |NewPool(p, s).used| == |p.used| + if s != [] && s !in Texts(p) && Fits(p, s) then |s| + 1 else 0
  {
    SearchFinds(p, s);
  }

  lemma StaysRoomy(p: Pool, s: Text)
    requires Inside(p) && Roomy(p)
    ensures Roomy(NewPool(p, s))
  {
    InternedTexts(p, s);
    OutcomeTotal(Texts(p), s, Fits(p, s), Texts(NewPool(p, s)), NewId(p, s));
    UsedGrows(p, s);
  }

  lemma {:induction false} NamesStayRoomy(p: Pool, names: seq<Text>)
    requires Inside(p) && Roomy(p)
    ensures Roomy(PoolAfter(p, names))
    decreases |names|
  {
    if names != [] {
      StaysRoomy(p, names[0]);
      NamesStayRoomy(NewPool(p, names[0]), names[1..]);
    }
  }

  lemma OperationStaysRoomy(y: System, op: Op)
    requires Sound(y) && Allowed(y, op) && Roomy(y.pool)
    ensures Roomy(Done(y, op).pool)
  {
    match op {
      case Intern(text) => StaysRoomy(y.pool, text);
      case Load(t, row) =>
        LoadingIsSound(t, y, row);
        NamesStayRoomy(y.pool, RowNames(row));
      case _ =>
    }
  }

  lemma {:induction false} EveryPoolIsRoomy(ops: seq<Op>)
    requires AllAllowed(ops)
    ensures Roomy(StoreAfter(ops).pool)
  {
    if ops != [] {
      EveryPoolIsRoomy(ops[..|ops| - 1]);
      EveryStoreIsSound(ops[..|ops| - 1]);
      OperationStaysRoomy(StoreAfter(ops[..|ops| - 1]), ops[|ops| - 1]);
    }
  }

  // ------------------------------------------------------------- the new pool

  /** A pool that has been given nothing but some of these texts. */
  predicate FilledFrom(p: Pool, all: seq<Text>)
    requires Inside(p)
  {
    && Distinct(Texts(p)) && (forall t :: t in Texts(p) ==> t in all)
    && |p.used| == Total(Texts(p))
  }

  /** A list of texts that a pool can hold. */
  predicate Holdable(all: seq<Text>) {
    && |all| < MAX_STRINGS && Total(all) <= BUFFER_SIZE && forall t :: t in all ==> |t| <= 255
  }

  lemma OneMoreFits(ts: seq<Text>, all: seq<Text>, s: Text)
    requires Holdable(all) && Distinct(ts) && (forall t :: t in ts ==> t in all) && s in all && s !in ts
    ensures Distinct(ts + [s]) && forall t :: t in ts + [s] ==> t in all
    ensures |ts| < MAX_STRINGS - 1 && Total(ts) + |s| + 1 <= BUFFER_SIZE
    ensures Total(ts + [s]) == Total(ts) + |s| + 1 && Stored(s) == s
  {
    var more := ts + [s];
    DistinctGrows(ts, s);
    forall t | t in more
      ensures t in all
    {
      assert t in ts || t == s;
    }
    PartIsSmaller(more, all);
    TotalOfMore(ts, s);
    WholeString(s);
  }

  lemma OneMoreHasRoom(p: Pool, all: seq<Text>, s: Text)
    requires Inside(p) && Holdable(all) && FilledFrom(p, all) && s in all && s != []
    ensures RoomFor(p, s) && FilledFrom(NewPool(p, s), all)
  {
    InternedTexts(p, s);
    UsedGrows(p, s);
    if s !in Texts(p) {
      OneMoreFits(Texts(p), all, s);
    }
  }

  lemma {:induction false} AllHaveRoom(p: Pool, all: seq<Text>, names: seq<Text>)
    requires Inside(p) && Holdable(all) && FilledFrom(p, all)
    requires forall i :: 0 <= i < |names| ==> names[i] == [] || names[i] in all
    ensures Room(p, names)
    decreases |names|
  {
    if names != [] {
      if names[0] != [] {
        OneMoreHasRoom(p, all, names[0]);
      } else {
        assert NewPool(p, []) == p;
      }
      AllHaveRoom(NewPool(p, names[0]), all, names[1..]);
    }
  }

  lemma TextsAreHoldable(p: Pool)
    requires Inside(p) && Roomy(p)
    ensures Holdable(Texts(p))
  {
  }

  /** Whatever was done to the store before it was saved: a device that starts anew and
      loads the file has every command again. There is no condition on the pool but that
      it has not run out of numbers in the first session. */
  lemma EveryStoreSurvivesARestart(t: Tables, ops: seq<Op>)
    requires AllAllowed(ops)
    ensures var y, anew := StoreAfter(ops), System(EMPTY_POOL, EMPTY_STORE);
      RowsOf(t, Loaded(t, anew, RowsOf(t, y))) == RowsOf(t, y)
  {
    var y := StoreAfter(ops);
    EveryPoolIsRoomy(ops);
    TextsAreHoldable(y.pool);
    SavedNamesAreKnown(t, y, y.store.commands);
    assert With(y, y.store.commands) == y;
    assert FilledFrom(EMPTY_POOL, Texts(y.pool));
    AllHaveRoom(EMPTY_POOL, Texts(y.pool), AllNames(RowsOf(t, y)));
    EverySavedStoreIsRestored(t, ops, System(EMPTY_POOL, EMPTY_STORE));
  }
}
