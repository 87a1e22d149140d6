/** Saving, removing everything and loading brings the commands back. */
module CommandRestores {
  import opened Words
  import opened Sequences
  import opened StringPools
  import opened CommandStores
  import opened CommandRuns
  import opened CommandFiles

  // ------------------------------------------------------------------ overrides

  /** base, and count more that belong to the key. */
  ghost predicate Added(base: seq<Override>, os: seq<Override>, keyId: Id, count: nat) {
    && base <= os && |os| == |base| + count
    && forall k :: |base| <= k < |os| ==> os[k].keyId == keyId
  }

  /** No override of the key for a field from n on. */
  predicate NoneFrom(os: seq<Override>, keyId: Id, n: nat) {
    forall k :: 0 <= k < |os| ==> os[k].keyId != keyId || os[k].field < n
  }

  lemma {:induction false} AtPrefix(os: seq<Override>, more: seq<Override>, id: Id, field: nat)
    requires forall k :: 0 <= k < |more| ==> more[k].keyId != id || more[k].field != field
    ensures At(os + more, id, field) == At(os, id, field)
  {
    if os == [] {
      assert os + more == more;
      NotAt(more, id, field);
    } else {
      AtPrefix(os[1..], more, id, field);
      assert os + more == [os[0]] + (os[1..] + more) && os == [os[0]] + os[1..];
      AtFront(os[0], os[1..] + more, id, field);
      AtFront(os[0], os[1..], id, field);
    }
  }

  lemma NotAt(os: seq<Override>, id: Id, field: nat)
    requires forall k :: 0 <= k < |os| ==> os[k].keyId != id || os[k].field != field
    ensures At(os, id, field) == None
  {
  }

  lemma {:induction false} AtEnd(os: seq<Override>, o: Override)
    requires forall k :: 0 <= k < |os| ==> os[k].keyId != o.keyId || os[k].field != o.field
    ensures At(os + [o], o.keyId, o.field) == Some(o)
  {
    if os == [] {
      assert os + [o] == [o];
    } else {
      AtEnd(os[1..], o);
      assert os + [o] == [os[0]] + (os[1..] + [o]);
      AtFront(os[0], os[1..] + [o], o.keyId, o.field);
    }
  }

  function MinAt(o: Option<Override>): Option<real> {
    if o.Some? then o.value.min else None
  }

  function MaxAt(o: Option<Override>): Option<real> {
    if o.Some? then o.value.max else None
  }

  lemma LimitsAreAt(os: seq<Override>, id: Id, field: nat)
    requires field < 256
    ensures MinOf(os, id, field) == MinAt(At(os, id, field))
    ensures MaxOf(os, id, field) == MaxAt(At(os, id, field))
  {
  }

  function Mark(r: FieldRow): nat {
    if r.min.Some? || r.max.Some? then 1 else 0
  }

  /** Number of fields with a limit of their own. */
  function Marks(rs: seq<FieldRow>): nat {
    if rs == [] then 0 else Marks(rs[..|rs| - 1]) + Mark(rs[|rs| - 1])
  }

  lemma MarksOfMore(rs: seq<FieldRow>, r: FieldRow)
    ensures Marks(rs + [r]) == Marks(rs) + Mark(r)
  {
    assert (rs + [r])[..|rs|] == rs;
  }

  lemma UpdateLast<T>(s: seq<T>, x: T, y: T)
    ensures (s + [x])[|s| := y] == s + [y]
  {
  }

  lemma NewIndex(os: seq<Override>, keyId: Id, field: nat)
    requires NoneFrom(os, keyId, field)
    ensures OverrideIndex(os, keyId, field) == |os|
  {
  }

  lemma LastIndex(os: seq<Override>, o: Override)
    requires NoneFrom(os, o.keyId, o.field)
    ensures OverrideIndex(os + [o], o.keyId, o.field) == |os|
  {
    assert forall k :: 0 <= k < |os| ==> (os + [o])[k] == os[k];
    assert (os + [o])[|os|] == o;
  }

  /** Setting the limits of a field that has none adds one override, if any. */
  lemma BothSetAppends(os: seq<Override>, keyId: Id, field: nat, r: FieldRow)
    requires field < 256 && NoneFrom(os, keyId, field) && |os| + Mark(r) <= OVERRIDES
    ensures BothSet(os, keyId, field, r.min, r.max) ==
      if Mark(r) == 1 then os + [Override(keyId, field, r.min, r.max)] else os
  {
    NewIndex(os, keyId, field);
    if r.min.Some? && r.max.Some? {
      LastIndex(os, Override(keyId, field, r.min, None));
      UpdateLast(os, Override(keyId, field, r.min, None), Override(keyId, field, r.min, r.max));
    }
  }

  lemma LimitsOfNewField(os: seq<Override>, keyId: Id, field: nat, r: FieldRow)
    requires field < 256 && NoneFrom(os, keyId, field) && |os| + Mark(r) <= OVERRIDES
    ensures var after := BothSet(os, keyId, field, r.min, r.max);
      && MinOf(after, keyId, field) == r.min && MaxOf(after, keyId, field) == r.max
      && NoneFrom(after, keyId, field + 1) && Added(os, after, keyId, Mark(r))
  {
    BothSetAppends(os, keyId, field, r);
    LimitsAreAt(BothSet(os, keyId, field, r.min, r.max), keyId, field);
    if Mark(r) == 1 {
      AtEnd(os, Override(keyId, field, r.min, r.max));
    } else {
      NotAt(os, keyId, field);
    }
  }

  lemma OtherLimitsStay(os: seq<Override>, after: seq<Override>, keyId: Id, field: nat, r: FieldRow, id: Id, other: nat)
    requires field < 256 && other < 256 && NoneFrom(os, keyId, field) && |os| + Mark(r) <= OVERRIDES
    requires after == BothSet(os, keyId, field, r.min, r.max) && (id != keyId || other != field)
    ensures MinOf(after, id, other) == MinOf(os, id, other) && MaxOf(after, id, other) == MaxOf(os, id, other)
  {
    BothSetAppends(os, keyId, field, r);
    LimitsAreAt(after, id, other);
    LimitsAreAt(os, id, other);
    if Mark(r) == 1 {
      AtPrefix(os, [Override(keyId, field, r.min, r.max)], id, other);
    }
  }

  lemma AddedMore(base: seq<Override>, os: seq<Override>, after: seq<Override>, keyId: Id, m: nat, n: nat)
    requires Added(base, os, keyId, m) && Added(os, after, keyId, n)
    ensures Added(base, after, keyId, m + n)
  {
  }

  // ---------------------------------------------------------------- one command

  /** A field as a saved file holds it. */
  predicate GoodFieldRow(t: Tables, r: FieldRow) {
    && |r.name| <= 255 && 1 <= r.position < 16
    && ProfileName(t.profiles, ProfileNumber(t.profiles, r.profile)) == r.profile
    && ProfileName(t.haProfiles, ProfileNumber(t.haProfiles, r.haProfile)) == r.haProfile
  }

  predicate GoodFieldRows(t: Tables, rs: seq<FieldRow>) {
    |rs| <= MAX_FIELDS && forall i :: 0 <= i < |rs| ==> GoodFieldRow(t, rs[i])
  }

  predicate FieldNamesGiven(p: Pool, fs: seq<Field>) {
    forall i :: 0 <= i < |fs| ==> fs[i].nameId <= |p.entries|
  }

  /** The fields read so far are those of the rows read so far. */
  ghost predicate FieldsRestored(t: Tables, base: seq<Override>, keyId: Id, done: seq<FieldRow>, a: Fields)
    requires Inside(a.pool)
  {
    && FieldRowsOf(t, a.pool, a.overrides, keyId, a.fields) == done
    && FieldNamesGiven(a.pool, a.fields)
    && Added(base, a.overrides, keyId, Marks(done))
    && NoneFrom(a.overrides, keyId, |done|)
  }

  lemma FieldStays(t: Tables, p: Pool, q: Pool, os: seq<Override>, after: seq<Override>, keyId: Id, i: nat, f: Field)
    requires Grown(p, q) && f.nameId <= |p.entries|
    requires MinOf(after, keyId, i) == MinOf(os, keyId, i) && MaxOf(after, keyId, i) == MaxOf(os, keyId, i)
    ensures FieldRowOf(t, q, after, keyId, i, f) == FieldRowOf(t, p, os, keyId, i, f)
  {
    NameStays(p, q, f.nameId);
  }

  lemma NewFieldIsRow(t: Tables, q: Pool, after: seq<Override>, keyId: Id, i: nat, nameId: Id, r: FieldRow)
    requires Inside(q) && GoodFieldRow(t, r) && LookedUp(q, nameId) == r.name
    requires MinOf(after, keyId, i) == r.min && MaxOf(after, keyId, i) == r.max
    ensures FieldRowOf(t, q, after, keyId, i, FieldOf(t, nameId, r)) == r
  {
  }

  lemma OldFieldStays(t: Tables, a: Fields, b: Fields, keyId: Id, n: nat, r: FieldRow, i: nat, f: Field)
    requires Grown(a.pool, b.pool) && f.nameId <= |a.pool.entries| && i < n < 256
    requires NoneFrom(a.overrides, keyId, n) && |a.overrides| + Mark(r) <= OVERRIDES
    requires b.overrides == BothSet(a.overrides, keyId, n, r.min, r.max)
    ensures FieldRowOf(t, b.pool, b.overrides, keyId, i, f) == FieldRowOf(t, a.pool, a.overrides, keyId, i, f)
    ensures f.nameId <= |b.pool.entries|
  {
    OtherLimitsStay(a.overrides, b.overrides, keyId, n, r, keyId, i);
    FieldStays(t, a.pool, b.pool, a.overrides, b.overrides, keyId, i, f);
    NameStays(a.pool, b.pool, f.nameId);
  }

  lemma FieldRowsOfMore(t: Tables, q: Pool, os: seq<Override>, keyId: Id, fs: seq<Field>, f: Field,
      done: seq<FieldRow>, r: FieldRow)
    requires Inside(q) && |fs| == |done| && FieldRowOf(t, q, os, keyId, |fs|, f) == r
    requires forall i :: 0 <= i < |fs| ==> FieldRowOf(t, q, os, keyId, i, fs[i]) == done[i]
    ensures FieldRowsOf(t, q, os, keyId, fs + [f]) == done + [r]
  {
  }

  lemma FieldsAreShown(t: Tables, base: seq<Override>, keyId: Id, done: seq<FieldRow>, a: Fields, r: FieldRow)
    requires Inside(a.pool) && FieldsRestored(t, base, keyId, done, a)
    requires GoodFieldRow(t, r) && RoomFor(a.pool, r.name) && |done| < MAX_FIELDS
    requires |a.overrides| + Mark(r) <= OVERRIDES
    ensures var b := FieldLoaded(t, a, keyId, r);
      FieldRowsOf(t, b.pool, b.overrides, keyId, b.fields) == done + [r] && FieldNamesGiven(b.pool, b.fields)
  {
    var b := FieldLoaded(t, a, keyId, r);
    var (n, nameId) := (|done|, NewId(a.pool, r.name));
    assert |FieldRowsOf(t, a.pool, a.overrides, keyId, a.fields)| == |a.fields|;
    InternedWell(a.pool, r.name);
    LimitsOfNewField(a.overrides, keyId, n, r);
    NewFieldIsRow(t, b.pool, b.overrides, keyId, n, nameId, r);
    forall i | 0 <= i < n
      ensures FieldRowOf(t, b.pool, b.overrides, keyId, i, a.fields[i]) == done[i]
      ensures a.fields[i].nameId <= |b.pool.entries|
    {
      OldFieldStays(t, a, b, keyId, n, r, i, a.fields[i]);
    }
    FieldRowsOfMore(t, b.pool, b.overrides, keyId, a.fields, FieldOf(t, nameId, r), done, r);
  }

  lemma OverridesAreAdded(t: Tables, base: seq<Override>, keyId: Id, done: seq<FieldRow>, a: Fields, r: FieldRow)
    requires Inside(a.pool) && |a.fields| == |done| < MAX_FIELDS && |a.overrides| + Mark(r) <= OVERRIDES
    requires Added(base, a.overrides, keyId, Marks(done)) && NoneFrom(a.overrides, keyId, |done|)
    ensures var os := FieldLoaded(t, a, keyId, r).overrides;
      Added(base, os, keyId, Marks(done + [r])) && NoneFrom(os, keyId, |done| + 1)
  {
    LimitsOfNewField(a.overrides, keyId, |done|, r);
    AddedMore(base, a.overrides, FieldLoaded(t, a, keyId, r).overrides, keyId, Marks(done), Mark(r));
    MarksOfMore(done, r);
  }

  /** Reading one more field. */
  lemma FieldIsRestored(t: Tables, base: seq<Override>, keyId: Id, done: seq<FieldRow>, a: Fields, r: FieldRow)
    requires Inside(a.pool) && FieldsRestored(t, base, keyId, done, a)
    requires GoodFieldRow(t, r) && RoomFor(a.pool, r.name) && |done| < MAX_FIELDS
    requires |a.overrides| + Mark(r) <= OVERRIDES
    ensures FieldsRestored(t, base, keyId, done + [r], FieldLoaded(t, a, keyId, r))
    ensures Grown(a.pool, FieldLoaded(t, a, keyId, r).pool)
  {
    assert |FieldRowsOf(t, a.pool, a.overrides, keyId, a.fields)| == |a.fields|;
    FieldsAreShown(t, base, keyId, done, a, r);
    OverridesAreAdded(t, base, keyId, done, a, r);
    InternedWell(a.pool, r.name);
  }

  lemma {:induction false} MarksOfConcat(a: seq<FieldRow>, b: seq<FieldRow>)
    ensures Marks(a + b) == Marks(a) + Marks(b)
  {
    if b == [] {
      EmptyIsNeutral(a);
    } else {
      SplitLast(a, b);
      MarksOfConcat(a, b[..|b| - 1]);
      MarksOfMore(a + b[..|b| - 1], b[|b| - 1]);
    }
  }

  lemma MarksOfFirst(r: FieldRow, rest: seq<FieldRow>)
    ensures Marks([r] + rest) == Mark(r) + Marks(rest)
  {
    MarksOfConcat([r], rest);
    assert [r][..0] == [];
  }

  lemma GoodTail(t: Tables, rs: seq<FieldRow>)
    requires rs != [] && forall i :: 0 <= i < |rs| ==> GoodFieldRow(t, rs[i])
    ensures GoodFieldRow(t, rs[0]) && forall i :: 0 <= i < |rs[1..]| ==> GoodFieldRow(t, rs[1..][i])
  {
  }

  /** Reading the remaining fields of a row. */
  lemma {:induction false} FieldsAreRestored(t: Tables, base: seq<Override>, keyId: Id, done: seq<FieldRow>, a: Fields,
      rs: seq<FieldRow>)
    requires Inside(a.pool) && FieldsRestored(t, base, keyId, done, a)
    requires forall i :: 0 <= i < |rs| ==> GoodFieldRow(t, rs[i])
    requires |done| + |rs| <= MAX_FIELDS && |a.overrides| + Marks(rs) <= OVERRIDES && Room(a.pool, NamesOf(rs))
    ensures FieldsRestored(t, base, keyId, done + rs, FieldsLoaded(t, a, keyId, rs))
    ensures Grown(a.pool, FieldsLoaded(t, a, keyId, rs).pool)
    ensures FieldsLoaded(t, a, keyId, rs).pool == PoolAfter(a.pool, NamesOf(rs))
    decreases |rs|
  {
    if rs == [] {
      EmptyIsNeutral(done);
    } else {
      var (r, rest) := (rs[0], rs[1..]);
      var b := FieldLoaded(t, a, keyId, r);
      GoodTail(t, rs);
      assert rs == [r] + rest && NamesOf(rs)[1..] == NamesOf(rest);
      MarksOfFirst(r, rest);
      FieldIsRestored(t, base, keyId, done, a, r);
      FieldsAreRestored(t, base, keyId, done + [r], b, rest);
      Associative(done, [r], rest);
      GrownIsTransitive(a.pool, b.pool, FieldsLoaded(t, a, keyId, rs).pool);
    }
  }

  // -------------------------------------------------------------------- one row

  /** A row as a saved file holds it; the write part is one of W. */
  predicate GoodRow(t: Tables, r: Row, W: seq<Bytes>) {
    && |r.key| <= 255 && |r.name| <= 255 && GoodFieldRows(t, r.fields) && (r.writeCmd == [] || r.writeCmd in W)
    && |r.readCmd| <= POLL_CAPACITY && |r.writeCmd| <= POLL_CAPACITY
  }

  lemma RoomForFirst(p: Pool, s: Text, rest: seq<Text>)
    requires Inside(p) && Room(p, [s] + rest)
    ensures RoomFor(p, s) && Room(NewPool(p, s), rest)
    ensures PoolAfter(p, [s] + rest) == PoolAfter(NewPool(p, s), rest)
  {
    assert ([s] + rest)[1..] == rest;
  }

  lemma NamesOfRowAreInterned(p: Pool, r: Row)
    requires Inside(p) && Room(p, RowNames(r)) && |r.key| <= 255 && |r.name| <= 255
    ensures var q := NamePool(p, r);
      && Grown(p, q) && Room(q, NamesOf(r.fields))
      && PoolAfter(p, RowNames(r)) == PoolAfter(q, NamesOf(r.fields))
      && KeyIdOf(p, r) <= |q.entries| && LookedUp(q, KeyIdOf(p, r)) == r.key
      && NameIdOf(p, r) <= |q.entries| && LookedUp(q, NameIdOf(p, r)) == r.name
      && NewId(p, r.key) <= |q.entries| && LookedUp(q, NewId(p, r.key)) == r.key
  {
    var (p1, p2, p3) := (NewPool(p, r.key), KeyPool(p, r), NamePool(p, r));
    RoomForFirst(p, r.key, [r.key] + ([r.name] + NamesOf(r.fields)));
    RoomForFirst(p1, r.key, [r.name] + NamesOf(r.fields));
    RoomForFirst(p2, r.name, NamesOf(r.fields));
    InternedWell(p, r.key);
    InternedWell(p1, r.key);
    InternedWell(p2, r.name);
    GrownIsTransitive(p1, p2, p3);
    GrownIsTransitive(p, p1, p3);
    NameStays(p1, p3, NewId(p, r.key));
    NameStays(p2, p3, KeyIdOf(p, r));
  }

  predicate Given(y: System, c: Command)
    requires Inside(y.pool)
  {
    && c.keyId <= |y.pool.entries| && c.nameId <= |y.pool.entries|
    && FieldNamesGiven(y.pool, c.fields) && |c.fields| <= MAX_FIELDS && c.writeIdx <= |y.store.writes|
  }

  lemma PrefixWrites(ws: seq<Bytes>, us: seq<Bytes>, i: nat)
    requires ws <= us && i <= |ws|
    ensures WriteBytes(us, i) == WriteBytes(ws, i) && i <= |us|
  {
  }

  lemma LimitsStay(base: seq<Override>, os: seq<Override>, keyId: Id, count: nat, id: Id, field: nat)
    requires Added(base, os, keyId, count) && id != keyId && field < 256
    ensures MinOf(os, id, field) == MinOf(base, id, field) && MaxOf(os, id, field) == MaxOf(base, id, field)
  {
    assert os == base + os[|base|..];
    AtPrefix(base, os[|base|..], id, field);
    LimitsAreAt(os, id, field);
    LimitsAreAt(base, id, field);
  }

  /** What has been restored is not changed by reading a row of another key. */
  lemma RowStays(t: Tables, y: System, z: System, c: Command, keyId: Id, count: nat)
    requires Grown(y.pool, z.pool) && y.store.writes <= z.store.writes && c.keyId != keyId
    requires Added(y.store.overrides, z.store.overrides, keyId, count) && Given(y, c)
    ensures RowOf(t, z, c) == RowOf(t, y, c) && Given(z, c)
  {
    NameStays(y.pool, z.pool, c.keyId);
    NameStays(y.pool, z.pool, c.nameId);
    PrefixWrites(y.store.writes, z.store.writes, c.writeIdx);
    forall i | 0 <= i < |c.fields|
      ensures FieldRowOf(t, z.pool, z.store.overrides, c.keyId, i, c.fields[i])
           == FieldRowOf(t, y.pool, y.store.overrides, c.keyId, i, c.fields[i])
      ensures c.fields[i].nameId <= |z.pool.entries|
    {
      LimitsStay(y.store.overrides, z.store.overrides, keyId, count, c.keyId, i);
      FieldStays(t, y.pool, z.pool, y.store.overrides, z.store.overrides, c.keyId, i, c.fields[i]);
      NameStays(y.pool, z.pool, c.fields[i].nameId);
    }
    assert FieldRowsOf(t, z.pool, z.store.overrides, c.keyId, c.fields)
        == FieldRowsOf(t, y.pool, y.store.overrides, c.keyId, c.fields);
  }

  lemma {:induction false} NothingToClear(os: seq<Override>, keyId: Id)
    requires forall k :: 0 <= k < |os| ==> os[k].keyId != keyId
    ensures WithoutKeyId(os, keyId) == os
  {
    if os != [] {
      NothingToClear(os[1..], keyId);
      assert os == [os[0]] + os[1..];
    }
  }

  lemma SetOfSeq<T>(s: seq<T>)
    ensures |set x | x in s| <= |s|
  {
    if s != [] {
      var before := s[..|s| - 1];
      SetOfSeq(before);
      assert s == before + [s[|s| - 1]];
      assert (set x | x in s) == (set x | x in before) + {s[|s| - 1]};
    }
  }

  /** A write part from W always finds a place among write parts from W. */
  lemma WriteFindsAPlace(writes: seq<Bytes>, w: Bytes, W: seq<Bytes>)
    requires GoodWrites(writes) && (forall x :: x in writes ==> x in W) && |W| <= WRITE_COMMANDS
    requires (w == [] || w in W) && |w| <= POLL_CAPACITY
    ensures var (after, writeIdx) := WriteSet(writes, w);
      && WriteBytes(after, writeIdx) == w && writeIdx <= |after| && writes <= after
      && GoodWrites(after) && forall x :: x in after ==> x in W
  {
    if w != [] && w !in writes {
      var all := set x | x in W;
      SetOfSeq(W);
      NamesLeft(writes, w, all);
    }
    WriteIsSetExactlyIf(writes, w);
    WriteSetIsGood(writes, w);
  }

  // ------------------------------------------------------------------- all rows

  function MarksOfRows(rs: seq<Row>): nat {
    if rs == [] then 0 else MarksOfRows(rs[..|rs| - 1]) + Marks(rs[|rs| - 1].fields)
  }

  lemma MarksOfMoreRows(rs: seq<Row>, r: Row)
    ensures MarksOfRows(rs + [r]) == MarksOfRows(rs) + Marks(r.fields)
  {
    assert (rs + [r])[..|rs|] == rs;
  }

  predicate HasOwner(cs: seq<Command>, keyId: Id) {
    exists i :: 0 <= i < |cs| && cs[i].keyId == keyId
  }

  predicate OwnersKnown(cs: seq<Command>, os: seq<Override>) {
    forall k :: 0 <= k < |os| ==> HasOwner(cs, os[k].keyId)
  }

  /** The rows read so far are back, and nothing else is there. */
  ghost predicate Restored(t: Tables, done: seq<Row>, z: System, W: seq<Bytes>) {
    && Inside(z.pool) && RowsOf(t, z) == done
    && (forall i :: 0 <= i < |z.store.commands| ==> Given(z, z.store.commands[i]))
    && GoodWrites(z.store.writes) && (forall w :: w in z.store.writes ==> w in W)
    && |z.store.overrides| == MarksOfRows(done) && OwnersKnown(z.store.commands, z.store.overrides)
  }

  predicate NewKey(done: seq<Row>, r: Row) {
    forall i :: 0 <= i < |done| ==> done[i].key != r.key
  }

  lemma OtherId(t: Tables, done: seq<Row>, z: System, W: seq<Bytes>, q: Pool, r: Row, i: nat, id: Id)
    requires Restored(t, done, z, W) && Grown(z.pool, q) && NewKey(done, r) && i < |z.store.commands|
    requires id <= |q.entries| && LookedUp(q, id) == r.key
    ensures z.store.commands[i].keyId != id && KeyOf(q, z.store.commands[i]) != r.key
  {
    var c := z.store.commands[i];
    assert Given(z, c) && RowsOf(t, z)[i] == RowOf(t, z, c);
    NameStays(z.pool, q, c.keyId);
  }

  lemma NoOverridesYet(t: Tables, done: seq<Row>, z: System, W: seq<Bytes>, q: Pool, r: Row, id: Id)
    requires Restored(t, done, z, W) && Grown(z.pool, q) && NewKey(done, r)
    requires id <= |q.entries| && LookedUp(q, id) == r.key
    ensures forall k :: 0 <= k < |z.store.overrides| ==> z.store.overrides[k].keyId != id
  {
    forall k | 0 <= k < |z.store.overrides|
      ensures z.store.overrides[k].keyId != id
    {
      assert HasOwner(z.store.commands, z.store.overrides[k].keyId);
      var i :| 0 <= i < |z.store.commands| && z.store.commands[i].keyId == z.store.overrides[k].keyId;
      OtherId(t, done, z, W, q, r, i, id);
    }
  }

  lemma NothingToClearForANewKey(t: Tables, done: seq<Row>, z: System, W: seq<Bytes>, r: Row)
    requires Restored(t, done, z, W) && GoodRow(t, r, W) && NewKey(done, r) && Room(z.pool, RowNames(r))
    ensures Cleared(z.pool, z.store.overrides, r.key) == z.store.overrides
    ensures NoneFrom(z.store.overrides, KeyIdOf(z.pool, r), 0)
  {
    NamesOfRowAreInterned(z.pool, r);
    NoOverridesYet(t, done, z, W, NamePool(z.pool, r), r, KeyIdOf(z.pool, r));
    NoOverridesYet(t, done, z, W, NamePool(z.pool, r), r, NewId(z.pool, r.key));
    NothingToClear(z.store.overrides, NewId(z.pool, r.key));
  }

  lemma NoFieldsYet(t: Tables, q: Pool, os: seq<Override>, keyId: Id)
    requires Inside(q) && NoneFrom(os, keyId, 0)
    ensures FieldsRestored(t, os, keyId, [], Fields(q, os, []))
  {
  }

  lemma FieldsOfRowAreRestored(t: Tables, done: seq<Row>, z: System, W: seq<Bytes>, r: Row)
    requires Restored(t, done, z, W) && GoodRow(t, r, W) && NewKey(done, r)
    requires MarksOfRows(done) + Marks(r.fields) <= OVERRIDES && Room(z.pool, RowNames(r))
    ensures var (a, keyId) := (RowFields(t, z, r), KeyIdOf(z.pool, r));
      && FieldsRestored(t, z.store.overrides, keyId, r.fields, a) && Grown(z.pool, a.pool)
      && a.pool == PoolAfter(z.pool, RowNames(r))
      && keyId <= |a.pool.entries| && LookedUp(a.pool, keyId) == r.key
      && NameIdOf(z.pool, r) <= |a.pool.entries| && LookedUp(a.pool, NameIdOf(z.pool, r)) == r.name
  {
    var (q, keyId, os) := (NamePool(z.pool, r), KeyIdOf(z.pool, r), z.store.overrides);
    NamesOfRowAreInterned(z.pool, r);
    NothingToClearForANewKey(t, done, z, W, r);
    NoFieldsYet(t, q, os, keyId);
    FieldsAreRestored(t, os, keyId, [], Fields(q, os, []), r.fields);
    EmptyIsNeutral(r.fields);
    var a := RowFields(t, z, r);
    GrownIsTransitive(z.pool, q, a.pool);
    NameStays(q, a.pool, keyId);
    NameStays(q, a.pool, NameIdOf(z.pool, r));
  }

  lemma NewRowIsShown(t: Tables, done: seq<Row>, z: System, W: seq<Bytes>, r: Row, after: System)
    requires Restored(t, done, z, W) && GoodRow(t, r, W) && NewKey(done, r) && |W| <= WRITE_COMMANDS
    requires MarksOfRows(done) + Marks(r.fields) <= OVERRIDES && Room(z.pool, RowNames(r))
    requires after.pool == RowFields(t, z, r).pool && after.store.writes == WriteSet(z.store.writes, Poll(r.writeCmd)).0
    requires after.store.overrides == RowFields(t, z, r).overrides
    ensures RowOf(t, after, RowCommand(t, z, r)) == r && Given(after, RowCommand(t, z, r))
  {
    FieldsOfRowAreRestored(t, done, z, W, r);
    WriteFindsAPlace(z.store.writes, r.writeCmd, W);
  }

  lemma OwnersStayKnown(cs: seq<Command>, c: Command, base: seq<Override>, os: seq<Override>, count: nat)
    requires OwnersKnown(cs, base) && Added(base, os, c.keyId, count)
    ensures OwnersKnown(cs + [c], os)
  {
    forall k | 0 <= k < |os|
      ensures HasOwner(cs + [c], os[k].keyId)
    {
      if k < |base| {
        assert os[k] == base[k];
        var i :| 0 <= i < |cs| && cs[i].keyId == base[k].keyId;
        assert (cs + [c])[i] == cs[i];
      } else {
        assert (cs + [c])[|cs|] == c;
      }
    }
  }

  lemma NewKeyAppends(t: Tables, done: seq<Row>, z: System, W: seq<Bytes>, q: Pool, r: Row, c: Command)
    requires Restored(t, done, z, W) && Grown(z.pool, q) && NewKey(done, r) && |done| < COMMANDS
    requires c.keyId <= |q.entries| && KeyOf(q, c) == r.key
    ensures Inserted(q, z.store.commands, c) == z.store.commands + [c]
  {
    IndexOfFinds(q, z.store.commands, r.key);
    forall i | 0 <= i < |z.store.commands|
      ensures Keys(q, z.store.commands)[i] != r.key
    {
      OtherId(t, done, z, W, q, r, i, c.keyId);
    }
  }

  lemma RowsOfMore(t: Tables, z: System, cs: seq<Command>, c: Command, done: seq<Row>, r: Row)
    requires Inside(z.pool) && z.store.commands == cs + [c] && |cs| == |done| && RowOf(t, z, c) == r && Given(z, c)
    requires forall i :: 0 <= i < |cs| ==> RowOf(t, z, cs[i]) == done[i] && Given(z, cs[i])
    ensures RowsOf(t, z) == done + [r]
    ensures forall i :: 0 <= i < |z.store.commands| ==> Given(z, z.store.commands[i])
  {
  }

  lemma EarlierRowsStay(t: Tables, done: seq<Row>, z: System, W: seq<Bytes>, after: System, keyId: Id, count: nat)
    requires Restored(t, done, z, W) && Grown(z.pool, after.pool) && z.store.writes <= after.store.writes
    requires Added(z.store.overrides, after.store.overrides, keyId, count) && !HasOwner(z.store.commands, keyId)
    ensures forall i :: 0 <= i < |z.store.commands| ==>
      RowOf(t, after, z.store.commands[i]) == done[i] && Given(after, z.store.commands[i])
  {
    forall i | 0 <= i < |z.store.commands|
      ensures RowOf(t, after, z.store.commands[i]) == done[i] && Given(after, z.store.commands[i])
    {
      RowStays(t, z, after, z.store.commands[i], keyId, count);
    }
  }

  lemma RowJoins(t: Tables, done: seq<Row>, z: System, W: seq<Bytes>, after: System, c: Command, r: Row)
    requires Restored(t, done, z, W) && Grown(z.pool, after.pool) && z.store.writes <= after.store.writes
    requires GoodWrites(after.store.writes) && forall w :: w in after.store.writes ==> w in W
    requires Added(z.store.overrides, after.store.overrides, c.keyId, Marks(r.fields))
      && !HasOwner(z.store.commands, c.keyId)
    requires after.store.commands == z.store.commands + [c] && RowOf(t, after, c) == r && Given(after, c)
    ensures Restored(t, done + [r], after, W)
  {
    EarlierRowsStay(t, done, z, W, after, c.keyId, Marks(r.fields));
    RowsOfMore(t, after, z.store.commands, c, done, r);
    OwnersStayKnown(z.store.commands, c, z.store.overrides, after.store.overrides, Marks(r.fields));
    MarksOfMoreRows(done, r);
  }

  lemma NoNamesake(t: Tables, done: seq<Row>, z: System, W: seq<Bytes>, q: Pool, r: Row, id: Id)
    requires Restored(t, done, z, W) && Grown(z.pool, q) && NewKey(done, r)
    requires id <= |q.entries| && LookedUp(q, id) == r.key
    ensures !HasOwner(z.store.commands, id)
  {
    forall i | 0 <= i < |z.store.commands|
      ensures z.store.commands[i].keyId != id
    {
      OtherId(t, done, z, W, q, r, i, id);
    }
  }

  /** Reading one more row. */
  lemma RowIsRestored(t: Tables, done: seq<Row>, z: System, W: seq<Bytes>, r: Row)
    requires Restored(t, done, z, W) && GoodRow(t, r, W) && NewKey(done, r) && |W| <= WRITE_COMMANDS
    requires |done| < COMMANDS && MarksOfRows(done) + Marks(r.fields) <= OVERRIDES && Room(z.pool, RowNames(r))
    ensures Restored(t, done + [r], RowLoaded(t, z, r), W)
    ensures RowLoaded(t, z, r).pool == PoolAfter(z.pool, RowNames(r))
  {
    var (after, a, c) := (RowLoaded(t, z, r), RowFields(t, z, r), RowCommand(t, z, r));
    FieldsOfRowAreRestored(t, done, z, W, r);
    WriteFindsAPlace(z.store.writes, r.writeCmd, W);
    NewKeyAppends(t, done, z, W, a.pool, r, c);
    NewRowIsShown(t, done, z, W, r, after);
    NoNamesake(t, done, z, W, a.pool, r, c.keyId);
    RowJoins(t, done, z, W, after, c, r);
  }

  predicate RowKeysDistinct(rs: seq<Row>) {
    forall i, j :: 0 <= i < j < |rs| ==> rs[i].key != rs[j].key
  }

  predicate GoodRows(t: Tables, rs: seq<Row>, W: seq<Bytes>) {
    forall i :: 0 <= i < |rs| ==> GoodRow(t, rs[i], W)
  }

  lemma {:induction false} MarksOfFirstRow(r: Row, rest: seq<Row>)
    ensures MarksOfRows([r] + rest) == Marks(r.fields) + MarksOfRows(rest)
  {
    if rest == [] {
      assert [r] + rest == [] + [r];
      MarksOfMoreRows([], r);
    } else {
      SplitLast([r], rest);
      MarksOfFirstRow(r, rest[..|rest| - 1]);
      MarksOfMoreRows([r] + rest[..|rest| - 1], rest[|rest| - 1]);
    }
  }

  lemma FirstOfRest(t: Tables, done: seq<Row>, rs: seq<Row>, W: seq<Bytes>)
    requires rs != [] && RowKeysDistinct(done + rs) && GoodRows(t, rs, W)
    ensures NewKey(done, rs[0]) && GoodRow(t, rs[0], W) && GoodRows(t, rs[1..], W)
    ensures done + rs == (done + [rs[0]]) + rs[1..] && rs == [rs[0]] + rs[1..]
  {
    forall i | 0 <= i < |done|
      ensures done[i].key != rs[0].key
    {
      assert (done + rs)[i] == done[i] && (done + rs)[|done|] == rs[0];
    }
  }

  /** Reading the remaining rows. */
  lemma {:induction false} RowsAreRestored(t: Tables, done: seq<Row>, z: System, W: seq<Bytes>, rs: seq<Row>)
    requires Restored(t, done, z, W) && GoodRows(t, rs, W) && RowKeysDistinct(done + rs) && |W| <= WRITE_COMMANDS
    requires |done| + |rs| <= COMMANDS && MarksOfRows(done) + MarksOfRows(rs) <= OVERRIDES && Room(z.pool, AllNames(rs))
    ensures Restored(t, done + rs, Loaded(t, z, rs), W)
    decreases |rs|
  {
    if rs == [] {
      EmptyIsNeutral(done);
    } else {
      var (r, rest) := (rs[0], rs[1..]);
      FirstOfRest(t, done, rs, W);
      MarksOfFirstRow(r, rest);
      RoomSplits(z.pool, RowNames(r), AllNames(rest));
      RowIsRestored(t, done, z, W, r);
      MarksOfMoreRows(done, r);
      RowsAreRestored(t, done + [r], RowLoaded(t, z, r), W, rest);
    }
  }

  // ---------------------------------------------------------- what a save writes

  predicate Limited(os: seq<Override>, keyId: Id, field: nat) {
    MinOf(os, keyId, field).Some? || MaxOf(os, keyId, field).Some?
  }

  lemma LimitHasAPlace(os: seq<Override>, keyId: Id, field: nat)
    requires field < 256 && Limited(os, keyId, field)
    ensures var k := OverrideIndex(os, keyId, field); k < |os| && os[k].keyId == keyId && os[k].field == field
  {
  }

  /** Where the limits of the first n fields are kept. */
  function Slots(os: seq<Override>, keyId: Id, n: nat): seq<nat> {
    if n == 0 then []
    else if Limited(os, keyId, n - 1) then
      Slots(os, keyId, n - 1) + [OverrideIndex(os, keyId, n - 1)]
    else Slots(os, keyId, n - 1)
  }

  function AllSlots(os: seq<Override>, cs: seq<Command>): seq<nat> {
    if cs == [] then []
    else AllSlots(os, cs[..|cs| - 1]) + Slots(os, cs[|cs| - 1].keyId, |cs[|cs| - 1].fields|)
  }

  predicate IsPlace(os: seq<Override>, k: nat, keyId: Id, n: nat) {
    k < |os| && os[k].keyId == keyId && os[k].field < n
  }

  predicate OfTheKey(os: seq<Override>, ns: seq<nat>, keyId: Id, n: nat) {
    forall i :: 0 <= i < |ns| ==> IsPlace(os, ns[i], keyId, n)
  }

  lemma OneMoreSlot(os: seq<Override>, ns: seq<nat>, keyId: Id, n: nat, k: nat)
    requires Distinct(ns) && OfTheKey(os, ns, keyId, n)
    requires k < |os| && os[k].keyId == keyId && os[k].field == n
    ensures Distinct(ns + [k]) && OfTheKey(os, ns + [k], keyId, n + 1)
  {
    DistinctGrows(ns, k);
  }

  lemma NoMoreSlot(os: seq<Override>, ns: seq<nat>, keyId: Id, n: nat)
    requires OfTheKey(os, ns, keyId, n)
    ensures OfTheKey(os, ns, keyId, n + 1)
  {
  }

  lemma OneMoreFieldKeepsPlaces(os: seq<Override>, keyId: Id, n: nat)
    requires n < MAX_FIELDS
    requires Distinct(Slots(os, keyId, n)) && OfTheKey(os, Slots(os, keyId, n), keyId, n)
    ensures Distinct(Slots(os, keyId, n + 1)) && OfTheKey(os, Slots(os, keyId, n + 1), keyId, n + 1)
  {
    if Limited(os, keyId, n) {
      LimitHasAPlace(os, keyId, n);
      OneMoreSlot(os, Slots(os, keyId, n), keyId, n, OverrideIndex(os, keyId, n));
    } else {
      NoMoreSlot(os, Slots(os, keyId, n), keyId, n);
    }
  }

  lemma {:induction false} SlotsAreOfTheKey(os: seq<Override>, keyId: Id, n: nat)
    requires n <= MAX_FIELDS
    ensures Distinct(Slots(os, keyId, n)) && OfTheKey(os, Slots(os, keyId, n), keyId, n)
  {
    if n > 0 {
      SlotsAreOfTheKey(os, keyId, n - 1);
      OneMoreFieldKeepsPlaces(os, keyId, n - 1);
    }
  }

  lemma {:induction false} SlotsCountMarks(t: Tables, p: Pool, os: seq<Override>, keyId: Id, fs: seq<Field>)
    requires Inside(p)
    ensures |Slots(os, keyId, |fs|)| == Marks(FieldRowsOf(t, p, os, keyId, fs))
  {
    if fs != [] {
      var (before, f) := (fs[..|fs| - 1], fs[|fs| - 1]);
      SlotsCountMarks(t, p, os, keyId, before);
      FieldRowsOfMore(t, p, os, keyId, before, f, FieldRowsOf(t, p, os, keyId, before),
        FieldRowOf(t, p, os, keyId, |before|, f));
      assert fs == before + [f];
      MarksOfMore(FieldRowsOf(t, p, os, keyId, before), FieldRowOf(t, p, os, keyId, |before|, f));
    }
  }

  lemma DistinctConcat(a: seq<nat>, b: seq<nat>)
    requires Distinct(a) && Distinct(b)
    requires forall i, j :: 0 <= i < |a| && 0 <= j < |b| ==> a[i] != b[j]
    ensures Distinct(a + b)
  {
  }

  predicate FewFields(cs: seq<Command>) {
    forall i :: 0 <= i < |cs| ==> |cs[i].fields| <= MAX_FIELDS
  }

  predicate IdsDiffer(cs: seq<Command>) {
    forall i, j :: 0 <= i < j < |cs| ==> cs[i].keyId != cs[j].keyId
  }

  predicate Owned(os: seq<Override>, ns: seq<nat>, cs: seq<Command>) {
    forall i :: 0 <= i < |ns| ==> ns[i] < |os| && HasOwner(cs, os[ns[i]].keyId)
  }

  lemma OwnerStays(cs: seq<Command>, c: Command, keyId: Id)
    ensures HasOwner(cs + [c], keyId) <==> HasOwner(cs, keyId) || c.keyId == keyId
  {
    if HasOwner(cs, keyId) {
      var i :| 0 <= i < |cs| && cs[i].keyId == keyId;
      assert (cs + [c])[i] == cs[i];
    }
    assert (cs + [c])[|cs|] == c;
  }

  lemma SlotsOfOneMore(os: seq<Override>, cs: seq<Command>, c: Command, ns: seq<nat>, ms: seq<nat>, n: nat)
    requires Distinct(ns) && Owned(os, ns, cs) && Distinct(ms) && OfTheKey(os, ms, c.keyId, n)
    requires !HasOwner(cs, c.keyId)
    ensures Distinct(ns + ms) && Owned(os, ns + ms, cs + [c])
  {
    DistinctConcat(ns, ms);
    forall i | 0 <= i < |ns + ms|
      ensures (ns + ms)[i] < |os| && HasOwner(cs + [c], os[(ns + ms)[i]].keyId)
    {
      OwnerStays(cs, c, os[(ns + ms)[i]].keyId);
    }
  }

  lemma LastHasNoNamesake(cs: seq<Command>)
    requires cs != [] && IdsDiffer(cs)
    ensures IdsDiffer(cs[..|cs| - 1]) && !HasOwner(cs[..|cs| - 1], cs[|cs| - 1].keyId)
    ensures cs == cs[..|cs| - 1] + [cs[|cs| - 1]]
  {
  }

  lemma {:induction false} AllSlotsAreDistinct(os: seq<Override>, cs: seq<Command>)
    requires FewFields(cs) && IdsDiffer(cs)
    ensures Distinct(AllSlots(os, cs)) && Owned(os, AllSlots(os, cs), cs)
  {
    if cs != [] {
      var (before, c) := (cs[..|cs| - 1], cs[|cs| - 1]);
      LastHasNoNamesake(cs);
      AllSlotsAreDistinct(os, before);
      SlotsAreOfTheKey(os, c.keyId, |c.fields|);
      SlotsOfOneMore(os, before, c, AllSlots(os, before), Slots(os, c.keyId, |c.fields|), |c.fields|);
    }
  }

  function With(y: System, cs: seq<Command>): System {
    y.(store := y.store.(commands := cs))
  }

  lemma RowsOfOneMore(t: Tables, y: System, cs: seq<Command>, c: Command)
    requires Inside(y.pool)
    ensures RowsOf(t, With(y, cs + [c])) == RowsOf(t, With(y, cs)) + [RowOf(t, y, c)]
  {
  }

  lemma {:induction false} AllSlotsCountMarks(t: Tables, y: System, cs: seq<Command>)
    requires Inside(y.pool)
    ensures |AllSlots(y.store.overrides, cs)| == MarksOfRows(RowsOf(t, With(y, cs)))
  {
    if cs != [] {
      var (before, c) := (cs[..|cs| - 1], cs[|cs| - 1]);
      AllSlotsCountMarks(t, y, before);
      SlotsCountMarks(t, y.pool, y.store.overrides, c.keyId, c.fields);
      assert cs == before + [c];
      RowsOfOneMore(t, y, before, c);
      MarksOfMoreRows(RowsOf(t, With(y, before)), RowOf(t, y, c));
    }
  }

  lemma LookedUpIsShort(p: Pool, id: nat)
    requires Inside(p)
    ensures |LookedUp(p, id)| <= 255
  {
  }

  lemma SavedFieldIsGood(t: Tables, p: Pool, os: seq<Override>, keyId: Id, i: nat, f: Field)
    requires Inside(p) && f.position < 16
    ensures GoodFieldRow(t, FieldRowOf(t, p, os, keyId, i, f))
  {
    LookedUpIsShort(p, f.nameId);
    ProfileNameReturns(t.profiles, f.profile);
    ProfileNameReturns(t.haProfiles, f.haProfile);
  }

  lemma SavedRowIsGood(t: Tables, y: System, c: Command)
    requires Inside(y.pool) && GoodCommand(c, |y.pool.entries|, |y.store.writes|) && GoodWrites(y.store.writes)
    ensures GoodRow(t, RowOf(t, y, c), y.store.writes)
  {
    LookedUpIsShort(y.pool, c.keyId);
    LookedUpIsShort(y.pool, c.nameId);
    forall j | 0 <= j < |c.fields|
      ensures GoodFieldRow(t, RowOf(t, y, c).fields[j])
    {
      SavedFieldIsGood(t, y.pool, y.store.overrides, c.keyId, j, c.fields[j]);
    }
  }

  lemma KeysDistinctIdsDiffer(p: Pool, cs: seq<Command>)
    requires Inside(p) && KeysDistinct(p, cs)
    ensures IdsDiffer(cs)
  {
    forall i, j | 0 <= i < j < |cs|
      ensures cs[i].keyId != cs[j].keyId
    {
      assert Keys(p, cs)[i] != Keys(p, cs)[j];
    }
  }

  lemma SavedMarksFit(t: Tables, y: System)
    requires Sound(y)
    ensures MarksOfRows(RowsOf(t, y)) <= OVERRIDES
  {
    var cs := y.store.commands;
    KeysDistinctIdsDiffer(y.pool, cs);
    AllSlotsAreDistinct(y.store.overrides, cs);
    DistinctBelow(AllSlots(y.store.overrides, cs), |y.store.overrides|);
    AllSlotsCountMarks(t, y, cs);
    assert With(y, cs) == y;
  }

  lemma SavedRowsAreGood(t: Tables, y: System)
    requires Sound(y)
    ensures GoodRows(t, RowsOf(t, y), y.store.writes) && RowKeysDistinct(RowsOf(t, y))
  {
    var (rs, cs) := (RowsOf(t, y), y.store.commands);
    forall i | 0 <= i < |rs|
      ensures GoodRow(t, rs[i], y.store.writes) && rs[i].key == Keys(y.pool, cs)[i]
    {
      SavedRowIsGood(t, y, cs[i]);
    }
  }

  // ---------------------------------------------------------------- round trips

  /** A store to load into: no commands, no overrides, and of the write parts only such
      as the saved commands could have. */
  predicate Cleaned(z: System, y: System) {
    && Inside(z.pool) && z.store.commands == [] && z.store.overrides == []
    && GoodWrites(z.store.writes) && forall w :: w in z.store.writes ==> w in y.store.writes
  }

  lemma NothingRestoredYet(t: Tables, z: System, y: System)
    requires Cleaned(z, y)
    ensures Restored(t, [], z, y.store.writes) && MarksOfRows([]) == 0
  {
  }

  lemma AllRowsAreRestored(t: Tables, z: System, W: seq<Bytes>, rs: seq<Row>)
    requires Restored(t, [], z, W) && GoodRows(t, rs, W) && RowKeysDistinct(rs) && |W| <= WRITE_COMMANDS
    requires |rs| <= COMMANDS && MarksOfRows(rs) <= OVERRIDES && Room(z.pool, AllNames(rs))
    ensures RowsOf(t, Loaded(t, z, rs)) == rs
  {
    EmptyIsNeutral(rs);
    RowsAreRestored(t, [], z, W, rs);
  }

  /** Saving and loading restores every command in order, with key, name, read and write
      bytes, interval, master, fields and limits, provided the pool has room for the
      names. A position of 0 counts as 1. */
  lemma SaveThenLoadRestores(t: Tables, y: System, z: System)
    requires Sound(y) && Cleaned(z, y)
    requires Room(z.pool, AllNames(RowsOf(t, y)))
    ensures RowsOf(t, Loaded(t, z, RowsOf(t, y))) == RowsOf(t, y)
  {
    SavedRowsAreGood(t, y);
    SavedMarksFit(t, y);
    NothingRestoredYet(t, z, y);
    AllRowsAreRestored(t, z, y.store.writes, RowsOf(t, y));
  }

  /** Every name is empty or in the pool. */
  predicate Known(p: Pool, names: seq<Text>)
    requires Inside(p)
  {
    forall i :: 0 <= i < |names| ==> names[i] == [] || names[i] in Texts(p)
  }

  lemma KnownConcat(p: Pool, a: seq<Text>, b: seq<Text>)
    requires Inside(p) && Known(p, a) && Known(p, b)
    ensures Known(p, a + b)
  {
  }

  lemma LookedUpIsKnown(p: Pool, id: nat)
    requires Inside(p)
    ensures Known(p, [LookedUp(p, id)])
  {
    LookedUpIsNamed(p, id);
  }

  lemma NamesOfRowAreKnown(t: Tables, y: System, c: Command)
    requires Inside(y.pool)
    ensures Known(y.pool, RowNames(RowOf(t, y, c)))
  {
    var (p, r) := (y.pool, RowOf(t, y, c));
    forall i | 0 <= i < |r.fields|
      ensures NamesOf(r.fields)[i] == [] || NamesOf(r.fields)[i] in Texts(p)
    {
      LookedUpIsNamed(p, c.fields[i].nameId);
    }
    LookedUpIsKnown(p, c.keyId);
    LookedUpIsKnown(p, c.nameId);
    KnownConcat(p, [r.name], NamesOf(r.fields));
    KnownConcat(p, [r.key], [r.name] + NamesOf(r.fields));
    KnownConcat(p, [r.key], [r.key] + ([r.name] + NamesOf(r.fields)));
  }

  lemma RowsOfFirst(t: Tables, y: System, cs: seq<Command>)
    requires Inside(y.pool) && cs != []
    ensures RowsOf(t, With(y, cs)) != [] && RowsOf(t, With(y, cs))[0] == RowOf(t, y, cs[0])
    ensures RowsOf(t, With(y, cs))[1..] == RowsOf(t, With(y, cs[1..]))
  {
  }

  lemma {:induction false} SavedNamesAreKnown(t: Tables, y: System, cs: seq<Command>)
    requires Inside(y.pool)
    ensures Known(y.pool, AllNames(RowsOf(t, With(y, cs))))
  {
    if cs != [] {
      RowsOfFirst(t, y, cs);
      SavedNamesAreKnown(t, y, cs[1..]);
      NamesOfRowAreKnown(t, y, cs[0]);
      KnownConcat(y.pool, RowNames(RowOf(t, y, cs[0])), AllNames(RowsOf(t, With(y, cs[1..]))));
    }
  }

  /** Within one session, save, removeAll and load restore everything, whatever else the
      pool and the write parts have been filled with. */
  lemma RemoveAllIsUndoneByLoading(t: Tables, y: System)
    requires Sound(y)
    ensures var z := Done(y, RemoveAll); RowsOf(t, Loaded(t, z, RowsOf(t, y))) == RowsOf(t, y)
  {
    var z := Done(y, RemoveAll);
    SavedNamesAreKnown(t, y, y.store.commands);
    assert With(y, y.store.commands) == y;
    KnownNamesHaveRoom(z.pool, AllNames(RowsOf(t, y)));
    SaveThenLoadRestores(t, y, z);
  }

  /** The same without a word about the store: whatever was interned, inserted, removed,
      set and loaded before, in any order, saving and loading restores the rows. */
  lemma EverySavedStoreIsRestored(t: Tables, ops: seq<Op>, z: System)
    requires AllAllowed(ops) && Cleaned(z, StoreAfter(ops)) && Room(z.pool, AllNames(RowsOf(t, StoreAfter(ops))))
    ensures RowsOf(t, Loaded(t, z, RowsOf(t, StoreAfter(ops)))) == RowsOf(t, StoreAfter(ops))
  {
    EveryStoreIsSound(ops);
    SaveThenLoadRestores(t, StoreAfter(ops), z);
  }

  /** What is loaded after a save is what was saved, exactly if the saved list was not
      empty or the earlier one was: an empty list does not overwrite the file. */
  lemma ReloadRestoresExactlyIf(t: Tables, y: System, earlier: System, z: System)
    requires Sound(y) && Sound(earlier)
    requires Cleaned(z, y) && Room(z.pool, AllNames(RowsOf(t, y)))
    requires Cleaned(z, earlier) && Room(z.pool, AllNames(RowsOf(t, earlier)))
    ensures var file := Saved(t, y, Some(RowsOf(t, earlier)));
      RowsOf(t, Loaded(t, z, file.value)) == RowsOf(t, y) <==> y.store.commands != [] || earlier.store.commands == []
  {
    SaveThenLoadRestores(t, y, z);
    SaveThenLoadRestores(t, earlier, z);
  }
}
