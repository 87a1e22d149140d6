/** What every operation keeps of the command store, and what a store amounts to: a
    map from keys to commands of bounded size, with write parts that only grow. */
module CommandRuns {
  import opened Words
  import opened Sequences
  import opened StringPools
  import opened CommandStores
  import opened CommandFiles

  // ------------------------------------------------------------- a bounded map

  /** The store as a map. */
  function AsMap(p: Pool, cs: seq<Command>): map<Text, Command>
    requires Inside(p)
  {
    map key | key in Keys(p, cs) :: CommandAt(cs, IndexOf(p, cs, key))
  }

  function CommandAt(cs: seq<Command>, i: nat): Command {
    if i < |cs| then cs[i] else Command(0, 0, [], 0, 0, false, [], 0)
  }

  predicate KeysDistinct(p: Pool, cs: seq<Command>)
    requires Inside(p)
  {
    Distinct(Keys(p, cs))
  }

  lemma AtItsKey(p: Pool, cs: seq<Command>, i: nat)
    requires Inside(p) && KeysDistinct(p, cs) && i < |cs|
    ensures KeyOf(p, cs[i]) in AsMap(p, cs) && AsMap(p, cs)[KeyOf(p, cs[i])] == cs[i]
    ensures IndexOf(p, cs, KeyOf(p, cs[i])) == i
  {
    var key := KeyOf(p, cs[i]);
    assert Keys(p, cs)[i] == key;
    IndexOfFinds(p, cs, key);
  }

  lemma MapOf(p: Pool, cs: seq<Command>, key: Text)
    requires Inside(p)
    ensures key in AsMap(p, cs) <==> IndexOf(p, cs, key) < |cs|
    ensures key in AsMap(p, cs) ==> AsMap(p, cs)[key] == cs[IndexOf(p, cs, key)]
  {
    IndexOfFinds(p, cs, key);
  }

  lemma {:induction false} DistinctIsSetSize(ks: seq<Text>)
    requires Distinct(ks)
    ensures |set k | k in ks| == |ks|
  {
    if ks != [] {
      var (before, last) := (ks[..|ks| - 1], ks[|ks| - 1]);
      DistinctIsSetSize(before);
      assert ks == before + [last];
      assert (set k | k in ks) == (set k | k in before) + {last};
      assert last !in before;
    }
  }

  lemma MapSize(p: Pool, cs: seq<Command>)
    requires Inside(p) && KeysDistinct(p, cs)
    ensures |AsMap(p, cs)| == |cs|
  {
    DistinctIsSetSize(Keys(p, cs));
    assert AsMap(p, cs).Keys == set k | k in Keys(p, cs);
  }

  lemma KeysOfUpdate(p: Pool, cs: seq<Command>, i: nat, c: Command)
    requires Inside(p) && i < |cs| && KeyOf(p, c) == KeyOf(p, cs[i])
    ensures Keys(p, cs[i := c]) == Keys(p, cs)
  {
  }

  lemma KeysOfAppend(p: Pool, cs: seq<Command>, c: Command)
    requires Inside(p)
    ensures Keys(p, cs + [c]) == Keys(p, cs) + [KeyOf(p, c)]
  {
  }

  lemma KeysOfWithout(p: Pool, cs: seq<Command>, i: nat)
    requires Inside(p) && i < |cs|
    ensures Keys(p, Without(cs, i)) == Without(Keys(p, cs), i)
  {
  }

  lemma DistinctWithout(ks: seq<Text>, i: nat)
    requires Distinct(ks) && i < |ks|
    ensures Distinct(Without(ks, i))
    ensures ks[i] !in Without(ks, i)
    ensures forall k :: k in ks && k != ks[i] ==> k in Without(ks, i)
  {
    forall k | k in ks && k != ks[i]
      ensures k in Without(ks, i)
    {
      var j :| 0 <= j < |ks| && ks[j] == k;
      assert Without(ks, i)[if j < i then j else j - 1] == k;
    }
  }

  lemma InsertKeepsKeysDistinct(p: Pool, cs: seq<Command>, c: Command)
    requires Inside(p) && KeysDistinct(p, cs)
    ensures KeysDistinct(p, Inserted(p, cs, c))
  {
    var key := KeyOf(p, c);
    var i := IndexOf(p, cs, key);
    IndexOfFinds(p, cs, key);
    if i < |cs| {
      KeysOfUpdate(p, cs, i, c.(pollId := cs[i].pollId));
    } else if |cs| < COMMANDS {
      KeysOfAppend(p, cs, c);
      DistinctGrows(Keys(p, cs), key);
    }
  }

  /** insertCommand on the map: the poll id of a replaced command is kept, and when 96
      keys are taken, a command with another key is silently dropped. */
  function MapInserted(m: map<Text, Command>, key: Text, c: Command): map<Text, Command> {
    if key in m then m[key := c.(pollId := m[key].pollId)]
    else if |m| < COMMANDS then m[key := c]
    else m
  }

  lemma MapIsUpdate<V>(after: map<Text, V>, before: map<Text, V>, key: Text, v: V)
    requires forall k :: k in after <==> k in before || k == key
    requires forall k :: k in after ==> after[k] == if k == key then v else before[k]
    ensures after == before[key := v]
  {
  }

  lemma UpdatedAtItsKey(p: Pool, cs: seq<Command>, i: nat, c: Command, j: nat)
    requires Inside(p) && KeysDistinct(p, cs) && i < |cs| && j < |cs| && KeyOf(p, c) == KeyOf(p, cs[i])
    ensures var (key, after) := (Keys(p, cs)[j], AsMap(p, cs[i := c]));
      && key in after && key in AsMap(p, cs)
      && after[key] == if key == KeyOf(p, c) then c else AsMap(p, cs)[key]
  {
    KeysOfUpdate(p, cs, i, c);
    AtItsKey(p, cs, j);
    AtItsKey(p, cs[i := c], j);
    assert j != i ==> Keys(p, cs)[j] != Keys(p, cs)[i];
  }

  lemma UpdateOnMap(p: Pool, cs: seq<Command>, i: nat, c: Command)
    requires Inside(p) && KeysDistinct(p, cs) && i < |cs| && KeyOf(p, c) == KeyOf(p, cs[i])
    ensures AsMap(p, cs[i := c]) == AsMap(p, cs)[KeyOf(p, c) := c]
  {
    var (before, after) := (AsMap(p, cs), AsMap(p, cs[i := c]));
    KeysOfUpdate(p, cs, i, c);
    assert Keys(p, cs)[i] == KeyOf(p, c);
    forall key | key in Keys(p, cs)
      ensures after[key] == if key == KeyOf(p, c) then c else before[key]
    {
      var j :| 0 <= j < |cs| && Keys(p, cs)[j] == key;
      UpdatedAtItsKey(p, cs, i, c, j);
    }
    MapIsUpdate(after, before, KeyOf(p, c), c);
  }

  lemma AppendedAtItsKey(p: Pool, cs: seq<Command>, c: Command, j: nat)
    requires Inside(p) && KeysDistinct(p, cs) && KeysDistinct(p, cs + [c]) && j <= |cs|
    ensures var (key, after) := (Keys(p, cs + [c])[j], AsMap(p, cs + [c]));
      && key in after && (j < |cs| ==> key in AsMap(p, cs) && after[key] == AsMap(p, cs)[key])
      && (j == |cs| ==> after[key] == c)
  {
    AtItsKey(p, cs + [c], j);
    if j < |cs| {
      AtItsKey(p, cs, j);
    }
  }

  lemma AppendOnMap(p: Pool, cs: seq<Command>, c: Command)
    requires Inside(p) && KeysDistinct(p, cs) && KeyOf(p, c) !in Keys(p, cs)
    ensures AsMap(p, cs + [c]) == AsMap(p, cs)[KeyOf(p, c) := c]
  {
    var (before, after) := (AsMap(p, cs), AsMap(p, cs + [c]));
    KeysOfAppend(p, cs, c);
    DistinctGrows(Keys(p, cs), KeyOf(p, c));
    forall key | key in Keys(p, cs + [c])
      ensures after[key] == if key == KeyOf(p, c) then c else before[key]
    {
      var j :| 0 <= j < |cs| + 1 && Keys(p, cs + [c])[j] == key;
      AppendedAtItsKey(p, cs, c, j);
    }
    MapIsUpdate(after, before, KeyOf(p, c), c);
  }

  lemma InsertReplaces(p: Pool, cs: seq<Command>, c: Command, i: nat)
    requires Inside(p) && KeysDistinct(p, cs) && i == IndexOf(p, cs, KeyOf(p, c)) < |cs|
    requires KeyOf(p, cs[i]) == KeyOf(p, c)
    ensures AsMap(p, Inserted(p, cs, c)) == MapInserted(AsMap(p, cs), KeyOf(p, c), c)
    ensures Keys(p, Inserted(p, cs, c)) == Keys(p, cs)
  {
    var put := c.(pollId := cs[i].pollId);
    AtItsKey(p, cs, i);
    KeysOfUpdate(p, cs, i, put);
    UpdateOnMap(p, cs, i, put);
  }

  lemma InsertAppends(p: Pool, cs: seq<Command>, c: Command)
    requires Inside(p) && KeysDistinct(p, cs) && IndexOf(p, cs, KeyOf(p, c)) == |cs| && KeyOf(p, c) !in Keys(p, cs)
    ensures AsMap(p, Inserted(p, cs, c)) == MapInserted(AsMap(p, cs), KeyOf(p, c), c)
    ensures Keys(p, Inserted(p, cs, c)) == if |cs| < COMMANDS then Keys(p, cs) + [KeyOf(p, c)] else Keys(p, cs)
  {
    MapSize(p, cs);
    MapOf(p, cs, KeyOf(p, c));
    if |cs| < COMMANDS {
      KeysOfAppend(p, cs, c);
      AppendOnMap(p, cs, c);
    }
  }

  /** insertCommand refines the update of a bounded map, and keeps the order. */
  lemma InsertRefines(p: Pool, cs: seq<Command>, c: Command)
    requires Inside(p) && KeysDistinct(p, cs)
    ensures AsMap(p, Inserted(p, cs, c)) == MapInserted(AsMap(p, cs), KeyOf(p, c), c)
    ensures Keys(p, Inserted(p, cs, c)) ==
      if KeyOf(p, c) !in Keys(p, cs) && |cs| < COMMANDS then Keys(p, cs) + [KeyOf(p, c)] else Keys(p, cs)
  {
    var i := IndexOf(p, cs, KeyOf(p, c));
    IndexOfFinds(p, cs, KeyOf(p, c));
    if i < |cs| {
      InsertReplaces(p, cs, c, i);
    } else {
      InsertAppends(p, cs, c);
    }
  }

  lemma RemainingAtItsKey(p: Pool, cs: seq<Command>, i: nat, j: nat)
    requires Inside(p) && KeysDistinct(p, cs) && i < |cs| && KeysDistinct(p, Without(cs, i)) && j < |cs| - 1
    ensures var key := KeyOf(p, Without(cs, i)[j]);
      && key in AsMap(p, Without(cs, i)) && key in AsMap(p, cs)
      && AsMap(p, Without(cs, i))[key] == AsMap(p, cs)[key]
  {
    AtItsKey(p, Without(cs, i), j);
    AtItsKey(p, cs, if j < i then j else j + 1);
  }

  lemma WithoutOnMap(p: Pool, cs: seq<Command>, i: nat)
    requires Inside(p) && KeysDistinct(p, cs) && i < |cs|
    ensures KeysDistinct(p, Without(cs, i))
    ensures AsMap(p, Without(cs, i)) == AsMap(p, cs) - {KeyOf(p, cs[i])}
  {
    var (after, gone) := (Without(cs, i), KeyOf(p, cs[i]));
    KeysOfWithout(p, cs, i);
    DistinctWithout(Keys(p, cs), i);
    forall key | key in Keys(p, after)
      ensures key in AsMap(p, cs) && key != gone && AsMap(p, after)[key] == AsMap(p, cs)[key]
    {
      var j :| 0 <= j < |after| && Keys(p, after)[j] == key;
      RemainingAtItsKey(p, cs, i, j);
    }
    SameMap(AsMap(p, after), AsMap(p, cs), gone);
  }

  lemma SameMap<V>(after: map<Text, V>, before: map<Text, V>, gone: Text)
    requires forall key :: key in after <==> key in before && key != gone
    requires forall key :: key in after ==> after[key] == before[key]
    ensures after == before - {gone}
  {
  }

  /** removeCommand refines the removal of a key, and keeps the order of the others. */
  lemma RemoveRefines(p: Pool, s: Store, key: Text)
    requires Inside(p) && KeysDistinct(p, s.commands)
    ensures AsMap(p, Removed(p, s, key).commands) == AsMap(p, s.commands) - {key}
    ensures KeysDistinct(p, Removed(p, s, key).commands)
    ensures key in AsMap(p, s.commands) ==> |Removed(p, s, key).commands| == |s.commands| - 1
  {
    IndexOfFinds(p, s.commands, key);
    MapOf(p, s.commands, key);
    if IndexOf(p, s.commands, key) < |s.commands| {
      WithoutOnMap(p, s.commands, IndexOf(p, s.commands, key));
    } else {
      assert AsMap(p, s.commands) - {key} == AsMap(p, s.commands);
    }
  }

  // ------------------------------------------------------------------ overrides

  /** The first override of the field. */
  function At(os: seq<Override>, id: Id, field: nat): Option<Override> {
    var i := OverrideIndex(os, id, field);
    if i < |os| then Some(os[i]) else None
  }

  lemma AtFront(o: Override, rest: seq<Override>, id: Id, field: nat)
    ensures At([o] + rest, id, field) == if o.keyId == id && o.field == field then Some(o) else At(rest, id, field)
  {
    assert ([o] + rest)[1..] == rest;
  }

  lemma {:induction false} AtRemaining(os: seq<Override>, keyId: Id, id: Id, field: nat)
    ensures At(WithoutKeyId(os, keyId), id, field) == if id == keyId then None else At(os, id, field)
  {
    if os != [] {
      assert os == [os[0]] + os[1..];
      AtRemaining(os[1..], keyId, id, field);
      AtFront(os[0], os[1..], id, field);
      AtFront(os[0], WithoutKeyId(os[1..], keyId), id, field);
    }
  }

  lemma OverrideOfRemaining(os: seq<Override>, keyId: Id, id: Id, field: nat)
    ensures MinOf(WithoutKeyId(os, keyId), id, field) == if id == keyId then None else MinOf(os, id, field)
    ensures MaxOf(WithoutKeyId(os, keyId), id, field) == if id == keyId then None else MaxOf(os, id, field)
  {
    AtRemaining(os, keyId, id, field % 256);
  }

  lemma OneCommandOneId(p: Pool, cs: seq<Command>, i: nat, j: nat)
    requires Inside(p) && KeysDistinct(p, cs) && i < |cs| && j < |cs| && cs[i].keyId == cs[j].keyId
    ensures i == j
  {
    assert Keys(p, cs)[i] == Keys(p, cs)[j];
  }

  /** Removing a command takes all of its overrides along and none of another's. */
  lemma RemoveTakesItsOverridesOnly(p: Pool, s: Store, key: Text, j: nat, field: nat)
    requires Inside(p) && KeysDistinct(p, s.commands) && j < |s.commands|
    ensures var (c, after) := (s.commands[j], Removed(p, s, key).overrides);
      && MinOf(after, c.keyId, field) == (if KeyOf(p, c) == key then None else MinOf(s.overrides, c.keyId, field))
      && MaxOf(after, c.keyId, field) == (if KeyOf(p, c) == key then None else MaxOf(s.overrides, c.keyId, field))
  {
    var i := IndexOf(p, s.commands, key);
    IndexOfFinds(p, s.commands, key);
    if i < |s.commands| {
      OverrideOfRemaining(s.overrides, s.commands[i].keyId, s.commands[j].keyId, field);
      if s.commands[i].keyId == s.commands[j].keyId {
        OneCommandOneId(p, s.commands, i, j);
      }
      if KeyOf(p, s.commands[j]) == key {
        AtItsKey(p, s.commands, j);
      }
    } else {
      assert Keys(p, s.commands)[j] == KeyOf(p, s.commands[j]);
    }
  }

  /** No two overrides for the same field of the same key. */
  predicate PairsUnique(os: seq<Override>) {
    forall i, j :: 0 <= i < j < |os| ==> os[i].keyId != os[j].keyId || os[i].field != os[j].field
  }

  predicate Has(os: seq<Override>, keyId: Id, field: nat) {
    exists i :: 0 <= i < |os| && os[i].keyId == keyId && os[i].field == field
  }

  lemma HasIndex(os: seq<Override>, keyId: Id, field: nat)
    ensures Has(os, keyId, field) <==> OverrideIndex(os, keyId, field) < |os|
  {
    var i := OverrideIndex(os, keyId, field);
    if i < |os| {
      assert os[i].keyId == keyId;
    }
  }

  lemma {:induction false} WithoutKeyIdIsPart(os: seq<Override>, keyId: Id, id: Id, field: nat)
    ensures Has(WithoutKeyId(os, keyId), id, field) ==> Has(os, id, field)
    ensures |WithoutKeyId(os, keyId)| <= |os|
  {
    if os != [] {
      WithoutKeyIdIsPart(os[1..], keyId, id, field);
      var rest := WithoutKeyId(os[1..], keyId);
      if Has(WithoutKeyId(os, keyId), id, field) {
        var i :| 0 <= i < |WithoutKeyId(os, keyId)|
          && WithoutKeyId(os, keyId)[i].keyId == id && WithoutKeyId(os, keyId)[i].field == field;
        if os[0].keyId != keyId && i == 0 {
          assert os[0].keyId == id && os[0].field == field;
        } else {
          assert rest[if os[0].keyId == keyId then i else i - 1].keyId == id;
          var j :| 0 <= j < |os[1..]| && os[1..][j].keyId == id && os[1..][j].field == field;
          assert os[j + 1] == os[1..][j];
        }
      }
    }
  }

  lemma PairsUniqueTail(o: Override, rest: seq<Override>)
    ensures PairsUnique([o] + rest) <==> PairsUnique(rest) && !Has(rest, o.keyId, o.field)
  {
    var all := [o] + rest;
    if PairsUnique(all) {
      forall i, j | 0 <= i < j < |rest|
        ensures rest[i].keyId != rest[j].keyId || rest[i].field != rest[j].field
      {
        assert all[i + 1] == rest[i] && all[j + 1] == rest[j];
      }
      forall i | 0 <= i < |rest|
        ensures rest[i].keyId != o.keyId || rest[i].field != o.field
      {
        assert all[0] == o && all[i + 1] == rest[i];
      }
    }
  }

  lemma {:induction false} WithoutKeyIdKeepsUnique(os: seq<Override>, keyId: Id)
    requires PairsUnique(os)
    ensures PairsUnique(WithoutKeyId(os, keyId))
  {
    if os != [] {
      assert os == [os[0]] + os[1..];
      PairsUniqueTail(os[0], os[1..]);
      WithoutKeyIdKeepsUnique(os[1..], keyId);
      PairsUniqueTail(os[0], WithoutKeyId(os[1..], keyId));
      WithoutKeyIdIsPart(os[1..], keyId, os[0].keyId, os[0].field);
    }
  }

  lemma SettingKeepsUnique(os: seq<Override>, keyId: Id, field: nat, v: Option<real>)
    requires PairsUnique(os) && |os| <= OVERRIDES
    ensures PairsUnique(MinSet(os, keyId, field, v)) && |MinSet(os, keyId, field, v)| <= OVERRIDES
    ensures PairsUnique(MaxSet(os, keyId, field, v)) && |MaxSet(os, keyId, field, v)| <= OVERRIDES
  {
  }

  /** A limit can be set if the field has one already or there is a place left. */
  predicate CanSet(os: seq<Override>, keyId: Id, field: nat) {
    Has(os, keyId, field % 256) || |os| < OVERRIDES
  }

  lemma {:induction false} AtUpdated(os: seq<Override>, i: nat, o: Override, id: Id, field: nat)
    requires i == OverrideIndex(os, o.keyId, o.field) < |os|
    ensures At(os[i := o], id, field) == if id == o.keyId && field == o.field then Some(o) else At(os, id, field)
    decreases |os|
  {
    assert os == [os[0]] + os[1..];
    AtFront(os[0], os[1..], id, field);
    if i == 0 {
      assert os[0 := o] == [o] + os[1..];
      AtFront(o, os[1..], id, field);
    } else {
      AtUpdated(os[1..], i - 1, o, id, field);
      assert os[i := o] == [os[0]] + os[1..][i - 1 := o];
      AtFront(os[0], os[1..][i - 1 := o], id, field);
    }
  }

  lemma {:induction false} AtAppended(os: seq<Override>, o: Override, id: Id, field: nat)
    requires OverrideIndex(os, o.keyId, o.field) == |os|
    ensures At(os + [o], id, field) == if id == o.keyId && field == o.field then Some(o) else At(os, id, field)
    decreases |os|
  {
    if os == [] {
      assert os + [o] == [o] + [];
      AtFront(o, [], id, field);
    } else {
      assert os == [os[0]] + os[1..] && os + [o] == [os[0]] + (os[1..] + [o]);
      AtAppended(os[1..], o, id, field);
      AtFront(os[0], os[1..], id, field);
      AtFront(os[0], os[1..] + [o], id, field);
    }
  }

  /** Setting a minimum is seen for that field alone, exactly if it could be set, and
      changes no maximum. */
  lemma MinimumIsSetExactlyIf(os: seq<Override>, keyId: Id, field: nat, v: Option<real>, id: Id, other: nat)
    ensures var after := MinSet(os, keyId, field, v);
      && MinOf(after, id, other) ==
           (if id == keyId && other % 256 == field % 256 && CanSet(os, keyId, field) then v else MinOf(os, id, other))
      && MaxOf(after, id, other) == MaxOf(os, id, other)
  {
    var f := field % 256;
    var i := OverrideIndex(os, keyId, f);
    HasIndex(os, keyId, f);
    if i < |os| {
      AtUpdated(os, i, os[i].(min := v), id, other % 256);
    } else if |os| < OVERRIDES {
      AtAppended(os, Override(keyId, f, v, None), id, other % 256);
    }
  }

  /** The same for a maximum. */
  lemma MaximumIsSetExactlyIf(os: seq<Override>, keyId: Id, field: nat, v: Option<real>, id: Id, other: nat)
    ensures var after := MaxSet(os, keyId, field, v);
      && MaxOf(after, id, other) ==
           (if id == keyId && other % 256 == field % 256 && CanSet(os, keyId, field) then v else MaxOf(os, id, other))
      && MinOf(after, id, other) == MinOf(os, id, other)
  {
    var f := field % 256;
    var i := OverrideIndex(os, keyId, f);
    HasIndex(os, keyId, f);
    if i < |os| {
      AtUpdated(os, i, os[i].(max := v), id, other % 256);
    } else if |os| < OVERRIDES {
      AtAppended(os, Override(keyId, f, None, v), id, other % 256);
    }
  }

  // -------------------------------------------------------------- every operation

  datatype Op =
    | Intern(text: Text)
    | Insert(command: Command)
    | Remove(key: Text)
    | RemoveAll
    | DropOverrides(keyId: Id)
    | SetWrite(bytes: Bytes)
    | SetMin(keyId: Id, field: nat, limit: Option<real>)
    | SetMax(keyId: Id, field: nat, limit: Option<real>)
    | Load(tables: Tables, row: Row)

  /** None of the texts makes the count of the pool wrap. */
  predicate NoWraps(p: Pool, names: seq<Text>)
    requires Inside(p)
    decreases |names|
  {
    names == [] || (!Wraps(p, names[0]) && NoWraps(NewPool(p, names[0]), names[1..]))
  }

  predicate GoodFields(fs: seq<Field>, ids: nat) {
    |fs| <= MAX_FIELDS && forall j :: 0 <= j < |fs| ==> fs[j].position < 16 && fs[j].nameId <= ids
  }

  /** Every number in the command has been handed out, and its parts fit. */
  predicate GoodCommand(c: Command, ids: nat, writes: nat) {
    c.keyId <= ids && c.nameId <= ids && c.writeIdx <= writes && |c.readCmd| <= POLL_CAPACITY
      && GoodFields(c.fields, ids)
  }

  /** What the code makes sure of before each operation, except that nothing keeps the
      pool from running out of numbers. */
  predicate Allowed(y: System, op: Op)
    requires Inside(y.pool)
  {
    match op
    case Intern(text) => !Wraps(y.pool, text)
    case Insert(c) => GoodCommand(c, |y.pool.entries|, |y.store.writes|)
    case SetWrite(bytes) => |bytes| <= POLL_CAPACITY
    case Load(_, row) => NoWraps(y.pool, RowNames(row))
    case _ => true
  }

  function Done(y: System, op: Op): (r: System)
    requires Inside(y.pool)
    ensures Inside(r.pool)
  {
    match op
    case Intern(text) => y.(pool := Interned(y.pool, text).0)
    case Insert(c) => y.(store := y.store.(commands := Inserted(y.pool, y.store.commands, c)))
    case Remove(key) => y.(store := Removed(y.pool, y.store, key))
    case RemoveAll => y.(store := Store([], y.store.writes, []))
    case DropOverrides(id) => y.(store := y.store.(overrides := WithoutKeyId(y.store.overrides, id)))
    case SetWrite(bytes) => y.(store := y.store.(writes := WriteSet(y.store.writes, bytes).0))
    case SetMin(id, f, v) => y.(store := y.store.(overrides := MinSet(y.store.overrides, id, f, v)))
    case SetMax(id, f, v) => y.(store := y.store.(overrides := MaxSet(y.store.overrides, id, f, v)))
    case Load(t, row) => RowLoaded(t, y, row)
  }

  predicate GoodWrites(writes: seq<Bytes>) {
    Distinct(writes) && [] !in writes && |writes| <= WRITE_COMMANDS
    && forall w :: w in writes ==> |w| <= POLL_CAPACITY
  }

  predicate GoodCommands(cs: seq<Command>, ids: nat, writes: nat) {
    |cs| <= COMMANDS && forall i :: 0 <= i < |cs| ==> GoodCommand(cs[i], ids, writes)
  }

  predicate GoodOverrides(os: seq<Override>) {
    PairsUnique(os) && |os| <= OVERRIDES
  }

  /** Keys are pairwise distinct, so are override pairs and write parts; every number a
      command holds means something; the capacities hold. */
  predicate Sound(y: System) {
    && Inside(y.pool)
    && KeysDistinct(y.pool, y.store.commands)
    && GoodCommands(y.store.commands, |y.pool.entries|, |y.store.writes|)
    && GoodWrites(y.store.writes)
    && GoodOverrides(y.store.overrides)
  }

  lemma KeysStay(p: Pool, q: Pool, cs: seq<Command>, writes: nat)
    requires Grown(p, q) && GoodCommands(cs, |p.entries|, writes)
    ensures Keys(q, cs) == Keys(p, cs) && GoodCommands(cs, |q.entries|, writes)
  {
    assert |Texts(p)| == |p.entries| && |Texts(q)| == |q.entries|;
    forall i | 0 <= i < |cs|
      ensures KeyOf(q, cs[i]) == KeyOf(p, cs[i]) && GoodCommand(cs[i], |q.entries|, writes)
    {
      NameStays(p, q, cs[i].keyId);
    }
  }

  lemma InternGrows(p: Pool, text: Text)
    requires Inside(p) && !Wraps(p, text)
    ensures Grown(p, NewPool(p, text)) && NewId(p, text) <= |NewPool(p, text).entries|
      && |p.entries| <= |NewPool(p, text).entries|
  {
    InternedTexts(p, text);
    assert |Texts(p)| == |p.entries| && |Texts(NewPool(p, text))| == |NewPool(p, text).entries|;
  }

  lemma WriteSetIsGood(writes: seq<Bytes>, bytes: Bytes)
    requires GoodWrites(writes) && |bytes| <= POLL_CAPACITY
    ensures GoodWrites(WriteSet(writes, bytes).0) && writes <= WriteSet(writes, bytes).0
    ensures WriteSet(writes, bytes).1 <= |WriteSet(writes, bytes).0|
  {
  }

  lemma InsertIsGood(p: Pool, cs: seq<Command>, c: Command, ids: nat, writes: nat)
    requires Inside(p) && GoodCommands(cs, ids, writes) && GoodCommand(c, ids, writes)
    ensures GoodCommands(Inserted(p, cs, c), ids, writes)
  {
  }

  lemma DroppingIsGood(os: seq<Override>, keyId: Id)
    requires GoodOverrides(os)
    ensures GoodOverrides(WithoutKeyId(os, keyId))
  {
    WithoutKeyIdKeepsUnique(os, keyId);
    WithoutKeyIdIsPart(os, keyId, 0, 0);
  }

  lemma RemoveIsSound(y: System, key: Text)
    requires Sound(y)
    ensures Sound(y.(store := Removed(y.pool, y.store, key)))
  {
    RemoveRefines(y.pool, y.store, key);
    var i := IndexOf(y.pool, y.store.commands, key);
    if i < |y.store.commands| {
      DroppingIsGood(y.store.overrides, y.store.commands[i].keyId);
    }
  }

  // -------------------------------------------------------------- loading a row

  lemma NoWrapsFirst(p: Pool, s: Text, rest: seq<Text>)
    requires Inside(p) && NoWraps(p, [s] + rest)
    ensures !Wraps(p, s) && NoWraps(NewPool(p, s), rest)
    ensures PoolAfter(p, [s] + rest) == PoolAfter(NewPool(p, s), rest)
  {
    assert ([s] + rest)[1..] == rest;
  }

  lemma {:induction false} NoWrapsSplits(p: Pool, a: seq<Text>, b: seq<Text>)
    requires Inside(p)
    ensures NoWraps(p, a + b) <==> NoWraps(p, a) && NoWraps(PoolAfter(p, a), b)
    decreases |a|
  {
    if a == [] {
      EmptyIsNeutral(b);
    } else {
      assert (a + b)[1..] == a[1..] + b;
      NoWrapsSplits(NewPool(p, a[0]), a[1..], b);
    }
  }

  lemma BothSetIsGood(os: seq<Override>, keyId: Id, field: nat, min: Option<real>, max: Option<real>)
    requires GoodOverrides(os)
    ensures GoodOverrides(BothSet(os, keyId, field, min, max))
  {
    SettingKeepsUnique(os, keyId, field, min);
    SettingKeepsUnique(MinSet(os, keyId, field, min), keyId, field, max);
    SettingKeepsUnique(os, keyId, field, max);
  }

  lemma GoodFieldsGrow(fs: seq<Field>, ids: nat, more: nat)
    requires GoodFields(fs, ids) && ids <= more
    ensures GoodFields(fs, more)
  {
  }

  lemma FieldStaysGood(t: Tables, a: Fields, keyId: Id, r: FieldRow)
    requires Inside(a.pool) && !Wraps(a.pool, r.name)
    requires GoodOverrides(a.overrides) && GoodFields(a.fields, |a.pool.entries|)
    ensures var b := FieldLoaded(t, a, keyId, r);
      Grown(a.pool, b.pool) && GoodOverrides(b.overrides) && GoodFields(b.fields, |b.pool.entries|)
  {
    InternGrows(a.pool, r.name);
    BothSetIsGood(a.overrides, keyId, |a.fields|, r.min, r.max);
    GoodFieldsGrow(a.fields, |a.pool.entries|, |NewPool(a.pool, r.name).entries|);
  }

  lemma {:induction false} FieldsStayGood(t: Tables, a: Fields, keyId: Id, rs: seq<FieldRow>)
    requires Inside(a.pool) && NoWraps(a.pool, NamesOf(rs))
    requires GoodOverrides(a.overrides) && GoodFields(a.fields, |a.pool.entries|)
    ensures var b := FieldsLoaded(t, a, keyId, rs);
      && Grown(a.pool, b.pool) && GoodOverrides(b.overrides) && GoodFields(b.fields, |b.pool.entries|)
      && b.pool == PoolAfter(a.pool, NamesOf(rs))
    decreases |rs|
  {
    if rs != [] {
      assert NamesOf(rs)[1..] == NamesOf(rs[1..]);
      var b := FieldLoaded(t, a, keyId, rs[0]);
      FieldStaysGood(t, a, keyId, rs[0]);
      FieldsStayGood(t, b, keyId, rs[1..]);
      GrownIsTransitive(a.pool, b.pool, FieldsLoaded(t, a, keyId, rs).pool);
    }
  }

  lemma GrownIds(p: Pool, q: Pool)
    requires Grown(p, q)
    ensures |p.entries| <= |q.entries|
  {
    assert |Texts(p)| == |p.entries| && |Texts(q)| == |q.entries|;
  }

  lemma NamesAreHandedOut(p: Pool, r: Row)
    requires Inside(p) && NoWraps(p, RowNames(r))
    ensures var q := NamePool(p, r);
      && Grown(p, q) && NoWraps(q, NamesOf(r.fields))
      && KeyIdOf(p, r) <= |q.entries| && NameIdOf(p, r) <= |q.entries|
      && PoolAfter(p, RowNames(r)) == PoolAfter(q, NamesOf(r.fields))
  {
    var (p1, p2, p3) := (NewPool(p, r.key), KeyPool(p, r), NamePool(p, r));
    NoWrapsFirst(p, r.key, [r.key] + ([r.name] + NamesOf(r.fields)));
    NoWrapsFirst(p1, r.key, [r.name] + NamesOf(r.fields));
    NoWrapsFirst(p2, r.name, NamesOf(r.fields));
    InternGrows(p, r.key);
    InternGrows(p1, r.key);
    InternGrows(p2, r.name);
    GrownIsTransitive(p, p1, p2);
    GrownIsTransitive(p, p2, p3);
  }

  lemma RowFieldsAreGood(t: Tables, y: System, r: Row)
    requires Sound(y) && NoWraps(y.pool, RowNames(r))
    ensures var a := RowFields(t, y, r);
      && Grown(y.pool, a.pool) && GoodOverrides(a.overrides)
      && a.pool == PoolAfter(y.pool, RowNames(r))
      && GoodCommand(RowCommand(t, y, r), |a.pool.entries|, |WriteSet(y.store.writes, Poll(r.writeCmd)).0|)
  {
    var q := NamePool(y.pool, r);
    NamesAreHandedOut(y.pool, r);
    if NewId(y.pool, r.key) != 0 {
      DroppingIsGood(y.store.overrides, NewId(y.pool, r.key));
    }
    var start := Fields(q, Cleared(y.pool, y.store.overrides, r.key), []);
    FieldsStayGood(t, start, KeyIdOf(y.pool, r), r.fields);
    GrownIsTransitive(y.pool, q, RowFields(t, y, r).pool);
    GrownIds(q, RowFields(t, y, r).pool);
    WriteSetIsGood(y.store.writes, Poll(r.writeCmd));
  }

  lemma MoreWritesAreFine(cs: seq<Command>, ids: nat, writes: nat, more: nat)
    requires GoodCommands(cs, ids, writes) && writes <= more
    ensures GoodCommands(cs, ids, more)
  {
  }

  /** Reading a row, whatever is in it, keeps the store sound. */
  lemma LoadingIsSound(t: Tables, y: System, r: Row)
    requires Sound(y) && NoWraps(y.pool, RowNames(r))
    ensures Sound(RowLoaded(t, y, r)) && RowLoaded(t, y, r).pool == PoolAfter(y.pool, RowNames(r))
  {
    var (a, c, writes) := (RowFields(t, y, r), RowCommand(t, y, r), WriteSet(y.store.writes, Poll(r.writeCmd)).0);
    RowFieldsAreGood(t, y, r);
    WriteSetIsGood(y.store.writes, Poll(r.writeCmd));
    KeysStay(y.pool, a.pool, y.store.commands, |y.store.writes|);
    MoreWritesAreFine(y.store.commands, |a.pool.entries|, |y.store.writes|, |writes|);
    InsertKeepsKeysDistinct(a.pool, y.store.commands, c);
    InsertIsGood(a.pool, y.store.commands, c, |a.pool.entries|, |writes|);
  }

  /** So does reading a whole file. */
  lemma {:induction false} LoadingAFileIsSound(t: Tables, y: System, rs: seq<Row>)
    requires Sound(y) && NoWraps(y.pool, AllNames(rs))
    ensures Sound(Loaded(t, y, rs))
    decreases |rs|
  {
    if rs != [] {
      NoWrapsSplits(y.pool, RowNames(rs[0]), AllNames(rs[1..]));
      LoadingIsSound(t, y, rs[0]);
      LoadingAFileIsSound(t, RowLoaded(t, y, rs[0]), rs[1..]);
    }
  }

  lemma InternIsSound(y: System, text: Text)
    requires Sound(y) && !Wraps(y.pool, text)
    ensures Sound(y.(pool := NewPool(y.pool, text)))
  {
    InternGrows(y.pool, text);
    KeysStay(y.pool, NewPool(y.pool, text), y.store.commands, |y.store.writes|);
  }

  lemma SetWriteIsSound(y: System, bytes: Bytes)
    requires Sound(y) && |bytes| <= POLL_CAPACITY
    ensures Sound(y.(store := y.store.(writes := WriteSet(y.store.writes, bytes).0)))
  {
    WriteSetIsGood(y.store.writes, bytes);
    MoreWritesAreFine(y.store.commands, |y.pool.entries|, |y.store.writes|, |WriteSet(y.store.writes, bytes).0|);
  }

  /** Every operation keeps all of this. */
  lemma EveryOperationIsSound(y: System, op: Op)
    requires Sound(y) && Allowed(y, op)
    ensures Sound(Done(y, op))
  {
    match op {
      case Intern(text) => InternIsSound(y, text);
      case Insert(c) =>
        InsertKeepsKeysDistinct(y.pool, y.store.commands, c);
        InsertIsGood(y.pool, y.store.commands, c, |y.pool.entries|, |y.store.writes|);
      case Remove(key) => RemoveIsSound(y, key);
      case RemoveAll =>
      case DropOverrides(id) => DroppingIsGood(y.store.overrides, id);
      case SetWrite(bytes) => SetWriteIsSound(y, bytes);
      case SetMin(id, f, v) => SettingKeepsUnique(y.store.overrides, id, f, v);
      case SetMax(id, f, v) => SettingKeepsUnique(y.store.overrides, id, f, v);
      case Load(t, row) => LoadingIsSound(t, y, row);
    }
  }

  // ------------------------------------------------------------------- whole runs

  function StoreAfter(ops: seq<Op>): (y: System)
    ensures Inside(y.pool)
  {
    if ops == [] then System(EMPTY_POOL, EMPTY_STORE) else Done(StoreAfter(ops[..|ops| - 1]), ops[|ops| - 1])
  }

  predicate AllAllowed(ops: seq<Op>) {
    ops == [] || (AllAllowed(ops[..|ops| - 1]) && Allowed(StoreAfter(ops[..|ops| - 1]), ops[|ops| - 1]))
  }

  lemma {:induction false} EveryStoreIsSound(ops: seq<Op>)
    requires AllAllowed(ops)
    ensures Sound(StoreAfter(ops))
  {
    if ops != [] {
      EveryStoreIsSound(ops[..|ops| - 1]);
      EveryOperationIsSound(StoreAfter(ops[..|ops| - 1]), ops[|ops| - 1]);
    }
  }

  /** Nothing that is done to the store, removing everything included, changes the write
      part of a command that has one. */
  lemma WriteBytesNeverChange(y: System, op: Op, writeIdx: nat)
    requires Inside(y.pool) && writeIdx <= |y.store.writes|
    ensures WriteBytes(Done(y, op).store.writes, writeIdx) == WriteBytes(y.store.writes, writeIdx)
    ensures y.store.writes <= Done(y, op).store.writes
  {
    WritesOf(y, op);
  }

  /** The write part that the operation asks for, if any. */
  function WriteOf(op: Op): Bytes {
    match op
    case SetWrite(bytes) => bytes
    case Load(_, row) => Poll(row.writeCmd)
    case _ => []
  }

  function AskedBy(asked: seq<Bytes>, op: Op): seq<Bytes> {
    if WriteOf(op) != [] then asked + [WriteOf(op)] else asked
  }

  /** The write parts that were asked for, in order. */
  function Asked(ops: seq<Op>): seq<Bytes> {
    if ops == [] then [] else AskedBy(Asked(ops[..|ops| - 1]), ops[|ops| - 1])
  }

  /** Without repetitions, in the order of first appearance. */
  function FirstOnes(asked: seq<Bytes>): seq<Bytes> {
    if asked == [] then []
    else
      var (before, x) := (FirstOnes(asked[..|asked| - 1]), asked[|asked| - 1]);
      if x in before then before else before + [x]
  }

  function Cut(s: seq<Bytes>): seq<Bytes> {
    if |s| <= WRITE_COMMANDS then s else s[..WRITE_COMMANDS]
  }

  lemma WriteSetOfCut(firsts: seq<Bytes>, x: Bytes)
    requires x != []
    ensures WriteSet(Cut(firsts), x).0 == Cut(if x in firsts then firsts else firsts + [x])
  {
  }

  lemma FirstOnesOfMore(asked: seq<Bytes>, x: Bytes)
    ensures FirstOnes(asked + [x]) == if x in FirstOnes(asked) then FirstOnes(asked) else FirstOnes(asked) + [x]
  {
    assert (asked + [x])[..|asked|] == asked;
  }

  lemma WritesOf(y: System, op: Op)
    requires Inside(y.pool)
    ensures Done(y, op).store.writes == WriteSet(y.store.writes, WriteOf(op)).0
  {
  }

  lemma WritesStayFirst(y: System, op: Op, asked: seq<Bytes>)
    requires Inside(y.pool) && y.store.writes == Cut(FirstOnes(asked))
    ensures Done(y, op).store.writes == Cut(FirstOnes(AskedBy(asked, op)))
  {
    WritesOf(y, op);
    if WriteOf(op) != [] {
      FirstOnesOfMore(asked, WriteOf(op));
      WriteSetOfCut(FirstOnes(asked), WriteOf(op));
    }
  }

  /** The 16 places for write parts go to the first 16 different ones ever asked for;
      none is given back when commands are replaced or removed. */
  lemma {:induction false} WritesAreTheFirstSixteen(ops: seq<Op>)
    ensures StoreAfter(ops).store.writes == Cut(FirstOnes(Asked(ops)))
  {
    if ops != [] {
      WritesAreTheFirstSixteen(ops[..|ops| - 1]);
      WritesStayFirst(StoreAfter(ops[..|ops| - 1]), ops[|ops| - 1], Asked(ops[..|ops| - 1]));
    }
  }

  /** A command gets the write part it asks for exactly if the part is empty, known, or
      there is a place left; otherwise it ends up without one. */
  lemma WriteIsSetExactlyIf(writes: seq<Bytes>, bytes: Bytes)
    ensures var (after, writeIdx) := WriteSet(writes, bytes);
      && (WriteBytes(after, writeIdx) == bytes <==> bytes == [] || bytes in writes || |writes| < WRITE_COMMANDS)
      && (WriteBytes(after, writeIdx) != bytes ==> writeIdx == 0)
  {
  }
}
