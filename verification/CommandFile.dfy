/** Saving the commands as rows and reading them back (src/app/command_manager.cpp,
    src/app/command.cpp). A row is the list of values between the JSON brackets. */
module CommandFiles {
  import opened Words
  import opened Sequences
  import opened StringPools
  import opened CommandStores

  datatype FieldRow = FieldRow(
    name: Text, profile: Text, position: nat, raw: bool, haProfile: Text, min: Option<real>, max: Option<real>)

  datatype Row = Row(
    key: Text, name: Text, readCmd: Bytes, writeCmd: Bytes, interval: nat, master: bool, fields: seq<FieldRow>)

  /** The names of the built-in profiles. */
  datatype Tables = Tables(profiles: seq<Text>, haProfiles: seq<Text>)

  // ------------------------------------------------------------------- profiles

  /** Profiles are numbered from 1; 0 is none. */
  function ProfileName(table: seq<Text>, n: nat): Text {
    if 0 < n <= |table| then table[n - 1] else []
  }

  function ProfileNumber(table: seq<Text>, name: Text): nat {
    if FirstAt(table, name) < |table| then FirstAt(table, name) + 1 else 0
  }

  lemma ProfileNameReturns(table: seq<Text>, n: nat)
    ensures var name := ProfileName(table, n); ProfileName(table, ProfileNumber(table, name)) == name
  {
  }

  /** A name has the number of its first place in the table, an unknown one has none. */
  lemma ProfileNumberExactly(table: seq<Text>, name: Text)
    ensures ProfileNumber(table, name) == 0 <==> name !in table
    ensures forall n :: 0 < n <= |table| && ProfileName(table, n) == name ==> 0 < ProfileNumber(table, name) <= n
  {
    var at := FirstAt(table, name);
    FirstIsLeast(table, name);
    assert at < |table| ==> table[at] in table;
  }

  lemma {:induction false} FirstIsLeast(table: seq<Text>, name: Text)
    ensures forall k :: 0 <= k < |table| && table[k] == name ==> FirstAt(table, name) <= k
  {
    if table != [] {
      FirstIsLeast(table[1..], name);
      assert forall k :: 0 < k < |table| ==> table[k] == table[1..][k - 1];
    }
  }

  // --------------------------------------------------------------------- saving

  function FieldRowOf(t: Tables, p: Pool, os: seq<Override>, keyId: Id, i: nat, f: Field): FieldRow
    requires Inside(p)
  {
    FieldRow(LookedUp(p, f.nameId), ProfileName(t.profiles, f.profile),
             if f.position == 0 then 1 else f.position, f.raw,
             ProfileName(t.haProfiles, f.haProfile), MinOf(os, keyId, i), MaxOf(os, keyId, i))
  }

  function FieldRowsOf(t: Tables, p: Pool, os: seq<Override>, keyId: Id, fs: seq<Field>): (rs: seq<FieldRow>)
    requires Inside(p)
    ensures |rs| == |fs|
    ensures forall i :: 0 <= i < |rs| ==> rs[i] == FieldRowOf(t, p, os, keyId, i, fs[i])
  {
    seq(|fs|, i requires 0 <= i < |fs| => FieldRowOf(t, p, os, keyId, i, fs[i]))
  }

  function RowOf(t: Tables, y: System, c: Command): Row
    requires Inside(y.pool)
  {
    Row(LookedUp(y.pool, c.keyId), LookedUp(y.pool, c.nameId), c.readCmd, WriteBytes(y.store.writes, c.writeIdx),
        c.interval, c.master, FieldRowsOf(t, y.pool, y.store.overrides, c.keyId, c.fields))
  }

  function RowsOf(t: Tables, y: System): (rs: seq<Row>)
    requires Inside(y.pool)
    ensures |rs| == |y.store.commands|
    ensures forall i :: 0 <= i < |rs| ==> rs[i] == RowOf(t, y, y.store.commands[i])
  {
    seq(|y.store.commands|, i requires 0 <= i < |y.store.commands| => RowOf(t, y, y.store.commands[i]))
  }

  /** saveCommands: an empty list writes nothing, the file stays as it is. */
  function Saved(t: Tables, y: System, file: Option<seq<Row>>): Option<seq<Row>>
    requires Inside(y.pool)
  {
    if y.store.commands == [] then file else Some(RowsOf(t, y))
  }

  // -------------------------------------------------------------------- loading

  function BothSet(os: seq<Override>, keyId: Id, field: nat, min: Option<real>, max: Option<real>): seq<Override> {
    var os1 := if min.Some? then MinSet(os, keyId, field, min) else os;
    if max.Some? then MaxSet(os1, keyId, field, max) else os1
  }

  function NewId(p: Pool, s: Text): Id
    requires Inside(p)
  {
    Interned(p, s).1
  }

  function NewPool(p: Pool, s: Text): (q: Pool)
    requires Inside(p)
    ensures Inside(q)
  {
    Interned(p, s).0
  }

  function FieldOf(t: Tables, nameId: Id, r: FieldRow): Field {
    Field(nameId, ProfileNumber(t.profiles, r.profile), r.position % 16,
          ProfileNumber(t.haProfiles, r.haProfile), r.raw)
  }

  /** What the loop over the fields of a row builds up. */
  datatype Fields = Fields(pool: Pool, overrides: seq<Override>, fields: seq<Field>)

  /** One field; a fifth field is dropped, but its limits are stored. */
  function FieldLoaded(t: Tables, a: Fields, keyId: Id, r: FieldRow): (b: Fields)
    requires Inside(a.pool)
    ensures Inside(b.pool)
  {
    var field := FieldOf(t, NewId(a.pool, r.name), r);
    Fields(NewPool(a.pool, r.name),
           BothSet(a.overrides, keyId, |a.fields|, r.min, r.max),
           if |a.fields| < MAX_FIELDS then a.fields + [field] else a.fields)
  }

  function FieldsLoaded(t: Tables, a: Fields, keyId: Id, rs: seq<FieldRow>): (b: Fields)
    requires Inside(a.pool)
    ensures Inside(b.pool)
    decreases |rs|
  {
    if rs == [] then a else FieldsLoaded(t, FieldLoaded(t, a, keyId, rs[0]), keyId, rs[1..])
  }

  /** The overrides left after those of the row's key are dropped. */
  function Cleared(p: Pool, os: seq<Override>, key: Text): seq<Override>
    requires Inside(p)
  {
    if NewId(p, key) != 0 then WithoutKeyId(os, NewId(p, key)) else os
  }

  /** The key of a row is interned twice, then the name. */
  function KeyPool(p: Pool, r: Row): (q: Pool)
    requires Inside(p)
    ensures Inside(q)
  {
    NewPool(NewPool(p, r.key), r.key)
  }

  function KeyIdOf(p: Pool, r: Row): Id
    requires Inside(p)
  {
    NewId(NewPool(p, r.key), r.key)
  }

  function NamePool(p: Pool, r: Row): (q: Pool)
    requires Inside(p)
    ensures Inside(q)
  {
    NewPool(KeyPool(p, r), r.name)
  }

  function NameIdOf(p: Pool, r: Row): Id
    requires Inside(p)
  {
    NewId(KeyPool(p, r), r.name)
  }

  /** The fields of the row, with the overrides that are there already. */
  function RowFields(t: Tables, y: System, r: Row): (a: Fields)
    requires Inside(y.pool)
    ensures Inside(a.pool)
  {
    FieldsLoaded(t, Fields(NamePool(y.pool, r), Cleared(y.pool, y.store.overrides, r.key), []),
                 KeyIdOf(y.pool, r), r.fields)
  }

  function RowCommand(t: Tables, y: System, r: Row): Command
    requires Inside(y.pool)
  {
    Command(KeyIdOf(y.pool, r), NameIdOf(y.pool, r), Poll(r.readCmd), WriteSet(y.store.writes, Poll(r.writeCmd)).1,
            r.interval, r.master, RowFields(t, y, r).fields, 0)
  }

  /** One row of deserializeCommands with fromTabular and insertCommand. */
  function RowLoaded(t: Tables, y: System, r: Row): (z: System)
    requires Inside(y.pool)
    ensures Inside(z.pool)
  {
    var a := RowFields(t, y, r);
    System(a.pool,
           Store(Inserted(a.pool, y.store.commands, RowCommand(t, y, r)),
                 WriteSet(y.store.writes, Poll(r.writeCmd)).0, a.overrides))
  }

  function Loaded(t: Tables, y: System, rs: seq<Row>): (z: System)
    requires Inside(y.pool)
    ensures Inside(z.pool)
    decreases |rs|
  {
    if rs == [] then y else Loaded(t, RowLoaded(t, y, rs[0]), rs[1..])
  }

  function NamesOf(rs: seq<FieldRow>): (ns: seq<Text>)
    ensures |ns| == |rs|
    ensures forall i :: 0 <= i < |rs| ==> ns[i] == rs[i].name
  {
    seq(|rs|, i requires 0 <= i < |rs| => rs[i].name)
  }

  /** The texts a row makes the pool intern, in order. */
  function RowNames(r: Row): seq<Text> {
    [r.key] + ([r.key] + ([r.name] + NamesOf(r.fields)))
  }

  function AllNames(rs: seq<Row>): seq<Text> {
    if rs == [] then [] else RowNames(rs[0]) + AllNames(rs[1..])
  }

  // ---------------------------------------------------------------- the methods

  method SetLimits(m: CommandManager, keyId: Id, i: nat, r: FieldRow)
    modifies m
    ensures m.Abs() == old(m.Abs()).(overrides := BothSet(old(m.overrides), keyId, i, r.min, r.max))
  {
    if r.min.Some? {
      m.SetMin(keyId, i, r.min);
    }
    if r.max.Some? {
      m.SetMax(keyId, i, r.max);
    }
  }

  /** One field object of a row. */
  method LoadField(m: CommandManager, t: Tables, keyId: Id, fields: seq<Field>, r: FieldRow) returns (after: seq<Field>)
    requires m.pool.Valid()
    modifies m, m.pool, m.pool.buffer, m.pool.offsets, m.pool.lengths
    ensures m.pool.Valid()
    ensures Fields(m.pool.Abs(), m.overrides, after)
         == FieldLoaded(t, Fields(old(m.pool.Abs()), old(m.overrides), fields), keyId, r)
    ensures m.commands == old(m.commands) && m.writes == old(m.writes)
  {
    var nameId := m.pool.Intern(r.name);
    SetLimits(m, keyId, |fields|, r);
    after := if |fields| < MAX_FIELDS then fields + [FieldOf(t, nameId, r)] else fields;
  }

  lemma LastOfFields(t: Tables, a: Fields, keyId: Id, rs: seq<FieldRow>, i: nat)
    requires Inside(a.pool) && i < |rs|
    ensures FieldsLoaded(t, a, keyId, rs[i..]) == FieldsLoaded(t, FieldLoaded(t, a, keyId, rs[i]), keyId, rs[i + 1..])
  {
    assert rs[i..][1..] == rs[i + 1..];
  }

  method LoadFields(m: CommandManager, t: Tables, keyId: Id, rs: seq<FieldRow>) returns (fields: seq<Field>)
    requires m.pool.Valid()
    modifies m, m.pool, m.pool.buffer, m.pool.offsets, m.pool.lengths
    ensures m.pool.Valid()
    ensures Fields(m.pool.Abs(), m.overrides, fields)
         == FieldsLoaded(t, Fields(old(m.pool.Abs()), old(m.overrides), []), keyId, rs)
    ensures m.commands == old(m.commands) && m.writes == old(m.writes)
  {
    fields := [];
    ghost var start := Fields(m.pool.Abs(), m.overrides, []);
    var i := 0;
    assert rs[0..] == rs;
    while i < |rs|
      invariant 0 <= i <= |rs| && m.pool.Valid()
      invariant FieldsLoaded(t, start, keyId, rs)
             == FieldsLoaded(t, Fields(m.pool.Abs(), m.overrides, fields), keyId, rs[i..])
      invariant m.commands == old(m.commands) && m.writes == old(m.writes)
    {
      LastOfFields(t, Fields(m.pool.Abs(), m.overrides, fields), keyId, rs, i);
      fields := LoadField(m, t, keyId, fields, rs[i]);
      i := i + 1;
    }
  }

  /** Key and name of a row; the overrides of the key are dropped. */
  method StartRow(m: CommandManager, r: Row) returns (keyId: Id, nameId: Id)
    requires m.pool.Valid()
    modifies m, m.pool, m.pool.buffer, m.pool.offsets, m.pool.lengths
    ensures m.pool.Valid()
    ensures m.pool.Abs() == NamePool(old(m.pool.Abs()), r)
    ensures keyId == KeyIdOf(old(m.pool.Abs()), r) && nameId == NameIdOf(old(m.pool.Abs()), r)
    ensures m.Abs() == old(m.Abs()).(overrides := Cleared(old(m.pool.Abs()), old(m.overrides), r.key))
  {
    var kid := m.pool.Intern(r.key);
    if kid != 0 {
      m.RemoveFieldOverrides(kid);
    }
    keyId := m.pool.Intern(r.key);
    nameId := m.pool.Intern(r.name);
  }

  /** One element of the file. */
  method LoadRow(m: CommandManager, t: Tables, r: Row)
    requires m.pool.Valid()
    modifies m, m.pool, m.pool.buffer, m.pool.offsets, m.pool.lengths
    ensures m.pool.Valid()
    ensures System(m.pool.Abs(), m.Abs()) == RowLoaded(t, System(old(m.pool.Abs()), old(m.Abs())), r)
  {
    ghost var was := System(m.pool.Abs(), m.Abs());
    var keyId, nameId := StartRow(m, r);
    var writeIdx := m.SetWrite(Poll(r.writeCmd));
    var fields := LoadFields(m, t, keyId, r.fields);
    var command := Command(keyId, nameId, Poll(r.readCmd), writeIdx, r.interval, r.master, fields, 0);
    assert command == RowCommand(t, was, r);
    m.Insert(command);
  }

  lemma NextRow(t: Tables, y: System, rs: seq<Row>, i: nat)
    requires Inside(y.pool) && i < |rs|
    ensures Loaded(t, y, rs[i..]) == Loaded(t, RowLoaded(t, y, rs[i]), rs[i + 1..])
  {
    assert rs[i..][1..] == rs[i + 1..];
  }

  /** deserializeCommands, the header row being read. */
  method Deserialize(m: CommandManager, t: Tables, rs: seq<Row>)
    requires m.pool.Valid()
    modifies m, m.pool, m.pool.buffer, m.pool.offsets, m.pool.lengths
    ensures m.pool.Valid()
    ensures System(m.pool.Abs(), m.Abs()) == Loaded(t, System(old(m.pool.Abs()), old(m.Abs())), rs)
  {
    ghost var start := System(m.pool.Abs(), m.Abs());
    var i := 0;
    assert rs[0..] == rs;
    while i < |rs|
      invariant 0 <= i <= |rs| && m.pool.Valid()
      invariant Loaded(t, start, rs) == Loaded(t, System(m.pool.Abs(), m.Abs()), rs[i..])
    {
      NextRow(t, System(m.pool.Abs(), m.Abs()), rs, i);
      LoadRow(m, t, rs[i]);
      i := i + 1;
    }
  }

  method SaveField(m: CommandManager, t: Tables, keyId: Id, i: nat, f: Field) returns (r: FieldRow)
    requires m.pool.Valid()
    ensures r == FieldRowOf(t, m.pool.Abs(), m.overrides, keyId, i, f)
  {
    var name := m.pool.Lookup(f.nameId);
    var o := m.FindOverride(keyId, i % 256);
    var (min, max) := if o < |m.overrides| then (m.overrides[o].min, m.overrides[o].max) else (None, None);
    r := FieldRow(name, ProfileName(t.profiles, f.profile), if f.position == 0 then 1 else f.position, f.raw,
                  ProfileName(t.haProfiles, f.haProfile), min, max);
  }

  method SaveFields(m: CommandManager, t: Tables, c: Command) returns (rs: seq<FieldRow>)
    requires m.pool.Valid()
    ensures rs == FieldRowsOf(t, m.pool.Abs(), m.overrides, c.keyId, c.fields)
  {
    ghost var all := FieldRowsOf(t, m.pool.Abs(), m.overrides, c.keyId, c.fields);
    rs := [];
    while |rs| < |c.fields|
      invariant |rs| <= |c.fields| && rs == all[..|rs|]
    {
      var r := SaveField(m, t, c.keyId, |rs|, c.fields[|rs|]);
      TakeOneMore(all, |rs|);
      rs := rs + [r];
    }
    TakeAll(all);
  }

  method SaveRow(m: CommandManager, t: Tables, c: Command) returns (r: Row)
    requires m.pool.Valid()
    ensures r == RowOf(t, System(m.pool.Abs(), m.Abs()), c)
  {
    var key := m.pool.Lookup(c.keyId);
    var name := m.pool.Lookup(c.nameId);
    var fields := SaveFields(m, t, c);
    r := Row(key, name, c.readCmd, WriteBytes(m.writes, c.writeIdx), c.interval, c.master, fields);
  }

  /** saveCommands; None if no file is written. */
  method SaveCommands(m: CommandManager, t: Tables) returns (rows: Option<seq<Row>>)
    requires m.pool.Valid()
    ensures rows == if m.commands == [] then None else Some(RowsOf(t, System(m.pool.Abs(), m.Abs())))
  {
    if m.commands == [] {
      return None;
    }
    ghost var all := RowsOf(t, System(m.pool.Abs(), m.Abs()));
    var rs: seq<Row> := [];
    while |rs| < |m.commands|
      invariant |rs| <= |m.commands| && rs == all[..|rs|]
    {
      var row := SaveRow(m, t, m.commands[|rs|]);
      TakeOneMore(all, |rs|);
      rs := rs + [row];
    }
    TakeAll(all);
    rows := Some(rs);
  }

  // --------------------------------------------------------------- pools that grow

  ghost predicate Grown(p: Pool, q: Pool) {
    Inside(p) && Inside(q) && Texts(p) <= Texts(q)
  }

  /** The text gets a number, or needs none. */
  predicate RoomFor(p: Pool, s: Text)
    requires Inside(p)
  {
    s == [] || NewId(p, s) != 0
  }

  /** No text of the list is refused when they are interned in this order. */
  predicate Room(p: Pool, names: seq<Text>)
    requires Inside(p)
    decreases |names|
  {
    names == [] || (RoomFor(p, names[0]) && Room(NewPool(p, names[0]), names[1..]))
  }

  function PoolAfter(p: Pool, names: seq<Text>): (q: Pool)
    requires Inside(p)
    ensures Inside(q)
    decreases |names|
  {
    if names == [] then p else PoolAfter(NewPool(p, names[0]), names[1..])
  }

  lemma GrownIsTransitive(p: Pool, q: Pool, r: Pool)
    requires Grown(p, q) && Grown(q, r)
    ensures Grown(p, r)
  {
  }

  lemma InternedWell(p: Pool, s: Text)
    requires Inside(p) && RoomFor(p, s) && |s| <= 255
    ensures Grown(p, NewPool(p, s)) && LookedUp(NewPool(p, s), NewId(p, s)) == s
    ensures NewId(p, s) <= |NewPool(p, s).entries|
  {
    var (q, id) := Interned(p, s);
    InternedTexts(p, s);
    LookedUpIsNamed(q, id);
    NamedBack(Texts(p), s, Fits(p, s), Texts(q), id);
    assert |Texts(q)| == |q.entries|;
  }

  lemma NameStays(p: Pool, q: Pool, id: nat)
    requires Grown(p, q) && id <= |p.entries|
    ensures LookedUp(q, id) == LookedUp(p, id) && id <= |q.entries|
  {
    LookedUpIsNamed(p, id);
    LookedUpIsNamed(q, id);
    assert |Texts(p)| == |p.entries| && |Texts(q)| == |q.entries|;
    PrefixNames(Texts(p), Texts(q), id);
  }

  lemma PrefixNames(ts: seq<Text>, us: seq<Text>, id: nat)
    requires ts <= us && id <= |ts|
    ensures Named(us, id) == Named(ts, id) && id <= |us|
  {
  }

  lemma {:induction false} RoomSplits(p: Pool, a: seq<Text>, b: seq<Text>)
    requires Inside(p)
    ensures Room(p, a + b) <==> Room(p, a) && Room(PoolAfter(p, a), b)
    ensures PoolAfter(p, a + b) == PoolAfter(PoolAfter(p, a), b)
    decreases |a|
  {
    if a == [] {
      assert a + b == b;
    } else {
      assert (a + b)[1..] == a[1..] + b;
      RoomSplits(NewPool(p, a[0]), a[1..], b);
    }
  }

  /** Texts that are all in the pool already always find room. */
  lemma {:induction false} KnownNamesHaveRoom(p: Pool, names: seq<Text>)
    requires Inside(p) && forall n :: n in names ==> n == [] || n in Texts(p)
    ensures Room(p, names) && PoolAfter(p, names) == p
    decreases |names|
  {
    if names != [] {
      assert names[0] in names;
      InternedTexts(p, names[0]);
      SearchFinds(p, names[0]);
      KnownNamesHaveRoom(p, names[1..]);
    }
  }
}
