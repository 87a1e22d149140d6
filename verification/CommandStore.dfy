/** The command store (src/app/command_manager.cpp, src/app/command.cpp): commands by
    key, the write parts they share, and the overrides of field limits, each in a
    vector of fixed capacity. */
module CommandStores {
  import opened Words
  import opened Sequences
  import opened StringPools

  // The sizes of the firmware that contains the command store.
  const COMMANDS := 96
  const WRITE_COMMANDS := 16
  const OVERRIDES := 16
  const MAX_FIELDS := 4
  const POLL_CAPACITY := 24

  type Bytes = seq<Byte>

  /** Assigning to a sequence of the scheduler keeps what fits. */
  function Poll(bytes: Bytes): (r: Bytes)
    ensures |r| <= POLL_CAPACITY && r <= bytes
    ensures |bytes| <= POLL_CAPACITY ==> r == bytes
  {
    if |bytes| <= POLL_CAPACITY then bytes else bytes[..POLL_CAPACITY]
  }

  datatype Field = Field(nameId: Id, profile: nat, position: nat, haProfile: nat, raw: bool)

  /** A command; writeIdx is 0 or one more than an index into the shared write parts.
      pollId stands for the fields that only matter at run time. */
  datatype Command = Command(
    keyId: Id, nameId: Id, readCmd: Bytes, writeIdx: nat, interval: nat, master: bool,
    fields: seq<Field>, pollId: nat)

  /** NaN, the mark for "no override", is None. */
  datatype Override = Override(keyId: Id, field: nat, min: Option<real>, max: Option<real>)

  datatype Store = Store(commands: seq<Command>, writes: seq<Bytes>, overrides: seq<Override>)

  const EMPTY_STORE := Store([], [], [])

  datatype System = System(pool: Pool, store: Store)

  // ------------------------------------------------------------------ commands

  function KeyOf(p: Pool, c: Command): Text
    requires Inside(p)
  {
    LookedUp(p, c.keyId)
  }

  function Keys(p: Pool, cs: seq<Command>): (ks: seq<Text>)
    requires Inside(p)
    ensures |ks| == |cs|
    ensures forall i :: 0 <= i < |ks| ==> ks[i] == KeyOf(p, cs[i])
  {
    seq(|cs|, i requires 0 <= i < |cs| => KeyOf(p, cs[i]))
  }

  /** First command with this key; |cs| if there is none. */
  function IndexOf(p: Pool, cs: seq<Command>, key: Text): (n: nat)
    requires Inside(p)
    ensures n <= |cs|
  {
    if cs == [] || KeyOf(p, cs[0]) == key then 0 else 1 + IndexOf(p, cs[1..], key)
  }

  lemma {:induction false} IndexOfFinds(p: Pool, cs: seq<Command>, key: Text)
    requires Inside(p)
    ensures IndexOf(p, cs, key) < |cs| <==> key in Keys(p, cs)
    ensures IndexOf(p, cs, key) < |cs| ==> Keys(p, cs)[IndexOf(p, cs, key)] == key
  {
    if cs != [] {
      IndexOfFinds(p, cs[1..], key);
      assert Keys(p, cs) == [KeyOf(p, cs[0])] + Keys(p, cs[1..]);
    }
  }

  /** insertCommand: in place of the command with the same key, which leaves it its
      poll id, or behind the others while there is room. */
  function Inserted(p: Pool, cs: seq<Command>, c: Command): seq<Command>
    requires Inside(p)
  {
    var i := IndexOf(p, cs, KeyOf(p, c));
    if i < |cs| then cs[i := c.(pollId := cs[i].pollId)]
    else if |cs| < COMMANDS then cs + [c]
    else cs
  }

  function Without<T>(s: seq<T>, i: nat): seq<T>
    requires i < |s|
  {
    s[..i] + s[i + 1..]
  }

  function WithoutKeyId(os: seq<Override>, keyId: Id): seq<Override> {
    if os == [] then []
    else if os[0].keyId == keyId then WithoutKeyId(os[1..], keyId)
    else [os[0]] + WithoutKeyId(os[1..], keyId)
  }

  function Removed(p: Pool, s: Store, key: Text): Store
    requires Inside(p)
  {
    var i := IndexOf(p, s.commands, key);
    if i == |s.commands| then s
    else s.(commands := Without(s.commands, i), overrides := WithoutKeyId(s.overrides, s.commands[i].keyId))
  }

  // -------------------------------------------------------------- write parts

  /** Position of the first of them that equals x, or their number. */
  function FirstAt(all: seq<seq<Byte>>, x: seq<Byte>): (n: nat)
    ensures n <= |all|
    ensures n < |all| ==> all[n] == x
    ensures n == |all| ==> x !in all
  {
    if all == [] || all[0] == x then 0 else 1 + FirstAt(all[1..], x)
  }

  /** setWriteCmd: the write parts afterwards, and the index the command gets. */
  function WriteSet(writes: seq<Bytes>, bytes: Bytes): (seq<Bytes>, nat) {
    if bytes == [] then (writes, 0)
    else if FirstAt(writes, bytes) < |writes| then (writes, FirstAt(writes, bytes) + 1)
    else if |writes| < WRITE_COMMANDS then (writes + [bytes], |writes| + 1)
    else (writes, 0)
  }

  /** getWriteCmd */
  function WriteBytes(writes: seq<Bytes>, writeIdx: nat): Bytes {
    if 0 < writeIdx <= |writes| then writes[writeIdx - 1] else []
  }

  // ----------------------------------------------------------------- overrides

  /** First override of the field; |os| if there is none. */
  function OverrideIndex(os: seq<Override>, keyId: Id, field: nat): (n: nat)
    ensures n <= |os|
    ensures n < |os| ==> os[n].keyId == keyId && os[n].field == field
    ensures forall k :: 0 <= k < n ==> !(os[k].keyId == keyId && os[k].field == field)
  {
    if os == [] || (os[0].keyId == keyId && os[0].field == field) then 0 else 1 + OverrideIndex(os[1..], keyId, field)
  }

  function MinOf(os: seq<Override>, keyId: Id, field: nat): Option<real> {
    var i := OverrideIndex(os, keyId, field % 256);
    if i < |os| then os[i].min else None
  }

  function MaxOf(os: seq<Override>, keyId: Id, field: nat): Option<real> {
    var i := OverrideIndex(os, keyId, field % 256);
    if i < |os| then os[i].max else None
  }

  function MinSet(os: seq<Override>, keyId: Id, field: nat, min: Option<real>): seq<Override> {
    var i := OverrideIndex(os, keyId, field % 256);
    if i < |os| then os[i := os[i].(min := min)]
    else if |os| >= OVERRIDES then os
    else os + [Override(keyId, field % 256, min, None)]
  }

  function MaxSet(os: seq<Override>, keyId: Id, field: nat, max: Option<real>): seq<Override> {
    var i := OverrideIndex(os, keyId, field % 256);
    if i < |os| then os[i := os[i].(max := max)]
    else if |os| >= OVERRIDES then os
    else os + [Override(keyId, field % 256, None, max)]
  }

  // --------------------------------------------------------------- the manager

  class CommandManager {
    const pool: StringPool
    var commands: seq<Command>
    var writes: seq<Bytes>
    var overrides: seq<Override>

    ghost function Abs(): Store
      reads this
    {
      Store(commands, writes, overrides)
    }

    constructor (pool: StringPool)
      ensures this.pool == pool && Abs() == EMPTY_STORE
    {
      this.pool := pool;
      commands, writes, overrides := [], [], [];
    }

    /** The loop that insertCommand, removeCommand and findCommand share. */
    method Find(key: Text) returns (i: nat)
      requires pool.Valid()
      ensures i == IndexOf(pool.Abs(), commands, key)
    {
      i := 0;
      assert commands[0..] == commands;
      while i < |commands|
        invariant 0 <= i <= |commands|
        invariant IndexOf(pool.Abs(), commands, key) == i + IndexOf(pool.Abs(), commands[i..], key)
      {
        IndexStep(pool.Abs(), commands, i, key);
        var k := pool.Lookup(commands[i].keyId);
        if k == key {
          return;
        }
        i := i + 1;
      }
    }

    method Insert(c: Command)
      requires pool.Valid()
      modifies this
      ensures Abs() == old(Abs()).(commands := Inserted(old(pool.Abs()), old(commands), c))
    {
      var key := pool.Lookup(c.keyId);
      var i := Find(key);
      if i < |commands| {
        var oldPollId := commands[i].pollId;
        commands := commands[i := c];
        commands := commands[i := commands[i].(pollId := oldPollId)];
      } else if |commands| < COMMANDS {
        commands := commands + [c];
      }
    }

    method RemoveFieldOverrides(keyId: Id)
      modifies this
      ensures Abs() == old(Abs()).(overrides := WithoutKeyId(old(overrides), keyId))
    {
      var i := |overrides|;
      ghost var was := overrides;
      assert was[i..] == [] && overrides[..i] == was;
      EmptyIsNeutral(was);
      while i > 0
        invariant 0 <= i <= |was|
        invariant overrides == was[..i] + WithoutKeyId(was[i..], keyId)
        invariant commands == old(commands) && writes == old(writes)
      {
        i := i - 1;
        ErasedOrKept(was, overrides, i, keyId);
        if overrides[i].keyId == keyId {
          overrides := Without(overrides, i);
        }
      }
      assert was[0..] == was;
      EmptyIsNeutral(WithoutKeyId(was, keyId));
    }

    method Remove(key: Text)
      requires pool.Valid()
      modifies this
      ensures Abs() == Removed(old(pool.Abs()), old(Abs()), key)
    {
      var i := Find(key);
      if i < |commands| {
        var removedKeyId := commands[i].keyId;
        commands := Without(commands, i);
        RemoveFieldOverrides(removedKeyId);
      }
    }

    /** removeAll and wipeCommands: the write parts stay. */
    method RemoveAll()
      modifies this
      ensures Abs() == Store([], old(writes), [])
    {
      commands, overrides := [], [];
    }

    /** Command::setWriteCmd with addWriteCmd. */
    method SetWrite(bytes: Bytes) returns (writeIdx: nat)
      modifies this
      ensures (writes, writeIdx) == WriteSet(old(writes), bytes)
      ensures Abs() == old(Abs()).(writes := writes)
    {
      if bytes == [] {
        return 0;
      }
      var i := 0;
      assert writes[0..] == writes;
      while i < |writes|
        invariant 0 <= i <= |writes| && writes == old(writes)
        invariant FirstAt(writes, bytes) == i + FirstAt(writes[i..], bytes)
      {
        assert writes[i..][0] == writes[i] && writes[i..][1..] == writes[i + 1..];
        if writes[i] == bytes {
          return i + 1;
        }
        i := i + 1;
      }
      if |writes| < WRITE_COMMANDS {
        writes := writes + [bytes];
        writeIdx := |writes|;
      } else {
        writeIdx := 0;
      }
    }

    /** findOverride */
    method FindOverride(keyId: Id, field: nat) returns (i: nat)
      ensures i == OverrideIndex(overrides, keyId, field)
    {
      i := 0;
      assert overrides[0..] == overrides;
      while i < |overrides|
        invariant 0 <= i <= |overrides|
        invariant OverrideIndex(overrides, keyId, field) == i + OverrideIndex(overrides[i..], keyId, field)
      {
        assert overrides[i..][0] == overrides[i] && overrides[i..][1..] == overrides[i + 1..];
        if overrides[i].keyId == keyId && overrides[i].field == field {
          return;
        }
        i := i + 1;
      }
    }

    method SetMin(keyId: Id, field: nat, min: Option<real>)
      modifies this
      ensures Abs() == old(Abs()).(overrides := MinSet(old(overrides), keyId, field, min))
    {
      var i := FindOverride(keyId, field % 256);
      if i < |overrides| {
        overrides := overrides[i := overrides[i].(min := min)];
      } else if |overrides| < OVERRIDES {
        overrides := overrides + [Override(keyId, field % 256, min, None)];
      }
    }

    method SetMax(keyId: Id, field: nat, max: Option<real>)
      modifies this
      ensures Abs() == old(Abs()).(overrides := MaxSet(old(overrides), keyId, field, max))
    {
      var i := FindOverride(keyId, field % 256);
      if i < |overrides| {
        overrides := overrides[i := overrides[i].(max := max)];
      } else if |overrides| < OVERRIDES {
        overrides := overrides + [Override(keyId, field % 256, None, max)];
      }
    }
  }

  lemma IndexStep(p: Pool, cs: seq<Command>, i: nat, key: Text)
    requires Inside(p) && i < |cs|
    ensures IndexOf(p, cs[i..], key) == if KeyOf(p, cs[i]) == key then 0 else 1 + IndexOf(p, cs[i + 1..], key)
  {
    assert cs[i..][0] == cs[i] && cs[i..][1..] == cs[i + 1..];
  }

  lemma ErasedOrKept(was: seq<Override>, now: seq<Override>, i: nat, keyId: Id)
    requires i < |was| && now == was[..i + 1] + WithoutKeyId(was[i + 1..], keyId)
    ensures i < |now| && now[i] == was[i]
    ensures was[..i] + WithoutKeyId(was[i..], keyId) == if was[i].keyId == keyId then Without(now, i) else now
  {
    var rest := WithoutKeyId(was[i + 1..], keyId);
    assert was[i..][0] == was[i] && was[i..][1..] == was[i + 1..];
    assert was[..i + 1] == was[..i] + [was[i]];
    Associative(was[..i], [was[i]], rest);
    Erased(was[..i], was[i], rest);
  }

  lemma Erased<T>(before: seq<T>, x: T, rest: seq<T>)
    ensures Without(before + [x] + rest, |before|) == before + rest
  {
  }
}
