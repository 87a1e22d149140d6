/** Reading a row over what is there already: the limits of the key are those of the row
    and none of the earlier ones, and no other key loses or gains any. */
module CommandReloads {
  import opened Words
  import opened Sequences
  import opened StringPools
  import opened CommandStores
  import opened CommandFiles

  /** Where the limits of the k-th field object go; from the fifth on, to one place. */
  function SlotOf(k: nat): nat {
    if k < 4 then k else 4
  }

  /** The override is that of a field object of the row which has limits. */
  ghost predicate IsOfRow(o: Override, id: Id, rs: seq<FieldRow>) {
    o.keyId == id && exists k: nat :: k < |rs| && SlotOf(k) == o.field && HasLimits(rs[k])
  }

  predicate HasLimits(r: FieldRow) {
    r.min.Some? || r.max.Some?
  }

  /** The overrides of the key are all of the row. */
  ghost predicate OnlyOfRow(os: seq<Override>, id: Id, rs: seq<FieldRow>) {
    forall i :: 0 <= i < |os| && os[i].keyId == id ==> IsOfRow(os[i], id, rs)
  }

  lemma RowGrows(o: Override, id: Id, rs: seq<FieldRow>, r: FieldRow)
    requires IsOfRow(o, id, rs)
    ensures IsOfRow(o, id, rs + [r])
  {
    var k: nat :| k < |rs| && SlotOf(k) == o.field && HasLimits(rs[k]);
    assert (rs + [r])[k] == rs[k];
  }

  lemma NewestIsOfRow(o: Override, id: Id, rs: seq<FieldRow>, r: FieldRow)
    requires o.keyId == id && o.field == SlotOf(|rs|) && HasLimits(r)
    ensures IsOfRow(o, id, rs + [r])
  {
    assert (rs + [r])[|rs|] == r;
  }

  /** What setting a limit can do to a list. */
  ghost predicate SetIn(os: seq<Override>, id: Id, field: nat, after: seq<Override>) {
    || after == os
    || (exists i :: 0 <= i < |os| && os[i].keyId == id && os[i].field == field
          && |after| == |os| && after == os[i := after[i]] && after[i].keyId == id && after[i].field == field)
    || (|after| == |os| + 1 && after[..|os|] == os && after[|os|].keyId == id && after[|os|].field == field)
  }

  lemma MinIsSetIn(os: seq<Override>, id: Id, field: nat, v: Option<real>)
    requires field < 256
    ensures SetIn(os, id, field, MinSet(os, id, field, v)) && SetIn(os, id, field, MaxSet(os, id, field, v))
  {
    var i := OverrideIndex(os, id, field);
    if i < |os| {
      assert os[i].keyId == id;
    }
  }

  lemma SetElsewhere(os: seq<Override>, id: Id, field: nat, after: seq<Override>, j: nat)
    requires SetIn(os, id, field, after) && j < |after| && after[j].field != field
    ensures j < |os| && after[j] == os[j]
  {
    if |after| == |os| + 1 {
      assert j < |os| ==> after[..|os|][j] == after[j];
    }
  }

  lemma SetKeepsOnly(os: seq<Override>, id: Id, field: nat, after: seq<Override>, rs: seq<FieldRow>, r: FieldRow)
    requires SetIn(os, id, field, after) && field == SlotOf(|rs|) && HasLimits(r)
    requires OnlyOfRow(os, id, rs + [r])
    ensures OnlyOfRow(after, id, rs + [r])
  {
    forall j | 0 <= j < |after| && after[j].keyId == id
      ensures IsOfRow(after[j], id, rs + [r])
    {
      if after[j].field == field {
        NewestIsOfRow(after[j], id, rs, r);
      } else {
        SetElsewhere(os, id, field, after, j);
      }
    }
  }

  lemma {:induction false} OthersOfUpdate(os: seq<Override>, id: Id, i: nat, o: Override)
    requires i < |os| && os[i].keyId == id && o.keyId == id
    ensures WithoutKeyId(os[i := o], id) == WithoutKeyId(os, id)
  {
    if i == 0 {
      assert os[i := o][1..] == os[1..];
    } else {
      assert os[i := o][1..] == os[1..][i - 1 := o];
      OthersOfUpdate(os[1..], id, i - 1, o);
    }
  }

  lemma {:induction false} OthersOfAppend(os: seq<Override>, id: Id, o: Override)
    requires o.keyId == id
    ensures WithoutKeyId(os + [o], id) == WithoutKeyId(os, id)
  {
    if os != [] {
      assert (os + [o])[1..] == os[1..] + [o];
      OthersOfAppend(os[1..], id, o);
    }
  }

  lemma SetKeepsOthers(os: seq<Override>, id: Id, field: nat, after: seq<Override>)
    requires SetIn(os, id, field, after)
    ensures WithoutKeyId(after, id) == WithoutKeyId(os, id)
  {
    if after != os {
      if |after| == |os| {
        var i :| 0 <= i < |os| && os[i].keyId == id && after == os[i := after[i]] && after[i].keyId == id;
        OthersOfUpdate(os, id, i, after[i]);
      } else {
        assert after == os + [after[|os|]];
        OthersOfAppend(os, id, after[|os|]);
      }
    }
  }

  /** The limits of one field object. */
  lemma OneFieldLoaded(os: seq<Override>, id: Id, rs: seq<FieldRow>, r: FieldRow)
    requires OnlyOfRow(os, id, rs)
    ensures var after := BothSet(os, id, SlotOf(|rs|), r.min, r.max);
      OnlyOfRow(after, id, rs + [r]) && WithoutKeyId(after, id) == WithoutKeyId(os, id)
  {
    var field := SlotOf(|rs|);
    var os1 := if r.min.Some? then MinSet(os, id, field, r.min) else os;
    forall i | 0 <= i < |os| && os[i].keyId == id
      ensures IsOfRow(os[i], id, rs + [r])
    {
      RowGrows(os[i], id, rs, r);
    }
    MinIsSetIn(os, id, field, r.min);
    MinIsSetIn(os1, id, field, r.max);
    if r.min.Some? {
      SetKeepsOnly(os, id, field, os1, rs, r);
      SetKeepsOthers(os, id, field, os1);
    }
    if r.max.Some? {
      SetKeepsOnly(os1, id, field, MaxSet(os1, id, field, r.max), rs, r);
      SetKeepsOthers(os1, id, field, MaxSet(os1, id, field, r.max));
    }
  }

  lemma {:induction false} FieldsOnlyOfRow(t: Tables, a: Fields, id: Id, done: seq<FieldRow>, rs: seq<FieldRow>)
    requires Inside(a.pool) && |a.fields| == SlotOf(|done|) && OnlyOfRow(a.overrides, id, done)
    ensures var after := FieldsLoaded(t, a, id, rs).overrides;
      OnlyOfRow(after, id, done + rs) && WithoutKeyId(after, id) == WithoutKeyId(a.overrides, id)
    decreases |rs|
  {
    if rs == [] {
      EmptyIsNeutral(done);
    } else {
      FirstFieldOfRow(t, a, id, done, rs[0]);
      FieldsOnlyOfRow(t, FieldLoaded(t, a, id, rs[0]), id, done + [rs[0]], rs[1..]);
      FirstMoves(done, rs);
    }
  }

  lemma FirstFieldOfRow(t: Tables, a: Fields, id: Id, done: seq<FieldRow>, r: FieldRow)
    requires Inside(a.pool) && |a.fields| == SlotOf(|done|) && OnlyOfRow(a.overrides, id, done)
    ensures var b := FieldLoaded(t, a, id, r);
      && |b.fields| == SlotOf(|done + [r]|) && OnlyOfRow(b.overrides, id, done + [r])
      && WithoutKeyId(b.overrides, id) == WithoutKeyId(a.overrides, id)
  {
    OneFieldLoaded(a.overrides, id, done, r);
  }

  lemma FirstMoves<T>(done: seq<T>, rs: seq<T>)
    requires rs != []
    ensures (done + [rs[0]]) + rs[1..] == done + rs
  {
  }

  lemma {:induction false} NoneAreLeft(os: seq<Override>, id: Id, i: nat)
    requires i < |WithoutKeyId(os, id)|
    ensures WithoutKeyId(os, id)[i].keyId != id
  {
    if os[0].keyId == id {
      NoneAreLeft(os[1..], id, i);
    } else if i > 0 {
      NoneAreLeft(os[1..], id, i - 1);
    }
  }

  lemma {:induction false} WithoutTwice(os: seq<Override>, id: Id)
    ensures WithoutKeyId(WithoutKeyId(os, id), id) == WithoutKeyId(os, id)
  {
    if os != [] {
      WithoutTwice(os[1..], id);
      if os[0].keyId != id {
        assert ([os[0]] + WithoutKeyId(os[1..], id))[1..] == WithoutKeyId(os[1..], id);
      }
    }
  }

  /** The key has one number, whenever it is interned. */
  lemma SameKeyAgain(p: Pool, key: Text)
    requires Inside(p) && |key| <= 255 && !Wraps(p, key) && NewId(p, key) != 0
    ensures NewId(NewPool(p, key), key) == NewId(p, key)
    ensures NewPool(NewPool(p, key), key) == NewPool(p, key)
  {
    var q := NewPool(p, key);
    InternedTexts(p, key);
    WholeString(key);
    SearchFinds(p, key);
    SearchFinds(q, key);
    SearchFirst(p, q, key);
  }

  lemma SearchFirst(p: Pool, q: Pool, key: Text)
    requires Inside(p) && Inside(q) && key in Texts(q)
    requires q == p || (key !in Texts(p) && Texts(q) == Texts(p) + [key])
    ensures Search(q, key) == if q == p then Search(p, key) else |p.entries|
  {
    SearchFinds(q, key);
    if q != p {
      assert |Texts(p)| == |p.entries|;
      assert forall k :: 0 <= k < |p.entries| ==> Texts(q)[k] == Texts(p)[k] && Texts(p)[k] in Texts(p);
    }
  }

  /** Loading a row, over an earlier command with its key or not: the overrides of the key
      are then all of field objects of this row with limits, so that stale ones are gone,
      and the overrides of all other keys are as they were. */
  lemma RowReplacesItsLimits(t: Tables, y: System, r: Row)
    requires Inside(y.pool) && |r.key| <= 255 && !Wraps(y.pool, r.key) && NewId(y.pool, r.key) != 0
    ensures var after, id := RowLoaded(t, y, r).store.overrides, NewId(y.pool, r.key);
      && KeyIdOf(y.pool, r) == id
      && OnlyOfRow(after, id, r.fields)
      && WithoutKeyId(after, id) == WithoutKeyId(y.store.overrides, id)
  {
    var id := NewId(y.pool, r.key);
    var kept := WithoutKeyId(y.store.overrides, id);
    SameKeyAgain(y.pool, r.key);
    forall i | 0 <= i < |kept|
      ensures kept[i].keyId != id
    {
      NoneAreLeft(y.store.overrides, id, i);
    }
    FieldsOnlyOfRow(t, Fields(NamePool(y.pool, r), kept, []), id, [], r.fields);
    EmptyIsNeutral(r.fields);
    WithoutTwice(y.store.overrides, id);
  }

  /** So a field that has no limits in the row has none afterwards, whatever it had. */
  lemma StaleLimitsAreGone(t: Tables, y: System, r: Row, f: nat)
    requires Inside(y.pool) && |r.key| <= 255 && !Wraps(y.pool, r.key) && NewId(y.pool, r.key) != 0
    requires f < 4 && (f < |r.fields| ==> !HasLimits(r.fields[f]))
    ensures var after, id := RowLoaded(t, y, r).store.overrides, NewId(y.pool, r.key);
      MinOf(after, id, f) == None && MaxOf(after, id, f) == None
  {
    var after, id := RowLoaded(t, y, r).store.overrides, NewId(y.pool, r.key);
    RowReplacesItsLimits(t, y, r);
    NoneOfRow(after, id, r.fields, f);
  }

  lemma NoneOfRow(os: seq<Override>, id: Id, rs: seq<FieldRow>, f: nat)
    requires OnlyOfRow(os, id, rs) && f < 4 && (f < |rs| ==> !HasLimits(rs[f]))
    ensures MinOf(os, id, f) == None && MaxOf(os, id, f) == None
  {
    forall i | 0 <= i < |os| && os[i].keyId == id
      ensures os[i].field != f
    {
      NotOfField(os[i], id, rs, f);
    }
  }

  lemma NotOfField(o: Override, id: Id, rs: seq<FieldRow>, f: nat)
    requires IsOfRow(o, id, rs) && f < 4 && (f < |rs| ==> !HasLimits(rs[f]))
    ensures o.field != f
  {
    var k: nat :| k < |rs| && SlotOf(k) == o.field && HasLimits(rs[k]);
  }

  /** A command that was there keeps its poll id, whether or not the row is for its key; a
      command that is new has none. */
  lemma PollIdsStay(t: Tables, y: System, r: Row, i: nat)
    requires Inside(y.pool)
    ensures var after := RowLoaded(t, y, r).store.commands;
      && |y.store.commands| <= |after| <= |y.store.commands| + 1
      && (i < |y.store.commands| ==> after[i].pollId == y.store.commands[i].pollId)
      && (|y.store.commands| <= i < |after| ==> after[i].pollId == 0)
  {
  }
}
