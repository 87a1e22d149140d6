/** The string pool (include/system/string_pool.hpp): strings packed one behind the
    other into a buffer of 2048 bytes and named by numbers of 8 bits. */
module StringPools {
  import opened Words
  import opened Sequences

  const BUFFER_SIZE := 2048
  const MAX_STRINGS := 256

  type Text = seq<Byte>

  /** A number of the pool, 8 bits; 0 is none. */
  type Id = x: nat | x < 256

  datatype Entry = Entry(offset: nat, length: nat)

  /** The entries below count, and the bytes of the buffer below the write offset. */
  datatype Pool = Pool(entries: seq<Entry>, used: seq<Byte>)

  const EMPTY_POOL := Pool([], [])

  predicate Inside(p: Pool) {
    && |p.entries| < MAX_STRINGS && |p.used| <= BUFFER_SIZE
    && forall i :: 0 <= i < |p.entries| ==>
      p.entries[i].offset + p.entries[i].length <= |p.used| && p.entries[i].length < 256
  }

  function TextOf(e: Entry, used: seq<Byte>): Text
    requires e.offset + e.length <= |used|
  {
    used[e.offset..e.offset + e.length]
  }

  /** Where s is among the entries from the i-th on; |entries| if nowhere. */
  function SearchFrom(p: Pool, s: Text, i: nat): (n: nat)
    requires Inside(p) && i <= |p.entries|
    ensures n <= |p.entries|
    decreases |p.entries| - i
  {
    if i == |p.entries| || TextOf(p.entries[i], p.used) == s then i else SearchFrom(p, s, i + 1)
  }

  function Search(p: Pool, s: Text): (n: nat)
    requires Inside(p)
    ensures n <= |p.entries|
  {
    SearchFrom(p, s, 0)
  }

  predicate Fits(p: Pool, s: Text) {
    |p.used| + |s| + 1 <= BUFFER_SIZE
  }

  /** The pool with s behind the others; the length is kept in 8 bits. */
  function Appended(p: Pool, s: Text): (q: Pool)
    requires Inside(p) && Fits(p, s)
    ensures |q.used| <= BUFFER_SIZE
    ensures forall i :: 0 <= i < |q.entries| ==>
      q.entries[i].offset + q.entries[i].length <= |q.used| && q.entries[i].length < 256
  {
    Pool(p.entries + [Entry(|p.used|, |s| % 256)], p.used + s + [0])
  }

  /** The 256th entry makes the count of 8 bits wrap to 0. */
  predicate Wraps(p: Pool, s: Text)
    requires Inside(p)
  {
    s != [] && Search(p, s) == |p.entries| && Fits(p, s) && |p.entries| == MAX_STRINGS - 1
  }

  function Interned(p: Pool, s: Text): (r: (Pool, Id))
    requires Inside(p)
    ensures Inside(r.0)
  {
    if s == [] then (p, 0)
    else if Search(p, s) < |p.entries| then (p, Search(p, s) + 1)
    else if !Fits(p, s) then (p, 0)
    else if Wraps(p, s) then (Pool([], Appended(p, s).used), 0)
    else (Appended(p, s), |p.entries| + 1)
  }

  function LookedUp(p: Pool, id: nat): Text
    requires Inside(p)
  {
    if id == 0 || id > |p.entries| then [] else TextOf(p.entries[id - 1], p.used)
  }

  class StringPool {
    const buffer: array<Byte>
    const offsets: array<nat>
    const lengths: array<nat>
    var count: nat
    var bufferOffset: nat

    ghost predicate Valid()
      reads this, offsets, lengths
    {
      && buffer.Length == BUFFER_SIZE && offsets.Length == MAX_STRINGS && lengths.Length == MAX_STRINGS
      && offsets != lengths
      && count < MAX_STRINGS && bufferOffset <= BUFFER_SIZE
      && forall i :: 0 <= i < count ==> offsets[i] + lengths[i] <= bufferOffset && lengths[i] < 256
    }

    ghost function Entries(): (es: seq<Entry>)
      requires Valid()
      reads this, offsets, lengths
      ensures |es| == count
      ensures forall i :: 0 <= i < count ==> es[i] == Entry(offsets[i], lengths[i])
    {
      seq(count, i requires 0 <= i < count && Valid() reads this, offsets, lengths => Entry(offsets[i], lengths[i]))
    }

    ghost function Abs(): (p: Pool)
      requires Valid()
      reads this, buffer, offsets, lengths
      ensures Inside(p)
    {
      Pool(Entries(), buffer[..bufferOffset])
    }

    constructor ()
      ensures Valid() && Abs() == EMPTY_POOL
      ensures fresh(buffer) && fresh(offsets) && fresh(lengths)
    {
      buffer := new Byte[BUFFER_SIZE](_ => 0);
      offsets := new nat[MAX_STRINGS](_ => 0);
      lengths := new nat[MAX_STRINGS](_ => 0);
      count, bufferOffset := 0, 0;
    }

    method Lookup(id: Id) returns (s: Text)
      requires Valid()
      ensures s == LookedUp(Abs(), id)
    {
      if id == 0 || id > count {
        return [];
      }
      var i := id - 1;
      s := buffer[offsets[i]..offsets[i] + lengths[i]];
      assert s == TextOf(Abs().entries[i], Abs().used);
    }

    /** Entry i holds s: same length, same bytes. */
    method Holds(i: nat, s: Text) returns (yes: bool)
      requires Valid() && i < count
      ensures yes == (TextOf(Abs().entries[i], Abs().used) == s)
    {
      ghost var text := TextOf(Abs().entries[i], Abs().used);
      assert text == buffer[offsets[i]..offsets[i] + lengths[i]];
      if lengths[i] != |s| {
        assert |text| != |s|;
        return false;
      }
      yes := buffer[offsets[i]..offsets[i] + |s|] == s;
    }

    /** The bytes of s and a zero behind what is there. */
    method Copy(s: Text)
      requires Valid() && bufferOffset + |s| + 1 <= BUFFER_SIZE
      modifies buffer
      ensures Valid()
      ensures buffer[..bufferOffset] == old(buffer[..bufferOffset])
      ensures buffer[bufferOffset..bufferOffset + |s|] == s
      ensures buffer[bufferOffset + |s|] == 0
    {
      var k := 0;
      while k < |s|
        invariant 0 <= k <= |s|
        invariant buffer[..bufferOffset] == old(buffer[..bufferOffset])
        invariant buffer[bufferOffset..bufferOffset + k] == s[..k]
      {
        buffer[bufferOffset + k] := s[k];
        k := k + 1;
      }
      buffer[bufferOffset + |s|] := 0;
    }

    /** The search loop of intern. */
    method Find(s: Text) returns (i: nat)
      requires Valid()
      ensures i == Search(Abs(), s)
    {
      i := 0;
      while i < count
        invariant 0 <= i <= count
        invariant Search(Abs(), s) == SearchFrom(Abs(), s, i)
      {
        var yes := Holds(i, s);
        if yes {
          return;
        }
        i := i + 1;
      }
    }

    /** The part of intern that adds a string. */
    method Append(s: Text)
      requires Valid() && bufferOffset + |s| + 1 <= BUFFER_SIZE
      modifies this, buffer, offsets, lengths
      ensures Valid()
      ensures count == (old(count) + 1) % 256
      ensures Abs().used == Appended(old(Abs()), s).used
      ensures Abs().entries == if count == 0 then [] else Appended(old(Abs()), s).entries
    {
      ghost var p := Abs();
      Copy(s);
      BytesBehind(s, p.used);
      offsets[count], lengths[count] := bufferOffset, |s| % 256;
      bufferOffset := bufferOffset + |s| + 1;
      count := (count + 1) % 256;
      assert count != 0 ==> Entries() == p.entries + [Entry(|p.used|, |s| % 256)];
    }

    method Intern(s: Text) returns (id: Id)
      requires Valid()
      modifies this, buffer, offsets, lengths
      ensures Valid()
      ensures (Abs(), id) == Interned(old(Abs()), s)
    {
      if s == [] {
        return 0;
      }
      var i := Find(s);
      if i < count {
        return i + 1;
      }
      if bufferOffset + |s| + 1 > BUFFER_SIZE {
        return 0;
      }
      Append(s);
      id := count;
    }

    lemma BytesBehind(s: Text, used: seq<Byte>)
      requires Valid() && bufferOffset + |s| + 1 <= BUFFER_SIZE
      requires buffer[..bufferOffset] == used && buffer[bufferOffset..bufferOffset + |s|] == s
      requires buffer[bufferOffset + |s|] == 0
      ensures buffer[..bufferOffset + |s| + 1] == used + s + [0]
    {
    }
  }

  // ------------------------------------------------------------------- one call

  function Texts(p: Pool): (ts: seq<Text>)
    requires Inside(p)
    ensures |ts| == |p.entries|
    ensures forall i :: 0 <= i < |ts| ==> ts[i] == TextOf(p.entries[i], p.used)
  {
    seq(|p.entries|, i requires 0 <= i < |p.entries| => TextOf(p.entries[i], p.used))
  }

  lemma {:induction false} SearchFromFinds(p: Pool, s: Text, i: nat)
    requires Inside(p) && i <= |p.entries|
    ensures i <= SearchFrom(p, s, i)
    ensures SearchFrom(p, s, i) < |p.entries| ==> Texts(p)[SearchFrom(p, s, i)] == s
    ensures SearchFrom(p, s, i) == |p.entries| ==> forall k :: i <= k < |p.entries| ==> Texts(p)[k] != s
    decreases |p.entries| - i
  {
    if i < |p.entries| && TextOf(p.entries[i], p.used) != s {
      SearchFromFinds(p, s, i + 1);
    }
  }

  lemma SearchFinds(p: Pool, s: Text)
    requires Inside(p)
    ensures Search(p, s) < |p.entries| <==> s in Texts(p)
    ensures Search(p, s) < |p.entries| ==> Texts(p)[Search(p, s)] == s
  {
    SearchFromFinds(p, s, 0);
  }

  /** Text that is there is not moved by what comes behind it. */
  lemma TextStays(e: Entry, used: seq<Byte>, more: seq<Byte>)
    requires e.offset + e.length <= |used|
    ensures TextOf(e, used + more) == TextOf(e, used)
  {
  }

  /** What is left of a string of which the length is kept in 8 bits. */
  function Stored(s: Text): Text {
    s[..|s| % 256]
  }

  lemma NewText(used: seq<Byte>, s: Text)
    ensures TextOf(Entry(|used|, |s| % 256), used + s + [0]) == Stored(s)
  {
  }

  lemma AppendedTexts(p: Pool, s: Text)
    requires Inside(p) && Fits(p, s) && |p.entries| < MAX_STRINGS - 1
    ensures Texts(Appended(p, s)) == Texts(p) + [Stored(s)]
  {
    var q := Appended(p, s);
    NewText(p.used, s);
    Associative(p.used, s, [0]);
    forall i | 0 <= i < |p.entries|
      ensures Texts(q)[i] == Texts(p)[i]
    {
      assert q.entries[i] == p.entries[i];
      TextStays(p.entries[i], p.used, s + [0]);
    }
  }

  /** What can happen when s is interned into a pool with the texts ts. */
  predicate Outcome(ts: seq<Text>, s: Text, fits: bool, after: seq<Text>, id: nat) {
    if s == [] then after == ts && id == 0
    else if s in ts then after == ts && 0 < id <= |ts| && ts[id - 1] == s
    else if !fits then after == ts && id == 0
    else if |ts| == MAX_STRINGS - 1 then after == [] && id == 0
    else after == ts + [Stored(s)] && id == |ts| + 1
  }

  lemma InternedTexts(p: Pool, s: Text)
    requires Inside(p)
    ensures var (q, id) := Interned(p, s); Outcome(Texts(p), s, Fits(p, s), Texts(q), id)
    ensures Wraps(p, s) <==> s != [] && s !in Texts(p) && Fits(p, s) && |p.entries| == MAX_STRINGS - 1
  {
    SearchFinds(p, s);
    if s != [] && s !in Texts(p) && Fits(p, s) && !Wraps(p, s) {
      AppendedTexts(p, s);
    }
  }

  function Named(ts: seq<Text>, id: nat): Text {
    if 0 < id <= |ts| then ts[id - 1] else []
  }

  lemma LookedUpIsNamed(p: Pool, id: nat)
    requires Inside(p)
    ensures LookedUp(p, id) == Named(Texts(p), id)
  {
  }

  /** Interning keeps what the earlier numbers denote, unless it makes the count wrap. */
  lemma EarlierIdsSurviveExactlyUnless(p: Pool, s: Text, id: nat)
    requires Inside(p) && 0 < id <= |p.entries|
    ensures var q := Interned(p, s).0;
      (id <= |q.entries| && LookedUp(q, id) == LookedUp(p, id)) <==> !Wraps(p, s)
  {
    InternedTexts(p, s);
    LookedUpIsNamed(p, id);
    LookedUpIsNamed(Interned(p, s).0, id);
  }

  lemma WholeString(s: Text)
    ensures Stored(s) == s <==> |s| <= 255
  {
  }

  lemma NamedBack(ts: seq<Text>, s: Text, fits: bool, after: seq<Text>, id: nat)
    requires Outcome(ts, s, fits, after, id) && forall t :: t in ts ==> |t| <= 255
    ensures Named(after, id) == s <==> s == [] || (id != 0 && |s| <= 255)
  {
    WholeString(s);
  }

  /** The number that intern returns denotes the string exactly if it is not 0 and the
      length has fitted into 8 bits. */
  lemma LookupGivesBackExactly(p: Pool, s: Text)
    requires Inside(p)
    ensures var (q, id) := Interned(p, s); LookedUp(q, id) == s <==> s == [] || (id != 0 && |s| <= 255)
  {
    var (q, id) := Interned(p, s);
    InternedTexts(p, s);
    LookedUpIsNamed(q, id);
    NamedBack(Texts(p), s, Fits(p, s), Texts(q), id);
  }

  /** When intern refuses: the string is new and the buffer or the numbers are used up. */
  lemma RefusedExactly(p: Pool, s: Text)
    requires Inside(p)
    ensures Interned(p, s).1 == 0 <==> s == [] || (s !in Texts(p) && (!Fits(p, s) || |p.entries| == MAX_STRINGS - 1))
  {
    InternedTexts(p, s);
  }

  // ----------------------------------------------------------------------- runs

  function After(strings: seq<Text>): (p: Pool)
    ensures Inside(p)
  {
    if strings == [] then EMPTY_POOL else Interned(After(strings[..|strings| - 1]), strings[|strings| - 1]).0
  }

  /** What the calls returned. */
  function Ids(strings: seq<Text>): (ids: seq<Id>)
    ensures |ids| == |strings|
  {
    if strings == [] then []
    else
      var before := strings[..|strings| - 1];
      Ids(before) + [Interned(After(before), strings[|strings| - 1]).1]
  }

  /** Segments follow one another, each with its zero behind it. */
  predicate Packed(p: Pool) {
    && (forall i, j :: 0 <= i < j < |p.entries| ==> p.entries[i].offset + p.entries[i].length < p.entries[j].offset)
    && (forall i :: 0 <= i < |p.entries| ==> p.entries[i].offset + p.entries[i].length < |p.used|)
    && |p.used| <= BUFFER_SIZE
  }

  lemma PackedGrows(entries: seq<Entry>, used: seq<Byte>, e: Entry, more: seq<Byte>)
    requires Packed(Pool(entries, used)) && |used + more| <= BUFFER_SIZE
    requires e.offset == |used| && e.length < |more|
    ensures Packed(Pool(entries + [e], used + more)) && Packed(Pool([], used + more))
  {
  }

  lemma StaysPacked(p: Pool, s: Text)
    requires Inside(p) && Packed(p)
    ensures Packed(Interned(p, s).0)
  {
    if Fits(p, s) {
      Associative(p.used, s, [0]);
      PackedGrows(p.entries, p.used, Entry(|p.used|, |s| % 256), s + [0]);
    }
  }

  /** Stored segments never overlap, whatever is interned. */
  lemma {:induction false} EveryRunIsPacked(strings: seq<Text>)
    ensures Packed(After(strings))
  {
    if strings != [] {
      EveryRunIsPacked(strings[..|strings| - 1]);
      StaysPacked(After(strings[..|strings| - 1]), strings[|strings| - 1]);
    }
  }

  /** All strings are empty or from a set of at most 255 names of at most 255 bytes. */
  predicate FewNames(strings: seq<Text>, names: set<Text>) {
    && |names| <= MAX_STRINGS - 1
    && (forall n :: n in names ==> |n| <= 255)
    && forall s :: s in strings ==> s == [] || s in names
  }

  /** The pool holds different names only, and every number handed out denotes the
      string it was handed out for. */
  predicate Faithful(strings: seq<Text>, ids: seq<nat>, ts: seq<Text>, names: set<Text>)
    requires |ids| == |strings|
  {
    && Distinct(ts)
    && (forall t :: t in ts ==> t in names && t != [])
    && forall i :: 0 <= i < |ids| && ids[i] != 0 ==> ids[i] <= |ts| && ts[ids[i] - 1] == strings[i]
  }

  lemma NamesLeft(ts: seq<Text>, s: Text, names: set<Text>)
    requires Distinct(ts) && (forall t :: t in ts ==> t in names) && s in names && s !in ts
    ensures |ts| < |names|
  {
    forall t | t in ts
      ensures t in names - {s}
    {
    }
    DistinctFitsIn(ts, names - {s});
  }

  lemma FaithfulToOneMore(strings: seq<Text>, ids: seq<nat>, ts: seq<Text>, names: set<Text>, s: Text, fits: bool,
      after: seq<Text>, id: nat)
    requires |ids| == |strings| && Faithful(strings, ids, ts, names)
    requires |names| <= MAX_STRINGS - 1 && (s == [] || (s in names && |s| <= 255))
    requires Outcome(ts, s, fits, after, id)
    ensures Faithful(strings + [s], ids + [id], after, names)
  {
    if s != [] && s !in ts {
      NamesLeft(ts, s, names);
      WholeString(s);
    }
  }

  lemma {:induction false} EveryRunIsFaithful(strings: seq<Text>, names: set<Text>)
    requires FewNames(strings, names)
    ensures Faithful(strings, Ids(strings), Texts(After(strings)), names)
  {
    if strings != [] {
      var (before, s) := (strings[..|strings| - 1], strings[|strings| - 1]);
      assert strings == before + [s];
      EveryRunIsFaithful(before, names);
      var p := After(before);
      var (q, id) := Interned(p, s);
      InternedTexts(p, s);
      FaithfulToOneMore(before, Ids(before), Texts(p), names, s, Fits(p, s), Texts(q), id);
    }
  }

  lemma FaithfulNames(strings: seq<Text>, ids: seq<nat>, ts: seq<Text>, names: set<Text>, i: nat, j: nat)
    requires |ids| == |strings| && Faithful(strings, ids, ts, names) && i < |ids| && j < |ids| && ids[i] != 0
    ensures Named(ts, ids[i]) == strings[i]
    ensures ids[j] != 0 ==> (ids[i] == ids[j] <==> strings[i] == strings[j])
  {
  }

  /** In any run over at most 255 names of at most 255 bytes, every number handed out
      still denotes its string at the end, and two numbers are equal exactly if their
      strings are. */
  lemma NumbersAreNames(strings: seq<Text>, names: set<Text>, i: nat, j: nat)
    requires FewNames(strings, names) && i < |strings| && j < |strings|
    requires Ids(strings)[i] != 0
    ensures LookedUp(After(strings), Ids(strings)[i]) == strings[i]
    ensures Ids(strings)[j] != 0 ==> (Ids(strings)[i] == Ids(strings)[j] <==> strings[i] == strings[j])
  {
    EveryRunIsFaithful(strings, names);
    FaithfulNames(strings, Ids(strings), Texts(After(strings)), names, i, j);
    LookedUpIsNamed(After(strings), Ids(strings)[i]);
  }

  lemma SameNumberAgain(strings: seq<Text>, ids: seq<nat>, ts: seq<Text>, names: set<Text>, i: nat, fits: bool,
      after: seq<Text>, id: nat)
    requires |ids| == |strings| && Faithful(strings, ids, ts, names) && i < |ids| && ids[i] != 0
    requires Outcome(ts, strings[i], fits, after, id)
    ensures id == ids[i]
  {
    assert ts[ids[i] - 1] in ts;
  }

  /** Interning a string again returns the number it had. */
  lemma InterningAgain(before: seq<Text>, names: set<Text>, i: nat)
    requires FewNames(before, names) && i < |before| && Ids(before)[i] != 0
    ensures Interned(After(before), before[i]).1 == Ids(before)[i]
  {
    var p := After(before);
    var (q, id) := Interned(p, before[i]);
    EveryRunIsFaithful(before, names);
    InternedTexts(p, before[i]);
    SameNumberAgain(before, Ids(before), Texts(p), names, i, Fits(p, before[i]), Texts(q), id);
  }

  // ------------------------------------------------------------ one name too many

  /** The strings [0], [1], ... of one byte. */
  function Singles(n: nat): (r: seq<Text>)
    requires n <= 256
    ensures |r| == n && forall i :: 0 <= i < n ==> r[i] == [i]
  {
    seq(n, i requires 0 <= i < n => [i])
  }

  lemma OneMoreSingle(n: nat)
    requires n < 256
    ensures Singles(n + 1)[..n] == Singles(n) && Singles(n + 1) == Singles(n) + [[n]] && [n] !in Singles(n)
  {
  }

  lemma SingleIsStored(p: Pool, n: nat)
    requires Inside(p) && n < 255 && Texts(p) == Singles(n) && |p.used| == 2 * n
    ensures var q := Interned(p, [n]).0; Texts(q) == Singles(n + 1) && |q.used| == 2 * (n + 1)
  {
    OneMoreSingle(n);
    InternedTexts(p, [n]);
    WholeString([n]);
    SearchFinds(p, [n]);
  }

  lemma {:induction false} AllSinglesStored(n: nat)
    requires n <= 255
    ensures Texts(After(Singles(n))) == Singles(n) && |After(Singles(n)).used| == 2 * n
  {
    if n > 0 {
      AllSinglesStored(n - 1);
      OneMoreSingle(n - 1);
      SingleIsStored(After(Singles(n - 1)), n - 1);
    }
  }

  /** 255 names is the limit: after 256 strings of one byte, no number denotes anything. */
  lemma TheLastNameWipesThePool(id: nat)
    ensures Texts(After(Singles(255))) == Singles(255)
    ensures LookedUp(After(Singles(256)), id) == [] && Ids(Singles(256))[255] == 0
  {
    AllSinglesStored(255);
    OneMoreSingle(255);
    InternedTexts(After(Singles(255)), [255]);
    LookedUpIsNamed(After(Singles(256)), id);
  }
}
