/** The log ring (src/system/logger.cpp): a fixed array that is written round and
    round, and read out oldest first with unsigned index arithmetic. */
module LogRings {
  import opened Words
  import opened Sequences
  import opened Remainders

  const MAX_ENTRIES := 10
  const MAX_MSG_LENGTH := 384
  const NUL := '\0'

  datatype Level = Debug | Info | Warn | Error

  /** What is logged, and what is read out. */
  datatype Item = Item(timestamp: nat, level: Level, text: string, isJson: bool, sessionId: Word, pollId: Word)

  /** A place of the ring; the message is a C string in an array of 384 characters. */
  datatype Slot = Slot(timestamp: nat, level: Level, message: string, isJson: bool, sessionId: Word, pollId: Word)

  /** The constructor's parameter is used if it is in range. */
  function Capacity(wanted: nat): (c: nat)
    ensures 0 < c <= MAX_ENTRIES
    ensures 0 < wanted <= MAX_ENTRIES ==> c == wanted
  {
    if 0 < wanted <= MAX_ENTRIES then wanted else MAX_ENTRIES
  }

  // ------------------------------------------------------------------ messages

  function UpToNul(s: string): string {
    if s == "" || s[0] == NUL then "" else [s[0]] + UpToNul(s[1..])
  }

  /** What fits before the terminating zero. */
  function Clip(text: string): (r: string)
    ensures |r| < MAX_MSG_LENGTH
  {
    if |text| < MAX_MSG_LENGTH then text else text[..MAX_MSG_LENGTH - 1]
  }

  /** The message as it will be shown. */
  function Clipped(it: Item): Item {
    it.(text := UpToNul(Clip(it.text)))
  }

  /** The new text over the old one, with a zero behind it. */
  function Over(was: string, text: string): (r: string)
    requires |was| == MAX_MSG_LENGTH
    ensures |r| == MAX_MSG_LENGTH
  {
    Clip(text) + [NUL] + was[|Clip(text)| + 1..]
  }

  function Put(was: Slot, it: Item): Slot
    requires |was.message| == MAX_MSG_LENGTH
  {
    Slot(it.timestamp, it.level, Over(was.message, it.text), it.isJson, it.sessionId, it.pollId)
  }

  function Shown(s: Slot): Item {
    Item(s.timestamp, s.level, UpToNul(s.message), s.isJson, s.sessionId, s.pollId)
  }

  lemma {:induction false} NothingBehindNul(text: string, rest: string)
    ensures UpToNul(text + [NUL] + rest) == UpToNul(text)
  {
    if text == "" {
      assert text + [NUL] + rest == [NUL] + rest;
    } else {
      assert (text + [NUL] + rest)[1..] == text[1..] + [NUL] + rest;
      NothingBehindNul(text[1..], rest);
    }
  }

  /** Of an older, longer message nothing shows through. */
  lemma PutIsShownClipped(was: Slot, it: Item)
    requires |was.message| == MAX_MSG_LENGTH
    ensures Shown(Put(was, it)) == Clipped(it)
  {
    NothingBehindNul(Clip(it.text), was.message[|Clip(it.text)| + 1..]);
  }

  // ---------------------------------------------------------------------- ring

  datatype Ring = Ring(slots: seq<Slot>, index: nat, entries: nat, overwrites: Word)

  predicate Shaped(c: nat, r: Ring) {
    && 0 < c <= |r.slots| == MAX_ENTRIES && r.index < c && r.entries <= c
    && forall k :: 0 <= k < |r.slots| ==> |r.slots[k].message| == MAX_MSG_LENGTH
  }

  function Logged(c: nat, r: Ring, it: Item): (after: Ring)
    requires Shaped(c, r)
    ensures Shaped(c, after)
  {
    Ring(r.slots[r.index := Put(r.slots[r.index], it)], (r.index + 1) % c,
         if r.entries < c then r.entries + 1 else r.entries,
         if r.entries < c then r.overwrites else Wrap(r.overwrites + 1))
  }

  /** The index expression of fetchLogs on 32-bit unsigned numbers. */
  function LogIndex(c: nat, index: nat, entries: nat, i: nat): (k: nat)
    requires 0 < c
    ensures k < c
  {
    Wrap(Wrap(Wrap(index - entries) + i) + c) % c
  }

  /** What the loop of fetchLogs writes from the i-th entry on. */
  function FetchedFrom(c: nat, r: Ring, since: nat, i: nat): seq<Item>
    requires Shaped(c, r) && i <= r.entries
    decreases r.entries - i
  {
    if i == r.entries then []
    else
      var it := Shown(r.slots[LogIndex(c, r.index, r.entries, i)]);
      (if it.timestamp < since then [] else [it]) + FetchedFrom(c, r, since, i + 1)
  }

  function Fetched(c: nat, r: Ring, since: nat): seq<Item>
    requires Shaped(c, r)
  {
    FetchedFrom(c, r, since, 0)
  }

  class Logger {
    const buffer: array<Slot>
    const capacity: nat
    var index: nat
    var entries: nat
    var overwrites: Word

    ghost predicate Valid()
      reads this, buffer
    {
      buffer.Length == MAX_ENTRIES && Shaped(capacity, Abs())
    }

    ghost function Abs(): Ring
      reads this, buffer
    {
      Ring(buffer[..], index, entries, overwrites)
    }

    constructor (wanted: nat)
      ensures Valid() && fresh(buffer) && capacity == Capacity(wanted)
      ensures index == 0 && entries == 0 && overwrites == 0
    {
      var blank := seq(MAX_MSG_LENGTH, _ => NUL);
      buffer := new Slot[MAX_ENTRIES](_ => Slot(0, Debug, blank, false, 0, 0));
      capacity := Capacity(wanted);
      index, entries, overwrites := 0, 0, 0;
    }

    /** The critical section of log. */
    method Log(it: Item)
      requires Valid()
      modifies this, buffer
      ensures Valid()
      ensures Abs() == Logged(capacity, old(Abs()), it)
    {
      buffer[index] := Put(buffer[index], it);
      index := (index + 1) % capacity;
      if entries < capacity {
        entries := entries + 1;
      } else {
        overwrites := Wrap(overwrites + 1);
      }
    }

    method FetchLogs(since: nat) returns (items: seq<Item>)
      requires Valid()
      ensures items == Fetched(capacity, Abs(), since)
    {
      var (currentEntries, currentIndex) := (entries, index);
      items := [];
      var i := 0;
      EmptyIsNeutral(Fetched(capacity, Abs(), since));
      while i < currentEntries
        invariant 0 <= i <= entries
        invariant Fetched(capacity, Abs(), since) == items + FetchedFrom(capacity, Abs(), since, i)
      {
        var it := Shown(buffer[LogIndex(capacity, currentIndex, currentEntries, i)]);
        Associative(items, if it.timestamp < since then [] else [it], FetchedFrom(capacity, Abs(), since, i + 1));
        EmptyIsNeutral(items);
        if it.timestamp >= since {
          items := items + [it];
        }
        i := i + 1;
      }
      EmptyIsNeutral(items);
    }
  }

  // ------------------------------------------------------------ index arithmetic

  lemma WrapOfSmall(x: int)
    requires 0 <= x < TWO32
    ensures Wrap(x) == x
  {
  }

  lemma WrapOfWrap(x: int, y: int)
    ensures Wrap(Wrap(x) + y) == Wrap(x + y)
  {
  }

  /** index - entries may go below zero and wrap; adding the capacity brings it back. */
  lemma UnderflowRecovers(index: nat, entries: nat, i: nat, c: nat)
    requires index < c < TWO31 / 2 && entries <= c && i < entries
    ensures Wrap(Wrap(Wrap(index - entries) + i) + c) == index - entries + i + c
  {
    WrapOfWrap(index - entries, i);
    WrapOfWrap(index - entries + i, c);
    WrapOfSmall(index - entries + i + c);
  }

  /** The unsigned index expression finds the place of the i-th message from the last
      `entries` ones. */
  lemma IndexOfMessage(c: nat, n: nat, entries: nat, i: nat)
    requires 0 < c < TWO31 / 2 && entries <= c && entries <= n && i < entries
    ensures LogIndex(c, n % c, entries, i) == (n - entries + i) % c
  {
    BelowModulus(n, c);
    IndexExpression(c, n % c, entries, i);
    SameRemainder(n, i - entries, c);
  }

  lemma BelowModulus(n: nat, c: nat)
    requires c > 0
    ensures 0 <= n % c < c
  {
  }

  lemma IndexExpression(c: nat, index: nat, entries: nat, i: nat)
    requires index < c < TWO31 / 2 && entries <= c && i < entries
    ensures LogIndex(c, index, entries, i) == (index + (i - entries) + c) % c
  {
    UnderflowRecovers(index, entries, i, c);
  }

  lemma SameRemainder(n: nat, shift: int, c: nat)
    requires c > 0
    ensures (n % c + shift + c) % c == (n + shift) % c
  {
    assert n == (n / c) * c + n % c;
    Distributes(1, n / c, c);
    assert n % c + shift + c == (n + shift) + (1 - n / c) * c;
    ModOfMore(n + shift, 1 - n / c, c);
  }

  lemma NextPlace(c: nat, n: nat)
    requires c > 0
    ensures (n % c + 1) % c == (n + 1) % c
  {
    assert n == (n / c) * c + n % c;
    ModOfMore(n % c + 1, n / c, c);
  }

  // ----------------------------------------------------------------------- runs

  function Min(a: nat, b: nat): nat {
    if a < b then a else b
  }

  /** The last c of them. */
  function LastOf<T>(s: seq<T>, c: nat): seq<T> {
    s[|s| - Min(|s|, c)..]
  }

  function ClippedAll(items: seq<Item>): (r: seq<Item>)
    ensures |r| == |items| && forall k :: 0 <= k < |r| ==> r[k] == Clipped(items[k])
  {
    seq(|items|, k requires 0 <= k < |items| => Clipped(items[k]))
  }

  function Since(items: seq<Item>, since: nat): seq<Item> {
    if items == [] then []
    else (if items[0].timestamp < since then [] else [items[0]]) + Since(items[1..], since)
  }

  /** The ring after the items, in a fresh logger. */
  function After(c: nat, empty: Ring, items: seq<Item>): (r: Ring)
    requires Shaped(c, empty)
    ensures Shaped(c, r)
  {
    if items == [] then empty else Logged(c, After(c, empty, items[..|items| - 1]), items[|items| - 1])
  }

  predicate Fresh(c: nat, r: Ring) {
    Shaped(c, r) && r.index == 0 && r.entries == 0 && r.overwrites == 0
  }

  /** The ring holds the last items, each in its place. */
  predicate HoldsLast(c: nat, r: Ring, items: seq<Item>)
    requires Shaped(c, r)
  {
    var n := |items|;
    && r.index == n % c && r.entries == Min(n, c) && r.overwrites == Wrap(n - r.entries)
    && forall j :: n - r.entries <= j < n ==> Shown(r.slots[j % c]) == Clipped(items[j])
  }

  lemma OneMoreLogged(c: nat, r: Ring, items: seq<Item>, it: Item)
    requires Shaped(c, r) && HoldsLast(c, r, items)
    ensures HoldsLast(c, Logged(c, r, it), items + [it])
  {
    var (n, after) := (|items|, Logged(c, r, it));
    NextPlace(c, n);
    PutIsShownClipped(r.slots[r.index], it);
    forall j | n + 1 - after.entries <= j < n + 1
      ensures Shown(after.slots[j % c]) == Clipped((items + [it])[j])
    {
      if j < n {
        CloseNumbersDiffer(j, n, c);
      }
    }
    WrapOfWrap(n - r.entries, 1);
  }

  lemma {:induction false} EveryRingHoldsTheLast(c: nat, empty: Ring, items: seq<Item>)
    requires Fresh(c, empty)
    ensures HoldsLast(c, After(c, empty, items), items)
  {
    if items != [] {
      var (before, it) := (items[..|items| - 1], items[|items| - 1]);
      EveryRingHoldsTheLast(c, empty, before);
      OneMoreLogged(c, After(c, empty, before), before, it);
      assert items == before + [it];
    }
  }

  lemma LastOfAt<T>(s: seq<T>, c: nat, i: nat)
    requires i < Min(|s|, c)
    ensures |LastOf(s, c)| == Min(|s|, c) && LastOf(s, c)[i] == s[|s| - Min(|s|, c) + i]
  {
  }

  lemma MessageInItsPlace(c: nat, r: Ring, items: seq<Item>, j: nat)
    requires Shaped(c, r) && HoldsLast(c, r, items) && |items| - r.entries <= j < |items|
    ensures 0 <= j % c < |r.slots| && Shown(r.slots[j % c]) == Clipped(items[j])
  {
    BelowModulus(j, c);
  }

  /** The i-th entry from the oldest on. */
  lemma EntryIs(c: nat, r: Ring, items: seq<Item>, i: nat)
    requires Shaped(c, r) && HoldsLast(c, r, items) && i < r.entries
    ensures |LastOf(ClippedAll(items), c)| == r.entries
    ensures Shown(r.slots[LogIndex(c, r.index, r.entries, i)]) == LastOf(ClippedAll(items), c)[i]
  {
    IndexOfMessage(c, |items|, r.entries, i);
    MessageInItsPlace(c, r, items, |items| - r.entries + i);
    LastOfAt(ClippedAll(items), c, i);
  }

  lemma SinceOfRest(shown: seq<Item>, since: nat, i: nat)
    requires i < |shown|
    ensures Since(shown[i..], since) == (if shown[i].timestamp < since then [] else [shown[i]])
      + Since(shown[i + 1..], since)
  {
    assert shown[i..][1..] == shown[i + 1..];
  }

  lemma {:induction false} FetchesFrom(c: nat, r: Ring, items: seq<Item>, since: nat, i: nat)
    requires Shaped(c, r) && HoldsLast(c, r, items) && i <= r.entries
    ensures FetchedFrom(c, r, since, i) == Since(LastOf(ClippedAll(items), c)[i..], since)
    decreases r.entries - i
  {
    if i < r.entries {
      FetchesFrom(c, r, items, since, i + 1);
      EntryIs(c, r, items, i);
      SinceOfRest(LastOf(ClippedAll(items), c), since, i);
    }
  }

  /** After any number of messages fetchLogs returns the last ones, as many as the ring
      holds, clipped, oldest first, those from `since` on. */
  lemma FetchReturnsTheLast(c: nat, empty: Ring, items: seq<Item>, since: nat)
    requires Fresh(c, empty)
    ensures Fetched(c, After(c, empty, items), since) == Since(LastOf(ClippedAll(items), c), since)
  {
    EveryRingHoldsTheLast(c, empty, items);
    FetchesFrom(c, After(c, empty, items), items, since, 0);
    assert LastOf(ClippedAll(items), c)[0..] == LastOf(ClippedAll(items), c);
  }

  lemma {:induction false} SinceZeroIsAll(items: seq<Item>)
    ensures Since(items, 0) == items
  {
    if items != [] {
      SinceZeroIsAll(items[1..]);
    }
  }

  /** Without a limit it is exactly the last min(n, capacity). */
  lemma FetchAllReturnsTheLast(c: nat, empty: Ring, items: seq<Item>)
    requires Fresh(c, empty)
    ensures Fetched(c, After(c, empty, items), 0) == LastOf(ClippedAll(items), c)
  {
    FetchReturnsTheLast(c, empty, items, 0);
    SinceZeroIsAll(LastOf(ClippedAll(items), c));
  }

  // ------------------------------------------------------- what the reader is shown

  /** The longest beginning of the text that has at most 383 characters and no NUL. */
  predicate LongestBeginning(shown: string, text: string) {
    && shown <= text && |shown| <= 383 && NUL !in shown
    && (shown == text || |shown| == 383 || text[|shown|] == NUL)
  }

  lemma {:induction false} UpToNulIsBeginning(s: string)
    ensures UpToNul(s) <= s && NUL !in UpToNul(s)
    ensures UpToNul(s) == s || s[|UpToNul(s)|] == NUL
  {
    if s != "" && s[0] != NUL {
      UpToNulIsBeginning(s[1..]);
      assert s == [s[0]] + s[1..];
    }
  }

  lemma ClippedIsBeginning(text: string)
    ensures LongestBeginning(UpToNul(Clip(text)), text)
  {
    var clip := Clip(text);
    UpToNulIsBeginning(clip);
    assert clip <= text;
    if UpToNul(clip) != clip {
      assert clip[|UpToNul(clip)|] == text[|UpToNul(clip)|];
    }
  }

  /** It is the longest: no other beginning without NUL that fits is longer. */
  lemma NoneIsLonger(shown: string, text: string, other: string)
    requires LongestBeginning(shown, text) && other <= text && |other| <= 383 && NUL !in other
    ensures other <= shown
  {
    assert forall k :: 0 <= k < |other| ==> other[k] == text[k] && other[k] in other;
    assert forall k :: 0 <= k < |shown| ==> shown[k] == text[k];
  }

  /** A reader is shown the item as it was logged, but for what does not fit of its
      text. */
  predicate ShownAs(shown: Item, it: Item) {
    shown == it.(text := shown.text) && LongestBeginning(shown.text, it.text)
  }

  /** Without a limit fetchLogs shows exactly the last min(n, capacity) messages, oldest
      first. */
  lemma FetchAllShowsTheLast(c: nat, empty: Ring, items: seq<Item>, k: nat)
    requires Fresh(c, empty) && k < Min(|items|, c)
    ensures var fetched := Fetched(c, After(c, empty, items), 0);
      && |fetched| == Min(|items|, c)
      && ShownAs(fetched[k], items[|items| - Min(|items|, c) + k])
  {
    FetchAllReturnsTheLast(c, empty, items);
    LastOfAt(ClippedAll(items), c, k);
    ClippedIsBeginning(items[|items| - Min(|items|, c) + k].text);
  }

  /** A text of at most 383 characters without NUL is shown unchanged. */
  lemma ShortTextIsShown(shown: Item, it: Item)
    requires ShownAs(shown, it) && |it.text| <= 383 && NUL !in it.text
    ensures shown == it
  {
    NoneIsLonger(shown.text, it.text, it.text);
  }

  lemma {:induction false} SinceAreLate(items: seq<Item>, since: nat, it: Item)
    ensures it in Since(items, since) <==> it in items && it.timestamp >= since
  {
    if items != [] {
      SinceAreLate(items[1..], since, it);
      assert items == [items[0]] + items[1..];
    }
  }

  lemma {:induction false} SinceOfConcat(a: seq<Item>, b: seq<Item>, since: nat)
    ensures Since(a + b, since) == Since(a, since) + Since(b, since)
  {
    if a == [] {
      EmptyIsNeutral(b);
      EmptyIsNeutral(Since(b, since));
    } else {
      SinceOfConcat(a[1..], b, since);
      assert (a + b)[0] == a[0] && (a + b)[1..] == a[1..] + b;
      Associative(if a[0].timestamp < since then [] else [a[0]], Since(a[1..], since), Since(b, since));
    }
  }

  lemma FetchedIsLate(c: nat, empty: Ring, items: seq<Item>, since: nat)
    requires Fresh(c, empty)
    ensures Fetched(c, After(c, empty, items), since) == Since(Fetched(c, After(c, empty, items), 0), since)
  {
    FetchReturnsTheLast(c, empty, items, since);
    FetchAllReturnsTheLast(c, empty, items);
  }

  lemma LateInTwoParts(all: seq<Item>, since: nat, k: nat)
    requires k <= |all|
    ensures Since(all, since) == Since(all[..k], since) + Since(all[k..], since)
  {
    assert all == all[..k] + all[k..];
    SinceOfConcat(all[..k], all[k..], since);
  }

  /** With a limit it shows those of them that are not older, in the same order. */
  lemma FetchShowsTheLateOnes(c: nat, empty: Ring, items: seq<Item>, since: nat, it: Item, k: nat)
    requires Fresh(c, empty) && k <= |Fetched(c, After(c, empty, items), 0)|
    ensures var (all, late) := (Fetched(c, After(c, empty, items), 0), Fetched(c, After(c, empty, items), since));
      && (it in late <==> it in all && it.timestamp >= since)
      && late == Since(all[..k], since) + Since(all[k..], since)
  {
    var all := Fetched(c, After(c, empty, items), 0);
    FetchedIsLate(c, empty, items, since);
    LateInTwoParts(all, since, k);
    SinceAreLate(all, since, it);
  }

  /** The counters account for every message, exactly as long as the count of
      overwritten ones has not wrapped. */
  lemma CountersAddUpExactly(c: nat, empty: Ring, items: seq<Item>)
    requires Fresh(c, empty)
    ensures var r := After(c, empty, items);
      r.entries + r.overwrites == |items| <==> |items| - Min(|items|, c) < TWO32
  {
    EveryRingHoldsTheLast(c, empty, items);
    SmallExactlyIfUnwrapped(|items| - Min(|items|, c));
  }

  lemma SmallExactlyIfUnwrapped(x: nat)
    ensures Wrap(x) == x <==> x < TWO32
  {
  }
}
