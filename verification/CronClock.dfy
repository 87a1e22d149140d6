/** Once per minute, told on the clock itself: minute m is the sixty seconds from 60 * m
    on, whatever the runner remembers of them. */
module CronClocks {
  import opened Sequences
  import opened CronSchedule
  import opened CronRunner
  import R = CronReplacing

  predicate Within(m: int, now: int) {
    60 * m <= now < 60 * m + 60
  }

  lemma MinuteOfTheClock(t: Tick, m: int)
    ensures Minute(t) == m <==> Within(m, t.now)
  {
  }

  /** How often the rule fires at a tick of minute m. */
  function FiringsWithin(rule: Rule, ticks: seq<Tick>, m: int): nat {
    if ticks == [] then 0
    else
      var (before, t) := (ticks[..|ticks| - 1], ticks[|ticks| - 1]);
      FiringsWithin(rule, before, m) + if Fires(After(rule, before), t) && Within(m, t.now) then 1 else 0
  }

  lemma CountOfMore(s: seq<int>, x: int, m: int)
    ensures Count(s + [x], m) == Count(s, m) + if x == m then 1 else 0
  {
  }

  lemma {:induction false} FiringsAreCounted(rule: Rule, ticks: seq<Tick>, m: int)
    ensures FiringsWithin(rule, ticks, m) == Count(Fired(rule, ticks), m)
  {
    if ticks != [] {
      var (before, t) := (ticks[..|ticks| - 1], ticks[|ticks| - 1]);
      FiringsAreCounted(rule, before, m);
      MinuteOfTheClock(t, m);
      CountOfMore(Fired(rule, before), Minute(t), m);
      EmptyIsNeutral(Fired(rule, before));
    }
  }

  /** A tick of minute m at which the clock is set and the schedule matches. */
  ghost predicate MatchesWithin(schedule: string, ticks: seq<Tick>, m: int) {
    exists i :: 0 <= i < |ticks| && Within(m, ticks[i].now) && ticks[i].now > 0
      && MatchSchedule(schedule, ticks[i].local)
  }

  lemma DueIsMatching(schedule: string, ticks: seq<Tick>, m: int)
    ensures DueInMinute(schedule, ticks, m) <==> MatchesWithin(schedule, ticks, m)
  {
    if DueInMinute(schedule, ticks, m) {
      var i :| 0 <= i < |ticks| && Due(schedule, ticks[i]) && Minute(ticks[i]) == m;
      MinuteOfTheClock(ticks[i], m);
    }
    if MatchesWithin(schedule, ticks, m) {
      var i :| 0 <= i < |ticks| && Within(m, ticks[i].now) && ticks[i].now > 0
        && MatchSchedule(schedule, ticks[i].local);
      MinuteOfTheClock(ticks[i], m);
      assert Due(schedule, ticks[i]);
    }
  }

  /** With a clock that never goes back, a fresh rule fires exactly once in the sixty
      seconds of a minute if it is enabled and its schedule matches at one of the ticks in
      them, and else never. */
  lemma OncePerSixtySeconds(rule: Rule, ticks: seq<Tick>, m: int)
    requires rule.lastMinute == -1 && NonDecreasing(ticks)
    ensures FiringsWithin(rule, ticks, m) == if rule.enabled && MatchesWithin(rule.schedule, ticks, m) then 1 else 0
  {
    FiringsAreCounted(rule, ticks, m);
    if rule.enabled {
      OncePerMatchingMinute(rule, ticks, m);
      DueIsMatching(rule.schedule, ticks, m);
    } else {
      FiresOnEveryChange(rule, ticks);
    }
  }

  // ------------------------------------------------------- sent, with replacements

  /** How often the write is sent at a tick of minute m. */
  function SendingsWithin(rule: Rule, evs: seq<R.Event>, m: int): nat
    decreases |evs|
  {
    if evs == [] then 0
    else
      var before, e := evs[..|evs| - 1], evs[|evs| - 1];
      SendingsWithin(rule, before, m)
      + if R.FiresOn(rule, before, e) && e.ready && Within(m, e.tick.now) then 1 else 0
  }

  lemma {:induction false} SendingsAreCounted(rule: Rule, evs: seq<R.Event>, m: int)
    ensures SendingsWithin(rule, evs, m) == Count(R.SentMinutes(rule, evs), m)
    decreases |evs|
  {
    if evs != [] {
      var before, e := evs[..|evs| - 1], evs[|evs| - 1];
      SendingsAreCounted(rule, before, m);
      if e.Wake? {
        MinuteOfTheClock(e.tick, m);
        CountOfMore(R.SentMinutes(rule, before), Minute(e.tick), m);
      }
    }
  }

  /** The event is a tick of minute m at which the schedule matches. */
  predicate MatchingWake(schedule: string, e: R.Event, m: int) {
    e.Wake? && Within(m, e.tick.now) && e.tick.now > 0 && MatchSchedule(schedule, e.tick.local)
  }

  /** A replacement falls between two matching ticks of one minute. */
  ghost predicate ReplacedWithin(schedule: string, evs: seq<R.Event>, m: int) {
    exists i: nat, r: nat, j: nat :: i < r < j < |evs| && evs[r].Replace?
      && MatchingWake(schedule, evs[i], m) && MatchingWake(schedule, evs[j], m)
  }

  lemma DueIsMatchingWake(schedule: string, evs: seq<R.Event>, i: nat, m: int)
    ensures R.DueIn(schedule, evs, i, m) <==> i < |evs| && MatchingWake(schedule, evs[i], m)
  {
    if i < |evs| && evs[i].Wake? {
      MinuteOfTheClock(evs[i].tick, m);
    }
  }

  ghost predicate ReplacedSomewhere(schedule: string, evs: seq<R.Event>) {
    exists m :: ReplacedWithin(schedule, evs, m)
  }

  lemma PrefixAt(evs: seq<R.Event>, j: nat, k: nat)
    requires k < j <= |evs|
    ensures evs[..j][k] == evs[k]
  {
  }

  lemma ReplacedIsSomewhere(schedule: string, evs: seq<R.Event>, j: nat)
    requires j < |evs| && R.DueEvent(schedule, evs[j])
    requires R.DueThenReplaced(schedule, evs[..j], Minute(evs[j].tick))
    ensures ReplacedSomewhere(schedule, evs)
  {
    var m := Minute(evs[j].tick);
    var i: nat, r: nat :| i < r < |evs[..j]| && R.DueIn(schedule, evs[..j], i, m) && evs[..j][r].Replace?;
    DueIsMatchingWake(schedule, evs[..j], i, m);
    DueIsMatchingWake(schedule, evs, j, m);
    PrefixAt(evs, j, i);
    PrefixAt(evs, j, r);
    assert ReplacedWithin(schedule, evs, m);
  }

  lemma SomewhereIsReplaced(schedule: string, evs: seq<R.Event>, m: int)
    requires ReplacedWithin(schedule, evs, m)
    ensures R.ReplacedInDueMinute(schedule, evs)
  {
    var i: nat, r: nat, j: nat :| i < r < j < |evs| && evs[r].Replace?
      && MatchingWake(schedule, evs[i], m) && MatchingWake(schedule, evs[j], m);
    PrefixAt(evs, j, i);
    PrefixAt(evs, j, r);
    DueIsMatchingWake(schedule, evs[..j], i, m);
    DueIsMatchingWake(schedule, evs, j, m);
    assert R.DueThenReplaced(schedule, evs[..j], m);
  }

  lemma ReplacedExactlyIfSomewhere(schedule: string, evs: seq<R.Event>)
    ensures R.ReplacedInDueMinute(schedule, evs) <==> ReplacedSomewhere(schedule, evs)
  {
    if R.ReplacedInDueMinute(schedule, evs) {
      var j: nat :| j < |evs| && R.DueEvent(schedule, evs[j])
        && R.DueThenReplaced(schedule, evs[..j], Minute(evs[j].tick));
      ReplacedIsSomewhere(schedule, evs, j);
    }
    if ReplacedSomewhere(schedule, evs) {
      var m :| ReplacedWithin(schedule, evs, m);
      SomewhereIsReplaced(schedule, evs, m);
    }
  }

  /** How often the rule fires at a tick of minute m. */
  function FiringsOn(rule: Rule, evs: seq<R.Event>, m: int): nat
    decreases |evs|
  {
    if evs == [] then 0
    else
      var before, e := evs[..|evs| - 1], evs[|evs| - 1];
      FiringsOn(rule, before, m) + if R.FiresOn(rule, before, e) && Within(m, e.tick.now) then 1 else 0
  }

  lemma {:induction false} FiringsOnAreCounted(rule: Rule, evs: seq<R.Event>, m: int)
    ensures FiringsOn(rule, evs, m) == Count(R.FiredMinutes(rule, evs), m)
    decreases |evs|
  {
    if evs != [] {
      var before, e := evs[..|evs| - 1], evs[|evs| - 1];
      FiringsOnAreCounted(rule, before, m);
      if e.Wake? {
        MinuteOfTheClock(e.tick, m);
        CountOfMore(R.FiredMinutes(rule, before), Minute(e.tick), m);
      }
    }
  }

  ghost predicate AtMostOnce(s: seq<int>) {
    forall x :: Count(s, x) <= 1
  }

  lemma OneMoreAtMostOnce(before: seq<int>, y: int)
    ensures AtMostOnce(before + [y]) <==> AtMostOnce(before) && y !in before
  {
    forall x
      ensures Count(before + [y], x) == Count(before, x) + if x == y then 1 else 0
    {
      CountOfMore(before, y, x);
    }
    InByCount(before, y);
    if AtMostOnce(before + [y]) {
      assert Count(before + [y], y) <= 1;
      forall x
        ensures Count(before, x) <= 1
      {
        assert Count(before + [y], x) <= 1;
      }
    }
  }

  lemma {:induction false} DistinctByCount(s: seq<int>)
    ensures Distinct(s) <==> AtMostOnce(s)
  {
    if s != [] {
      var before, y := s[..|s| - 1], s[|s| - 1];
      SplitLast([], s);
      DistinctByCount(before);
      DistinctGrows(before, y);
      OneMoreAtMostOnce(before, y);
    }
  }

  ghost predicate NeverTwiceOn(rule: Rule, evs: seq<R.Event>) {
    forall m :: FiringsOn(rule, evs, m) <= 1
  }

  lemma NeverTwiceByCount(rule: Rule, evs: seq<R.Event>)
    ensures NeverTwiceOn(rule, evs) <==> AtMostOnce(R.FiredMinutes(rule, evs))
  {
    forall m
      ensures FiringsOn(rule, evs, m) == Count(R.FiredMinutes(rule, evs), m)
    {
      FiringsOnAreCounted(rule, evs, m);
    }
  }

  /** With a clock that never goes back and rules replaced now and then, the rule never
      fires twice in the sixty seconds of a minute exactly if no replacement falls between
      two matching ticks of one minute. */
  lemma NeverTwiceInSixtySeconds(rule: Rule, evs: seq<R.Event>)
    requires rule.enabled && rule.lastMinute == -1 && R.ClockGoesOn(evs)
    ensures NeverTwiceOn(rule, evs) <==> !ReplacedSomewhere(rule.schedule, evs)
  {
    NeverTwiceByCount(rule, evs);
    R.NeverTwiceExactlyIfNotReplaced(rule, evs);
    DistinctByCount(R.FiredMinutes(rule, evs));
    ReplacedExactlyIfSomewhere(rule.schedule, evs);
  }

  lemma InByCount(s: seq<int>, x: int)
    ensures x in s <==> Count(s, x) >= 1
  {
  }

  ghost predicate ReplacedBetween(evs: seq<R.Event>, k: nat, i: nat)
    requires i <= |evs|
  {
    exists r :: k < r < i && evs[r].Replace?
  }

  /** The first matching tick of minute m since the last replacement. */
  ghost predicate FirstMatching(schedule: string, evs: seq<R.Event>, i: nat, m: int) {
    && i < |evs| && MatchingWake(schedule, evs[i], m)
    && forall k: nat :: k < i && MatchingWake(schedule, evs[k], m) ==> ReplacedBetween(evs, k, i)
  }

  lemma ReplacedBetweenExactlyIf(evs: seq<R.Event>, k: nat, i: nat)
    requires k < i <= |evs| && evs[k].Wake?
    ensures ReplacedBetween(evs, k, i) <==> !R.NoReplaceFrom(evs[..i], k)
  {
    if ReplacedBetween(evs, k, i) {
      var r :| k < r < i && evs[r].Replace?;
      PrefixAt(evs, i, r);
    }
    if !R.NoReplaceFrom(evs[..i], k) {
      var r :| k <= r < |evs[..i]| && evs[..i][r].Replace?;
      PrefixAt(evs, i, r);
    }
  }

  lemma FirstDueMatches(schedule: string, evs: seq<R.Event>, i: nat, m: int)
    requires R.FirstDue(schedule, evs, i, m)
    ensures FirstMatching(schedule, evs, i, m)
  {
    DueIsMatchingWake(schedule, evs, i, m);
    forall k: nat | k < i && MatchingWake(schedule, evs[k], m)
      ensures ReplacedBetween(evs, k, i)
    {
      PrefixAt(evs, i, k);
      DueIsMatchingWake(schedule, evs[..i], k, m);
      ReplacedBetweenExactlyIf(evs, k, i);
    }
  }

  lemma FirstMatchingIsDue(schedule: string, evs: seq<R.Event>, i: nat, m: int)
    requires FirstMatching(schedule, evs, i, m)
    ensures R.FirstDue(schedule, evs, i, m)
  {
    DueIsMatchingWake(schedule, evs, i, m);
    forall k: nat | R.DueIn(schedule, evs[..i], k, m)
      ensures !R.NoReplaceFrom(evs[..i], k)
    {
      DueIsMatchingWake(schedule, evs[..i], k, m);
      PrefixAt(evs, i, k);
      ReplacedBetweenExactlyIf(evs, k, i);
    }
  }

  /** And the write is sent in a minute exactly if the command is available at the first
      matching tick in its sixty seconds, or at one that is the first since a replacement. */
  lemma SentInSixtySecondsExactlyIf(rule: Rule, evs: seq<R.Event>, m: int)
    requires rule.enabled && rule.lastMinute == -1 && R.ClockGoesOn(evs)
    ensures SendingsWithin(rule, evs, m) >= 1 <==>
      exists i: nat :: FirstMatching(rule.schedule, evs, i, m) && evs[i].ready
  {
    SendingsAreCounted(rule, evs, m);
    InByCount(R.SentMinutes(rule, evs), m);
    R.SentExactlyIfReadyAtTheFirstDueTick(rule, evs, m);
    if i: nat :| R.FirstDue(rule.schedule, evs, i, m) && evs[i].ready {
      FirstDueMatches(rule.schedule, evs, i, m);
    }
    if i: nat :| FirstMatching(rule.schedule, evs, i, m) && evs[i].ready {
      FirstMatchingIsDue(rule.schedule, evs, i, m);
    }
  }
}
