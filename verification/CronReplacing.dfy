/** Runs of the cron runner in which the rules are replaced now and then, seen from one
    rule that is put back unchanged; and which of its firings are sent. */
module CronReplacing {
  import opened Sequences
  import opened CronSchedule
  import opened CronRunner

  /** A tick, with whether the rule's command has a write part and its value can be
      encoded at that moment; or the rules are replaced. */
  datatype Event = Wake(tick: Tick, ready: bool) | Replace

  /** The rule after the events; a replaced rule is as it was read. */
  function RuleAfter(rule: Rule, evs: seq<Event>): Rule
    decreases |evs|
  {
    if evs == [] then rule
    else
      match evs[|evs| - 1]
      case Wake(t, _) => Ticked(RuleAfter(rule, evs[..|evs| - 1]), t)
      case Replace => rule
  }

  predicate FiresOn(rule: Rule, before: seq<Event>, e: Event) {
    e.Wake? && Fires(RuleAfter(rule, before), e.tick)
  }

  /** The minutes in which the rule fires, in order. */
  function FiredMinutes(rule: Rule, evs: seq<Event>): seq<int>
    decreases |evs|
  {
    if evs == [] then []
    else
      var before, e := evs[..|evs| - 1], evs[|evs| - 1];
      if FiresOn(rule, before, e) then FiredMinutes(rule, before) + [Minute(e.tick)] else FiredMinutes(rule, before)
  }

  /** The minutes in which its write is sent. */
  function SentMinutes(rule: Rule, evs: seq<Event>): seq<int>
    decreases |evs|
  {
    if evs == [] then []
    else
      var before, e := evs[..|evs| - 1], evs[|evs| - 1];
      if FiresOn(rule, before, e) && e.ready then SentMinutes(rule, before) + [Minute(e.tick)]
      else SentMinutes(rule, before)
  }

  // ------------------------------------------------------------- without the state

  predicate DueEvent(schedule: string, e: Event) {
    e.Wake? && Due(schedule, e.tick)
  }

  /** Event i is a due tick of minute m. */
  predicate DueIn(schedule: string, evs: seq<Event>, i: nat, m: int) {
    i < |evs| && DueEvent(schedule, evs[i]) && Minute(evs[i].tick) == m
  }

  predicate NoReplaceFrom(evs: seq<Event>, i: nat) {
    forall r :: i <= r < |evs| ==> !evs[r].Replace?
  }

  /** The clock never goes back. */
  predicate ClockGoesOn(evs: seq<Event>) {
    forall i, j :: 0 <= i < j < |evs| && evs[i].Wake? && evs[j].Wake? ==> evs[i].tick.now <= evs[j].tick.now
  }

  /** Two due ticks of minute m with a replacement after the first of them. */
  ghost predicate DueThenReplaced(schedule: string, evs: seq<Event>, m: int) {
    exists i: nat, r: nat :: i < r < |evs| && DueIn(schedule, evs, i, m) && evs[r].Replace?
  }

  /** A replacement falls between two due ticks of one minute. */
  ghost predicate ReplacedInDueMinute(schedule: string, evs: seq<Event>) {
    exists j: nat :: j < |evs| && DueEvent(schedule, evs[j])
      && DueThenReplaced(schedule, evs[..j], Minute(evs[j].tick))
  }

  /** The minute of the last due tick since the last replacement, or -1. */
  function LastDue(schedule: string, evs: seq<Event>): int
    decreases |evs|
  {
    if evs == [] then -1
    else
      match evs[|evs| - 1]
      case Wake(t, _) => if Due(schedule, t) then Minute(t) else LastDue(schedule, evs[..|evs| - 1])
      case Replace => -1
  }

  /** A fresh rule remembers exactly that. */
  lemma {:induction false} RemembersTheLastDue(rule: Rule, evs: seq<Event>)
    requires rule.enabled && rule.lastMinute == -1
    ensures RuleAfter(rule, evs) == rule.(lastMinute := LastDue(rule.schedule, evs))
    decreases |evs|
  {
    if evs != [] {
      RemembersTheLastDue(rule, evs[..|evs| - 1]);
    }
  }

  lemma DueInWhole(schedule: string, evs: seq<Event>, n: nat, i: nat, m: int)
    requires n <= |evs| && DueIn(schedule, evs[..n], i, m)
    ensures DueIn(schedule, evs, i, m)
  {
  }

  lemma NoReplaceInWhole(evs: seq<Event>, i: nat)
    requires evs != [] && NoReplaceFrom(evs[..|evs| - 1], i) && !evs[|evs| - 1].Replace?
    ensures NoReplaceFrom(evs, i)
  {
    assert forall k :: 0 <= k < |evs| - 1 ==> evs[..|evs| - 1][k] == evs[k];
  }

  lemma LastDueWasBefore(schedule: string, evs: seq<Event>)
    requires evs != [] && LastDue(schedule, evs) != -1 && !DueEvent(schedule, evs[|evs| - 1])
    ensures !evs[|evs| - 1].Replace? && LastDue(schedule, evs) == LastDue(schedule, evs[..|evs| - 1])
  {
  }

  lemma {:induction false} LastDueIsDue(schedule: string, evs: seq<Event>) returns (i: nat)
    requires LastDue(schedule, evs) != -1
    ensures DueIn(schedule, evs, i, LastDue(schedule, evs)) && NoReplaceFrom(evs, i)
    decreases |evs|
  {
    var n := |evs| - 1;
    if DueEvent(schedule, evs[n]) {
      i := n;
    } else {
      LastDueWasBefore(schedule, evs);
      i := LastDueIsDue(schedule, evs[..n]);
      DueInWhole(schedule, evs, n, i, LastDue(schedule, evs));
      NoReplaceInWhole(evs, i);
    }
  }

  lemma ClockGoesOnBefore(evs: seq<Event>, n: nat)
    requires n <= |evs| && ClockGoesOn(evs)
    ensures ClockGoesOn(evs[..n])
  {
  }

  lemma NoReplaceBefore(evs: seq<Event>, n: nat, i: nat)
    requires i < n <= |evs| && NoReplaceFrom(evs, i)
    ensures NoReplaceFrom(evs[..n], i)
  {
  }

  lemma DueBefore(schedule: string, evs: seq<Event>, n: nat, i: nat, m: int)
    requires i < n <= |evs| && DueIn(schedule, evs, i, m)
    ensures DueIn(schedule, evs[..n], i, m)
  {
  }

  /** With nothing replaced since a due tick, the last one is at least as late. */
  lemma {:induction false} LastDueIsLater(schedule: string, evs: seq<Event>, i: nat, m: int)
    requires ClockGoesOn(evs) && DueIn(schedule, evs, i, m) && NoReplaceFrom(evs, i)
    ensures LastDue(schedule, evs) >= m
    decreases |evs|
  {
    var n := |evs| - 1;
    if i < n {
      assert evs[n].Wake?;
      if DueEvent(schedule, evs[n]) {
        MinutesGoOn(evs[i].tick, evs[n].tick);
      } else {
        ClockGoesOnBefore(evs, n);
        NoReplaceBefore(evs, n, i);
        DueBefore(schedule, evs, n, i, m);
        LastDueIsLater(schedule, evs[..n], i, m);
      }
    }
  }

  lemma {:induction false} LastDueIsNotAhead(schedule: string, evs: seq<Event>, t: Tick)
    requires forall i :: 0 <= i < |evs| && evs[i].Wake? ==> evs[i].tick.now <= t.now
    ensures LastDue(schedule, evs) == -1 || LastDue(schedule, evs) <= Minute(t)
  {
    if LastDue(schedule, evs) != -1 {
      var i := LastDueIsDue(schedule, evs);
      MinutesGoOn(evs[i].tick, t);
    }
  }

  /** At a due tick the rule remembers this minute exactly if some due tick of the minute
      was not followed by a replacement. */
  lemma RemembersThisMinuteExactlyIf(schedule: string, evs: seq<Event>, t: Tick)
    requires ClockGoesOn(evs + [Wake(t, true)]) && Due(schedule, t)
    ensures LastDue(schedule, evs) == Minute(t) <==>
      exists i: nat :: DueIn(schedule, evs, i, Minute(t)) && NoReplaceFrom(evs, i)
  {
    var all := evs + [Wake(t, true)];
    assert forall i :: 0 <= i < |evs| ==> all[i] == evs[i];
    assert all[|evs|] == Wake(t, true);
    if LastDue(schedule, evs) == Minute(t) {
      var i := LastDueIsDue(schedule, evs);
    }
    if exists i: nat :: DueIn(schedule, evs, i, Minute(t)) && NoReplaceFrom(evs, i) {
      var i: nat :| DueIn(schedule, evs, i, Minute(t)) && NoReplaceFrom(evs, i);
      LastDueIsLater(schedule, evs, i, Minute(t));
      LastDueIsNotAhead(schedule, evs, t);
    }
  }

  // ------------------------------------------------------- once per minute, or not

  lemma FiredOneMore(rule: Rule, before: seq<Event>, e: Event)
    ensures FiredMinutes(rule, before + [e]) ==
      if FiresOn(rule, before, e) then FiredMinutes(rule, before) + [Minute(e.tick)] else FiredMinutes(rule, before)
  {
    assert (before + [e])[..|before|] == before;
  }

  /** An event fires exactly if it is a due tick of a minute not remembered. */
  lemma FiresExactlyIf(rule: Rule, before: seq<Event>, e: Event)
    requires rule.enabled && rule.lastMinute == -1
    ensures FiresOn(rule, before, e) <==> DueEvent(rule.schedule, e) && LastDue(rule.schedule, before) != Minute(e.tick)
  {
    RemembersTheLastDue(rule, before);
  }

  lemma RememberedIsDue(schedule: string, before: seq<Event>, e: Event)
    requires DueEvent(schedule, e) && LastDue(schedule, before) == Minute(e.tick)
    ensures exists i: nat :: DueIn(schedule, before, i, Minute(e.tick))
  {
    var i := LastDueIsDue(schedule, before);
  }

  lemma {:induction false} EveryDueMinuteFires(rule: Rule, evs: seq<Event>, m: int)
    requires rule.enabled && rule.lastMinute == -1
    ensures m in FiredMinutes(rule, evs) <==> exists i: nat :: DueIn(rule.schedule, evs, i, m)
    decreases |evs|
  {
    if evs != [] {
      var before, e := evs[..|evs| - 1], evs[|evs| - 1];
      assert evs == before + [e];
      EveryDueMinuteFires(rule, before, m);
      DueInOneMore(rule.schedule, before, e, m);
      FiredOneMore(rule, before, e);
      FiresExactlyIf(rule, before, e);
      if DueEvent(rule.schedule, e) && LastDue(rule.schedule, before) == Minute(e.tick) {
        RememberedIsDue(rule.schedule, before, e);
      }
    }
  }

  lemma DueInOneMore(schedule: string, before: seq<Event>, e: Event, m: int)
    ensures (exists i: nat :: DueIn(schedule, before + [e], i, m)) <==>
      (exists i: nat :: DueIn(schedule, before, i, m)) || (DueEvent(schedule, e) && Minute(e.tick) == m)
  {
    var all := before + [e];
    assert all[|before|] == e && forall i :: 0 <= i < |before| ==> all[i] == before[i];
    if i: nat :| DueIn(schedule, before, i, m) {
      assert DueIn(schedule, all, i, m);
    }
    if DueEvent(schedule, e) && Minute(e.tick) == m {
      assert DueIn(schedule, all, |before|, m);
    }
    if i: nat :| DueIn(schedule, all, i, m) {
      assert i < |before| ==> DueIn(schedule, before, i, m);
    }
  }

  lemma ReplacedOneMore(schedule: string, before: seq<Event>, e: Event)
    ensures ReplacedInDueMinute(schedule, before + [e]) <==>
      || ReplacedInDueMinute(schedule, before)
      || (DueEvent(schedule, e) && DueThenReplaced(schedule, before, Minute(e.tick)))
  {
    var all := before + [e];
    assert all[..|before|] == before && all[|before|] == e;
    assert forall j :: 0 <= j < |before| ==> all[j] == before[j] && all[..j] == before[..j];
    if ReplacedInDueMinute(schedule, before) {
      var j: nat :| j < |before| && DueEvent(schedule, before[j])
        && DueThenReplaced(schedule, before[..j], Minute(before[j].tick));
      assert DueThenReplaced(schedule, all[..j], Minute(all[j].tick));
    }
    if DueEvent(schedule, e) && DueThenReplaced(schedule, before, Minute(e.tick)) {
      assert DueThenReplaced(schedule, all[..|before|], Minute(all[|before|].tick));
    }
  }

  /** A replacement behind a due tick of a minute that is remembered again lies between
      two due ticks. */
  lemma ReplacedInBetween(schedule: string, before: seq<Event>, m: int, last: nat)
    requires DueThenReplaced(schedule, before, m)
    requires DueIn(schedule, before, last, m) && NoReplaceFrom(before, last)
    ensures ReplacedInDueMinute(schedule, before)
  {
    var i: nat, r: nat :| i < r < |before| && DueIn(schedule, before, i, m) && before[r].Replace?;
    assert r < last;
    var part := before[..last];
    assert part[i] == before[i] && part[r] == before[r];
    assert DueIn(schedule, part, i, m);
    assert DueThenReplaced(schedule, part, m);
  }

  lemma NoReplaceOrReplaced(schedule: string, evs: seq<Event>, i: nat, m: int)
    requires DueIn(schedule, evs, i, m) && !DueThenReplaced(schedule, evs, m)
    ensures NoReplaceFrom(evs, i)
  {
  }

  /** Of the two cases in the next lemma: the minute is remembered. */
  lemma RememberedMinute(schedule: string, before: seq<Event>, t: Tick)
    requires Due(schedule, t) && LastDue(schedule, before) == Minute(t)
    ensures DueThenReplaced(schedule, before, Minute(t)) ==> ReplacedInDueMinute(schedule, before)
  {
    var last := LastDueIsDue(schedule, before);
    if DueThenReplaced(schedule, before, Minute(t)) {
      ReplacedInBetween(schedule, before, Minute(t), last);
    }
  }

  /** And: it is not, so what was due in it has been replaced since. */
  lemma ForgottenMinute(schedule: string, before: seq<Event>, t: Tick)
    requires Due(schedule, t) && ClockGoesOn(before + [Wake(t, true)]) && LastDue(schedule, before) != Minute(t)
    ensures (exists i: nat :: DueIn(schedule, before, i, Minute(t))) <==> DueThenReplaced(schedule, before, Minute(t))
  {
    RemembersThisMinuteExactlyIf(schedule, before, t);
    if i: nat :| DueIn(schedule, before, i, Minute(t)) {
      if !DueThenReplaced(schedule, before, Minute(t)) {
        NoReplaceOrReplaced(schedule, before, i, Minute(t));
      }
    }
  }

  lemma OneDueTick(rule: Rule, before: seq<Event>, t: Tick, ready: bool)
    requires rule.enabled && rule.lastMinute == -1 && Due(rule.schedule, t) && ClockGoesOn(before + [Wake(t, true)])
    requires Distinct(FiredMinutes(rule, before)) <==> !ReplacedInDueMinute(rule.schedule, before)
    ensures Distinct(FiredMinutes(rule, before + [Wake(t, ready)]))
       <==> !ReplacedInDueMinute(rule.schedule, before + [Wake(t, ready)])
  {
    var e, m := Wake(t, ready), Minute(t);
    ReplacedOneMore(rule.schedule, before, e);
    FiredOneMore(rule, before, e);
    FiresExactlyIf(rule, before, e);
    if LastDue(rule.schedule, before) == m {
      RememberedMinute(rule.schedule, before, t);
    } else {
      DistinctGrows(FiredMinutes(rule, before), m);
      EveryDueMinuteFires(rule, before, m);
      ForgottenMinute(rule.schedule, before, t);
    }
  }

  /** Once per minute in the presence of replacements: with a clock that never goes back,
      an enabled rule never fires twice in a minute exactly if no replacement falls
      between two due ticks of one minute. (It fires in every minute with a due tick:
      EveryDueMinuteFires.) */
  lemma {:induction false} NeverTwiceExactlyIfNotReplaced(rule: Rule, evs: seq<Event>)
    requires rule.enabled && rule.lastMinute == -1 && ClockGoesOn(evs)
    ensures Distinct(FiredMinutes(rule, evs)) <==> !ReplacedInDueMinute(rule.schedule, evs)
    decreases |evs|
  {
    if evs == [] {
      NothingFiredYet(rule);
    } else {
      var before, e := evs[..|evs| - 1], evs[|evs| - 1];
      ClockGoesOnBefore(evs, |before|);
      NeverTwiceExactlyIfNotReplaced(rule, before);
      SplitLast([], evs);
      OneEvent(rule, before, e);
    }
  }

  lemma NothingFiredYet(rule: Rule)
    ensures Distinct(FiredMinutes(rule, [])) && !ReplacedInDueMinute(rule.schedule, [])
  {
  }

  lemma OneEvent(rule: Rule, before: seq<Event>, e: Event)
    requires rule.enabled && rule.lastMinute == -1 && ClockGoesOn(before + [e])
    requires Distinct(FiredMinutes(rule, before)) <==> !ReplacedInDueMinute(rule.schedule, before)
    ensures Distinct(FiredMinutes(rule, before + [e])) <==> !ReplacedInDueMinute(rule.schedule, before + [e])
  {
    if DueEvent(rule.schedule, e) {
      ClockWithAnyReadiness(before, e);
      OneDueTick(rule, before, e.tick, e.ready);
    } else {
      ReplacedOneMore(rule.schedule, before, e);
      FiredOneMore(rule, before, e);
      FiresExactlyIf(rule, before, e);
    }
  }

  lemma ClockWithAnyReadiness(before: seq<Event>, e: Event)
    requires e.Wake? && ClockGoesOn(before + [e])
    ensures ClockGoesOn(before + [Wake(e.tick, true)])
  {
    var a, b := before + [e], before + [Wake(e.tick, true)];
    forall i, j | 0 <= i < j < |b| && b[i].Wake? && b[j].Wake?
      ensures b[i].tick.now <= b[j].tick.now
    {
      assert a[i].Wake? && a[j].Wake? && a[i].tick == b[i].tick && a[j].tick == b[j].tick;
    }
  }

  // ------------------------------------------------------------------ what is sent

  /** Event i is the first due tick of its minute since the last replacement. */
  ghost predicate FirstDue(schedule: string, evs: seq<Event>, i: nat, m: int) {
    && DueIn(schedule, evs, i, m)
    && !exists k: nat :: DueIn(schedule, evs[..i], k, m) && NoReplaceFrom(evs[..i], k)
  }

  lemma FirstDueOneMore(schedule: string, before: seq<Event>, e: Event, i: nat, m: int)
    ensures FirstDue(schedule, before + [e], i, m) <==>
      || FirstDue(schedule, before, i, m)
      || (i == |before| && DueEvent(schedule, e) && Minute(e.tick) == m
          && !exists k: nat :: DueIn(schedule, before, k, m) && NoReplaceFrom(before, k))
  {
    var all := before + [e];
    if i < |before| {
      assert all[i] == before[i] && all[..i] == before[..i];
    } else if i == |before| {
      assert all[i] == e && all[..i] == before;
    }
  }

  /** With a clock that never goes back, the write is sent in a minute exactly if the rule
      is ready at a first due tick of that minute; a rule that is not ready then has used
      the minute up. */
  lemma {:induction false} SentExactlyIfReadyAtTheFirstDueTick(rule: Rule, evs: seq<Event>, m: int)
    requires rule.enabled && rule.lastMinute == -1 && ClockGoesOn(evs)
    ensures m in SentMinutes(rule, evs) <==> exists i: nat :: FirstDue(rule.schedule, evs, i, m) && evs[i].ready
    decreases |evs|
  {
    if evs != [] {
      var before, e := evs[..|evs| - 1], evs[|evs| - 1];
      assert evs == before + [e];
      ClockGoesOnBefore(evs, |before|);
      SentExactlyIfReadyAtTheFirstDueTick(rule, before, m);
      RemembersTheLastDue(rule, before);
      if DueEvent(rule.schedule, e) {
        ClockWithAnyReadiness(before, e);
        RemembersThisMinuteExactlyIf(rule.schedule, before, e.tick);
      }
      SentOneMore(rule.schedule, before, e, m);
    }
  }

  lemma SentOneMore(schedule: string, before: seq<Event>, e: Event, m: int)
    ensures (exists i: nat :: FirstDue(schedule, before + [e], i, m) && (before + [e])[i].ready) <==>
      || (exists i: nat :: FirstDue(schedule, before, i, m) && before[i].ready)
      || (DueEvent(schedule, e) && Minute(e.tick) == m && e.ready
          && !exists k: nat :: DueIn(schedule, before, k, m) && NoReplaceFrom(before, k))
  {
    var all := before + [e];
    forall i: nat
      ensures FirstDue(schedule, all, i, m) <==>
        || FirstDue(schedule, before, i, m)
        || (i == |before| && DueEvent(schedule, e) && Minute(e.tick) == m
            && !exists k: nat :: DueIn(schedule, before, k, m) && NoReplaceFrom(before, k))
    {
      FirstDueOneMore(schedule, before, e, i, m);
    }
    if i: nat :| FirstDue(schedule, before, i, m) && before[i].ready {
      assert FirstDue(schedule, all, i, m) && all[i] == before[i];
    }
    if DueEvent(schedule, e) && Minute(e.tick) == m && e.ready
      && !exists k: nat :: DueIn(schedule, before, k, m) && NoReplaceFrom(before, k) {
      assert FirstDue(schedule, all, |before|, m) && all[|before|] == e;
    }
  }
}
