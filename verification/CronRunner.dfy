/** The cron runner (src/app/cron.cpp): a tick about once a second fires every enabled
    rule whose schedule matches, and remembers the minute so that the next ticks of
    that minute do nothing. */
module CronRunner {
  import opened Sequences
  import opened CronSchedule

  /** One wake-up: the clock in seconds and the local time it stands for. */
  datatype Tick = Tick(now: int, local: LocalTime)

  function Minute(t: Tick): int {
    t.now / 60
  }

  /** The schedule matches at a tick the runner does not ignore. */
  predicate Due(schedule: string, t: Tick) {
    t.now > 0 && MatchSchedule(schedule, t.local)
  }

  predicate Fires(rule: Rule, t: Tick) {
    rule.enabled && rule.lastMinute != Minute(t) && Due(rule.schedule, t)
  }

  function Ticked(rule: Rule, t: Tick): Rule {
    if Fires(rule, t) then rule.(lastMinute := Minute(t)) else rule
  }

  function TickedAll(rules: map<string, Rule>, t: Tick): map<string, Rule> {
    map id | id in rules :: Ticked(rules[id], t)
  }

  function FiringRules(rules: map<string, Rule>, t: Tick): set<string> {
    set id | id in rules && Fires(rules[id], t)
  }

  lemma NothingOnAStoppedClock(rules: map<string, Rule>, t: Tick)
    requires t.now <= 0
    ensures TickedAll(rules, t) == rules && FiringRules(rules, t) == {}
  {
  }

  /** A loop over the keys of a map on its way from before to after. */
  ghost predicate Between<V>(before: map<string, V>, now: map<string, V>, after: map<string, V>, left: set<string>) {
    && before.Keys == now.Keys == after.Keys && left <= now.Keys
    && forall id :: id in now ==> now[id] == if id in left then before[id] else after[id]
  }

  lemma LoopStep<V>(before: map<string, V>, now: map<string, V>, after: map<string, V>, left: set<string>, id: string)
    requires Between(before, now, after, left) && id in left
    ensures Between(before, now[id := after[id]], after, left - {id})
  {
  }

  lemma LoopEnd<V>(before: map<string, V>, now: map<string, V>, after: map<string, V>)
    requires Between(before, now, after, {})
    ensures now == after
  {
  }

  lemma OneSettled(due: set<string>, left: set<string>, id: string)
    requires id in left
    ensures id in due ==> (due - left) + {id} == due - (left - {id})
    ensures id !in due ==> due - left == due - (left - {id})
  {
  }

  class Cron {
    var rules: map<string, Rule>

    constructor ()
      ensures rules == map[]
    {
      rules := map[];
    }

    /** setRules: the new rules come as they were read, none has fired yet. */
    method SetRules(next: map<string, Rule>)
      modifies this
      ensures rules == next
    {
      rules := next;
    }

    /** The body of the loop over the rules. */
    method TickRule(id: string, t: Tick) returns (fires: bool)
      requires id in rules && t.now > 0
      modifies this
      ensures rules == old(rules)[id := Ticked(old(rules)[id], t)]
      ensures fires == Fires(old(rules)[id], t)
    {
      var rule := rules[id];
      fires := false;
      if rule.enabled && rule.lastMinute != t.now / 60 && MatchSchedule(rule.schedule, t.local) {
        rule := rule.(lastMinute := t.now / 60);
        fires := true;
      }
      rules := rules[id := rule];
    }

    /** tick. `ready` holds the rules whose command has a write part and whose value
        can be encoded at this moment; only they are sent, but the minute of the
        others is used up, too. */
    method OnTick(t: Tick, ready: set<string>) returns (fired: set<string>, sent: set<string>)
      modifies this
      ensures rules == TickedAll(old(rules), t)
      ensures fired == FiringRules(old(rules), t)
      ensures sent == fired * ready
    {
      fired := {};
      if t.now <= 0 {
        NothingOnAStoppedClock(rules, t);
        return fired, {};
      }
      ghost var before, after := rules, TickedAll(rules, t);
      ghost var due := FiringRules(rules, t);
      var left := rules.Keys;
      while left != {}
        invariant Between(before, rules, after, left)
        invariant fired == due - left
        invariant after == TickedAll(before, t) && due == FiringRules(before, t)
        decreases |left|
      {
        var id :| id in left;
        LoopStep(before, rules, after, left, id);
        OneSettled(due, left, id);
        left := left - {id};
        var fires := TickRule(id, t);
        if fires {
          fired := fired + {id};
        }
      }
      LoopEnd(before, rules, after);
      sent := fired * ready;
    }
  }

  // -------------------------------------------------------------- one rule's run

  /** The rule after a run of ticks. */
  function After(rule: Rule, ticks: seq<Tick>): Rule {
    if ticks == [] then rule else Ticked(After(rule, ticks[..|ticks| - 1]), ticks[|ticks| - 1])
  }

  /** The minutes in which it fired, in order. */
  function Fired(rule: Rule, ticks: seq<Tick>): seq<int> {
    if ticks == [] then []
    else
      var (before, t) := (ticks[..|ticks| - 1], ticks[|ticks| - 1]);
      Fired(rule, before) + if Fires(After(rule, before), t) then [Minute(t)] else []
  }

  /** The minutes of the ticks at which the schedule matched, in order. */
  function DueMinutes(schedule: string, ticks: seq<Tick>): seq<int> {
    if ticks == [] then []
    else
      var (before, t) := (ticks[..|ticks| - 1], ticks[|ticks| - 1]);
      DueMinutes(schedule, before) + if Due(schedule, t) then [Minute(t)] else []
  }

  function LastOr(s: seq<int>, otherwise: int): int {
    if s == [] then otherwise else s[|s| - 1]
  }

  /** s without the entries that repeat the one before; the first is compared to
      `first`. */
  function Changes(first: int, s: seq<int>): seq<int> {
    if s == [] then []
    else
      var before := s[..|s| - 1];
      Changes(first, before) + if s[|s| - 1] != LastOr(before, first) then [s[|s| - 1]] else []
  }

  lemma AppendOne(before: seq<int>, x: int)
    ensures (before + [x])[..|before + [x]| - 1] == before
  {
  }

  lemma ChangesOfAppend(first: int, before: seq<int>, x: int)
    ensures Changes(first, before + [x]) == Changes(first, before) + if x != LastOr(before, first) then [x] else []
  {
    AppendOne(before, x);
  }

  /** For any clock and any local time: a rule fires in exactly the minutes at which
      the schedule matches, except where that minute is the one just before in the
      list; a disabled rule never fires. */
  lemma {:induction false} FiresOnEveryChange(rule: Rule, ticks: seq<Tick>)
    ensures rule.enabled ==> Fired(rule, ticks) == Changes(rule.lastMinute, DueMinutes(rule.schedule, ticks))
    ensures rule.enabled ==>
      After(rule, ticks) == rule.(lastMinute := LastOr(DueMinutes(rule.schedule, ticks), rule.lastMinute))
    ensures !rule.enabled ==> Fired(rule, ticks) == [] && After(rule, ticks) == rule
  {
    if ticks != [] {
      var (before, t) := (ticks[..|ticks| - 1], ticks[|ticks| - 1]);
      FiresOnEveryChange(rule, before);
      var due := DueMinutes(rule.schedule, before);
      if rule.enabled && Due(rule.schedule, t) {
        ChangesOfAppend(rule.lastMinute, due, Minute(t));
      }
      EmptyIsNeutral(due);
      EmptyIsNeutral(Fired(rule, before));
    }
  }

  // ------------------------------------------------------------- once per minute

  /** Equal entries stand next to each other: no minute comes back after another. */
  predicate Grouped(s: seq<int>) {
    forall i, j, k :: 0 <= i < j < k < |s| && s[i] == s[k] ==> s[j] == s[i]
  }

  lemma {:induction false} ChangesKeepValues(first: int, s: seq<int>, x: int)
    requires first !in s
    ensures x in Changes(first, s) <==> x in s
  {
    if s != [] {
      var before := s[..|s| - 1];
      assert s == before + [s[|s| - 1]];
      ChangesKeepValues(first, before, x);
    }
  }

  lemma GroupedGrows(before: seq<int>, x: int)
    ensures Grouped(before + [x]) <==> Grouped(before) && (x in before ==> before[|before| - 1] == x)
  {
    var s := before + [x];
    if Grouped(s) {
      forall i, j, k | 0 <= i < j < k < |before| && before[i] == before[k]
        ensures before[j] == before[i]
      {
        assert s[i] == s[k] && s[j] == s[i];
      }
      if x in before {
        var i :| 0 <= i < |before| && before[i] == x;
        assert s[i] == s[|before|] && i < |before| - 1 ==> s[|before| - 1] == s[i];
      }
    }
    if Grouped(before) && (x in before ==> before[|before| - 1] == x) {
      forall i, j, k | 0 <= i < j < k < |s| && s[i] == s[k]
        ensures s[j] == s[i]
      {
        if k == |before| {
          assert before[i] == x;
          assert j < |before| - 1 ==> before[i] == before[|before| - 1] && before[j] == before[i];
        }
      }
    }
  }

  lemma OneMoreMinute(fired: seq<int>, due: seq<int>, first: int, x: int)
    requires (Distinct(fired) <==> Grouped(due)) && (x in fired <==> x in due) && x != first
    ensures Distinct(fired + if x != LastOr(due, first) then [x] else []) <==> Grouped(due + [x])
  {
    GroupedGrows(due, x);
    DistinctGrows(fired, x);
    EmptyIsNeutral(fired);
  }

  /** Nothing fires twice exactly if no matching minute comes back after another. */
  lemma {:induction false} DistinctExactlyIfGrouped(first: int, s: seq<int>)
    requires first !in s
    ensures Distinct(Changes(first, s)) <==> Grouped(s)
  {
    if s != [] {
      var (before, x) := (s[..|s| - 1], s[|s| - 1]);
      assert s == before + [x];
      DistinctExactlyIfGrouped(first, before);
      ChangesKeepValues(first, before, x);
      ChangesOfAppend(first, before, x);
      OneMoreMinute(Changes(first, before), before, first, x);
    }
  }

  /** The clock never goes back. */
  predicate NonDecreasing(ticks: seq<Tick>) {
    forall i, j :: 0 <= i <= j < |ticks| ==> ticks[i].now <= ticks[j].now
  }

  predicate Sorted(s: seq<int>) {
    forall i, j :: 0 <= i <= j < |s| ==> s[i] <= s[j]
  }

  ghost predicate DueInMinute(schedule: string, ticks: seq<Tick>, m: int) {
    exists i :: 0 <= i < |ticks| && Due(schedule, ticks[i]) && Minute(ticks[i]) == m
  }

  lemma {:induction false} DueMinutesAre(schedule: string, ticks: seq<Tick>, m: int)
    ensures m in DueMinutes(schedule, ticks) <==> DueInMinute(schedule, ticks, m)
  {
    if ticks != [] {
      var (before, t) := (ticks[..|ticks| - 1], ticks[|ticks| - 1]);
      DueMinutesAre(schedule, before, m);
      if DueInMinute(schedule, ticks, m) {
        var i :| 0 <= i < |ticks| && Due(schedule, ticks[i]) && Minute(ticks[i]) == m;
        if i < |before| {
          assert before[i] == ticks[i];
        }
      }
      if DueInMinute(schedule, before, m) {
        var i :| 0 <= i < |before| && Due(schedule, before[i]) && Minute(before[i]) == m;
        assert ticks[i] == before[i];
      }
    }
  }

  lemma MinutesGoOn(a: Tick, b: Tick)
    requires a.now <= b.now
    ensures Minute(a) <= Minute(b)
  {
  }

  predicate Below(s: seq<int>, bound: int) {
    forall k :: 0 <= k < |s| ==> s[k] <= bound
  }

  lemma SortedGrows(before: seq<int>, x: int)
    requires Sorted(before) && Below(before, x)
    ensures Sorted(before + [x]) && Below(before + [x], x)
  {
  }

  lemma {:induction false} DueMinutesAreSorted(schedule: string, ticks: seq<Tick>)
    requires NonDecreasing(ticks)
    ensures Sorted(DueMinutes(schedule, ticks))
    ensures ticks != [] ==> Below(DueMinutes(schedule, ticks), Minute(ticks[|ticks| - 1]))
  {
    if ticks != [] {
      var (before, t) := (ticks[..|ticks| - 1], ticks[|ticks| - 1]);
      DueMinutesAreSorted(schedule, before);
      if before != [] {
        MinutesGoOn(ticks[|before| - 1], t);
      }
      SortedGrows(DueMinutes(schedule, before), Minute(t));
      EmptyIsNeutral(DueMinutes(schedule, before));
    }
  }

  lemma SortedIsGrouped(s: seq<int>)
    requires Sorted(s)
    ensures Grouped(s)
  {
    forall i, j, k | 0 <= i < j < k < |s| && s[i] == s[k]
      ensures s[j] == s[i]
    {
      assert s[i] <= s[j] <= s[k];
    }
  }

  function Count(s: seq<int>, x: int): nat {
    multiset(s)[x]
  }

  lemma {:induction false} CountOfDistinct(s: seq<int>, x: int)
    requires Distinct(s)
    ensures Count(s, x) == if x in s then 1 else 0
  {
    if s != [] {
      var (before, y) := (s[..|s| - 1], s[|s| - 1]);
      assert s == before + [y];
      DistinctGrows(before, y);
      CountOfDistinct(before, x);
      assert multiset(s) == multiset(before) + multiset{y};
    }
  }

  lemma NotYetFired(schedule: string, ticks: seq<Tick>)
    ensures -1 !in DueMinutes(schedule, ticks)
  {
    DueMinutesAre(schedule, ticks, -1);
  }

  /** With a clock that never goes back, a fresh rule fires exactly once in every minute
      with a tick at which its schedule matches, and never else. */
  lemma OncePerMatchingMinute(rule: Rule, ticks: seq<Tick>, m: int)
    requires rule.enabled && rule.lastMinute == -1 && NonDecreasing(ticks)
    ensures Count(Fired(rule, ticks), m) == if DueInMinute(rule.schedule, ticks, m) then 1 else 0
  {
    var due := DueMinutes(rule.schedule, ticks);
    FiresOnEveryChange(rule, ticks);
    NotYetFired(rule.schedule, ticks);
    DueMinutesAreSorted(rule.schedule, ticks);
    SortedIsGrouped(due);
    DistinctExactlyIfGrouped(-1, due);
    CountOfDistinct(Changes(-1, due), m);
    ChangesKeepValues(-1, due, m);
    DueMinutesAre(rule.schedule, ticks, m);
  }

  /** For any clock: a fresh rule never fires twice in a minute exactly if the clock
      never returns to a matching minute after another matching minute. */
  lemma NeverTwiceExactlyIf(rule: Rule, ticks: seq<Tick>)
    requires rule.enabled && rule.lastMinute == -1
    ensures Distinct(Fired(rule, ticks)) <==> Grouped(DueMinutes(rule.schedule, ticks))
  {
    FiresOnEveryChange(rule, ticks);
    NotYetFired(rule.schedule, ticks);
    DistinctExactlyIfGrouped(-1, DueMinutes(rule.schedule, ticks));
  }

  /** Local time depends on the minute alone. */
  predicate LocalByMinute(ticks: seq<Tick>) {
    forall i, j :: 0 <= i < |ticks| && 0 <= j < |ticks| && Minute(ticks[i]) == Minute(ticks[j]) ==>
      ticks[i].local == ticks[j].local
  }

  /** Then it is the first tick of a matching minute that fires, so one tick in the
      minute is enough. */
  lemma AnyTickWillDo(rule: Rule, ticks: seq<Tick>, i: nat)
    requires rule.enabled && rule.lastMinute == -1 && NonDecreasing(ticks) && LocalByMinute(ticks)
    requires i < |ticks| && ticks[i].now > 0
    ensures Count(Fired(rule, ticks), Minute(ticks[i])) == if MatchSchedule(rule.schedule, ticks[i].local) then 1 else 0
  {
    OncePerMatchingMinute(rule, ticks, Minute(ticks[i]));
    if MatchSchedule(rule.schedule, ticks[i].local) {
      assert Due(rule.schedule, ticks[i]);
    }
  }

  /** Replacing the rules forgets the minute: a rule put back unchanged does something
      else at the next tick exactly if that tick is due in the minute in which the rule
      has just fired, and then it fires a second time in it. */
  lemma ReplacedRuleFiresAgain(rule: Rule, ticks: seq<Tick>, t: Tick)
    requires rule.enabled && rule.lastMinute == -1
    ensures Fires(rule, t) != Fires(After(rule, ticks), t) <==>
      Due(rule.schedule, t) && LastOr(DueMinutes(rule.schedule, ticks), -1) == Minute(t)
    ensures Fires(rule, t) != Fires(After(rule, ticks), t) ==> Fires(rule, t) && Minute(t) in Fired(rule, ticks)
  {
    FiresOnEveryChange(rule, ticks);
    NotYetFired(rule.schedule, ticks);
    ChangesKeepValues(-1, DueMinutes(rule.schedule, ticks), Minute(t));
  }
}
