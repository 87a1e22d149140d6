/** Runs of the whole cron runner, with all of its rules and any replacements, seen from a
    single rule: what CronRunner and CronReplacing say of one rule is true of every rule
    in the runner. */
module CronProjections {
  import opened Sequences
  import opened CronSchedule
  import opened CronRunner
  import R = CronReplacing

  /** A call of OnTick or of SetRules. */
  datatype Call = Ticking(tick: Tick, ready: set<string>) | Setting(next: map<string, Rule>)

  /** What the methods of class Cron make of its rules. */
  function Called(rules: map<string, Rule>, c: Call): map<string, Rule> {
    match c
    case Ticking(t, _) => TickedAll(rules, t)
    case Setting(next) => next
  }

  function RulesAfter(rules: map<string, Rule>, calls: seq<Call>): map<string, Rule>
    decreases |calls|
  {
    if calls == [] then rules else Called(RulesAfter(rules, calls[..|calls| - 1]), calls[|calls| - 1])
  }

  lemma OneMoreCall(rules: map<string, Rule>, calls: seq<Call>, c: Call)
    ensures RulesAfter(rules, calls + [c]) == Called(RulesAfter(rules, calls), c)
  {
    assert (calls + [c])[..|calls|] == calls;
  }

  /** The call as rule id sees it. */
  function Seen(id: string, c: Call): R.Event {
    match c
    case Ticking(t, ready) => R.Wake(t, id in ready)
    case Setting(_) => R.Replace
  }

  function AllSeen(id: string, calls: seq<Call>): (evs: seq<R.Event>)
    ensures |evs| == |calls| && forall k :: 0 <= k < |calls| ==> evs[k] == Seen(id, calls[k])
  {
    seq(|calls|, k requires 0 <= k < |calls| => Seen(id, calls[k]))
  }

  /** Every replacement puts the rule back as it was read. */
  predicate PutBack(id: string, rule: Rule, calls: seq<Call>) {
    forall k :: 0 <= k < |calls| && calls[k].Setting? ==> id in calls[k].next && calls[k].next[id] == rule
  }

  /** With a rule that is put back unchanged, a run of the runner is a run of that rule,
      whatever other rules come and go. */
  lemma {:induction false} EveryRuleHasItsRun(rules: map<string, Rule>, calls: seq<Call>, id: string, rule: Rule)
    requires id in rules && rules[id] == rule && PutBack(id, rule, calls)
    ensures id in RulesAfter(rules, calls)
    ensures RulesAfter(rules, calls)[id] == R.RuleAfter(rule, AllSeen(id, calls))
    decreases |calls|
  {
    if calls != [] {
      var n := |calls| - 1;
      EveryRuleHasItsRun(rules, calls[..n], id, rule);
      assert AllSeen(id, calls)[..n] == AllSeen(id, calls[..n]);
    }
  }

  /** And the next tick fires the rule, or sends its write, exactly if that run says so. */
  lemma FiresWithItsRun(rules: map<string, Rule>, calls: seq<Call>, id: string, rule: Rule, t: Tick, ready: set<string>)
    requires id in rules && rules[id] == rule && PutBack(id, rule, calls)
    ensures var fired := FiringRules(RulesAfter(rules, calls), t);
      var e := R.Wake(t, id in ready);
      && (id in fired <==> R.FiresOn(rule, AllSeen(id, calls), e))
      && (id in fired * ready <==> R.FiresOn(rule, AllSeen(id, calls), e) && e.ready)
  {
    EveryRuleHasItsRun(rules, calls, id, rule);
  }

  function Tickings(ticks: seq<Tick>, ready: seq<set<string>>): (calls: seq<Call>)
    requires |ready| == |ticks|
    ensures |calls| == |ticks| && forall k :: 0 <= k < |ticks| ==> calls[k] == Ticking(ticks[k], ready[k])
  {
    seq(|ticks|, k requires 0 <= k < |ticks| => Ticking(ticks[k], ready[k]))
  }

  lemma {:induction false} TicksAlone(rules: map<string, Rule>, ticks: seq<Tick>, ready: seq<set<string>>, id: string)
    requires id in rules && |ready| == |ticks|
    ensures id in RulesAfter(rules, Tickings(ticks, ready))
    ensures RulesAfter(rules, Tickings(ticks, ready))[id] == After(rules[id], ticks)
    decreases |ticks|
  {
    if ticks != [] {
      var n := |ticks| - 1;
      TicksAlone(rules, ticks[..n], ready[..n], id);
      assert Tickings(ticks, ready)[..n] == Tickings(ticks[..n], ready[..n]);
    }
  }

  lemma {:induction false} RulesAfterConcat(rules: map<string, Rule>, a: seq<Call>, b: seq<Call>)
    ensures RulesAfter(rules, a + b) == RulesAfter(RulesAfter(rules, a), b)
    decreases |b|
  {
    if b == [] {
      EmptyIsNeutral(a);
    } else {
      SplitLast(a, b);
      RulesAfterConcat(rules, a, b[..|b| - 1]);
      OneMoreCall(rules, a + b[..|b| - 1], b[|b| - 1]);
    }
  }

  /** In general nothing matters but the last replacement: behind it every rule has the
      run of ticks that CronRunner speaks of, from the state in which it was read. */
  lemma OnlyTheLastReplacementMatters(
    rules: map<string, Rule>, before: seq<Call>, next: map<string, Rule>,
    ticks: seq<Tick>, ready: seq<set<string>>, id: string)
    requires id in next && |ready| == |ticks|
    ensures var now := RulesAfter(rules, before + [Setting(next)] + Tickings(ticks, ready));
      id in now && now[id] == After(next[id], ticks)
  {
    RulesAfterConcat(rules, before + [Setting(next)], Tickings(ticks, ready));
    OneMoreCall(rules, before, Setting(next));
    TicksAlone(next, ticks, ready, id);
  }
}
