/** Schedules without any of the characters * / , - in them. The validator measures
    them against one sample time, so nearly all of them are refused. */
module CronPlain {
  import opened Words
  import opened Decimals
  import opened CronFields
  import opened CronSchedule

  lemma {:induction false} LettersOfWords(s: string, w: string, c: char)
    requires w in WordsOf(s) && c in w
    ensures c in s
    decreases |s|
  {
    if s != "" {
      if Blank(s[0]) {
        LettersOfWords(s[1..], w, c);
      } else {
        var n := WordLength(s);
        if w != s[..n] {
          LettersOfWords(s[n..], w, c);
        }
      }
    }
  }

  lemma {:induction false} WordsAreFilled(s: string, w: string)
    requires w in WordsOf(s)
    ensures w != ""
    decreases |s|
  {
    if s != "" {
      if Blank(s[0]) {
        WordsAreFilled(s[1..], w);
      } else {
        var n := WordLength(s);
        if w != s[..n] {
          WordsAreFilled(s[n..], w);
        }
      }
    }
  }

  lemma LettersOfTruncated(w: string, c: char)
    requires c in Truncated(w)
    ensures c in w
  {
  }

  lemma PlainField(schedule: string, k: nat)
    requires !HasWildcard(schedule) && FieldsOf(schedule).Some? && k < FIELDS
    ensures !HasWildcard(FieldsOf(schedule).value[k]) && FieldsOf(schedule).value[k] != ""
  {
    var w := WordsOf(schedule)[k];
    WordsAreFilled(schedule, w);
    assert FieldsOf(schedule).value[k] == Truncated(w);
    if HasWildcard(Truncated(w)) {
      var c :| c in ['*', '/', ',', '-'] && c in Truncated(w);
      LettersOfTruncated(w, c);
      LettersOfWords(schedule, w, c);
    }
  }

  lemma OnePart(field: string)
    requires ',' !in field
    ensures Parts(field) == [field]
  {
    NothingToSplit(field, ',');
  }

  lemma OnePartMatches(field: string, v: int, lo: int, hi: int, dayOfWeek: bool)
    requires ',' !in field && field != ""
    ensures MatchField(field, v, lo, hi, dayOfWeek) <==> MatchPart(field, v, lo, hi, dayOfWeek)
  {
    OnePart(field);
    assert MatchParts([field][1..], v, lo, hi, dayOfWeek) == false;
  }

  /** A plain part that matches anything is valid. */
  lemma MatchedPartIsValid(part: string, v: int, lo: int, hi: int, dayOfWeek: bool)
    requires !HasWildcard(part) && part != "" && MatchPart(part, v, lo, hi, dayOfWeek)
    ensures ValidatePart(part, lo, hi, dayOfWeek)
  {
    NotCut(part, '/');
    assert part != "*" by {
      assert part[0] in part;
    }
  }

  lemma MatchedFieldIsValid(field: string, k: nat, v: int)
    requires k < FIELDS && !HasWildcard(field) && field != "" && MatchField(field, v, Lo(k), Hi(k), k == 4)
    ensures ValidateField(field, Lo(k), Hi(k), k == 4)
  {
    OnePart(field);
    OnePartMatches(field, v, Lo(k), Hi(k), k == 4);
    MatchedPartIsValid(field, v, Lo(k), Hi(k), k == 4);
  }

  /** Exactly which rules with a plain schedule are kept: those that match the sample
      time, midnight of Sunday the first of January. */
  lemma PlainIsAcceptedExactlyAtTheSample(rule: Rule, lookup: Lookup)
    requires !HasWildcard(rule.schedule)
    ensures Accepted(rule, lookup) <==> Complete(rule, lookup) && MatchSchedule(rule.schedule, SAMPLE)
  {
    AcceptedBy(rule, lookup);
    if MatchSchedule(rule.schedule, SAMPLE) {
      var fields := FieldsOf(rule.schedule).value;
      MatchesEveryField(rule.schedule, SAMPLE);
      forall k: nat | k < FIELDS
        ensures ValidateField(fields[k], Lo(k), Hi(k), k == 4)
      {
        PlainField(rule.schedule, k);
        MatchedFieldIsValid(fields[k], k, ValueAt(SAMPLE, k));
      }
    }
  }

  // ----------------------------------------------------------------- fixed times

  /** "m h d mo w", the schedule for one fixed time. */
  function FixedTime(m: nat, h: nat, d: nat, mo: nat, w: nat): string {
    Dec(m) + " " + (Dec(h) + " " + (Dec(d) + " " + (Dec(mo) + " " + Dec(w))))
  }

  lemma NumberIsAWord(n: nat)
    ensures WordsOf(Dec(n)) == [Dec(n)]
  {
    DecIsDigits(n);
    assert Dec(n) + "" == Dec(n);
    WordInFront(Dec(n), "");
  }

  lemma NumberThen(n: nat, rest: string)
    ensures WordsOf(Dec(n) + " " + rest) == [Dec(n)] + WordsOf(rest)
  {
    NumberIsAWord(n);
    BlankSeparates(Dec(n), ' ', rest);
  }

  lemma WordsOfFixedTime(m: nat, h: nat, d: nat, mo: nat, w: nat)
    ensures WordsOf(FixedTime(m, h, d, mo, w)) == [Dec(m), Dec(h), Dec(d), Dec(mo), Dec(w)]
  {
    NumberIsAWord(w);
    NumberThen(mo, Dec(w));
    NumberThen(d, Dec(mo) + " " + Dec(w));
    NumberThen(h, Dec(d) + " " + (Dec(mo) + " " + Dec(w)));
    NumberThen(m, Dec(h) + " " + (Dec(d) + " " + (Dec(mo) + " " + Dec(w))));
  }

  lemma ShortNumber(n: nat)
    requires n < 100
    ensures |Dec(n)| <= 2 && Truncated(Dec(n)) == Dec(n)
  {
    assert n >= 10 ==> |Dec(n / 10)| == 1;
  }

  lemma NumberHas(n: nat)
    ensures Dec(n) != "" && !HasWildcard(Dec(n))
  {
    DecIsDigits(n);
    DigitsAreNoSigns(Dec(n), '*');
    DigitsAreNoSigns(Dec(n), '/');
    DigitsAreNoSigns(Dec(n), ',');
    DigitsAreNoSigns(Dec(n), '-');
  }

  lemma NumberWritesItself(n: nat)
    requires n < 100
    ensures Writes(Dec(n), Range(n, n, 1))
  {
    DecIsDigits(n);
    assert SpellsBase(Dec(n), Range(n, n, 1));
  }

  lemma NumberMatchesItself(n: nat, k: nat, v: int)
    requires k < FIELDS && Lo(k) <= v <= Hi(k) && n < 100
    requires if k == 4 then n <= 7 else Lo(k) <= n <= Hi(k)
    ensures MatchField(Dec(n), v, Lo(k), Hi(k), k == 4) <==> v == if k == 4 then Sunday(n) else n
  {
    NumberHas(n);
    NumberWritesItself(n);
    OnePartMatches(Dec(n), v, Lo(k), Hi(k), k == 4);
    var a := if k == 4 then Sunday(n) else n;
    MatcherIsExact(Dec(n), Range(n, n, 1), v, Lo(k), Hi(k), k == 4);
    SteppedIsModulo(v, a, a, 1);
  }

  predicate FixedTimeInRange(m: nat, h: nat, d: nat, mo: nat, w: nat) {
    m <= 59 && h <= 23 && 1 <= d <= 31 && 1 <= mo <= 12 && w <= 7
  }

  lemma ShortWordsAreFields(schedule: string, words: seq<string>)
    requires WordsOf(schedule) == words && |words| == FIELDS
    requires forall k :: 0 <= k < FIELDS ==> Truncated(words[k]) == words[k]
    ensures FieldsOf(schedule) == Some(words)
  {
    assert TruncatedAll(words) == words;
  }

  lemma ShortNumbers(schedule: string, n: seq<nat>)
    requires |n| == FIELDS && WordsOf(schedule) == [Dec(n[0]), Dec(n[1]), Dec(n[2]), Dec(n[3]), Dec(n[4])]
    requires forall k :: 0 <= k < FIELDS ==> n[k] < 100
    ensures FieldsOf(schedule) == Some([Dec(n[0]), Dec(n[1]), Dec(n[2]), Dec(n[3]), Dec(n[4])])
  {
    var words := [Dec(n[0]), Dec(n[1]), Dec(n[2]), Dec(n[3]), Dec(n[4])];
    forall k | 0 <= k < FIELDS
      ensures Truncated(words[k]) == words[k]
    {
      assert words[k] == Dec(n[k]);
      ShortNumber(n[k]);
    }
    ShortWordsAreFields(schedule, words);
  }

  lemma FieldsOfFixedTime(m: nat, h: nat, d: nat, mo: nat, w: nat)
    requires FixedTimeInRange(m, h, d, mo, w)
    ensures FieldsOf(FixedTime(m, h, d, mo, w)) == Some([Dec(m), Dec(h), Dec(d), Dec(mo), Dec(w)])
  {
    WordsOfFixedTime(m, h, d, mo, w);
    ShortNumbers(FixedTime(m, h, d, mo, w), [m, h, d, mo, w]);
  }

  function Numbers(m: nat, h: nat, d: nat, mo: nat, w: nat): (r: seq<nat>)
    ensures |r| == FIELDS
  {
    [m, h, d, mo, w]
  }

  lemma NumbersMatch(texts: seq<string>, n: seq<nat>, t: LocalTime, k: nat)
    requires |texts| == |n| == FIELDS && k < FIELDS && InRangeTime(t)
    requires texts[k] == Dec(n[k]) && n[k] < 100 && if k == 4 then n[k] <= 7 else Lo(k) <= n[k] <= Hi(k)
    ensures MatchField(texts[k], ValueAt(t, k), Lo(k), Hi(k), k == 4)
        <==> ValueAt(t, k) == if k == 4 then Sunday(n[k]) else n[k]
  {
    NumberMatchesItself(n[k], k, ValueAt(t, k));
  }

  predicate SameTime(n: seq<nat>, t: LocalTime)
    requires |n| == FIELDS
  {
    forall k: nat :: k < FIELDS ==> ValueAt(t, k) == if k == 4 then Sunday(n[k]) else n[k]
  }

  lemma SameTimeIs(m: nat, h: nat, d: nat, mo: nat, w: nat, t: LocalTime)
    ensures SameTime(Numbers(m, h, d, mo, w), t) <==> t == LocalTime(m, h, d, mo - 1, Sunday(w))
  {
    var n := Numbers(m, h, d, mo, w);
    if SameTime(n, t) {
      assert ValueAt(t, 0) == n[0] && ValueAt(t, 1) == n[1] && ValueAt(t, 2) == n[2] && ValueAt(t, 3) == n[3];
      assert ValueAt(t, 4) == Sunday(n[4]);
    }
  }

  /** A fixed time matches itself and nothing else; Sunday is 0 or 7. */
  lemma FixedTimeMatches(m: nat, h: nat, d: nat, mo: nat, w: nat, t: LocalTime)
    requires FixedTimeInRange(m, h, d, mo, w) && InRangeTime(t)
    ensures MatchSchedule(FixedTime(m, h, d, mo, w), t) <==> t == LocalTime(m, h, d, mo - 1, Sunday(w))
  {
    var n := Numbers(m, h, d, mo, w);
    FieldsOfFixedTime(m, h, d, mo, w);
    MatchesEveryField(FixedTime(m, h, d, mo, w), t);
    var texts := FieldsOf(FixedTime(m, h, d, mo, w)).value;
    forall k: nat | k < FIELDS
      ensures MatchField(texts[k], ValueAt(t, k), Lo(k), Hi(k), k == 4)
          <==> ValueAt(t, k) == if k == 4 then Sunday(n[k]) else n[k]
    {
      NumbersMatch(texts, n, t, k);
    }
    SameTimeIs(m, h, d, mo, w, t);
  }

  lemma {:induction false} NoWildcardInConcat(a: string, b: string)
    requires !HasWildcard(a) && !HasWildcard(b)
    ensures !HasWildcard(a + " " + b)
  {
  }

  lemma FixedTimeIsPlain(m: nat, h: nat, d: nat, mo: nat, w: nat)
    ensures !HasWildcard(FixedTime(m, h, d, mo, w))
  {
    NumberHas(m);
    NumberHas(h);
    NumberHas(d);
    NumberHas(mo);
    NumberHas(w);
    NoWildcardInConcat(Dec(mo), Dec(w));
    NoWildcardInConcat(Dec(d), Dec(mo) + " " + Dec(w));
    NoWildcardInConcat(Dec(h), Dec(d) + " " + (Dec(mo) + " " + Dec(w)));
    NoWildcardInConcat(Dec(m), Dec(h) + " " + (Dec(d) + " " + (Dec(mo) + " " + Dec(w))));
  }

  /** A well-formed rule for one fixed time, say "30 6 1 1 0", is accepted exactly if
      that time is the sample: "0 0 1 1 0" or "0 0 1 1 7". */
  lemma FixedTimesAreRefusedButOne(rule: Rule, lookup: Lookup, m: nat, h: nat, d: nat, mo: nat, w: nat)
    requires FixedTimeInRange(m, h, d, mo, w) && rule.schedule == FixedTime(m, h, d, mo, w)
    requires Complete(rule, lookup)
    ensures Accepted(rule, lookup) <==> m == 0 && h == 0 && d == 1 && mo == 1 && w in {0, 7}
  {
    FixedTimeIsPlain(m, h, d, mo, w);
    PlainIsAcceptedExactlyAtTheSample(rule, lookup);
    forall k: nat | k < FIELDS
      ensures Lo(k) <= ValueAt(SAMPLE, k) <= Hi(k)
    {
    }
    FixedTimeMatches(m, h, d, mo, w, SAMPLE);
  }
}
