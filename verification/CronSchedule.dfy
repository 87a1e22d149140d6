/** A whole cron schedule (src/app/cron.cpp): five blank-separated fields, the rule
    that carries one, and the test a rule has to pass before it is kept. */
module CronSchedule {
  import opened Words
  import opened Sequences
  import opened CronFields

  const FIELDS := 5
  const FIELD_CAPACITY := 64

  // ---------------------------------------------------------------- tokenizer

  predicate Blank(c: char) {
    c == ' ' || c == '\t'
  }

  predicate NoBlank(s: string) {
    forall k :: 0 <= k < |s| ==> !Blank(s[k])
  }

  function WordLength(s: string): (n: nat)
    ensures n <= |s|
  {
    if s == "" || Blank(s[0]) then 0 else 1 + WordLength(s[1..])
  }

  /** The maximal runs without blanks. */
  function WordsOf(s: string): seq<string>
    decreases |s|
  {
    if s == "" then []
    else if Blank(s[0]) then WordsOf(s[1..])
    else
      var n := WordLength(s);
      [s[..n]] + WordsOf(s[n..])
  }

  lemma {:induction false} WordEnds(w: string, rest: string)
    requires NoBlank(w) && (rest == "" || Blank(rest[0]))
    ensures WordLength(w + rest) == |w|
    decreases |w|
  {
    if w == "" {
      assert w + rest == rest;
    } else {
      assert (w + rest)[1..] == w[1..] + rest;
      WordEnds(w[1..], rest);
    }
  }

  /** A word in front of a blank, or of nothing, is one of the words. */
  lemma WordInFront(w: string, rest: string)
    requires NoBlank(w) && (rest == "" || Blank(rest[0]))
    ensures WordsOf(w + rest) == (if w == "" then [] else [w]) + WordsOf(rest)
  {
    if w == "" {
      assert w + rest == rest;
      EmptyIsNeutral(WordsOf(rest));
    } else {
      WordEnds(w, rest);
      assert (w + rest)[..|w|] == w && (w + rest)[|w|..] == rest;
      assert (w + rest)[0] == w[0];
    }
  }

  /** A text without a space or a tab is one word. */
  lemma WordWithoutBlanks(w: string)
    requires w != "" && ' ' !in w && '\t' !in w
    ensures WordsOf(w) == [w]
  {
    assert w + "" == w;
    assert forall k :: 0 <= k < |w| ==> w[k] in w;
    WordInFront(w, "");
  }

  lemma {:induction false} WordRun(s: string)
    ensures NoBlank(s[..WordLength(s)])
    ensures WordLength(s) < |s| ==> Blank(s[WordLength(s)])
  {
    if s != "" && !Blank(s[0]) {
      WordRun(s[1..]);
      assert s[..WordLength(s)] == [s[0]] + s[1..][..WordLength(s[1..])];
    }
  }

  lemma WordsOfBlank(c: char, b: string)
    requires Blank(c)
    ensures WordsOf([c] + b) == WordsOf(b)
  {
    assert ([c] + b)[1..] == b;
  }

  lemma FirstWord(s: string)
    requires s != "" && !Blank(s[0])
    ensures 0 < WordLength(s)
    ensures WordsOf(s) == [s[..WordLength(s)]] + WordsOf(s[WordLength(s)..])
  {
  }

  lemma FirstWordThen(s: string, n: nat, c: char, b: string)
    requires 0 < n <= |s| && NoBlank(s[..n]) && (n < |s| ==> Blank(s[n])) && Blank(c)
    ensures WordsOf(s + [c] + b) == [s[..n]] + WordsOf(s[n..] + [c] + b)
  {
    var rest := s[n..] + [c] + b;
    assert s + [c] + b == s[..n] + rest;
    assert rest[0] == if n < |s| then s[n] else c;
    WordInFront(s[..n], rest);
  }

  /** A blank separates: the words of both sides, in order. With WordInFront this
      fixes the words of every text. */
  lemma {:induction false} BlankSeparates(a: string, c: char, b: string)
    requires c == ' ' || c == '\t'
    ensures WordsOf(a + [c] + b) == WordsOf(a) + WordsOf(b)
    decreases |a|
  {
    if a == "" {
      assert a + [c] + b == [c] + b;
      WordsOfBlank(c, b);
      EmptyIsNeutral(WordsOf(b));
    } else if Blank(a[0]) {
      assert a + [c] + b == [a[0]] + (a[1..] + [c] + b);
      WordsOfBlank(a[0], a[1..] + [c] + b);
      BlankSeparates(a[1..], c, b);
    } else {
      FirstWord(a);
      WordRun(a);
      var n := WordLength(a);
      FirstWordThen(a, n, c, b);
      BlankSeparates(a[n..], c, b);
      Associative([a[..n]], WordsOf(a[n..]), WordsOf(b));
    }
  }

  function Truncated(word: string): string {
    if |word| <= FIELD_CAPACITY then word else word[..FIELD_CAPACITY]
  }

  function TruncatedAll(words: seq<string>): (r: seq<string>)
    ensures |r| == |words|
    ensures forall k :: 0 <= k < |r| ==> r[k] == Truncated(words[k])
  {
    seq(|words|, k requires 0 <= k < |words| => Truncated(words[k]))
  }

  /** The five fields, each cut at 64 characters; None unless there are five words. */
  function FieldsOf(schedule: string): Option<seq<string>> {
    var words := WordsOf(schedule);
    if |words| == FIELDS then Some(TruncatedAll(words)) else None
  }

  /** Everything before start is read, what follows is still to come. */
  predicate LeftToRead(s: string, done: seq<string>, start: nat)
    requires start <= |s|
  {
    WordsOf(s) == done + WordsOf(s[start..])
  }

  lemma NothingReadYet(s: string)
    ensures LeftToRead(s, [], 0)
  {
    assert s[0..] == s;
    EmptyIsNeutral(WordsOf(s));
  }

  lemma ReadWord(s: string, done: seq<string>, start: nat, i: nat)
    requires start <= i <= |s| && LeftToRead(s, done, start) && NoBlank(s[start..i])
    requires i == |s| || Blank(s[i])
    ensures LeftToRead(s, done + (if start < i then [s[start..i]] else []), i)
  {
    var w, rest := s[start..i], s[i..];
    assert s[start..] == w + rest;
    WordInFront(w, rest);
    Associative(done, if start < i then [w] else [], WordsOf(rest));
  }

  lemma ReadBlank(s: string, done: seq<string>, i: nat)
    requires i < |s| && Blank(s[i]) && LeftToRead(s, done, i)
    ensures LeftToRead(s, done, i + 1)
  {
    assert s[i..] == [s[i]] + s[i + 1..];
    WordsOfBlank(s[i], s[i + 1..]);
  }

  lemma AllRead(s: string, done: seq<string>)
    requires LeftToRead(s, done, |s|)
    ensures WordsOf(s) == done
  {
    assert s[|s|..] == "";
    EmptyIsNeutral(done);
  }

  lemma OneMoreLetter(s: string, start: nat, i: nat)
    requires start <= i < |s| && NoBlank(s[start..i]) && !Blank(s[i])
    ensures NoBlank(s[start..i + 1])
  {
    assert s[start..i + 1] == s[start..i] + [s[i]];
  }

  lemma TruncatedGrows(words: seq<string>, word: string)
    ensures TruncatedAll(words + [word]) == TruncatedAll(words) + [Truncated(word)]
  {
  }

  lemma SixthWord(s: string, words: seq<string>, i: nat)
    requires i <= |s| && LeftToRead(s, words, i) && |words| > FIELDS
    ensures FieldsOf(s) == None
  {
  }

  lemma FieldsRead(s: string, words: seq<string>)
    requires LeftToRead(s, words, |s|)
    ensures FieldsOf(s) == if |words| == FIELDS then Some(TruncatedAll(words)) else None
  {
    AllRead(s, words);
  }

  /** The tokenizer loop that the matcher and the validator each have a copy of. */
  method Tokenize(schedule: string) returns (fields: Option<seq<string>>)
    ensures fields == FieldsOf(schedule)
  {
    var found: seq<string> := [];
    ghost var words: seq<string> := [];
    var start, i := 0, 0;
    NothingReadYet(schedule);
    while i <= |schedule|
      invariant 0 <= start <= i <= |schedule| + 1
      invariant i <= |schedule| ==> LeftToRead(schedule, words, start) && NoBlank(schedule[start..i])
      invariant i > |schedule| ==> LeftToRead(schedule, words, |schedule|)
      invariant found == TruncatedAll(words) && |words| <= FIELDS
    {
      if i == |schedule| || Blank(schedule[i]) {
        ReadWord(schedule, words, start, i);
        if start < i {
          if |found| >= FIELDS {
            SixthWord(schedule, words + [schedule[start..i]], i);
            return None;
          }
          TruncatedGrows(words, schedule[start..i]);
          found := found + [Truncated(schedule[start..i])];
          words := words + [schedule[start..i]];
        } else {
          EmptyIsNeutral(words);
        }
        if i < |schedule| {
          ReadBlank(schedule, words, i);
        }
        start := i + 1;
      } else {
        OneMoreLetter(schedule, start, i);
      }
      i := i + 1;
    }
    FieldsRead(schedule, words);
    fields := if |found| == FIELDS then Some(found) else None;
  }

  // ------------------------------------------------------------------ matching

  /** Broken-down local time as in struct tm: the month counts from 0. */
  datatype LocalTime = LocalTime(min: int, hour: int, mday: int, mon: int, wday: int)

  function Lo(k: nat): int {
    if k == 2 || k == 3 then 1 else 0
  }

  function Hi(k: nat): int {
    if k == 0 then 59 else if k == 1 then 23 else if k == 2 then 31 else if k == 3 then 12 else 6
  }

  function ValueAt(t: LocalTime, k: nat): int {
    if k == 0 then t.min else if k == 1 then t.hour else if k == 2 then t.mday else if k == 3 then t.mon + 1 else t.wday
  }

  predicate InRangeTime(t: LocalTime) {
    forall k: nat :: k < FIELDS ==> Lo(k) <= ValueAt(t, k) <= Hi(k)
  }

  predicate MatchSchedule(schedule: string, t: LocalTime) {
    var fields := FieldsOf(schedule);
    && fields.Some?
    && MatchField(fields.value[0], t.min, 0, 59, false)
    && MatchField(fields.value[1], t.hour, 0, 23, false)
    && MatchField(fields.value[2], t.mday, 1, 31, false)
    && MatchField(fields.value[3], t.mon + 1, 1, 12, false)
    && MatchField(fields.value[4], t.wday, 0, 6, true)
  }

  // ---------------------------------------------------------------- validating

  datatype Rule = Rule(id: string, schedule: string, commandKey: string, valueJson: string, enabled: bool,
    lastMinute: int)

  /** What the command store and the encoder say about a rule. */
  datatype Lookup = Missing | ReadOnly | Writable(valueBytes: seq<Byte>)

  const SAMPLE := LocalTime(0, 0, 1, 0, 0)

  predicate HasWildcard(s: string) {
    '*' in s || '/' in s || ',' in s || '-' in s
  }

  /** The messages of validateRule; the empty string is NoComplaint. */
  datatype Complaint =
    | NoComplaint
    | NoId | NoSchedule | NoCommandKey | NoValue
    | InvalidSchedule | NotFiveFields
    | InvalidMinute | InvalidHour | InvalidDayOfMonth | InvalidMonth | InvalidDayOfWeek
    | UnknownCommand(key: string) | NoWriteCommand(key: string) | InvalidValue(key: string)

  /** validateRule: the first complaint. */
  function ValidateRule(rule: Rule, lookup: Lookup): Complaint {
    var fields := FieldsOf(rule.schedule);
    if rule.id == "" then NoId
    else if rule.schedule == "" then NoSchedule
    else if rule.commandKey == "" then NoCommandKey
    else if rule.valueJson == "" then NoValue
    else if !MatchSchedule(rule.schedule, SAMPLE) && !HasWildcard(rule.schedule) then InvalidSchedule
    else if fields.None? then NotFiveFields
    else if !ValidateField(fields.value[0], 0, 59, false) then InvalidMinute
    else if !ValidateField(fields.value[1], 0, 23, false) then InvalidHour
    else if !ValidateField(fields.value[2], 1, 31, false) then InvalidDayOfMonth
    else if !ValidateField(fields.value[3], 1, 12, false) then InvalidMonth
    else if !ValidateField(fields.value[4], 0, 6, true) then InvalidDayOfWeek
    else if lookup.Missing? then UnknownCommand(rule.commandKey)
    else if lookup.ReadOnly? then NoWriteCommand(rule.commandKey)
    else if lookup.valueBytes == [] then InvalidValue(rule.commandKey)
    else NoComplaint
  }

  predicate Accepted(rule: Rule, lookup: Lookup) {
    ValidateRule(rule, lookup) == NoComplaint
  }

  // -------------------------------------------------------------------- meaning

  /** The part writes a span that makes sense for field k. */
  ghost predicate WellWrittenPart(part: string, k: nat) {
    exists sp :: Writes(part, sp) && Sensible(sp, Lo(k), Hi(k), k == 4)
  }

  ghost predicate WellWritten(field: string, k: nat) {
    forall j :: 0 <= j < |SplitAll(field, ',')| ==> WellWrittenPart(SplitAll(field, ',')[j], k)
  }

  /** The time is in the set that five texts denote, one for each field. */
  ghost predicate TextsDenote(texts: seq<string>, t: LocalTime) {
    && |texts| == FIELDS
    && forall k: nat :: k < FIELDS ==> FieldDenotes(texts[k], ValueAt(t, k), Lo(k), Hi(k), k == 4)
  }

  /** The time is in the set the schedule denotes: that of its words as they stand. */
  ghost predicate ScheduleDenotes(schedule: string, t: LocalTime) {
    TextsDenote(WordsOf(schedule), t)
  }

  predicate Validated(fields: seq<string>)
    requires |fields| == FIELDS
  {
    forall k: nat :: k < FIELDS ==> ValidateField(fields[k], Lo(k), Hi(k), k == 4)
  }

  predicate Complete(rule: Rule, lookup: Lookup) {
    && rule.id != "" && rule.commandKey != "" && rule.valueJson != ""
    && lookup.Writable? && lookup.valueBytes != []
  }

  lemma AllFields(fields: seq<string>)
    requires |fields| == FIELDS
    ensures Validated(fields) <==>
      && ValidateField(fields[0], 0, 59, false) && ValidateField(fields[1], 0, 23, false)
      && ValidateField(fields[2], 1, 31, false) && ValidateField(fields[3], 1, 12, false)
      && ValidateField(fields[4], 0, 6, true)
  {
    if Validated(fields) {
      assert ValidateField(fields[0], Lo(0), Hi(0), 0 == 4);
      assert ValidateField(fields[1], Lo(1), Hi(1), 1 == 4);
      assert ValidateField(fields[2], Lo(2), Hi(2), 2 == 4);
      assert ValidateField(fields[3], Lo(3), Hi(3), 3 == 4);
      assert ValidateField(fields[4], Lo(4), Hi(4), 4 == 4);
    }
  }

  lemma EmptyHasNoWords()
    ensures FieldsOf("").None?
  {
  }

  lemma AcceptedBy(rule: Rule, lookup: Lookup)
    ensures Accepted(rule, lookup) <==>
      && Complete(rule, lookup) && FieldsOf(rule.schedule).Some? && Validated(FieldsOf(rule.schedule).value)
      && (HasWildcard(rule.schedule) || MatchSchedule(rule.schedule, SAMPLE))
  {
    EmptyHasNoWords();
    if FieldsOf(rule.schedule).Some? {
      AllFields(FieldsOf(rule.schedule).value);
    }
  }

  lemma PartsAreExact(parts: seq<string>, k: nat)
    requires k < FIELDS
    ensures (forall j :: 0 <= j < |parts| ==> ValidatePart(parts[j], Lo(k), Hi(k), k == 4))
       <==> (forall j :: 0 <= j < |parts| ==> WellWrittenPart(parts[j], k))
  {
    forall j | 0 <= j < |parts|
      ensures ValidatePart(parts[j], Lo(k), Hi(k), k == 4) <==> WellWrittenPart(parts[j], k)
    {
      ValidatorIsExact(parts[j], Lo(k), Hi(k), k == 4);
    }
  }

  lemma FieldIsExact(field: string, k: nat)
    requires k < FIELDS && |field| <= FIELD_CAPACITY
    ensures ValidateField(field, Lo(k), Hi(k), k == 4) <==> WellWritten(field, k)
  {
    var all := SplitAll(field, ',');
    PartsAreExact(Parts(field), k);
    PartsAreExact(all, k);
    assert forall j :: 0 <= j < |Parts(field)| ==> Parts(field)[j] == all[j];
    if ValidateField(field, Lo(k), Hi(k), k == 4) {
      ShortFieldKeepsItsParts(field, Lo(k), Hi(k), k == 4);
    }
  }

  lemma FieldsAreShort(schedule: string, k: nat)
    requires FieldsOf(schedule).Some? && k < FIELDS
    ensures |FieldsOf(schedule).value[k]| <= FIELD_CAPACITY
  {
    assert FieldsOf(schedule).value[k] == Truncated(WordsOf(schedule)[k]);
  }

  /** What the validator accepts: a complete rule with five fields that are well written
      after the cut at 64 characters. A rule without any of the four special characters
      must match midnight of the first of January, a Sunday, besides. */
  lemma AcceptsExactly(rule: Rule, lookup: Lookup)
    ensures Accepted(rule, lookup) <==>
      && Complete(rule, lookup) && FieldsOf(rule.schedule).Some?
      && (forall k: nat :: k < FIELDS ==> WellWritten(FieldsOf(rule.schedule).value[k], k))
      && (|| '*' in rule.schedule || '/' in rule.schedule || ',' in rule.schedule || '-' in rule.schedule
          || MatchSchedule(rule.schedule, LocalTime(0, 0, 1, 0, 0)))
  {
    AcceptedBy(rule, lookup);
    if FieldsOf(rule.schedule).Some? {
      var fields := FieldsOf(rule.schedule).value;
      forall k: nat | k < FIELDS
        ensures ValidateField(fields[k], Lo(k), Hi(k), k == 4) <==> WellWritten(fields[k], k)
      {
        FieldsAreShort(rule.schedule, k);
        FieldIsExact(fields[k], k);
      }
    }
  }

  /** In which order the validator looks for faults. */
  function Rank(c: Complaint): nat {
    match c
    case NoId => 1
    case NoSchedule => 2
    case NoCommandKey => 3
    case NoValue => 4
    case InvalidSchedule => 5
    case NotFiveFields => 6
    case InvalidMinute => 7
    case InvalidHour => 8
    case InvalidDayOfMonth => 9
    case InvalidMonth => 10
    case InvalidDayOfWeek => 11
    case UnknownCommand(_) => 12
    case NoWriteCommand(_) => 13
    case InvalidValue(_) => 14
    case NoComplaint => 15
  }

  /** Field k of five is not well written. */
  ghost predicate BadField(schedule: string, k: nat)
    requires k < FIELDS
  {
    |WordsOf(schedule)| == 5 && !WellWritten(Truncated(WordsOf(schedule)[k]), k)
  }

  /** What each complaint is about. */
  ghost predicate Fault(c: Complaint, rule: Rule, lookup: Lookup) {
    match c
    case NoComplaint => false
    case NoId => rule.id == ""
    case NoSchedule => rule.schedule == ""
    case NoCommandKey => rule.commandKey == ""
    case NoValue => rule.valueJson == ""
    case InvalidSchedule =>
      && !MatchSchedule(rule.schedule, LocalTime(0, 0, 1, 0, 0))
      && '*' !in rule.schedule && '/' !in rule.schedule && ',' !in rule.schedule && '-' !in rule.schedule
    case NotFiveFields => |WordsOf(rule.schedule)| != 5
    case InvalidMinute => BadField(rule.schedule, 0)
    case InvalidHour => BadField(rule.schedule, 1)
    case InvalidDayOfMonth => BadField(rule.schedule, 2)
    case InvalidMonth => BadField(rule.schedule, 3)
    case InvalidDayOfWeek => BadField(rule.schedule, 4)
    case UnknownCommand(key) => lookup.Missing? && key == rule.commandKey
    case NoWriteCommand(key) => lookup.ReadOnly? && key == rule.commandKey
    case InvalidValue(key) => lookup.Writable? && lookup.valueBytes == [] && key == rule.commandKey
  }

  lemma BadFieldExactly(schedule: string, k: nat)
    requires k < FIELDS && FieldsOf(schedule).Some?
    ensures BadField(schedule, k) <==> !ValidateField(FieldsOf(schedule).value[k], Lo(k), Hi(k), k == 4)
  {
    FieldsAreShort(schedule, k);
    FieldIsExact(FieldsOf(schedule).value[k], k);
  }

  /** The validator reports the first fault in this order, and nothing exactly if there is
      none. */
  lemma ComplaintIsTheFirstFault(rule: Rule, lookup: Lookup, other: Complaint)
    ensures var c := ValidateRule(rule, lookup);
      && (c != NoComplaint ==> Fault(c, rule, lookup))
      && (Rank(other) < Rank(c) ==> !Fault(other, rule, lookup))
  {
    if FieldsOf(rule.schedule).Some? {
      BadFieldExactly(rule.schedule, 0);
      BadFieldExactly(rule.schedule, 1);
      BadFieldExactly(rule.schedule, 2);
      BadFieldExactly(rule.schedule, 3);
      BadFieldExactly(rule.schedule, 4);
    }
  }

  lemma FieldMatches(field: string, k: nat, v: int)
    requires k < FIELDS && Lo(k) <= v <= Hi(k) && ValidateField(field, Lo(k), Hi(k), k == 4)
      && |field| <= FIELD_CAPACITY
    ensures MatchField(field, v, Lo(k), Hi(k), k == 4) <==> FieldDenotes(field, v, Lo(k), Hi(k), k == 4)
  {
    ShortFieldKeepsItsParts(field, Lo(k), Hi(k), k == 4);
    MatchesExactlyTheDenoted(field, v, Lo(k), Hi(k), k == 4);
  }

  predicate MatchesAll(fields: seq<string>, t: LocalTime)
    requires |fields| == FIELDS
  {
    forall k: nat :: k < FIELDS ==> MatchField(fields[k], ValueAt(t, k), Lo(k), Hi(k), k == 4)
  }

  lemma MatchesEveryField(schedule: string, t: LocalTime)
    requires FieldsOf(schedule).Some?
    ensures MatchSchedule(schedule, t) <==> MatchesAll(FieldsOf(schedule).value, t)
  {
    var fields := FieldsOf(schedule).value;
    if MatchesAll(fields, t) {
      assert MatchField(fields[0], ValueAt(t, 0), Lo(0), Hi(0), 0 == 4);
      assert MatchField(fields[1], ValueAt(t, 1), Lo(1), Hi(1), 1 == 4);
      assert MatchField(fields[2], ValueAt(t, 2), Lo(2), Hi(2), 2 == 4);
      assert MatchField(fields[3], ValueAt(t, 3), Lo(3), Hi(3), 3 == 4);
      assert MatchField(fields[4], ValueAt(t, 4), Lo(4), Hi(4), 4 == 4);
    }
  }

  /** For an accepted rule the matcher computes the meaning of its words as they are
      after the cut. */
  lemma MatchesTheCutWords(rule: Rule, lookup: Lookup, t: LocalTime)
    requires Accepted(rule, lookup) && InRangeTime(t)
    ensures FieldsOf(rule.schedule).Some?
    ensures MatchSchedule(rule.schedule, t) <==> TextsDenote(FieldsOf(rule.schedule).value, t)
  {
    AcceptedBy(rule, lookup);
    var fields := FieldsOf(rule.schedule).value;
    MatchesEveryField(rule.schedule, t);
    forall k: nat | k < FIELDS
      ensures MatchField(fields[k], ValueAt(t, k), Lo(k), Hi(k), k == 4)
          <==> FieldDenotes(fields[k], ValueAt(t, k), Lo(k), Hi(k), k == 4)
    {
      FieldsAreShort(rule.schedule, k);
      FieldMatches(fields[k], k, ValueAt(t, k));
    }
  }

  predicate ShortWords(schedule: string) {
    forall k :: 0 <= k < |WordsOf(schedule)| ==> |WordsOf(schedule)[k]| <= FIELD_CAPACITY
  }

  /** The fields are the words exactly if there are five of them and none is longer than
      64 characters. */
  lemma FieldsAreTheWordsExactlyIf(schedule: string)
    ensures FieldsOf(schedule) == Some(WordsOf(schedule)) <==> |WordsOf(schedule)| == FIELDS && ShortWords(schedule)
  {
    var words := WordsOf(schedule);
    if |words| == FIELDS {
      assert forall k :: 0 <= k < FIELDS ==> TruncatedAll(words)[k] == Truncated(words[k]);
      if TruncatedAll(words) == words {
        forall k | 0 <= k < FIELDS
          ensures |words[k]| <= FIELD_CAPACITY
        {
          assert words[k] == Truncated(words[k]);
        }
      }
      if ShortWords(schedule) {
        assert TruncatedAll(words) == words;
      }
    }
  }

  /** For an accepted rule without overlong words the matcher computes the meaning of the
      schedule. */
  lemma MatchesTheMeaning(rule: Rule, lookup: Lookup, t: LocalTime)
    requires Accepted(rule, lookup) && InRangeTime(t) && ShortWords(rule.schedule)
    ensures MatchSchedule(rule.schedule, t) <==> ScheduleDenotes(rule.schedule, t)
  {
    AcceptedBy(rule, lookup);
    MatchesTheCutWords(rule, lookup, t);
    FieldsAreTheWordsExactlyIf(rule.schedule);
  }

  lemma FieldMatchesSomewhere(field: string, k: nat) returns (v: int)
    requires k < FIELDS && ValidateField(field, Lo(k), Hi(k), k == 4)
    ensures Lo(k) <= v <= Hi(k) && MatchField(field, v, Lo(k), Hi(k), k == 4)
  {
    v := AcceptedFieldMatches(field, Lo(k), Hi(k), k == 4);
  }

  lemma TimeOf(fields: seq<string>, v: seq<int>) returns (t: LocalTime)
    requires |fields| == |v| == FIELDS
    requires forall k: nat :: k < FIELDS ==> Lo(k) <= v[k] <= Hi(k) && MatchField(fields[k], v[k], Lo(k), Hi(k), k == 4)
    ensures InRangeTime(t) && MatchesAll(fields, t)
  {
    t := LocalTime(v[0], v[1], v[2], v[3] - 1, v[4]);
    forall k: nat | k < FIELDS
      ensures ValueAt(t, k) == v[k]
    {
      assert k == 0 || k == 1 || k == 2 || k == 3 || k == 4;
    }
  }

  lemma {:induction false} MatchingValues(fields: seq<string>, n: nat) returns (v: seq<int>)
    requires |fields| == FIELDS && Validated(fields) && n <= FIELDS
    ensures |v| == n
    ensures forall k: nat :: k < n ==> Lo(k) <= v[k] <= Hi(k) && MatchField(fields[k], v[k], Lo(k), Hi(k), k == 4)
  {
    if n == 0 {
      v := [];
    } else {
      var before := MatchingValues(fields, n - 1);
      var last := FieldMatchesSomewhere(fields[n - 1], n - 1);
      v := before + [last];
    }
  }

  /** No rule is accepted in vain: its schedule matches at some time in range. */
  lemma AcceptedRuleFires(rule: Rule, lookup: Lookup) returns (t: LocalTime)
    requires Accepted(rule, lookup)
    ensures InRangeTime(t) && MatchSchedule(rule.schedule, t)
  {
    AcceptedBy(rule, lookup);
    var fields := FieldsOf(rule.schedule).value;
    var v := MatchingValues(fields, FIELDS);
    t := TimeOf(fields, v);
    MatchesEveryField(rule.schedule, t);
  }
}
