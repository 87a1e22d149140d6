/** What becomes of a schedule with an overlong field: the code cuts it at 64 characters
    without a word, in the matcher and in the validator alike. */
module CronCuts {
  import opened Words
  import opened Decimals
  import opened Sequences
  import opened CronFields
  import opened CronSchedule
  import opened CronPlain

  // --------------------------------------------------------- parts of a cut text

  lemma CutInFirstPart(s: string, n: nat, sep: char)
    requires n <= Find(s, sep)
    ensures SplitAll(s[..n], sep) == [s[..n]] && s[..n] <= SplitAll(s, sep)[0]
  {
    BeforeIsFree(s, sep);
    assert s[..n] == Before(s, sep)[..n];
    NothingToSplit(s[..n], sep);
  }

  lemma CutBehindFirstPart(s: string, n: nat, sep: char)
    requires Find(s, sep) < n <= |s|
    ensures var f := Find(s, sep);
      SplitAll(s[..n], sep) == [Before(s, sep)] + SplitAll(Behind(s, sep)[..n - f - 1], sep)
  {
    BeforeIsFree(s, sep);
    var rest := Behind(s, sep)[..n - Find(s, sep) - 1];
    assert s[..n] == Before(s, sep) + [sep] + rest;
    SplitAtTheFirst(Before(s, sep), sep, rest);
  }

  /** The parts of a text cut after n characters: the first m parts as they are, and the
      beginning of the next one. */
  lemma {:induction false} PartsOfCutText(s: string, n: nat, sep: char) returns (m: nat, stub: string)
    requires n <= |s|
    ensures m < |SplitAll(s, sep)| && stub <= SplitAll(s, sep)[m]
    ensures SplitAll(s[..n], sep) == SplitAll(s, sep)[..m] + [stub]
    decreases |s|
  {
    var f := Find(s, sep);
    if n <= f {
      CutInFirstPart(s, n, sep);
      m, stub := 0, s[..n];
    } else {
      CutBehindFirstPart(s, n, sep);
      PartsOfCut(s, sep);
      var k, rest := PartsOfCutText(Behind(s, sep), n - f - 1, sep);
      m, stub := k + 1, rest;
      var later := SplitAll(Behind(s, sep), sep);
      assert SplitAll(s, sep)[..k + 1] == [Before(s, sep)] + later[..k];
      Associative([Before(s, sep)], later[..k], [stub]);
    }
  }

  /** A field of any length that passes the validator after the cut: the matcher is wrong
      at a value exactly if only the stub of the part that was cut denotes it, or only
      that part itself or one behind it. */
  lemma CutFieldIsWrongExactlyIf(word: string, k: nat, v: int) returns (m: nat, stub: string)
    requires k < FIELDS && |word| > FIELD_CAPACITY && Lo(k) <= v <= Hi(k)
    requires ValidateField(Truncated(word), Lo(k), Hi(k), k == 4)
    ensures var all := SplitAll(word, ',');
      && m < |all| && stub <= all[m] && SplitAll(Truncated(word), ',') == all[..m] + [stub]
      && (MatchField(Truncated(word), v, Lo(k), Hi(k), k == 4) != FieldDenotes(word, v, Lo(k), Hi(k), k == 4) <==>
           && !SomeDenotes(all[..m], v, Lo(k), Hi(k), k == 4)
           && SomeDenotes([stub], v, Lo(k), Hi(k), k == 4) != SomeDenotes(all[m..], v, Lo(k), Hi(k), k == 4))
  {
    m, stub := PartsOfCutText(word, FIELD_CAPACITY, ',');
    var all := SplitAll(word, ',');
    FieldMatches(Truncated(word), k, v);
    EitherDenotes(all[..m], [stub], v, Lo(k), Hi(k), k == 4);
    assert all == all[..m] + all[m..];
    EitherDenotes(all[..m], all[m..], v, Lo(k), Hi(k), k == 4);
  }

  // ------------------------------------------------------------ a field cut short

  function Zeros(n: nat): string {
    seq(n, _ => '0')
  }

  lemma {:induction false} ZerosAreZero(n: nat)
    ensures AllDigits(Zeros(n)) && DigitsValue(Zeros(n)) == 0
  {
    if n > 0 {
      ZerosAreZero(n - 1);
      assert Zeros(n)[..n - 1] == Zeros(n - 1);
    }
  }

  /** The number 5 with 64 leading zeros. */
  function LongFive(): string {
    Zeros(64) + "5"
  }

  lemma LongFiveIsFive()
    ensures |LongFive()| == 65 && Truncated(LongFive()) == Zeros(64)
    ensures Spells(LongFive(), 5) && Spells(Zeros(64), 0)
  {
    ZerosAreZero(64);
    assert LongFive()[..64] == Zeros(64);
    assert IsDigit('5');
  }

  function Stars(n: nat): string
    requires n > 0
  {
    if n == 1 then "*" else "*" + " " + Stars(n - 1)
  }

  /** "every hour at minute 5", with the minute in 65 digits. */
  function MisreadSchedule(): string {
    LongFive() + " " + Stars(4)
  }

  lemma OneWord(w: string)
    requires w != "" && NoBlank(w)
    ensures WordsOf(w) == [w]
  {
    assert w + "" == w;
    WordInFront(w, "");
  }

  lemma WordThen(w: string, rest: string)
    requires w != "" && NoBlank(w)
    ensures WordsOf(w + " " + rest) == [w] + WordsOf(rest)
  {
    OneWord(w);
    BlankSeparates(w, ' ', rest);
  }

  function StarWords(n: nat): (r: seq<string>)
    ensures |r| == n && forall k :: 0 <= k < n ==> r[k] == "*"
  {
    seq(n, _ => "*")
  }

  lemma {:induction false} WordsOfStars(n: nat)
    requires n > 0
    ensures WordsOf(Stars(n)) == StarWords(n) && '*' in Stars(n)
  {
    OneWord("*");
    if n > 1 {
      WordsOfStars(n - 1);
      WordThen("*", Stars(n - 1));
      assert ["*"] + StarWords(n - 1) == StarWords(n);
    }
  }

  /** Every minute of the field, every hour. */
  function Hourly(minutes: string): (r: seq<string>)
    ensures |r| == FIELDS && r[0] == minutes && forall k :: 0 < k < FIELDS ==> r[k] == "*"
  {
    [minutes] + StarWords(4)
  }

  lemma WordsOfMisread()
    ensures WordsOf(MisreadSchedule()) == Hourly(LongFive()) && HasWildcard(MisreadSchedule())
  {
    LongFiveIsFive();
    assert NoBlank(LongFive());
    WordsOfStars(4);
    WordThen(LongFive(), Stars(4));
    StarBehind(LongFive() + " ", Stars(4));
  }

  lemma StarBehind(a: string, b: string)
    requires '*' in b
    ensures '*' in a + b
  {
    var k :| 0 <= k < |b| && b[k] == '*';
    assert (a + b)[|a| + k] == '*';
  }

  lemma FieldsOfMisread()
    ensures FieldsOf(MisreadSchedule()) == Some(Hourly(Zeros(64)))
  {
    WordsOfMisread();
    LongFiveIsFive();
    TruncatedHourly(LongFive());
  }

  lemma TruncatedHourly(minutes: string)
    ensures TruncatedAll(Hourly(minutes)) == Hourly(Truncated(minutes))
  {
  }

  lemma NumberIsItsPart(text: string, n: int, v: int)
    requires Spells(text, n) && 0 <= n <= 59 && 0 <= v <= 59
    ensures ValidateField(text, 0, 59, false)
    ensures MatchField(text, v, 0, 59, false) <==> v == n
    ensures FieldDenotes(text, v, 0, 59, false) <==> v == n
  {
    var sp := Range(n, n, 1);
    DigitsAreNoSigns(text, ',');
    OnePart(text);
    OnePartMatches(text, v, 0, 59, false);
    NothingToSplit(text, ',');
    assert SpellsBase(text, sp);
    assert Writes(text, sp) && Sensible(sp, 0, 59, false);
    ValidatorIsExact(text, 0, 59, false);
    MatcherIsExact(text, sp, v, 0, 59, false);
    SteppedIsModulo(v, n, n, 1);
    MatchesExactlyTheDenoted(text, v, 0, 59, false);
  }

  lemma StarIsEverything(k: nat, v: int)
    requires k < FIELDS && Lo(k) <= v <= Hi(k)
    ensures ValidateField("*", Lo(k), Hi(k), k == 4) && MatchField("*", v, Lo(k), Hi(k), k == 4)
    ensures FieldDenotes("*", v, Lo(k), Hi(k), k == 4)
  {
    OnePart("*");
    OnePartMatches("*", v, Lo(k), Hi(k), k == 4);
    NothingToSplit("*", ',');
    MatchesExactlyTheDenoted("*", v, Lo(k), Hi(k), k == 4);
  }

  lemma HourlyIsValid(minutes: string)
    requires ValidateField(minutes, 0, 59, false)
    ensures Validated(Hourly(minutes))
  {
    forall k: nat | k < FIELDS
      ensures ValidateField(Hourly(minutes)[k], Lo(k), Hi(k), k == 4)
    {
      if k > 0 {
        StarIsEverything(k, Lo(k));
      }
    }
  }

  lemma HourlyDenotes(minutes: string, t: LocalTime)
    requires InRangeTime(t)
    ensures TextsDenote(Hourly(minutes), t) <==> FieldDenotes(minutes, t.min, 0, 59, false)
  {
    if TextsDenote(Hourly(minutes), t) {
      assert FieldDenotes(Hourly(minutes)[0], ValueAt(t, 0), Lo(0), Hi(0), 0 == 4);
    }
    if FieldDenotes(minutes, t.min, 0, 59, false) {
      forall k: nat | k < FIELDS
        ensures FieldDenotes(Hourly(minutes)[k], ValueAt(t, k), Lo(k), Hi(k), k == 4)
      {
        if k > 0 {
          StarIsEverything(k, ValueAt(t, k));
        }
      }
    }
  }

  lemma MisreadIsAccepted(rule: Rule, lookup: Lookup)
    requires Complete(rule, lookup) && rule.schedule == MisreadSchedule()
    ensures Accepted(rule, lookup)
  {
    FieldsOfMisread();
    WordsOfMisread();
    LongFiveIsFive();
    NumberIsItsPart(Zeros(64), 0, 0);
    HourlyIsValid(Zeros(64));
    AcceptedBy(rule, lookup);
  }

  /** The accepted rule that is never read as it is written: its schedule denotes minute
      5 of every hour, and it fires at minute 0 instead. */
  lemma OverlongFieldIsMisread(rule: Rule, lookup: Lookup, t: LocalTime)
    requires Complete(rule, lookup) && rule.schedule == MisreadSchedule() && InRangeTime(t)
    ensures Accepted(rule, lookup)
    ensures ScheduleDenotes(rule.schedule, t) <==> t.min == 5
    ensures MatchSchedule(rule.schedule, t) <==> t.min == 0
  {
    MisreadIsAccepted(rule, lookup);
    WordsOfMisread();
    FieldsOfMisread();
    LongFiveIsFive();
    assert Lo(0) <= ValueAt(t, 0) <= Hi(0);
    NumberIsItsPart(LongFive(), 5, t.min);
    NumberIsItsPart(Zeros(64), 0, t.min);
    HourlyDenotes(LongFive(), t);
    HourlyDenotes(Zeros(64), t);
    MatchesTheCutWords(rule, lookup, t);
  }

  // ------------------------------------------------------------- a part too many

  function ZeroParts(n: nat): (r: seq<string>)
    ensures |r| == n && forall k :: 0 <= k < n ==> r[k] == "0"
  {
    seq(n, _ => "0")
  }

  /** 64 times "0", and then "5". */
  function ManyParts(): seq<string> {
    ZeroParts(MAX_PARTS) + ["5"]
  }

  /** "0,0,...,0,5" */
  function ManyPartsText(): string {
    Join(ManyParts(), ',')
  }

  lemma PartsOfMany()
    ensures SplitAll(ManyPartsText(), ',') == ManyParts() && Parts(ManyPartsText()) == ZeroParts(MAX_PARTS)
  {
    forall p | p in ManyParts()
      ensures ',' !in p
    {
      assert p == "0" || p == "5";
    }
    JoinThenSplit(ManyParts(), ',');
    assert ManyParts()[..MAX_PARTS] == ZeroParts(MAX_PARTS);
  }

  lemma DigitIsNumber(c: char)
    requires IsDigit(c)
    ensures Spells([c], c as int - '0' as int)
  {
    assert [c][..0] == [];
    assert DigitsValue([c]) == 10 * DigitsValue([]) + (c as int - '0' as int);
  }

  lemma DigitDenotes(c: char, v: int)
    requires IsDigit(c) && 0 <= v <= 59
    ensures ValidatePart([c], 0, 59, false)
    ensures PartDenotes([c], v, 0, 59, false) <==> v == c as int - '0' as int
  {
    var n := c as int - '0' as int;
    DigitIsNumber(c);
    NumberIsItsPart([c], n, v);
    OnePart([c]);
    OnePartMatches([c], v, 0, 59, false);
    assert ValidatePart(Parts([c])[0], 0, 59, false);
    PartIsExact([c], v, 0, 59, false);
  }

  /** A field on its own, as the two field functions take it: 64 parts "0" and then "5" is
      accepted and denotes 5, but 5 does not match. */
  lemma PartTooManyIsIgnored()
    ensures ValidateField(ManyPartsText(), 0, 59, false)
    ensures FieldDenotes(ManyPartsText(), 5, 0, 59, false) && !MatchField(ManyPartsText(), 5, 0, 59, false)
  {
    PartsOfMany();
    DigitDenotes('0', 5);
    DigitDenotes('5', 5);
    assert ["0"][0] == "0";
    OnlyZeros(MAX_PARTS);
    assert PartDenotes(["5"][0], 5, 0, 59, false);
    EitherDenotes(ZeroParts(MAX_PARTS), ["5"], 5, 0, 59, false);
    MatchesTheKeptParts(ManyPartsText(), 5, 0, 59, false);
  }

  lemma OnlyZeros(n: nat)
    requires !PartDenotes("0", 5, 0, 59, false) && ValidatePart("0", 0, 59, false)
    ensures !SomeDenotes(ZeroParts(n), 5, 0, 59, false)
    ensures forall k :: 0 <= k < n ==> ValidatePart(ZeroParts(n)[k], 0, 59, false)
  {
  }
}
