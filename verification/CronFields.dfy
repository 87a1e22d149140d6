/** One field of a cron schedule (src/app/cron.cpp): a comma-separated list of parts,
    each a number, a range or a star, with an optional step. The code has a matcher
    and a validator written apart from each other; here both are held against what a
    part denotes. */
module CronFields {
  import opened Words
  import opened Decimals
  import opened Sequences
  import opened Remainders

  const MAX_PARTS := 64
  const INT_MAX: int := 0x7FFF_FFFF

  // ---------------------------------------------------------------- splitting

  /** Position of the first c, or the length. */
  function Find(s: string, c: char): (n: nat)
    ensures n <= |s|
  {
    if s == "" || s[0] == c then 0 else 1 + Find(s[1..], c)
  }

  lemma {:induction false} FindFinds(s: string, c: char)
    ensures Find(s, c) < |s| ==> s[Find(s, c)] == c
    ensures c !in s[..Find(s, c)]
  {
    if s != "" && s[0] != c {
      FindFinds(s[1..], c);
      assert s[..Find(s, c)] == [s[0]] + s[1..][..Find(s[1..], c)];
    }
  }

  function Before(s: string, c: char): string {
    s[..Find(s, c)]
  }

  function Behind(s: string, c: char): string
    requires Find(s, c) < |s|
  {
    s[Find(s, c) + 1..]
  }

  lemma FindAt(s: string, c: char, n: nat)
    requires n <= |s| && c !in s[..n] && (n < |s| ==> s[n] == c)
    ensures Find(s, c) == n
  {
    if s != "" && n > 0 {
      assert s[..n][0] == s[0];
      assert s[..n] == [s[0]] + s[1..][..n - 1];
      FindAt(s[1..], c, n - 1);
    }
  }

  lemma BeforeIsFree(s: string, c: char)
    ensures c !in Before(s, c)
    ensures Find(s, c) < |s| ==> s == Before(s, c) + [c] + Behind(s, c)
    ensures Find(s, c) == |s| ==> Before(s, c) == s
  {
    FindFinds(s, c);
    if Find(s, c) < |s| {
      CutOpen(s, Find(s, c));
    }
  }

  /** Cutting a text at the first c puts it together again, and the other way round. */
  lemma CutAt(x: string, c: char, y: string)
    requires c !in x
    ensures var s := x + [c] + y; Find(s, c) == |x| < |s| && Before(s, c) == x && Behind(s, c) == y
  {
    var s := x + [c] + y;
    assert s[..|x|] == x && s[|x|] == c && s[|x| + 1..] == y;
    FindAt(s, c, |x|);
  }

  lemma NotCut(x: string, c: char)
    requires c !in x
    ensures Find(x, c) == |x| && Before(x, c) == x
  {
    assert x[..|x|] == x;
    FindAt(x, c, |x|);
  }

  function SplitAll(s: string, sep: char): (parts: seq<string>)
    ensures parts != []
    decreases |s|
  {
    var n := Find(s, sep);
    if n == |s| then [s] else [s[..n]] + SplitAll(s[n + 1..], sep)
  }

  function Join(parts: seq<string>, sep: char): string
    requires parts != []
  {
    if |parts| == 1 then parts[0] else parts[0] + [sep] + Join(parts[1..], sep)
  }

  /** Splitting is the inverse of joining: the parts are free of the separator and
      join to the original text. */
  lemma {:induction false} SplitThenJoin(s: string, sep: char)
    ensures Join(SplitAll(s, sep), sep) == s
    ensures forall part :: part in SplitAll(s, sep) ==> sep !in part
    decreases |s|
  {
    BeforeIsFree(s, sep);
    if Find(s, sep) < |s| {
      var rest := SplitAll(Behind(s, sep), sep);
      SplitThenJoin(Behind(s, sep), sep);
      assert SplitAll(s, sep) == [Before(s, sep)] + rest;
      assert ([Before(s, sep)] + rest)[1..] == rest;
    }
  }

  lemma SplitAtTheFirst(x: string, sep: char, y: string)
    requires sep !in x
    ensures SplitAll(x + [sep] + y, sep) == [x] + SplitAll(y, sep)
  {
    CutAt(x, sep, y);
  }

  lemma NothingToSplit(x: string, sep: char)
    requires sep !in x
    ensures SplitAll(x, sep) == [x]
  {
    NotCut(x, sep);
  }

  /** And the other way round: parts without the separator survive joining. */
  lemma {:induction false} JoinThenSplit(parts: seq<string>, sep: char)
    requires parts != [] && forall part :: part in parts ==> sep !in part
    ensures SplitAll(Join(parts, sep), sep) == parts
    decreases |parts|
  {
    assert sep !in parts[0];
    if |parts| == 1 {
      NothingToSplit(parts[0], sep);
    } else {
      SplitAtTheFirst(parts[0], sep, Join(parts[1..], sep));
      JoinThenSplit(parts[1..], sep);
      assert parts == [parts[0]] + parts[1..];
    }
  }

  /** The parts the code looks at: its vector holds 64, the rest is dropped. */
  function Parts(expr: string): seq<string> {
    Capped(SplitAll(expr, ','))
  }

  function Capped(all: seq<string>): seq<string> {
    if |all| <= MAX_PARTS then all else all[..MAX_PARTS]
  }

  lemma CappedGrows(done: seq<string>, part: string)
    ensures Capped(done + [part]) == if |Capped(done)| < MAX_PARTS then Capped(done) + [part] else Capped(done)
  {
  }

  /** What is left to split is what is there already plus the parts of the rest. */
  predicate LeftToSplit(input: string, sep: char, done: seq<string>, start: nat)
    requires start <= |input|
  {
    SplitAll(input, sep) == done + SplitAll(input[start..], sep)
  }

  lemma LastPart(input: string, sep: char, done: seq<string>, start: nat, n: nat)
    requires start + n == |input| && LeftToSplit(input, sep, done, start)
    requires Find(input[start..], sep) == n
    ensures SplitAll(input, sep) == done + [input[start..start + n]]
  {
    assert input[start..start + n] == input[start..];
  }

  lemma NextPart(input: string, sep: char, done: seq<string>, start: nat, n: nat)
    requires start + n < |input| && LeftToSplit(input, sep, done, start)
    requires Find(input[start..], sep) == n
    ensures LeftToSplit(input, sep, done + [input[start..start + n]], start + n + 1)
  {
    TakeOfDrop(input, start, n);
    DropOfDrop(input, start, n + 1);
    Associative(done, [input[start..start + n]], SplitAll(input[start + n + 1..], sep));
  }

  lemma NothingSplitYet(input: string, sep: char)
    ensures LeftToSplit(input, sep, [], 0)
  {
    assert input[0..] == input;
    EmptyIsNeutral(SplitAll(input, sep));
  }

  /** split, with the vector that silently stays at 64 parts. */
  method Split(input: string, sep: char) returns (parts: seq<string>)
    ensures parts == Capped(SplitAll(input, sep))
  {
    parts := [];
    ghost var done: seq<string> := [];
    var start := 0;
    NothingSplitYet(input, sep);
    while start <= |input|
      invariant 0 <= start <= |input|
      invariant LeftToSplit(input, sep, done, start)
      invariant parts == Capped(done)
      decreases |input| - start
    {
      var n := Find(input[start..], sep);
      var part := input[start..start + n];
      CappedGrows(done, part);
      if |parts| < MAX_PARTS {
        parts := parts + [part];
      }
      if start + n == |input| {
        LastPart(input, sep, done, start, n);
        return;
      }
      NextPart(input, sep, done, start, n);
      done := done + [part];
      start := start + n + 1;
    }
  }

  // ------------------------------------------------------------------ numbers

  /** std::from_chars on the whole text: an optional minus and digits, in range. */
  function ParseInt(text: string): Option<int> {
    var negative := text != "" && text[0] == '-';
    var digits := if negative then text[1..] else text;
    if digits == "" || !AllDigits(digits) then None
    else
      var n: int := DigitsValue(digits);
      if negative then (if n <= INT_MAX + 1 then Some(-n) else None)
      else if n <= INT_MAX then Some(n) else None
  }

  // ------------------------------------------------------- matcher, validator

  predicate InRange(value: int, lo: int, hi: int) {
    lo <= value <= hi
  }

  /** Sunday may be written 7. */
  function Sunday(day: int): int {
    if day == 7 then 0 else day
  }

  /** The step of a part: 1 unless a slash gives one; None if it is unusable. */
  function StepOf(part: string): Option<int> {
    if Find(part, '/') == |part| then Some(1)
    else
      match ParseInt(Behind(part, '/'))
      case Some(n) => if n > 0 then Some(n) else None
      case None => None
  }

  /** The numbers around the dash, or the same number twice. */
  function Ends(base: string): Option<(int, int)> {
    if Find(base, '-') < |base| then
      match (ParseInt(Before(base, '-')), ParseInt(Behind(base, '-')))
      case (Some(a), Some(b)) => Some((a, b))
      case _ => None
    else
      match ParseInt(base)
      case Some(a) => Some((a, a))
      case None => None
  }

  /** matchSinglePart */
  function MatchPart(part: string, value: int, lo: int, hi: int, dayOfWeek: bool): bool {
    if part == "*" then true
    else
      var base := Before(part, '/');
      var step := StepOf(part);
      var ends := if base != "" && base != "*" then Ends(base) else Some((lo, hi));
      if step.None? || ends.None? then false
      else
        var start := if dayOfWeek then Sunday(ends.value.0) else ends.value.0;
        var end := if dayOfWeek then Sunday(ends.value.1) else ends.value.1;
        if dayOfWeek && base != "*" && start > end && !(start == 6 && end == 0) then false
        else if dayOfWeek && start == 6 && end == 0 then
          value in {6, 0} && (value - start + 7) % 7 % step.value == 0
        else if !InRange(start, lo, hi) || !InRange(end, lo, hi) || start > end then false
        else start <= value <= end && (value - start) % step.value == 0
  }

  /** validateSinglePart */
  function ValidatePart(part: string, lo: int, hi: int, dayOfWeek: bool): bool {
    if part == "" then false
    else if part == "*" then true
    else
      var base := Before(part, '/');
      if StepOf(part).None? then false
      else if base == "*" then true
      else if Ends(base).None? then false
      else
        var start := if dayOfWeek then Sunday(Ends(base).value.0) else Ends(base).value.0;
        var end := if dayOfWeek then Sunday(Ends(base).value.1) else Ends(base).value.1;
        if dayOfWeek && start == 6 && end == 0 then true
        else InRange(start, lo, hi) && InRange(end, lo, hi) && start <= end
  }

  /** matchField: an empty part stops the search. */
  function MatchParts(parts: seq<string>, value: int, lo: int, hi: int, dayOfWeek: bool): bool {
    if parts == [] then false
    else if parts[0] == "" then false
    else MatchPart(parts[0], value, lo, hi, dayOfWeek) || MatchParts(parts[1..], value, lo, hi, dayOfWeek)
  }

  function MatchField(expr: string, value: int, lo: int, hi: int, dayOfWeek: bool): bool {
    MatchParts(Parts(expr), value, lo, hi, dayOfWeek)
  }

  /** validateFieldExpression */
  predicate ValidateField(expr: string, lo: int, hi: int, dayOfWeek: bool) {
    forall k :: 0 <= k < |Parts(expr)| ==> ValidatePart(Parts(expr)[k], lo, hi, dayOfWeek)
  }

  // --------------------------------------------------------------- denotation

  /** What a part can mean: every step-th value of the whole field, or of a range. */
  datatype Span = Whole(step: int) | Range(from: int, to: int, step: int)

  /** A number as it may stand in front of a dash, or alone: digits only. */
  predicate Spells(text: string, n: int) {
    text != "" && AllDigits(text) && DigitsValue(text) == n && n <= INT_MAX
  }

  /** A number as it may stand behind a dash or a slash: a minus is read, too. */
  predicate SpellsSigned(text: string, n: int) {
    ParseInt(text) == Some(n)
  }

  /** Exactly the decimal numbers of 32 bits: digits, or a minus and digits. */
  lemma SignedExactlyIf(text: string, n: int)
    ensures SpellsSigned(text, n) <==>
      || (n <= 0x7FFF_FFFF && text != "" && AllDigits(text) && DigitsValue(text) == n)
      || (n >= -0x8000_0000 && |text| > 1 && text[0] == '-' && AllDigits(text[1..]) && DigitsValue(text[1..]) == -n)
  {
    if text != "" {
      assert AllDigits(text) ==> IsDigit(text[0]);
    }
  }

  ghost predicate SpellsBase(base: string, sp: Span) {
    match sp
    case Whole(_) => base == "*"
    case Range(from, to, _) =>
      || (from == to && Spells(base, from))
      || (exists a: string, b: string :: base == a + "-" + b && Spells(a, from) && SpellsSigned(b, to))
  }

  /** The text `part` writes down the span. */
  ghost predicate Writes(part: string, sp: Span) {
    || (sp.step == 1 && SpellsBase(part, sp))
    || (exists base: string, n: string :: part == base + "/" + n && SpellsBase(base, sp) && SpellsSigned(n, sp.step))
  }

  /** Saturday to Sunday, the one range that wraps. */
  predicate Weekend(from: int, to: int, dayOfWeek: bool) {
    dayOfWeek && from == 6 && Sunday(to) == 0
  }

  /** A span that makes sense for the field lo..hi. */
  predicate Sensible(sp: Span, lo: int, hi: int, dayOfWeek: bool) {
    && sp.step > 0
    && match sp
       case Whole(_) => true
       case Range(from, to, _) =>
         var (a, b) := if dayOfWeek then (Sunday(from), Sunday(to)) else (from, to);
         Weekend(a, b, dayOfWeek) || lo <= a <= b <= hi
  }

  /** v is reached from `from` in whole steps without going beyond `to`. */
  ghost predicate Stepped(v: int, from: int, to: int, step: int) {
    exists k: nat :: v == from + k * step && v <= to
  }

  /** The values a span denotes. The weekend counts on from Saturday, 6, to Sunday, 7,
      which is 0. */
  ghost predicate Denotes(sp: Span, v: int, lo: int, hi: int, dayOfWeek: bool) {
    match sp
    case Whole(step) => Stepped(v, lo, hi, step)
    case Range(from, to, step) =>
      var (a, b) := if dayOfWeek then (Sunday(from), Sunday(to)) else (from, to);
      if Weekend(a, b, dayOfWeek) then Stepped(if v == 0 then 7 else v, 6, 7, step)
      else Stepped(v, a, b, step)
  }

  /** The field is one the code uses: a day of the week runs from 0 to 6. */
  predicate FieldKind(lo: int, hi: int, dayOfWeek: bool) {
    lo <= hi && 0 <= lo && (dayOfWeek ==> lo == 0 && hi == 6)
  }

  // ------------------------------------------------------------ single parts

  lemma SteppedIsModulo(v: int, from: int, to: int, step: int)
    requires step > 0
    ensures Stepped(v, from, to, step) <==> OnStep(v, from, to, step)
  {
    var q, r := (v - from) / step, (v - from) % step;
    assert v - from == q * step + r;
    if Stepped(v, from, to, step) {
      var k: nat :| v == from + k * step && v <= to;
      assert k * step >= 0;
      assert r == (k - q) * step;
      SmallMultipleIsZero(r, k - q, step);
    }
    if from <= v <= to && r == 0 {
      assert q >= 0;
      assert v == from + q * step;
    }
  }

  lemma DigitsAreNoSigns(s: string, c: char)
    requires AllDigits(s) && !IsDigit(c)
    ensures c !in s
  {
  }

  lemma SignedHasNoSlash(s: string, n: int)
    requires SpellsSigned(s, n)
    ensures '/' !in s
  {
    if s[0] == '-' {
      assert s == "-" + s[1..];
    }
  }

  lemma BaseHasNoSlash(base: string, sp: Span)
    requires SpellsBase(base, sp)
    ensures '/' !in base && base != ""
  {
    if sp.Range? && !(sp.from == sp.to && Spells(base, sp.from)) {
      var a: string, b: string :| base == a + "-" + b && Spells(a, sp.from) && SpellsSigned(b, sp.to);
      SignedHasNoSlash(b, sp.to);
    }
  }

  lemma EndsOfNumber(base: string, n: int)
    requires Spells(base, n)
    ensures Ends(base) == Some((n, n)) && base != "*" && base != ""
  {
    DigitsAreNoSigns(base, '-');
    NotCut(base, '-');
    assert IsDigit(base[0]);
  }

  lemma EndsOfPair(a: string, from: int, b: string, to: int)
    requires Spells(a, from) && SpellsSigned(b, to)
    ensures var base := a + "-" + b; Ends(base) == Some((from, to)) && base != "*" && base != ""
  {
    DigitsAreNoSigns(a, '-');
    CutAt(a, '-', b);
    assert IsDigit(a[0]) && (a + "-" + b)[0] == a[0];
  }

  lemma EndsOfRange(base: string, sp: Span)
    requires sp.Range? && SpellsBase(base, sp)
    ensures Ends(base) == Some((sp.from, sp.to)) && base != "*" && base != ""
  {
    if sp.from == sp.to && Spells(base, sp.from) {
      EndsOfNumber(base, sp.from);
    } else {
      var a: string, b: string :| base == a + "-" + b && Spells(a, sp.from) && SpellsSigned(b, sp.to);
      EndsOfPair(a, sp.from, b, sp.to);
    }
  }

  /** What the code reads off a part that writes a span is that span. */
  lemma ReadsTheSpan(part: string, sp: Span)
    requires Writes(part, sp) && sp.step > 0
    ensures StepOf(part) == Some(sp.step)
    ensures part != "" && Before(part, '/') != ""
    ensures sp.Whole? <==> Before(part, '/') == "*"
    ensures part == "*" ==> sp == Whole(1)
    ensures sp.Range? ==> Ends(Before(part, '/')) == Some((sp.from, sp.to))
  {
    if sp.step == 1 && SpellsBase(part, sp) {
      BaseHasNoSlash(part, sp);
      NotCut(part, '/');
      if sp.Range? {
        EndsOfRange(part, sp);
      }
    } else {
      var base: string, n: string :| part == base + "/" + n && SpellsBase(base, sp) && SpellsSigned(n, sp.step);
      BaseHasNoSlash(base, sp);
      CutAt(base, '/', n);
      if sp.Range? {
        EndsOfRange(base, sp);
      }
      assert part != "*" by {
        assert part[|base|] == '/';
      }
    }
  }

  lemma NumberWithoutSign(text: string, n: int)
    requires ParseInt(text) == Some(n) && '-' !in text
    ensures Spells(text, n)
  {
    assert text[0] in text;
  }

  lemma EndsAreSpelled(base: string, from: int, to: int, step: int)
    requires Ends(base) == Some((from, to))
    ensures SpellsBase(base, Range(from, to, step))
  {
    if Find(base, '-') < |base| {
      var a, b := Before(base, '-'), Behind(base, '-');
      BeforeIsFree(base, '-');
      NumberWithoutSign(a, from);
      assert base == a + "-" + b && Spells(a, from) && SpellsSigned(b, to);
    } else {
      BeforeIsFree(base, '-');
      assert Before(base, '-') == base;
      NumberWithoutSign(base, from);
    }
  }

  /** What the code reads off a part is written there. */
  lemma ReadSpanIsWritten(part: string, sp: Span)
    requires StepOf(part) == Some(sp.step) && SpellsBase(Before(part, '/'), sp)
    ensures Writes(part, sp)
  {
    var n := Find(part, '/');
    if n == |part| {
      assert part[..n] == part;
    } else {
      BeforeIsFree(part, '/');
      var base, rest := Before(part, '/'), Behind(part, '/');
      assert part == base + "/" + rest && SpellsBase(base, sp) && SpellsSigned(rest, sp.step);
    }
  }

  /** The validator accepts exactly the texts that write a sensible span. */
  lemma ValidatorIsExact(part: string, lo: int, hi: int, dayOfWeek: bool)
    requires FieldKind(lo, hi, dayOfWeek)
    ensures ValidatePart(part, lo, hi, dayOfWeek) <==> exists sp :: Writes(part, sp) && Sensible(sp, lo, hi, dayOfWeek)
  {
    if ValidatePart(part, lo, hi, dayOfWeek) {
      var sp := SpanOf(part, lo, hi, dayOfWeek);
    }
    if exists sp :: Writes(part, sp) && Sensible(sp, lo, hi, dayOfWeek) {
      var sp :| Writes(part, sp) && Sensible(sp, lo, hi, dayOfWeek);
      ReadsTheSpan(part, sp);
    }
  }

  /** The span of an accepted part. */
  lemma SpanOf(part: string, lo: int, hi: int, dayOfWeek: bool) returns (sp: Span)
    requires FieldKind(lo, hi, dayOfWeek) && ValidatePart(part, lo, hi, dayOfWeek)
    ensures Writes(part, sp) && Sensible(sp, lo, hi, dayOfWeek)
  {
    if part == "*" {
      sp := Whole(1);
      assert SpellsBase(part, sp);
    } else {
      var base, step := Before(part, '/'), StepOf(part).value;
      if base == "*" {
        sp := Whole(step);
      } else {
        var (from, to) := Ends(base).value;
        sp := Range(from, to, step);
        EndsAreSpelled(base, from, to, step);
      }
      ReadSpanIsWritten(part, sp);
    }
  }

  /** The remainder the matcher looks at, for any bounds it has settled on. */
  predicate OnStep(v: int, from: int, to: int, step: int)
    requires step > 0
  {
    from <= v <= to && (v - from) % step == 0
  }

  lemma EveryStepOfOne(v: int, from: int, to: int)
    ensures OnStep(v, from, to, 1) <==> from <= v <= to
  {
  }

  lemma WeekendSteps(v: int, step: int)
    requires step > 0 && 0 <= v <= 6
    ensures (v in {6, 0} && (v - 6 + 7) % 7 % step == 0) <==> OnStep(if v == 0 then 7 else v, 6, 7, step)
  {
    if v == 0 {
      assert (v - 6 + 7) % 7 == 1;
    } else if v == 6 {
      assert (v - 6 + 7) % 7 == 0;
    }
  }

  /** Base and step of the part are read: the numbers from and to, every step. */
  predicate ReadAs(part: string, from: int, to: int, step: int) {
    && part != "*" && step > 0
    && StepOf(part) == Some(step) && Before(part, '/') != "" && Before(part, '/') != "*"
    && Ends(Before(part, '/')) == Some((from, to))
  }

  lemma MatchOfNumbers(part: string, from: int, to: int, step: int, v: int, lo: int, hi: int)
    requires ReadAs(part, from, to, step) && lo <= from <= to <= hi
    ensures MatchPart(part, v, lo, hi, false) <==> OnStep(v, from, to, step)
  {
  }

  lemma MatchOfDays(part: string, from: int, to: int, step: int, v: int)
    requires ReadAs(part, from, to, step) && 0 <= Sunday(from) <= Sunday(to) <= 6
    ensures MatchPart(part, v, 0, 6, true) <==> OnStep(v, Sunday(from), Sunday(to), step)
  {
  }

  lemma MatchOfWeekend(part: string, from: int, to: int, step: int, v: int)
    requires ReadAs(part, from, to, step) && Sunday(from) == 6 && Sunday(to) == 0 && 0 <= v <= 6
    ensures MatchPart(part, v, 0, 6, true) <==> OnStep(if v == 0 then 7 else v, 6, 7, step)
  {
    WeekendSteps(v, step);
  }

  lemma MatchOfStar(part: string, step: int, v: int, lo: int, hi: int, dayOfWeek: bool)
    requires FieldKind(lo, hi, dayOfWeek) && lo <= v <= hi && part != "*" && step > 0
    requires StepOf(part) == Some(step) && Before(part, '/') == "*"
    ensures MatchPart(part, v, lo, hi, dayOfWeek) <==> OnStep(v, lo, hi, step)
  {
  }

  /** The matcher accepts exactly the denoted values. */
  lemma MatcherIsExact(part: string, sp: Span, v: int, lo: int, hi: int, dayOfWeek: bool)
    requires FieldKind(lo, hi, dayOfWeek) && lo <= v <= hi
    requires Writes(part, sp) && Sensible(sp, lo, hi, dayOfWeek)
    ensures MatchPart(part, v, lo, hi, dayOfWeek) <==> Denotes(sp, v, lo, hi, dayOfWeek)
  {
    ReadsTheSpan(part, sp);
    match sp {
      case Whole(step) =>
        SteppedIsModulo(v, lo, hi, step);
        if part == "*" {
          EveryStepOfOne(v, lo, hi);
        } else {
          MatchOfStar(part, step, v, lo, hi, dayOfWeek);
        }
      case Range(from, to, step) =>
        if !dayOfWeek {
          MatchOfNumbers(part, from, to, step, v, lo, hi);
          SteppedIsModulo(v, from, to, step);
        } else if Sunday(from) == 6 && Sunday(to) == 0 {
          MatchOfWeekend(part, from, to, step, v);
          SteppedIsModulo(if v == 0 then 7 else v, 6, 7, step);
        } else {
          MatchOfDays(part, from, to, step, v);
          SteppedIsModulo(v, Sunday(from), Sunday(to), step);
        }
    }
  }

  /** A sensible span denotes something. */
  lemma SomethingIsDenoted(sp: Span, lo: int, hi: int, dayOfWeek: bool) returns (v: int)
    requires FieldKind(lo, hi, dayOfWeek) && Sensible(sp, lo, hi, dayOfWeek)
    ensures lo <= v <= hi && Denotes(sp, v, lo, hi, dayOfWeek)
  {
    match sp {
      case Whole(step) =>
        v := lo;
        assert v == lo + 0 * step;
      case Range(from, to, step) =>
        v := if dayOfWeek then Sunday(from) else from;
        assert v == v + 0 * step;
    }
  }

  // ------------------------------------------------------------- whole fields

  /** The part writes a sensible span that has v in it. */
  ghost predicate PartDenotes(part: string, v: int, lo: int, hi: int, dayOfWeek: bool) {
    exists sp :: Writes(part, sp) && Sensible(sp, lo, hi, dayOfWeek) && Denotes(sp, v, lo, hi, dayOfWeek)
  }

  ghost predicate SomeDenotes(parts: seq<string>, v: int, lo: int, hi: int, dayOfWeek: bool) {
    exists k :: 0 <= k < |parts| && PartDenotes(parts[k], v, lo, hi, dayOfWeek)
  }

  /** What a field means: the union over all its parts, however many. */
  ghost predicate FieldDenotes(expr: string, v: int, lo: int, hi: int, dayOfWeek: bool) {
    SomeDenotes(SplitAll(expr, ','), v, lo, hi, dayOfWeek)
  }

  lemma PartIsExact(part: string, v: int, lo: int, hi: int, dayOfWeek: bool)
    requires FieldKind(lo, hi, dayOfWeek) && lo <= v <= hi && ValidatePart(part, lo, hi, dayOfWeek)
    ensures MatchPart(part, v, lo, hi, dayOfWeek) <==> PartDenotes(part, v, lo, hi, dayOfWeek)
  {
    var sp := SpanOf(part, lo, hi, dayOfWeek);
    MatcherIsExact(part, sp, v, lo, hi, dayOfWeek);
    if PartDenotes(part, v, lo, hi, dayOfWeek) {
      var other :| Writes(part, other) && Sensible(other, lo, hi, dayOfWeek) && Denotes(other, v, lo, hi, dayOfWeek);
      MatcherIsExact(part, other, v, lo, hi, dayOfWeek);
    }
  }

  lemma {:induction false} MatchSomePart(parts: seq<string>, v: int, lo: int, hi: int, dayOfWeek: bool)
    requires FieldKind(lo, hi, dayOfWeek) && lo <= v <= hi
    requires forall k :: 0 <= k < |parts| ==> ValidatePart(parts[k], lo, hi, dayOfWeek)
    ensures MatchParts(parts, v, lo, hi, dayOfWeek) <==> SomeDenotes(parts, v, lo, hi, dayOfWeek)
    decreases |parts|
  {
    if parts != [] {
      assert ValidatePart(parts[0], lo, hi, dayOfWeek);
      PartIsExact(parts[0], v, lo, hi, dayOfWeek);
      MatchSomePart(parts[1..], v, lo, hi, dayOfWeek);
      FirstOrOther(parts, v, lo, hi, dayOfWeek);
    }
  }

  /** Part k matches and no part up to it is empty. */
  predicate MatchesAt(parts: seq<string>, k: nat, v: int, lo: int, hi: int, dayOfWeek: bool) {
    && k < |parts| && MatchPart(parts[k], v, lo, hi, dayOfWeek)
    && forall j :: 0 <= j <= k ==> parts[j] != ""
  }

  /** For parts of any kind, accepted or not: an empty part hides all that follow. */
  lemma {:induction false} MatchesUpToAnEmptyPart(parts: seq<string>, v: int, lo: int, hi: int, dayOfWeek: bool)
    ensures MatchParts(parts, v, lo, hi, dayOfWeek) <==>
      exists k: nat :: MatchesAt(parts, k, v, lo, hi, dayOfWeek)
    decreases |parts|
  {
    if parts != [] && parts[0] != "" {
      var rest := parts[1..];
      MatchesUpToAnEmptyPart(rest, v, lo, hi, dayOfWeek);
      if k: nat :| MatchesAt(rest, k, v, lo, hi, dayOfWeek) {
        assert forall j :: 0 < j <= k + 1 ==> parts[j] == rest[j - 1];
        assert MatchesAt(parts, k + 1, v, lo, hi, dayOfWeek);
      }
      if k: nat :| MatchesAt(parts, k, v, lo, hi, dayOfWeek) {
        if k > 0 {
          assert forall j :: 0 <= j <= k - 1 ==> rest[j] == parts[j + 1];
          assert MatchesAt(rest, k - 1, v, lo, hi, dayOfWeek);
        }
      }
      if MatchPart(parts[0], v, lo, hi, dayOfWeek) {
        assert MatchesAt(parts, 0, v, lo, hi, dayOfWeek);
      }
    }
  }

  lemma FirstOrOther(parts: seq<string>, v: int, lo: int, hi: int, dayOfWeek: bool)
    requires parts != []
    ensures SomeDenotes(parts, v, lo, hi, dayOfWeek) <==>
      PartDenotes(parts[0], v, lo, hi, dayOfWeek) || SomeDenotes(parts[1..], v, lo, hi, dayOfWeek)
  {
    assert parts == [parts[0]] + parts[1..];
    EitherDenotes([parts[0]], parts[1..], v, lo, hi, dayOfWeek);
    assert SomeDenotes([parts[0]], v, lo, hi, dayOfWeek) <==> PartDenotes(parts[0], v, lo, hi, dayOfWeek) by {
      assert [parts[0]][0] == parts[0];
    }
  }

  lemma EitherDenotes(a: seq<string>, b: seq<string>, v: int, lo: int, hi: int, dayOfWeek: bool)
    ensures SomeDenotes(a + b, v, lo, hi, dayOfWeek) <==>
      SomeDenotes(a, v, lo, hi, dayOfWeek) || SomeDenotes(b, v, lo, hi, dayOfWeek)
  {
    if SomeDenotes(a, v, lo, hi, dayOfWeek) {
      var k :| 0 <= k < |a| && PartDenotes(a[k], v, lo, hi, dayOfWeek);
      assert (a + b)[k] == a[k];
    }
    if SomeDenotes(b, v, lo, hi, dayOfWeek) {
      var k :| 0 <= k < |b| && PartDenotes(b[k], v, lo, hi, dayOfWeek);
      assert (a + b)[|a| + k] == b[k];
    }
    if SomeDenotes(a + b, v, lo, hi, dayOfWeek) {
      var k :| 0 <= k < |a + b| && PartDenotes((a + b)[k], v, lo, hi, dayOfWeek);
      if k < |a| {
        assert PartDenotes(a[k], v, lo, hi, dayOfWeek);
      } else {
        assert PartDenotes(b[k - |a|], v, lo, hi, dayOfWeek);
      }
    }
  }

  lemma MatchesTheKeptParts(expr: string, v: int, lo: int, hi: int, dayOfWeek: bool)
    requires FieldKind(lo, hi, dayOfWeek) && lo <= v <= hi && ValidateField(expr, lo, hi, dayOfWeek)
    ensures MatchField(expr, v, lo, hi, dayOfWeek) <==> SomeDenotes(Parts(expr), v, lo, hi, dayOfWeek)
  {
    MatchSomePart(Parts(expr), v, lo, hi, dayOfWeek);
  }

  /** Matcher and validator agree with the meaning of a field: for every expression of
      at most 64 parts that the validator accepts, and every value of the field, the
      matcher says yes exactly if the value is in the union of what the parts denote. */
  lemma MatchesExactlyTheDenoted(expr: string, v: int, lo: int, hi: int, dayOfWeek: bool)
    requires FieldKind(lo, hi, dayOfWeek) && lo <= v <= hi && ValidateField(expr, lo, hi, dayOfWeek)
    requires |SplitAll(expr, ',')| <= MAX_PARTS
    ensures MatchField(expr, v, lo, hi, dayOfWeek) <==> FieldDenotes(expr, v, lo, hi, dayOfWeek)
  {
    MatchesTheKeptParts(expr, v, lo, hi, dayOfWeek);
  }

  /** For accepted expressions of any length: the matcher is wrong at a value exactly if
      a part behind the 64th denotes it and none of the first 64 does. */
  lemma WrongExactlyBehindTheLastPart(expr: string, v: int, lo: int, hi: int, dayOfWeek: bool)
    requires FieldKind(lo, hi, dayOfWeek) && lo <= v <= hi && ValidateField(expr, lo, hi, dayOfWeek)
    requires |SplitAll(expr, ',')| > MAX_PARTS
    ensures MatchField(expr, v, lo, hi, dayOfWeek) != FieldDenotes(expr, v, lo, hi, dayOfWeek) <==>
      && SomeDenotes(SplitAll(expr, ',')[MAX_PARTS..], v, lo, hi, dayOfWeek)
      && !SomeDenotes(SplitAll(expr, ',')[..MAX_PARTS], v, lo, hi, dayOfWeek)
  {
    var all := SplitAll(expr, ',');
    MatchesTheKeptParts(expr, v, lo, hi, dayOfWeek);
    assert all == all[..MAX_PARTS] + all[MAX_PARTS..];
    EitherDenotes(all[..MAX_PARTS], all[MAX_PARTS..], v, lo, hi, dayOfWeek);
  }

  /** An accepted field matches at least one of its values. */
  lemma AcceptedFieldMatches(expr: string, lo: int, hi: int, dayOfWeek: bool) returns (v: int)
    requires FieldKind(lo, hi, dayOfWeek) && ValidateField(expr, lo, hi, dayOfWeek)
    ensures lo <= v <= hi && MatchField(expr, v, lo, hi, dayOfWeek)
  {
    var part := Parts(expr)[0];
    assert ValidatePart(part, lo, hi, dayOfWeek);
    var sp := SpanOf(part, lo, hi, dayOfWeek);
    v := SomethingIsDenoted(sp, lo, hi, dayOfWeek);
    assert PartDenotes(part, v, lo, hi, dayOfWeek);
    MatchesTheKeptParts(expr, v, lo, hi, dayOfWeek);
  }

  // ---------------------------------------------------------- parts and length

  lemma PartsOfCut(s: string, sep: char)
    requires Find(s, sep) < |s|
    ensures SplitAll(s, sep) == [Before(s, sep)] + SplitAll(Behind(s, sep), sep)
  {
  }

  /** k filled parts and what separates them take up 2k - 1 characters. */
  lemma {:induction false} FilledPartsTakeRoom(s: string, sep: char, k: nat)
    requires 0 < k <= |SplitAll(s, sep)| && forall j :: 0 <= j < k ==> SplitAll(s, sep)[j] != ""
    ensures |s| >= 2 * k - 1
    decreases |s|
  {
    var all := SplitAll(s, sep);
    BeforeIsFree(s, sep);
    if Find(s, sep) < |s| {
      var rest := SplitAll(Behind(s, sep), sep);
      PartsOfCut(s, sep);
      assert all[0] == Before(s, sep) && forall j :: 0 <= j < |rest| ==> rest[j] == all[j + 1];
      if k > 1 {
        FilledPartsTakeRoom(Behind(s, sep), sep, k - 1);
      }
    } else {
      assert all == [s];
    }
  }

  /** So an accepted field of at most 64 characters never has too many parts. */
  lemma ShortFieldKeepsItsParts(field: string, lo: int, hi: int, dayOfWeek: bool)
    requires |field| <= MAX_PARTS && ValidateField(field, lo, hi, dayOfWeek)
    ensures |SplitAll(field, ',')| <= MAX_PARTS && Parts(field) == SplitAll(field, ',')
  {
    var all := SplitAll(field, ',');
    if |all| > MAX_PARTS {
      forall j | 0 <= j < MAX_PARTS
        ensures all[j] != ""
      {
        assert ValidatePart(Parts(field)[j], lo, hi, dayOfWeek);
      }
      assert all[MAX_PARTS..] != [];
      FilledPartsTakeRoom(field, ',', MAX_PARTS);
    }
  }
}
