/** The text the OTA device sends back: decimal totals and a final OK, one a line, and
    how the sender reads lines and numbers out of it. */
module OtaText {
  import opened Words
  import opened Decimals

  /** Python's int() of a stripped line: an optional sign and digits. */
  function ParseInt(s: string): Option<int> {
    var body := if s != [] && s[0] in {'+', '-'} then s[1..] else s;
    if body != [] && AllDigits(body) then
      var n: int := DigitsValue(body);
      Some(if s[0] == '-' then -n else n)
    else None
  }

  /** A printed total reads back as the same number. */
  lemma ParseOfDec(n: nat)
    ensures ParseInt(Dec(n)) == Some(n)
  {
    DecIsDigits(n);
    assert IsDigit(Dec(n)[0]);
  }

  predicate IsSpace(c: char) {
    c in {' ', '\t', '\n', '\r', '\U{0B}', '\U{0C}'}
  }

  /** Python's strip(). */
  function Strip(s: string): string
    decreases |s|
  {
    if s == [] then []
    else if IsSpace(s[0]) then Strip(s[1..])
    else if IsSpace(s[|s| - 1]) then Strip(s[..|s| - 1])
    else s
  }

  lemma StripKeeps(s: string)
    requires s != [] ==> !IsSpace(s[0]) && !IsSpace(s[|s| - 1])
    ensures Strip(s) == s
  {
  }

  predicate Spaces(s: string) {
    forall k :: 0 <= k < |s| ==> s[k] in {' ', '\t', '\n', '\r', '\U{0B}', '\U{0C}'}
  }

  lemma {:induction false} StripBehind(s: string, b: string)
    requires (s != "" ==> !IsSpace(s[0]) && !IsSpace(s[|s| - 1])) && Spaces(b)
    ensures Strip(s + b) == s
    decreases |b|
  {
    if b == "" {
      assert s + b == s;
      StripKeeps(s);
    } else if s == "" {
      assert (s + b)[1..] == s + b[1..];
      StripBehind(s, b[1..]);
    } else {
      assert (s + b)[..|s + b| - 1] == s + b[..|b| - 1];
      StripBehind(s, b[..|b| - 1]);
    }
  }

  /** Strip takes the spaces off both ends and nothing else. */
  lemma {:induction false} StripTrims(a: string, s: string, b: string)
    requires Spaces(a) && Spaces(b) && (s != "" ==> !IsSpace(s[0]) && !IsSpace(s[|s| - 1]))
    ensures Strip(a + s + b) == s
    decreases |a|
  {
    if a == "" {
      assert a + s + b == s + b;
      StripBehind(s, b);
    } else {
      assert (a + s + b)[1..] == a[1..] + s + b;
      StripTrims(a[1..], s, b);
    }
  }

  /** The position of the first newline, or the length if there is none. */
  function FindNewline(s: string): (n: nat)
    ensures n <= |s|
    ensures n < |s| ==> s[n] == '\n'
    ensures forall k :: 0 <= k < n ==> s[k] != '\n'
  {
    if s == [] || s[0] == '\n' then 0 else 1 + FindNewline(s[1..])
  }

  predicate HasLine(s: string) {
    FindNewline(s) < |s|
  }

  lemma FirstNewlineAt(s: string, n: nat)
    requires n < |s| && s[n] == '\n' && forall k :: 0 <= k < n ==> s[k] != '\n'
    ensures FindNewline(s) == n
  {
    assert FindNewline(s) <= n;
  }

  // ----------------------------------------------------------------- messages

  /** What the device can send on the connection. */
  datatype Message = Ack(total: nat) | Ok | Trouble(text: string)

  function TextOf(m: Message): string {
    match m
    case Ack(n) => Dec(n) + "\n"
    case Ok => "OK\n"
    case Trouble(t) => t
  }

  function Text(ms: seq<Message>): string {
    if ms == [] then [] else TextOf(ms[0]) + Text(ms[1..])
  }

  /** The line a message makes when it is read whole. */
  function LineOf(m: Message): string {
    match m
    case Ack(n) => Dec(n)
    case Ok => "OK"
    case Trouble(t) => Strip(t)
  }

  /** A whole message is read as its line: the first newline of the text is its own,
      and stripping changes nothing. */
  lemma FirstLine(m: Message, rest: string)
    requires !m.Trouble?
    ensures var s := TextOf(m) + rest;
      && FindNewline(s) == |TextOf(m)| - 1
      && Strip(s[..FindNewline(s)]) == LineOf(m)
      && s[FindNewline(s) + 1..] == rest
  {
    var s := TextOf(m) + rest;
    var line := LineOf(m);
    if m.Ack? {
      DecIsDigits(m.total);
      assert forall k :: 0 <= k < |line| ==> IsDigit(line[k]);
    }
    assert TextOf(m) == line + "\n";
    assert forall k :: 0 <= k < |line| ==> s[k] == line[k];
    assert s[|line|] == '\n';
    FirstNewlineAt(s, |line|);
    assert s[..|line|] == line;
    StripKeeps(line);
  }
}
