/** What an update comes to for the sender, told from the lines it reads: serve needs one
    line for every chunk and then drains lines until one of them decides. */
module OtaOutcomes {
  import opened Words
  import opened Sequences
  import opened OtaText
  import opened OtaSenders

  /** The number of chunks of 1024 bytes. */
  function Chunks(size: nat): nat {
    (size + 1023) / 1024
  }

  /** One of the lines is a total of at least this size; for size 0 none is needed. */
  ghost predicate Covered(lines: seq<string>, size: nat) {
    size == 0 || exists k :: 0 <= k < |lines| && ParseInt(lines[k]).Some? && ParseInt(lines[k]).value >= size
  }

  /** The first line from n on that decides the drain loop: an empty one or "OK". */
  function DecidedAt(lines: seq<string>, n: nat): (d: nat)
    requires n <= |lines|
    ensures n <= d <= |lines|
    ensures d < |lines| ==> lines[d] in {"", "OK"}
    ensures forall k :: n <= k < d ==> lines[k] !in {"", "OK"}
    decreases |lines| - n
  {
    if n == |lines| || lines[n] in {"", "OK"} then n else DecidedAt(lines, n + 1)
  }

  /** None of the first n lines is empty. */
  predicate Filled(lines: seq<string>, n: nat)
    requires n <= |lines|
  {
    forall k :: 0 <= k < n ==> lines[k] != ""
  }

  function Smaller(a: nat, b: nat): nat {
    if a < b then a else b
  }

  /** The outcome: an empty line while chunks are sent ends it; the reply to the last
      chunk may already be "OK"; otherwise the first deciding line behind it must be
      "OK", with a total that covers the file in front of it. */
  ghost function Outcome(size: nat, lines: seq<string>): Phase {
    var n := Chunks(size);
    if !Filled(lines, Smaller(n, |lines|)) then Failed
    else if |lines| < n then Awaiting
    else if n > 0 && lines[n - 1] == "OK" then Succeeded
    else
      var d := DecidedAt(lines, n);
      if d == |lines| then Draining
      else if lines[d] == "OK" && Covered(lines[..d], size) then Succeeded
      else Failed
  }

  /** The sender behind the replies to i chunks. */
  ghost predicate SentChunks(s: Sender, file: seq<Byte>, lines: seq<string>, i: nat)
    requires i <= |lines|
  {
    && s.file == file && s.phase == Sending
    && s.offset == Smaller(1024 * i, |file|)
    && (s.lastAckOk <==> i > 0 && lines[i - 1] == "OK")
    && (s.ack >= |file| <==> Covered(lines[..i], |file|))
  }

  lemma CoveredByMore(lines: seq<string>, line: string, size: nat, ack: int)
    requires ack >= size <==> Covered(lines, size)
    ensures var more := match ParseInt(line) case Some(n) => Max(ack, n) case None => ack;
      more >= size <==> Covered(lines + [line], size)
  {
    var all := lines + [line];
    assert all[|lines|] == line && forall k :: 0 <= k < |lines| ==> all[k] == lines[k];
    if Covered(lines, size) && size > 0 {
      var k :| 0 <= k < |lines| && ParseInt(lines[k]).Some? && ParseInt(lines[k]).value >= size;
      assert ParseInt(all[k]).Some?;
    }
    if Covered(all, size) && size > 0 {
      var k :| 0 <= k < |all| && ParseInt(all[k]).Some? && ParseInt(all[k]).value >= size;
      if k < |lines| {
        assert ParseInt(lines[k]).Some?;
      }
    }
  }

  lemma ChunksLeft(size: nat, i: nat)
    ensures i < Chunks(size) <==> 1024 * i < size
  {
  }

  lemma OneChunkIsSent(s: Sender, file: seq<Byte>, lines: seq<string>, i: nat)
    requires i < |lines| && i < Chunks(|file|) && SentChunks(s, file, lines, i) && lines[i] != ""
    ensures s.offset <= |file| && NextChunk(s) != []
    ensures SentChunks(OnLine(Dispatch(s), lines[i]), file, lines, i + 1)
  {
    ChunksLeft(|file|, i);
    TakeOneMore(lines, i);
    CoveredByMore(lines[..i], lines[i], |file|, s.ack);
  }

  lemma RestOfLines(lines: seq<string>, i: nat)
    requires i < |lines|
    ensures lines[i..] != [] && lines[i..][0] == lines[i] && lines[i..][1..] == lines[i + 1..]
  {
  }

  /** The transfer loop, as far as the lines are not empty. */
  lemma {:induction false} ChunksAreSent(file: seq<Byte>, lines: seq<string>, i: nat) returns (s: Sender)
    requires i <= |lines| && i <= Chunks(|file|) && Filled(lines, i)
    ensures SentChunks(s, file, lines, i) && s.offset <= |file|
    ensures Serve(Start(file), lines) == Serve(s, lines[i..])
  {
    if i == 0 {
      s := Start(file);
      assert lines[0..] == lines;
    } else {
      var before := ChunksAreSent(file, lines, i - 1);
      OneChunkIsSent(before, file, lines, i - 1);
      RestOfLines(lines, i - 1);
      ServeOneChunk(before, lines[i - 1..]);
      s := OnLine(Dispatch(before), lines[i - 1]);
    }
  }

  /** The sender in the drain loop behind the lines up to i. */
  ghost predicate Drained(s: Sender, file: seq<Byte>, lines: seq<string>, i: nat)
    requires i <= |lines|
  {
    && s.file == file && s.phase == Draining && s.offset <= |file|
    && (s.ack >= |file| <==> Covered(lines[..i], |file|))
  }

  lemma OneLineIsDrained(s: Sender, file: seq<Byte>, lines: seq<string>, i: nat)
    requires i < |lines| && Drained(s, file, lines, i) && lines[i] !in {"", "OK"}
    ensures Drained(OnLine(s, lines[i]), file, lines, i + 1)
  {
    TakeOneMore(lines, i);
    CoveredByMore(lines[..i], lines[i], |file|, s.ack);
  }

  lemma {:induction false} DrainDecides(s: Sender, file: seq<Byte>, lines: seq<string>, i: nat)
    requires i <= |lines| && Drained(s, file, lines, i)
    ensures var d := DecidedAt(lines, i);
      Serve(s, lines[i..]).phase ==
        if d == |lines| then Draining
        else if lines[d] == "OK" && Covered(lines[..d], |file|) then Succeeded
        else Failed
    decreases |lines| - i
  {
    if i < |lines| {
      RestOfLines(lines, i);
      if lines[i] in {"", "OK"} {
        assert ParseInt("OK") == None by {
          assert "OK"[0] == 'O';
        }
      } else {
        OneLineIsDrained(s, file, lines, i);
        DrainDecides(OnLine(s, lines[i]), file, lines, i + 1);
      }
    }
  }

  lemma {:induction false} FirstEmpty(lines: seq<string>, n: nat) returns (i: nat)
    requires n <= |lines| && !Filled(lines, n)
    ensures i < n && lines[i] == "" && Filled(lines, i)
    decreases n
  {
    if Filled(lines, n - 1) {
      i := n - 1;
    } else {
      i := FirstEmpty(lines, n - 1);
    }
  }

  lemma EmptyLineFails(s: Sender, file: seq<Byte>, lines: seq<string>, i: nat)
    requires i < |lines| && i < Chunks(|file|) && SentChunks(s, file, lines, i) && lines[i] == ""
    ensures s.offset <= |file| && Serve(s, lines[i..]).phase == Failed
  {
    ChunksLeft(|file|, i);
    RestOfLines(lines, i);
    ServeOneChunk(s, lines[i..]);
  }

  lemma NoLineWaits(s: Sender, file: seq<Byte>, lines: seq<string>)
    requires |lines| < Chunks(|file|) && SentChunks(s, file, lines, |lines|)
    ensures s.offset <= |file| && Serve(s, lines[|lines|..]).phase == Awaiting
  {
    ChunksLeft(|file|, |lines|);
    assert lines[|lines|..] == [];
    ServeOneChunk(s, []);
  }

  lemma AllChunksSent(s: Sender, file: seq<Byte>, lines: seq<string>, n: nat)
    requires n == Chunks(|file|) <= |lines| && SentChunks(s, file, lines, n)
    ensures s.offset <= |file|
    ensures Serve(s, lines[n..]).phase ==
      if n > 0 && lines[n - 1] == "OK" then Succeeded else Serve(s.(phase := Draining), lines[n..]).phase
  {
    ChunksLeft(|file|, n);
    assert NextChunk(s) == [];
    assert Dispatch(s) == s.(phase := if s.lastAckOk then Succeeded else Draining);
  }

  /** For every file and all lines, serve comes to exactly this. */
  lemma ServeComesTo(file: seq<Byte>, lines: seq<string>)
    ensures Serve(Start(file), lines).phase == Outcome(|file|, lines)
  {
    var n := Chunks(|file|);
    if !Filled(lines, Smaller(n, |lines|)) {
      var i := FirstEmpty(lines, Smaller(n, |lines|));
      var s := ChunksAreSent(file, lines, i);
      EmptyLineFails(s, file, lines, i);
    } else if |lines| < n {
      var s := ChunksAreSent(file, lines, |lines|);
      NoLineWaits(s, file, lines);
    } else {
      var s := ChunksAreSent(file, lines, n);
      AllChunksSent(s, file, lines, n);
      if !(n > 0 && lines[n - 1] == "OK") {
        DrainDecides(s.(phase := Draining), file, lines, n);
      }
    }
  }
}
