/** The sending side of an over-the-air update (tools/espota.py, serve): one line of
    reply is read after every chunk, then lines are drained until the result. */
module OtaSenders {
  import opened Words
  import opened OtaText

  const CHUNK := 1024

  datatype Phase = Sending | Awaiting | Draining | Succeeded | Failed

  /** `ack` is the largest total acknowledged so far (last_ack_value, later
      max_ack_seen); `lastAckOk` says whether the latest reply to a chunk was "OK". */
  datatype Sender = Sender(file: seq<Byte>, offset: nat, lastAckOk: bool, ack: int, phase: Phase)

  function Start(file: seq<Byte>): Sender {
    Sender(file, 0, false, 0, Sending)
  }

  function Max(x: int, y: int): int {
    if x >= y then x else y
  }

  function NextChunk(s: Sender): seq<Byte>
    requires s.offset <= |s.file|
  {
    if s.offset + CHUNK <= |s.file| then s.file[s.offset..s.offset + CHUNK] else s.file[s.offset..]
  }

  /** The head of the transfer loop: send the next chunk, or leave the loop. */
  function Dispatch(s: Sender): Sender
    requires s.offset <= |s.file|
  {
    var chunk := NextChunk(s);
    if chunk != [] then s.(offset := s.offset + |chunk|, phase := Awaiting)
    else s.(phase := if s.lastAckOk then Succeeded else Draining)
  }

  /** The effect of one reply line; an empty line means the peer closed. */
  function OnLine(s: Sender, line: string): Sender {
    var ack := match ParseInt(line) case Some(n) => Max(s.ack, n) case None => s.ack;
    if s.phase == Awaiting then
      if line == "" then s.(phase := Failed)
      else s.(lastAckOk := line == "OK", ack := ack, phase := Sending)
    else if line == "" then s.(phase := Failed)
    else if ParseInt(line).Some? then s.(ack := ack)
    else if line == "OK" then s.(phase := if s.ack >= |s.file| then Succeeded else Failed)
    else s
  }

  /** The sender, given the lines it reads. If they run out it is still waiting. */
  function Serve(s: Sender, lines: seq<string>): Sender
    requires s.offset <= |s.file|
    decreases |lines|, if s.phase.Sending? then 1 else 0
  {
    match s.phase
    case Sending => Serve(Dispatch(s), lines)
    case Awaiting => if lines == [] then s else Serve(OnLine(s, lines[0]), lines[1..])
    case Draining => if lines == [] then s else Serve(OnLine(s, lines[0]), lines[1..])
    case _ => s
  }

  lemma ChunkExtends(file: seq<Byte>, offset: nat)
    requires offset <= |file|
    ensures var chunk := NextChunk(Sender(file, offset, false, 0, Sending));
      offset + |chunk| <= |file| && file[..offset] + chunk == file[..offset + |chunk|]
  {
  }

  /** What one non-empty reply to a chunk changes. */
  method TakeReply(responseText: string, lastAckValue: int) returns (lastAckOk: bool, ack: int)
    ensures lastAckOk == (responseText == "OK")
    ensures ack == match ParseInt(responseText) case Some(n) => Max(lastAckValue, n) case None => lastAckValue
  {
    lastAckOk := responseText == "OK";
    match ParseInt(responseText) {
      case Some(n) => ack := Max(lastAckValue, n);
      case None => ack := lastAckValue;
    }
  }

  /** The transfer loop of serve: send a chunk, read one reply. Running out of lines is
      the time-out. It leaves with the sender's state and the lines not yet read. */
  method TransferLoop(file: seq<Byte>, lines: seq<string>) returns (sent: seq<Byte>, s: Sender, next: nat)
    ensures next <= |lines| && s.offset <= |s.file|
    ensures Serve(Start(file), lines) == Serve(s, lines[next..])
    ensures s.file == file && sent == file[..s.offset]
    ensures s.phase == Failed || (s.phase == Awaiting && next == |lines|) || (s.phase == Sending && NextChunk(s) == [])
  {
    sent, next := [], 0;
    s := Start(file);
    while true
      invariant next <= |lines| && s.file == file && s.offset <= |file| && s.phase == Sending
      invariant Serve(Start(file), lines) == Serve(s, lines[next..])
      invariant sent == file[..s.offset]
      decreases |file| - s.offset
    {
      ghost var s0 := s;
      var chunk := NextChunk(s);
      if chunk == [] {
        return;
      }
      ChunkExtends(file, s.offset);
      ServeOneChunk(s0, lines[next..]);
      sent := sent + chunk;
      s := s.(offset := s.offset + |chunk|, phase := Awaiting);
      assert s == Dispatch(s0);
      if next == |lines| {
        return;
      }
      var responseText := lines[next];
      assert lines[next..][1..] == lines[next + 1..];
      next := next + 1;
      if responseText == "" {
        s := s.(phase := Failed);
        assert s == OnLine(Dispatch(s0), responseText);
        return;
      }
      var ok, ack := TakeReply(responseText, s.ack);
      s := s.(lastAckOk := ok, ack := ack, phase := Sending);
      assert s == OnLine(Dispatch(s0), responseText);
    }
  }

  lemma ServeOneChunk(s: Sender, lines: seq<string>)
    requires s.phase == Sending && s.offset <= |s.file| && NextChunk(s) != []
    ensures Serve(s, lines) ==
      if lines == [] then Dispatch(s) else Serve(OnLine(Dispatch(s), lines[0]), lines[1..])
  {
    assert Dispatch(s).phase == Awaiting;
  }

  /** serve over the lines read from the device. */
  method RunServe(file: seq<Byte>, lines: seq<string>) returns (sent: seq<Byte>, s: Sender)
    ensures s == Serve(Start(file), lines)
    ensures s.offset <= |file| && sent == file[..s.offset]
  {
    var next;
    sent, s, next := TransferLoop(file, lines);
    if s.phase == Sending {
      if s.lastAckOk {
        s := s.(phase := Succeeded);
      } else {
        s := Drain(s.(phase := Draining), lines[next..]);
      }
    }
  }

  /** The drain loop of serve: read totals until OK or the end. */
  method Drain(start: Sender, lines: seq<string>) returns (s: Sender)
    requires start.phase == Draining && start.offset <= |start.file|
    ensures s == Serve(start, lines) && s.offset == start.offset
  {
    var maxAckSeen := start.ack;
    for next := 0 to |lines|
      invariant Serve(start, lines) == Serve(start.(ack := maxAckSeen), lines[next..])
    {
      var data := lines[next];
      assert lines[next..][1..] == lines[next + 1..];
      if data == "" {
        return start.(ack := maxAckSeen, phase := Failed);
      }
      match ParseInt(data) {
        case Some(n) => maxAckSeen := Max(maxAckSeen, n);
        case None =>
          if data == "OK" {
            return start.(ack := maxAckSeen, phase := if maxAckSeen >= |start.file| then Succeeded else Failed);
          }
      }
    }
    return start.(ack := maxAckSeen);
  }

  /** The line-buffered reader. */
  class LineReader {
    var lineBuf: string

    constructor ()
      ensures lineBuf == ""
    {
      lineBuf := "";
    }

    /** read_response_line: takes pieces off the connection until the buffer holds a
        whole line; an empty piece means the peer closed, and what is buffered is the
        last line. Returns how many pieces were taken, or that more are needed. */
    method ReadResponseLine(pieces: seq<string>) returns (line: Option<string>, taken: nat)
      requires forall k :: 0 <= k < |pieces| ==> |pieces[k]| <= 32
      modifies this
      ensures taken <= |pieces|
      ensures (line, lineBuf, taken) == NextLine(old(lineBuf), pieces)
    {
      taken := 0;
      while true
        invariant 0 <= taken <= |pieces|
        invariant NextLine(old(lineBuf), pieces)
               == (var r := NextLine(lineBuf, pieces[taken..]); (r.0, r.1, r.2 + taken))
        decreases |pieces| - taken
      {
        var nl := FindNewline(lineBuf);
        if nl < |lineBuf| {
          line := Some(Strip(lineBuf[..nl]));
          lineBuf := lineBuf[nl + 1..];
          return;
        }
        if taken == |pieces| {
          return None, taken;
        }
        var chunk := pieces[taken];
        assert pieces[taken..][1..] == pieces[taken + 1..];
        taken := taken + 1;
        if chunk == "" {
          line := Some(Strip(lineBuf));
          lineBuf := "";
          return;
        }
        lineBuf := lineBuf + chunk;
      }
    }
  }

  /** What the reader returns, what stays buffered, and how many pieces it took. */
  function NextLine(buf: string, pieces: seq<string>): (r: (Option<string>, string, nat))
    ensures r.2 <= |pieces|
    decreases |pieces|
  {
    var nl := FindNewline(buf);
    if nl < |buf| then (Some(Strip(buf[..nl])), buf[nl + 1..], 0)
    else if pieces == [] then (None, buf, 0)
    else if pieces[0] == "" then (Some(Strip(buf)), "", 1)
    else
      var r := NextLine(buf + pieces[0], pieces[1..]);
      (r.0, r.1, r.2 + 1)
  }
}
