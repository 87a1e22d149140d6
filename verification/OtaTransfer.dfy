/** Both sides of an over-the-air update, joined by a connection that keeps the order
    of bytes, cuts them up as it likes, and may break. */
module OtaTransfers {
  import opened Words
  import opened Sequences
  import opened Decimals
  import opened OtaText
  import opened OtaDevices
  import opened OtaSenders

  /** The state of a transfer. `up` and `down` are in flight, `buf` is the sender's
      line buffer, `link` says that the connection still stands, and `eof` that the
      sender has seen its end. `heard` counts the messages read as whole lines and
      `chunks` the chunks sent; both only serve the statements. */
  datatype Ota = Ota(
    sender: Sender, device: Device,
    up: seq<Byte>, down: string, buf: string,
    link: bool, eof: bool, heard: nat, chunks: nat)

  function Begin(file: seq<Byte>): Ota {
    Ota(Start(file), Fresh(|file|), [], "", "", true, false, 0, 0)
  }

  datatype Step =
    | Send                                // the sender's loop head
    | ReadLine                            // the sender reads a line it has buffered
    | Piece(n: nat)                       // the sender takes bytes off the connection
    | LastLine                            // the sender sees the end of the connection
    | GiveUp                              // the sender's time is up
    | Receive(n: nat, writeOk: bool)      // the device takes bytes and writes them
    | Complete(endOk: bool, bootOk: bool) // the device has the whole image
    | Disconnect                          // the device loses the connection or patience
    | Break(kept: nat)                    // the connection breaks; `kept` bytes down still arrive

  predicate Reading(o: Ota) {
    o.sender.phase in {Awaiting, Draining}
  }

  predicate Enabled(o: Ota, st: Step) {
    match st
    case Send => o.sender.phase == Sending && o.sender.offset <= |o.sender.file|
    case ReadLine => Reading(o) && HasLine(o.buf)
    case Piece(n) => Reading(o) && !HasLine(o.buf) && 1 <= n <= 32 && n <= |o.down|
    case LastLine => Reading(o) && !HasLine(o.buf) && o.down == "" && (!o.link || !o.device.status.Receiving?)
    case GiveUp => o.sender.phase in {Sending, Awaiting, Draining}
    case Receive(n, _) =>
      o.device.status.Receiving? && o.device.total < o.device.expected && 1 <= n <= OTA_BUFFER_SIZE && n <= |o.up|
    case Complete(_, _) => o.device.status.Receiving? && o.device.total >= o.device.expected
    case Disconnect => o.device.status.Receiving? && o.device.total < o.device.expected
    case Break(kept) => o.link && kept <= |o.down|
  }

  /** The device moves on; what it says reaches the connection while that stands. */
  function Says(o: Ota, d: Device, up: seq<Byte>): Ota
    requires |d.sent| >= |o.device.sent|
  {
    o.(device := d, up := up, down := if o.link then o.down + Text(d.sent[|o.device.sent|..]) else o.down)
  }

  function Next(o: Ota, st: Step): Ota
    requires Enabled(o, st)
  {
    match st
    case Send =>
      var chunk := NextChunk(o.sender);
      o.(sender := Dispatch(o.sender), up := if o.link then o.up + chunk else o.up,
         chunks := if chunk == [] then o.chunks else o.chunks + 1)
    case ReadLine =>
      var n := FindNewline(o.buf);
      o.(sender := OnLine(o.sender, Strip(o.buf[..n])), buf := o.buf[n + 1..], heard := o.heard + 1)
    case Piece(n) => o.(buf := o.buf + o.down[..n], down := o.down[n..])
    case LastLine => o.(sender := OnLine(o.sender, Strip(o.buf)), buf := "", eof := true)
    case GiveUp => o.(sender := o.sender.(phase := Failed))
    case Receive(n, writeOk) => Says(o, OnBytes(o.device, o.up[..n], writeOk), o.up[n..])
    case Complete(endOk, bootOk) => Says(o, Finish(o.device, endOk, bootOk), o.up)
    case Disconnect => Says(o, Abort(o.device, TIMEOUT_TEXT), o.up)
    case Break(kept) => o.(link := false, up := [], down := o.down[..kept])
  }

  predicate Possible(o: Ota, steps: seq<Step>)
    decreases |steps|
  {
    steps == [] || (Enabled(o, steps[0]) && Possible(Next(o, steps[0]), steps[1..]))
  }

  function After(o: Ota, steps: seq<Step>): Ota
    requires Possible(o, steps)
    decreases |steps|
  {
    if steps == [] then o else After(Next(o, steps[0]), steps[1..])
  }

  // ----------------------------------------------------------------- invariant

  /** The bytes: what is in flash and in flight is what the sender has sent, unless the
      device threw bytes away because it gave up. */
  ghost predicate BytesInOrder(o: Ota) {
    && o.sender.offset <= |o.sender.file|
    && o.device.flash <= o.sender.file
    && (o.link && !o.device.status.Aborted? ==> o.device.flash + o.up == o.sender.file[..o.sender.offset])
    && (!o.link ==> o.up == [])
  }

  /** The text: what the sender has not read yet is what the device has said since,
      perhaps cut off where the connection broke. */
  ghost predicate TextInOrder(o: Ota) {
    && o.heard <= |o.device.sent|
    && (if o.eof then o.buf == "" && o.down == "" && (!o.link || !o.device.status.Receiving?)
        else if o.link then o.buf + o.down == Text(o.device.sent[o.heard..])
        else o.buf + o.down <= Text(o.device.sent[o.heard..]))
  }

  ghost predicate Sound(o: Ota) {
    && Honest(o.device)
    && o.device.expected == |o.sender.file|
    && BytesInOrder(o)
    && TextInOrder(o)
    && (o.sender.lastAckOk || o.sender.phase == Succeeded ==> Ok in o.device.sent)
  }

  lemma {:induction false} TextSplit(xs: seq<Message>, ys: seq<Message>)
    ensures Text(xs + ys) == Text(xs) + Text(ys)
    decreases |xs|
  {
    if xs == [] {
      EmptyIsNeutral(ys);
      EmptyIsNeutral(Text(ys));
    } else {
      TextSplit(xs[1..], ys);
      assert (xs + ys)[0] == xs[0] && (xs + ys)[1..] == xs[1..] + ys;
      Associative(TextOf(xs[0]), Text(xs[1..]), Text(ys));
    }
  }

  /** What the device can have said, one message at a time: totals, then at most one
      other message, which is the last. */
  lemma MessageAt(d: Device, k: nat)
    requires Honest(d) && k < |d.sent|
    ensures d.sent[k].Ack? ==> d.sent[k].total <= d.total
    ensures !d.sent[k].Ack? ==> k == |d.sent| - 1 && !d.status.Receiving?
    ensures d.sent[k] == Ok ==> d.status.Restarted?
    ensures d.sent[k].Trouble? ==> IsComplaint(d.sent[k]) && d.status.Aborted?
  {
    var n := if d.status.Receiving? then |d.sent| else |d.sent| - 1;
    assert d.sent[..|d.sent|] == d.sent;
    AcksCover(d.sent[..n], d.total);
    if k < n {
      assert d.sent[..n][k] == d.sent[k];
    }
  }

  lemma NoLineInTimeout()
    ensures '\n' !in TIMEOUT_TEXT && TIMEOUT_TEXT[0] == 'E'
  {
  }

  lemma NoLineInImage()
    ensures '\n' !in IMAGE_TEXT && IMAGE_TEXT[0] == 'E'
  {
  }

  lemma NoLineInWrite()
    ensures '\n' !in WRITE_TEXT && WRITE_TEXT[0] == 'E'
  {
  }

  lemma NoLineInEnd()
    ensures '\n' !in END_TEXT && END_TEXT[0] == 'E'
  {
  }

  lemma NoLineInBoot()
    ensures '\n' !in BOOT_TEXT && BOOT_TEXT[0] == 'E'
  {
  }

  lemma ComplaintsHaveNoLine(m: Message)
    requires IsComplaint(m)
    ensures '\n' !in m.text && m.text != "" && m.text[0] == 'E'
  {
    NoLineInTimeout();
    NoLineInImage();
    NoLineInWrite();
    NoLineInEnd();
    NoLineInBoot();
  }

  /** Splitting the unread text at its first message. */
  lemma UnreadText(d: Device, heard: nat)
    requires Honest(d) && heard <= |d.sent| && Text(d.sent[heard..]) != ""
    ensures heard < |d.sent|
    ensures Text(d.sent[heard..]) == TextOf(d.sent[heard]) + Text(d.sent[heard + 1..])
    ensures d.sent[heard].Trouble? ==> '\n' !in Text(d.sent[heard..])
  {
    assert heard < |d.sent|;
    assert d.sent[heard..][1..] == d.sent[heard + 1..];
    MessageAt(d, heard);
    if d.sent[heard].Trouble? {
      assert d.sent[heard + 1..] == [];
      var t := d.sent[heard].text;
      ComplaintsHaveNoLine(d.sent[heard]);
      assert t + "" == t;
    }
  }

  lemma {:induction false} NewlineInFront(buf: string, more: string)
    requires HasLine(buf)
    ensures FindNewline(buf + more) == FindNewline(buf)
    decreases |buf|
  {
    assert (buf + more)[0] == buf[0];
    if buf[0] != '\n' {
      assert (buf + more)[1..] == buf[1..] + more;
      NewlineInFront(buf[1..], more);
    }
  }

  lemma StartOfPrefix(t: string, buf: string, rest: string)
    requires buf + rest <= t
    ensures |buf| <= |t| && t == buf + t[|buf|..]
  {
    var x := buf + rest;
    assert t[..|x|] == x && x[..|buf|] == buf;
    assert t[..|buf|] == buf;
  }

  lemma RestOfPrefix(t: string, buf: string, rest: string, m: nat)
    requires buf + rest <= t && m <= |buf|
    ensures m <= |t| && buf[m..] + rest <= t[m..]
    ensures buf + rest == t ==> buf[m..] + rest == t[m..]
  {
    var x := buf + rest;
    assert x[m..] == buf[m..] + rest;
    assert t[..|x|] == x;
    assert t[m..][..|x| - m] == x[m..];
  }

  /** The first line of a text, when only the beginning of the text has arrived. */
  lemma LineOfPrefix(t: string, buf: string, rest: string)
    requires buf + rest <= t && HasLine(buf)
    ensures FindNewline(t) == FindNewline(buf) < |t|
    ensures buf[..FindNewline(buf)] == t[..FindNewline(buf)]
  {
    StartOfPrefix(t, buf, rest);
    NewlineInFront(buf, t[|buf|..]);
  }

  /** A buffered line is a whole message: an acknowledgement or the final OK. */
  lemma LineIsMessage(d: Device, heard: nat, buf: string, rest: string)
    requires Honest(d) && heard <= |d.sent|
    requires buf + rest <= Text(d.sent[heard..]) && HasLine(buf)
    ensures heard < |d.sent| && !d.sent[heard].Trouble?
    ensures Strip(buf[..FindNewline(buf)]) == LineOf(d.sent[heard])
    ensures var b := buf[FindNewline(buf) + 1..];
      && b + rest <= Text(d.sent[heard + 1..])
      && (buf + rest == Text(d.sent[heard..]) ==> b + rest == Text(d.sent[heard + 1..]))
  {
    var t := Text(d.sent[heard..]);
    LineOfPrefix(t, buf, rest);
    RestOfPrefix(t, buf, rest, FindNewline(buf) + 1);
    assert t[FindNewline(t)] in t;
    UnreadText(d, heard);
    FirstLine(d.sent[heard], Text(d.sent[heard + 1..]));
  }

  /** A buffer without a newline reads as OK only if the device said OK. */
  lemma PartialLineIsNotOk(d: Device, heard: nat, buf: string)
    requires Honest(d) && heard <= |d.sent|
    requires buf <= Text(d.sent[heard..])
    ensures Strip(buf) == "OK" ==> Ok in d.sent
  {
    if buf != "" {
      UnreadText(d, heard);
      MessageAt(d, heard);
      var m := d.sent[heard];
      assert buf[0] == Text(d.sent[heard..])[0] == TextOf(m)[0] by {
        MessageHasText(m);
      }
      if m != Ok {
        MessageHasText(m);
        StripStartsAlike(buf);
      }
    }
  }

  lemma MessageHasText(m: Message)
    requires m.Trouble? ==> IsComplaint(m)
    ensures TextOf(m) != ""
    ensures m != Ok ==> TextOf(m)[0] != 'O' && !IsSpace(TextOf(m)[0])
  {
    match m {
      case Ok =>
      case Ack(n) =>
        DecIsDigits(n);
        assert IsDigit(Dec(n)[0]);
        assert TextOf(m)[0] == Dec(n)[0];
      case Trouble(t) => ComplaintsHaveNoLine(m);
    }
  }

  lemma {:induction false} StripStartsAlike(s: string)
    requires s != "" && !IsSpace(s[0])
    ensures Strip(s) != "" && Strip(s)[0] == s[0]
    decreases |s|
  {
    if IsSpace(s[|s| - 1]) {
      StripStartsAlike(s[..|s| - 1]);
    }
  }

  lemma OkIsSaid(m: Message)
    requires !m.Trouble?
    ensures LineOf(m) == "OK" ==> m == Ok
    ensures LineOf(m) != ""
    ensures ParseInt(LineOf(m)) == match m case Ack(n) => Some(n) case _ => None
  {
    if m.Ack? {
      ParseOfDec(m.total);
      DecIsDigits(m.total);
      assert IsDigit(Dec(m.total)[0]);
    } else {
      assert !IsDigit("OK"[0]);
    }
  }

  lemma ReadLineKeepsText(o: Ota)
    requires Honest(o.device) && TextInOrder(o) && HasLine(o.buf)
    ensures !o.eof && o.heard < |o.device.sent| && !o.device.sent[o.heard].Trouble?
    ensures Strip(o.buf[..FindNewline(o.buf)]) == LineOf(o.device.sent[o.heard])
    ensures var b := o.buf[FindNewline(o.buf) + 1..];
      if o.link then b + o.down == Text(o.device.sent[o.heard + 1..])
      else b + o.down <= Text(o.device.sent[o.heard + 1..])
  {
    LineIsMessage(o.device, o.heard, o.buf, o.down);
  }

  /** A line changes what the sender believes; bytes and text must be in order still. */
  lemma LineKeepsSound(o: Ota, p: Ota, line: string)
    requires Sound(o) && Reading(o) && (line == "OK" ==> Ok in o.device.sent)
    requires p == o.(sender := OnLine(o.sender, line), buf := p.buf, heard := p.heard, eof := p.eof) && TextInOrder(p)
    ensures Sound(p)
  {
    OkNeedsOk(o.sender, line);
  }

  lemma ReadLineKeepsSound(o: Ota)
    requires Sound(o) && Enabled(o, ReadLine)
    ensures Sound(Next(o, ReadLine))
  {
    ReadLineKeepsText(o);
    var m := o.device.sent[o.heard];
    OkIsSaid(m);
    LineKeepsSound(o, Next(o, ReadLine), LineOf(m));
  }

  /** The sender comes to believe in an OK only by reading one. */
  lemma OkNeedsOk(s: Sender, line: string)
    requires s.phase in {Awaiting, Draining}
    ensures var t := OnLine(s, line);
      && t.file == s.file && t.offset == s.offset
      && (t.lastAckOk || t.phase == Succeeded ==> line == "OK" || s.lastAckOk)
  {
  }

  lemma LastLineKeepsSound(o: Ota)
    requires Sound(o) && Enabled(o, LastLine)
    ensures Sound(Next(o, LastLine))
  {
    EmptyIsNeutral(o.buf);
    if !o.eof {
      PartialLineIsNotOk(o.device, o.heard, o.buf);
    }
    LineKeepsSound(o, Next(o, LastLine), Strip(o.buf));
  }

  /** The device saying something more keeps the text in order. */
  lemma SaysKeepsText(o: Ota, d: Device, up: seq<Byte>)
    requires TextInOrder(o) && o.device.status.Receiving?
    requires |d.sent| >= |o.device.sent| && d.sent[..|o.device.sent|] == o.device.sent
    ensures TextInOrder(Says(o, d, up))
    ensures forall m :: m in o.device.sent ==> m in d.sent
  {
    var more := d.sent[|o.device.sent|..];
    assert d.sent == o.device.sent + more;
    assert d.sent[o.heard..] == o.device.sent[o.heard..] + more;
    TextSplit(o.device.sent[o.heard..], more);
    if !o.eof && o.link {
      Associative(o.buf, o.down, Text(more));
    }
  }

  lemma ReceiveKeepsSound(o: Ota, n: nat, writeOk: bool)
    requires Sound(o) && Enabled(o, Receive(n, writeOk))
    ensures Sound(Next(o, Receive(n, writeOk)))
  {
    var d, bytes := o.device, o.up[..n];
    var e := OnBytes(d, bytes, writeOk);
    BytesKeepHonest(d, bytes, writeOk);
    assert e.sent[..|d.sent|] == d.sent;
    SaysKeepsText(o, e, o.up[n..]);
    BytesMove(d.flash, o.up, n, o.sender.file, o.sender.offset);
  }

  lemma BytesMove(flash: seq<Byte>, up: seq<Byte>, n: nat, file: seq<Byte>, offset: nat)
    requires n <= |up| && offset <= |file| && flash + up == file[..offset]
    ensures (flash + up[..n]) + up[n..] == file[..offset]
    ensures flash + up[..n] <= file
  {
    assert up == up[..n] + up[n..];
    assert (flash + up[..n]) + up[n..] == flash + up;
    assert flash + up[..n] == file[..|flash| + n];
  }

  lemma CompleteKeepsSound(o: Ota, endOk: bool, bootOk: bool)
    requires Sound(o) && Enabled(o, Complete(endOk, bootOk))
    ensures Sound(Next(o, Complete(endOk, bootOk)))
  {
    var e := Finish(o.device, endOk, bootOk);
    EndKeepsHonest(o.device, TIMEOUT_TEXT, endOk, bootOk);
    assert e.sent[..|o.device.sent|] == o.device.sent;
    SaysKeepsText(o, e, o.up);
  }

  lemma DisconnectKeepsSound(o: Ota)
    requires Sound(o) && Enabled(o, Disconnect)
    ensures Sound(Next(o, Disconnect))
  {
    var e := Abort(o.device, TIMEOUT_TEXT);
    EndKeepsHonest(o.device, TIMEOUT_TEXT, true, true);
    assert e.sent[..|o.device.sent|] == o.device.sent;
    SaysKeepsText(o, e, o.up);
  }

  lemma SendKeepsBytes(o: Ota)
    requires BytesInOrder(o) && Enabled(o, Send)
    ensures BytesInOrder(Next(o, Send))
  {
    var file, offset, chunk := o.sender.file, o.sender.offset, NextChunk(o.sender);
    ChunkExtends(file, offset);
    if o.link && !o.device.status.Aborted? {
      ChunkInFlight(o.device.flash, o.up, chunk, file[..offset], file[..offset + |chunk|]);
    }
  }

  lemma DispatchBelieves(s: Sender)
    requires s.offset <= |s.file|
    ensures var t := Dispatch(s);
      t.file == s.file && t.lastAckOk == s.lastAckOk && (t.phase == Succeeded ==> s.lastAckOk)
  {
  }

  lemma SendKeepsSound(o: Ota)
    requires Sound(o) && Enabled(o, Send)
    ensures Sound(Next(o, Send))
  {
    SendKeepsBytes(o);
    DispatchBelieves(o.sender);
  }

  lemma ChunkInFlight(flash: seq<Byte>, up: seq<Byte>, chunk: seq<Byte>, was: seq<Byte>, now: seq<Byte>)
    requires flash + up == was && was + chunk == now
    ensures flash + (up + chunk) == now
  {
    Associative(flash, up, chunk);
  }

  lemma PieceKeepsSound(o: Ota, n: nat)
    requires Sound(o) && Enabled(o, Piece(n))
    ensures Sound(Next(o, Piece(n)))
  {
    assert o.down == o.down[..n] + o.down[n..];
    assert (o.buf + o.down[..n]) + o.down[n..] == o.buf + o.down;
  }

  lemma BreakKeepsSound(o: Ota, kept: nat)
    requires Sound(o) && Enabled(o, Break(kept))
    ensures Sound(Next(o, Break(kept)))
  {
    assert o.buf + o.down[..kept] <= o.buf + o.down;
  }

  lemma StepKeepsSound(o: Ota, st: Step)
    requires Sound(o) && Enabled(o, st)
    ensures Sound(Next(o, st))
  {
    match st {
      case Send => SendKeepsSound(o);
      case ReadLine => ReadLineKeepsSound(o);
      case Piece(n) => PieceKeepsSound(o, n);
      case LastLine => LastLineKeepsSound(o);
      case GiveUp =>
      case Receive(n, writeOk) => ReceiveKeepsSound(o, n, writeOk);
      case Complete(endOk, bootOk) => CompleteKeepsSound(o, endOk, bootOk);
      case Disconnect => DisconnectKeepsSound(o);
      case Break(kept) => BreakKeepsSound(o, kept);
    }
  }

  lemma {:induction false} RunKeepsSound(o: Ota, steps: seq<Step>)
    requires Sound(o) && Possible(o, steps)
    ensures Sound(After(o, steps))
    decreases |steps|
  {
    if steps != [] {
      StepKeepsSound(o, steps[0]);
      RunKeepsSound(Next(o, steps[0]), steps[1..]);
    }
  }

  /** Agreement. In any run, whatever fails and however the connection behaves: if the
      sender reports success, the device has switched its boot partition and its flash
      holds exactly the file, which starts with the image magic. */
  lemma SuccessMeansInstalled(file: seq<Byte>, steps: seq<Step>)
    requires file != [] && Possible(Begin(file), steps)
    requires After(Begin(file), steps).sender.phase == Succeeded
    ensures var d := After(Begin(file), steps).device;
      d.switched && d.flash == file && file[0] == ESP_IMAGE_MAGIC
  {
    assert Sound(Begin(file));
    RunKeepsSound(Begin(file), steps);
    FileStays(Begin(file), steps);
    var o := After(Begin(file), steps);
    var k :| 0 <= k < |o.device.sent| && o.device.sent[k] == Ok;
    MessageAt(o.device, k);
    assert |o.device.flash| >= |file| && o.device.flash <= file;
  }

  /** Every flash write worked, nothing ended early, and both final calls worked. */
  predicate AllCallsGood(steps: seq<Step>) {
    forall k :: 0 <= k < |steps| ==>
      !steps[k].Disconnect? && (steps[k].Receive? ==> steps[k].writeOk)
      && (steps[k].Complete? ==> steps[k].endOk && steps[k].bootOk)
  }

  lemma {:induction false} AbortedForGood(o: Ota, steps: seq<Step>)
    requires Possible(o, steps) && o.device.status.Aborted?
    ensures After(o, steps).device == o.device
    decreases |steps|
  {
    if steps != [] {
      AbortedForGood(Next(o, steps[0]), steps[1..]);
    }
  }

  lemma BadStepAborts(o: Ota, st: Step)
    requires Enabled(o, st)
    ensures st.Disconnect? || (st.Receive? && !st.writeOk) || (st.Complete? && !(st.endOk && st.bootOk)) ==>
      Next(o, st).device.status.Aborted? && Next(o, st).device.switched == o.device.switched
    ensures Next(o, st).device.switched && !o.device.switched ==> st == Complete(true, true)
  {
  }

  lemma {:induction false} SwitchedNeedsGoodCalls(o: Ota, steps: seq<Step>)
    requires Possible(o, steps) && !o.device.switched && After(o, steps).device.switched
    ensures Complete(true, true) in steps && AllCallsGood(steps)
    decreases |steps|
  {
    var p, rest := Next(o, steps[0]), steps[1..];
    BadStepAborts(o, steps[0]);
    if p.device.status.Aborted? {
      AbortedForGood(p, rest);
    } else if p.device.switched {
      OverForGood(p, rest);
    } else {
      SwitchedNeedsGoodCalls(p, rest);
    }
    assert steps == [steps[0]] + rest;
  }

  lemma {:induction false} OverForGood(o: Ota, steps: seq<Step>)
    requires Possible(o, steps) && !o.device.status.Receiving?
    ensures AllCallsGood(steps)
    decreases |steps|
  {
    if steps != [] {
      OverForGood(Next(o, steps[0]), steps[1..]);
      assert steps == [steps[0]] + steps[1..];
    }
  }

  /** The same agreement seen from the device's calls: if the sender reports success, the
      final check of the image and the switch of the boot partition have worked, and so
      has every flash write. */
  lemma SuccessNeedsGoodCalls(file: seq<Byte>, steps: seq<Step>)
    requires file != [] && Possible(Begin(file), steps)
    requires After(Begin(file), steps).sender.phase == Succeeded
    ensures Complete(true, true) in steps && AllCallsGood(steps)
  {
    SuccessMeansInstalled(file, steps);
    SwitchedNeedsGoodCalls(Begin(file), steps);
  }

  lemma {:induction false} FileStays(o: Ota, steps: seq<Step>)
    requires Possible(o, steps)
    ensures After(o, steps).sender.file == o.sender.file
    decreases |steps|
  {
    if steps != [] {
      FileStays(Next(o, steps[0]), steps[1..]);
    }
  }

  // ------------------------------------------- the two programs inside a run

  /** The line the sender reads in a step, if any. */
  function LineOfStep(o: Ota, st: Step): seq<string>
    requires Enabled(o, st)
  {
    match st
    case ReadLine => [Strip(o.buf[..FindNewline(o.buf)])]
    case LastLine => [Strip(o.buf)]
    case _ => []
  }

  /** The lines the sender reads during a run. */
  function LinesRead(o: Ota, steps: seq<Step>): seq<string>
    requires Possible(o, steps)
    decreases |steps|
  {
    if steps == [] then [] else LineOfStep(o, steps[0]) + LinesRead(Next(o, steps[0]), steps[1..])
  }

  /** What the sender's recv call returns in a step, if there is one. */
  function PieceOfStep(o: Ota, st: Step): seq<string>
    requires Enabled(o, st)
  {
    match st
    case Piece(n) => [o.down[..n]]
    case LastLine => [""]
    case _ => []
  }

  function PiecesTaken(o: Ota, steps: seq<Step>): seq<string>
    requires Possible(o, steps)
    decreases |steps|
  {
    if steps == [] then [] else PieceOfStep(o, steps[0]) + PiecesTaken(Next(o, steps[0]), steps[1..])
  }

  /** k calls of read_response_line on the pieces. */
  function ReadLines(buf: string, pieces: seq<string>, k: nat): seq<string>
    decreases k
  {
    if k == 0 then []
    else
      var (line, rest, taken) := NextLine(buf, pieces);
      if line.None? then [] else [line.value] + ReadLines(rest, pieces[taken..], k - 1)
  }

  lemma PieceIsBuffered(buf: string, piece: string, pieces: seq<string>, k: nat)
    requires !HasLine(buf) && piece != ""
    ensures ReadLines(buf, [piece] + pieces, k) == ReadLines(buf + piece, pieces, k)
  {
    var all := [piece] + pieces;
    assert all[1..] == pieces;
    if k > 0 {
      var r := NextLine(buf + piece, pieces);
      assert NextLine(buf, all) == (r.0, r.1, r.2 + 1);
      assert all[r.2 + 1..] == pieces[r.2..];
    }
  }

  lemma BufferedLineIsRead(buf: string, pieces: seq<string>, k: nat)
    requires HasLine(buf)
    ensures var n := FindNewline(buf);
      ReadLines(buf, pieces, k + 1) == [Strip(buf[..n])] + ReadLines(buf[n + 1..], pieces, k)
  {
    assert pieces[0..] == pieces;
  }

  lemma EndIsRead(buf: string, pieces: seq<string>, k: nat)
    requires !HasLine(buf)
    ensures ReadLines(buf, [""] + pieces, k + 1) == [Strip(buf)] + ReadLines("", pieces, k)
  {
    assert ([""] + pieces)[1..] == pieces;
  }

  /** What one step of the run contributes to pieces and lines. */
  lemma StepIsRead(o: Ota, st: Step, pieces: seq<string>, lines: seq<string>)
    requires Enabled(o, st) && ReadLines(Next(o, st).buf, pieces, |lines|) == lines
    ensures ReadLines(o.buf, PieceOfStep(o, st) + pieces, |LineOfStep(o, st) + lines|) == LineOfStep(o, st) + lines
  {
    match st {
      case Piece(n) =>
        PieceIsBuffered(o.buf, o.down[..n], pieces, |lines|);
        EmptyIsNeutral(lines);
      case ReadLine =>
        BufferedLineIsRead(o.buf, pieces, |lines|);
        EmptyIsNeutral(pieces);
      case LastLine => EndIsRead(o.buf, pieces, |lines|);
      case _ =>
        assert Next(o, st).buf == o.buf;
        EmptyIsNeutral(lines);
        EmptyIsNeutral(pieces);
    }
  }

  /** The lines of a run are those that read_response_line returns on the pieces that
      the sender took off the connection. */
  lemma {:induction false} LinesAreReadFromPieces(o: Ota, steps: seq<Step>)
    requires Possible(o, steps)
    ensures ReadLines(o.buf, PiecesTaken(o, steps), |LinesRead(o, steps)|) == LinesRead(o, steps)
    decreases |steps|
  {
    if steps != [] {
      var p, rest := Next(o, steps[0]), steps[1..];
      LinesAreReadFromPieces(p, rest);
      StepIsRead(o, steps[0], PiecesTaken(p, rest), LinesRead(p, rest));
    }
  }

  /** The sender inside a run is serve on what its line reader returns for the pieces
      it takes off the connection, unless it gives up. */
  lemma SenderRunsServeOnPieces(file: seq<Byte>, steps: seq<Step>)
    requires Possible(Begin(file), steps) && GiveUp !in steps
    ensures Sound(After(Begin(file), steps))
    ensures var o := Begin(file);
      Serve(Start(file), ReadLines("", PiecesTaken(o, steps), |LinesRead(o, steps)|)) ==
        Serve(After(o, steps).sender, [])
  {
    assert Begin(file).device.sent[0..] == [];
    LinesAreReadFromPieces(Begin(file), steps);
    SenderRunsServe(Begin(file), steps);
  }

  /** What the device's receive calls return during a run. */
  function ReadsDone(o: Ota, steps: seq<Step>): seq<Read>
    requires Possible(o, steps)
    ensures forall k :: 0 <= k < |ReadsDone(o, steps)| ==> PossibleRead(ReadsDone(o, steps)[k])
    decreases |steps|
  {
    if steps == [] then []
    else
      (match steps[0]
       case Receive(n, writeOk) => [Got(o.up[..n], writeOk)]
       case Disconnect => [Broken]
       case _ => [])
      + ReadsDone(Next(o, steps[0]), steps[1..])
  }

  /** The sender inside a run is the program `serve` on the lines it reads, unless it
      gives up. */
  lemma {:induction false} SenderRunsServe(o: Ota, steps: seq<Step>)
    requires Sound(o) && Possible(o, steps) && GiveUp !in steps
    ensures Sound(After(o, steps))
    ensures Serve(o.sender, LinesRead(o, steps)) == Serve(After(o, steps).sender, [])
    decreases |steps|
  {
    if steps != [] {
      var st, p := steps[0], Next(o, steps[0]);
      StepKeepsSound(o, st);
      SenderRunsServe(p, steps[1..]);
      var rest := LinesRead(p, steps[1..]);
      match st {
        case ReadLine => ServeOnLine(o.sender, Strip(o.buf[..FindNewline(o.buf)]), rest);
        case LastLine => ServeOnLine(o.sender, Strip(o.buf), rest);
        case GiveUp =>
        case Send => assert [] + rest == rest;
        case Piece(_) => assert [] + rest == rest;
        case Receive(_, _) => assert [] + rest == rest;
        case Complete(_, _) => assert [] + rest == rest;
        case Disconnect => assert [] + rest == rest;
        case Break(_) => assert [] + rest == rest;
      }
    }
  }

  lemma ServeOnLine(s: Sender, line: string, rest: seq<string>)
    requires s.phase in {Awaiting, Draining} && s.offset <= |s.file|
    ensures Serve(s, [line] + rest) == Serve(OnLine(s, line), rest)
  {
    assert ([line] + rest)[1..] == rest;
  }

  lemma TransferOneRead(d: Device, r: Read, rest: seq<Read>, endOk: bool, bootOk: bool)
    requires PossibleRead(r) && forall k :: 0 <= k < |rest| ==> PossibleRead(rest[k])
    requires d.status.Receiving? && d.total < d.expected
    ensures Transfer(d, [r] + rest, endOk, bootOk) ==
      match r
      case Nothing => Transfer(d, rest, endOk, bootOk)
      case Broken => Abort(d, TIMEOUT_TEXT)
      case Got(bytes, writeOk) => Transfer(OnBytes(d, bytes, writeOk), rest, endOk, bootOk)
  {
    assert ([r] + rest)[1..] == rest;
  }

  lemma TransferIsOver(d: Device, rest: seq<Read>, endOk: bool, bootOk: bool)
    requires forall k :: 0 <= k < |rest| ==> PossibleRead(rest[k])
    ensures !d.status.Receiving? ==> Transfer(d, rest, endOk, bootOk) == d
    ensures d.status.Receiving? && d.total >= d.expected ==>
      Transfer(d, rest, endOk, bootOk) == Finish(d, endOk, bootOk)
  {
  }

  /** One step of a run is one turn of the device's program, or none of its business. */
  lemma StepIsTurn(o: Ota, st: Step, rest: seq<Read>, endOk: bool, bootOk: bool)
    requires Enabled(o, st) && (st.Complete? ==> st == Complete(endOk, bootOk))
    requires forall k :: 0 <= k < |rest| ==> PossibleRead(rest[k])
    ensures var r := match st
        case Receive(n, writeOk) => [Got(o.up[..n], writeOk)]
        case Disconnect => [Broken]
        case _ => [];
      && (forall k :: 0 <= k < |r + rest| ==> PossibleRead((r + rest)[k]))
      && Transfer(o.device, r + rest, endOk, bootOk) == Transfer(Next(o, st).device, rest, endOk, bootOk)
  {
    var p := Next(o, st);
    assert [] + rest == rest;
    match st {
      case Receive(n, writeOk) => TransferOneRead(o.device, Got(o.up[..n], writeOk), rest, endOk, bootOk);
      case Disconnect =>
        TransferOneRead(o.device, Broken, rest, endOk, bootOk);
        TransferIsOver(p.device, rest, endOk, bootOk);
      case Complete(_, _) =>
        TransferIsOver(o.device, rest, endOk, bootOk);
        TransferIsOver(p.device, rest, endOk, bootOk);
      case _ =>
    }
  }

  /** The device inside a run is the program `performTransfer` on the receive calls it
      makes, with the outcome of the final calls as they come. */
  lemma {:induction false} DeviceRunsTransfer(o: Ota, steps: seq<Step>, endOk: bool, bootOk: bool)
    requires Possible(o, steps)
    requires forall k :: 0 <= k < |steps| && steps[k].Complete? ==> steps[k] == Complete(endOk, bootOk)
    ensures Transfer(o.device, ReadsDone(o, steps), endOk, bootOk) ==
      Transfer(After(o, steps).device, [], endOk, bootOk)
    decreases |steps|
  {
    if steps != [] {
      var p := Next(o, steps[0]);
      DeviceRunsTransfer(p, steps[1..], endOk, bootOk);
      StepIsTurn(o, steps[0], ReadsDone(p, steps[1..]), endOk, bootOk);
    }
  }
}
