/** Transfers in which nothing fails: sender and device never wait for each other, every
    step brings the end nearer, and the end is success. */
module OtaProgress {
  import opened Words
  import opened OtaText
  import opened OtaDevices
  import opened OtaSenders
  import opened OtaTransfers

  /** The steps of a transfer without faults: the connection stands, flash works, and
      nobody runs out of patience. How the bytes are cut up is still arbitrary. */
  predicate Healthy(st: Step) {
    match st
    case Send => true
    case ReadLine => true
    case Piece(_) => true
    case LastLine => true
    case Receive(_, writeOk) => writeOk
    case Complete(endOk, bootOk) => endOk && bootOk
    case _ => false
  }

  predicate AllHealthy(steps: seq<Step>) {
    forall k :: 0 <= k < |steps| ==> Healthy(steps[k])
  }

  /** One reply line per chunk is read during the transfer loop. */
  ghost predicate Paced(o: Ota) {
    var n := |o.sender.file|;
    && o.sender.offset == (if CHUNK * o.chunks <= n then CHUNK * o.chunks else n)
    && (o.chunks > 0 ==> CHUNK * (o.chunks - 1) < n)
    && match o.sender.phase
       case Sending => o.heard == o.chunks
       case Awaiting => o.heard + 1 == o.chunks
       case Draining => o.heard >= o.chunks && o.sender.offset == n
       case _ => true
  }

  /** The sender's maximum is over the totals it has read. */
  ghost predicate Acknowledged(o: Ota) {
    && o.heard <= |o.device.sent|
    && 0 <= o.sender.ack <= o.device.total
    && (forall k :: 0 <= k < o.heard ==> o.device.sent[k].Ack? ==> o.device.sent[k].total <= o.sender.ack)
    && (o.sender.phase != Succeeded ==> forall k :: 0 <= k < o.heard ==> o.device.sent[k].Ack?)
    && (o.sender.phase == Succeeded ==> o.sender.ack == |o.sender.file|)
  }

  ghost predicate Live(o: Ota) {
    && Sound(o)
    && o.link && !o.eof && !o.device.status.Aborted?
    && o.sender.file != [] && o.sender.file[0] == ESP_IMAGE_MAGIC
    && o.sender.phase != Failed && !o.sender.lastAckOk
    && Paced(o) && Acknowledged(o)
  }

  lemma BeginIsLive(file: seq<Byte>)
    requires file != [] && file[0] == ESP_IMAGE_MAGIC
    ensures Live(Begin(file))
  {
    assert Begin(file).device.sent[0..] == [];
  }

  /** The device's OK comes after more acknowledgements than chunks were sent. */
  lemma OkComesLate(o: Ota)
    requires Live(o) && o.device.status.Restarted?
    ensures var last := |o.device.sent| - 1;
      && last >= o.chunks && last >= 1
      && o.device.sent[last] == Ok
      && o.device.sent[last - 1] == Ack(o.device.total)
      && o.device.total == |o.sender.file|
  {
    var d, last := o.device, |o.device.sent| - 1;
    AcksCover(d.sent[..last], d.total);
    assert |d.flash| <= |o.sender.file|;
    assert d.sent[..last][last - 1] == d.sent[last - 1];
  }

  /** What a whole message does to the sender. */
  lemma LineEffect(s: Sender, m: Message)
    requires s.phase in {Awaiting, Draining} && !m.Trouble?
    ensures OnLine(s, LineOf(m)) ==
      match m
      case Ack(n) => s.(ack := Max(s.ack, n), lastAckOk := if s.phase == Awaiting then false else s.lastAckOk,
                        phase := if s.phase == Awaiting then Sending else Draining)
      case _ => if s.phase == Awaiting then s.(lastAckOk := true, phase := Sending)
                else s.(phase := if s.ack >= |s.file| then Succeeded else Failed)
  {
    OkIsSaid(m);
    assert m.Ack? || LineOf(m) == "OK";
  }

  /** The next line the sender reads is the next message, and during the transfer loop
      it is an acknowledgement, never the OK: the branch of the transfer loop that
      reports success at once is never taken. */
  lemma NextLineIsDue(o: Ota)
    requires Live(o) && Enabled(o, ReadLine)
    ensures o.heard < |o.device.sent|
    ensures Next(o, ReadLine).sender == OnLine(o.sender, LineOf(o.device.sent[o.heard]))
    ensures o.device.sent[o.heard].Ack?
         || (o.device.sent[o.heard] == Ok && o.sender.phase == Draining && o.sender.ack == |o.sender.file|)
    ensures o.device.sent[o.heard].Ack? ==> o.device.sent[o.heard].total <= o.device.total
  {
    LineIsMessage(o.device, o.heard, o.buf, o.down);
    MessageAt(o.device, o.heard);
    if o.device.sent[o.heard] == Ok {
      OkComesLate(o);
      assert o.device.sent[o.heard - 1].Ack?;
    }
  }

  lemma PacedAfterLine(o: Ota, p: Ota)
    requires Paced(o) && o.sender.phase in {Awaiting, Draining}
    requires p.sender.file == o.sender.file && p.sender.offset == o.sender.offset
    requires p.chunks == o.chunks && p.heard == o.heard + 1
    requires p.sender.phase in (if o.sender.phase == Awaiting then {Sending} else {Draining, Succeeded})
    ensures Paced(p)
  {
  }

  lemma AcknowledgedAfterLine(o: Ota, p: Ota)
    requires Acknowledged(o) && o.sender.phase != Succeeded && o.heard < |o.device.sent|
    requires p.device == o.device && p.heard == o.heard + 1 && p.sender.file == o.sender.file
    requires match o.device.sent[o.heard]
      case Ack(n) => n <= o.device.total && p.sender.ack == Max(o.sender.ack, n) && p.sender.phase != Succeeded
      case _ => p.sender.ack == o.sender.ack == |o.sender.file| && p.sender.phase == Succeeded
    ensures Acknowledged(p)
  {
  }

  lemma ReadLineKeepsLive(o: Ota)
    requires Live(o) && Enabled(o, ReadLine)
    ensures Live(Next(o, ReadLine))
  {
    var p := Next(o, ReadLine);
    ReadLineKeepsSound(o);
    NextLineIsDue(o);
    LineEffect(o.sender, o.device.sent[o.heard]);
    PacedAfterLine(o, p);
    AcknowledgedAfterLine(o, p);
  }

  /** The end of the connection is never reached before the OK is read. */
  lemma LastLineIsNeverDue(o: Ota)
    requires Live(o)
    ensures !Enabled(o, LastLine)
  {
    if Enabled(o, LastLine) {
      OkComesLate(o);
      assert o.buf + o.down == o.buf;
      assert o.heard < |o.device.sent|;
      UnreadHasLine(o.device, o.heard);
    }
  }

  /** Unread messages contain a whole line, unless the device complained. */
  lemma UnreadHasLine(d: Device, heard: nat)
    requires Honest(d) && !d.status.Aborted? && heard < |d.sent|
    ensures HasLine(Text(d.sent[heard..]))
  {
    var m := d.sent[heard];
    MessageAt(d, heard);
    assert d.sent[heard..][1..] == d.sent[heard + 1..];
    FirstLine(m, Text(d.sent[heard + 1..]));
  }

  lemma PacedAfterSend(o: Ota, p: Ota)
    requires Paced(o) && o.sender.phase == Sending && !o.sender.lastAckOk && o.sender.offset <= |o.sender.file|
    requires p.sender == Dispatch(o.sender) && p.heard == o.heard
    requires p.chunks == if NextChunk(o.sender) == [] then o.chunks else o.chunks + 1
    ensures Paced(p) && p.sender.phase in {Awaiting, Draining}
  {
  }

  lemma SendKeepsLive(o: Ota)
    requires Live(o) && Enabled(o, Send)
    ensures Live(Next(o, Send))
  {
    SendKeepsSound(o);
    PacedAfterSend(o, Next(o, Send));
  }

  /** The first bytes the device reads are the first bytes of the file. */
  lemma MagicIsRead(o: Ota, n: nat)
    requires Live(o) && 1 <= n <= |o.up| && o.device.status.Receiving?
    ensures o.device.checkedMagic || o.up[..n][0] == ESP_IMAGE_MAGIC
  {
    if !o.device.checkedMagic {
      assert o.device.flash == [];
      assert o.device.flash + o.up == o.up;
      assert o.up[..n][0] == o.sender.file[..o.sender.offset][0];
    }
  }

  lemma GoodBytesAreAcknowledged(d: Device, bytes: seq<Byte>)
    requires bytes != [] && (d.checkedMagic || bytes[0] == ESP_IMAGE_MAGIC)
    ensures var e := OnBytes(d, bytes, true);
      e.status == d.status && e.sent == d.sent + [Ack(e.total)] && e.total >= d.total && e.sent[..|d.sent|] == d.sent
  {
  }

  /** The device has said more, and nothing has gone wrong. */
  lemma MoreSaidKeepsLive(o: Ota, p: Ota)
    requires Live(o) && Sound(p) && p == o.(device := p.device, up := p.up, down := p.down)
    requires !p.device.status.Aborted? && p.device.total >= o.device.total
    requires |p.device.sent| >= |o.device.sent| && p.device.sent[..|o.device.sent|] == o.device.sent
    ensures Live(p)
  {
    AcknowledgedGrows(o, p);
  }

  lemma ReceiveKeepsLive(o: Ota, n: nat)
    requires Live(o) && Enabled(o, Receive(n, true))
    ensures Live(Next(o, Receive(n, true)))
  {
    MagicIsRead(o, n);
    GoodBytesAreAcknowledged(o.device, o.up[..n]);
    ReceiveKeepsSound(o, n, true);
    MoreSaidKeepsLive(o, Next(o, Receive(n, true)));
  }

  /** More messages do not change what the sender has read. */
  lemma AcknowledgedGrows(o: Ota, p: Ota)
    requires Acknowledged(o) && p.sender == o.sender && p.heard == o.heard
    requires |p.device.sent| >= |o.device.sent| && p.device.sent[..|o.device.sent|] == o.device.sent
    requires p.device.total >= o.device.total
    ensures Acknowledged(p)
  {
    assert forall k :: 0 <= k < o.heard ==> p.device.sent[k] == o.device.sent[k];
  }

  lemma CompleteKeepsLive(o: Ota)
    requires Live(o) && Enabled(o, Complete(true, true))
    ensures Live(Next(o, Complete(true, true)))
  {
    CompleteKeepsSound(o, true, true);
    AcknowledgedGrows(o, Next(o, Complete(true, true)));
  }

  lemma StepKeepsLive(o: Ota, st: Step)
    requires Live(o) && Healthy(st) && Enabled(o, st)
    ensures Live(Next(o, st))
  {
    match st {
      case Send => SendKeepsLive(o);
      case ReadLine => ReadLineKeepsLive(o);
      case Piece(n) => PieceKeepsSound(o, n);
      case LastLine => LastLineIsNeverDue(o);
      case Receive(n, _) => ReceiveKeepsLive(o, n);
      case Complete(_, _) => CompleteKeepsLive(o);
    }
  }

  lemma {:induction false} HealthyRunIsLive(o: Ota, steps: seq<Step>)
    requires Live(o) && AllHealthy(steps) && Possible(o, steps)
    ensures Live(After(o, steps))
    decreases |steps|
  {
    if steps != [] {
      StepKeepsLive(o, steps[0]);
      HealthyRunIsLive(Next(o, steps[0]), steps[1..]);
    }
  }

  /** Sender and device never wait for each other: while the sender has not reported
      success, one of them can move. If the sender waits for the reply to a chunk and
      nothing is in flight or buffered, the device has read all chunks and has already
      sent one acknowledgement for each. */
  lemma NobodyIsStuck(o: Ota) returns (st: Step)
    requires Live(o) && o.sender.phase != Succeeded
    ensures Healthy(st) && Enabled(o, st)
  {
    var d := o.device;
    if o.sender.phase == Sending {
      return Send;
    }
    if HasLine(o.buf) {
      return ReadLine;
    }
    if o.down != "" {
      return Piece(1);
    }
    if d.status.Receiving? && d.total >= d.expected {
      return Complete(true, true);
    }
    assert o.buf + o.down == o.buf;
    if o.heard < |d.sent| {
      UnreadHasLine(d, o.heard);
    }
    assert o.heard == |d.sent|;
    if d.status.Restarted? {
      OkComesLate(o);
    }
    if o.up != [] {
      return Receive(1, true);
    }
    assert d.flash + o.up == d.flash;
    assert |d.flash| == o.sender.offset;
    AcksCover(d.sent, d.total);
    assert false;
  }

  /** How far the end is away, as a lexicographic measure. */
  function Distance(o: Ota): (nat, nat, nat, nat, nat, nat)
    requires |o.device.flash| <= |o.sender.file| && o.sender.offset <= |o.sender.file|
  {
    (|o.sender.file| - |o.device.flash|, if o.device.status.Receiving? then 1 else 0,
     |o.down|, |o.buf|, |o.sender.file| - o.sender.offset, if o.sender.phase == Sending then 1 else 0)
  }

  predicate Nearer(a: (nat, nat, nat, nat, nat, nat), b: (nat, nat, nat, nat, nat, nat)) {
    || a.0 < b.0
    || (a.0 == b.0 && (|| a.1 < b.1
    || (a.1 == b.1 && (|| a.2 < b.2
    || (a.2 == b.2 && (|| a.3 < b.3
    || (a.3 == b.3 && (|| a.4 < b.4
    || (a.4 == b.4 && a.5 < b.5)))))))))
  }

  /** Every step of a transfer without faults brings the end nearer, whichever step is
      taken: such a transfer cannot go on for ever. */
  lemma EveryStepIsNearer(o: Ota, st: Step)
    requires Live(o) && Healthy(st) && Enabled(o, st)
    ensures Live(Next(o, st))
    ensures Nearer(Distance(Next(o, st)), Distance(o))
  {
    StepKeepsLive(o, st);
    LastLineIsNeverDue(o);
    ChunkExtends(o.sender.file, o.sender.offset);
  }

  /** A transfer without faults stops nowhere else than in success. With EveryStepIsNearer:
      whichever steps are taken, it gets there. */
  lemma StopsOnlyInSuccess(file: seq<Byte>, steps: seq<Step>)
    requires file != [] && file[0] == ESP_IMAGE_MAGIC && AllHealthy(steps) && Possible(Begin(file), steps)
    requires forall st :: Healthy(st) ==> !Enabled(After(Begin(file), steps), st)
    ensures After(Begin(file), steps).sender.phase == Succeeded
  {
    BeginIsLive(file);
    HealthyRunIsLive(Begin(file), steps);
    if After(Begin(file), steps).sender.phase != Succeeded {
      var st := NobodyIsStuck(After(Begin(file), steps));
    }
  }

  /** From wherever a transfer without faults has got to, there is a way on to success. */
  lemma {:induction false} EndsInSuccess(o: Ota) returns (rest: seq<Step>)
    requires Live(o)
    ensures AllHealthy(rest) && Possible(o, rest)
    ensures After(o, rest).sender.phase == Succeeded
    decreases |o.sender.file| - |o.device.flash|, if o.device.status.Receiving? then 1 else 0,
      |o.down|, |o.buf|, |o.sender.file| - o.sender.offset, if o.sender.phase == Sending then 1 else 0
  {
    if o.sender.phase == Succeeded {
      return [];
    }
    var st := NobodyIsStuck(o);
    EveryStepIsNearer(o, st);
    var more := EndsInSuccess(Next(o, st));
    rest := [st] + more;
    StepThenRun(o, st, more);
  }

  lemma StepThenRun(o: Ota, st: Step, more: seq<Step>)
    requires Healthy(st) && Enabled(o, st) && AllHealthy(more) && Possible(Next(o, st), more)
    ensures AllHealthy([st] + more) && Possible(o, [st] + more)
    ensures After(o, [st] + more) == After(Next(o, st), more)
  {
    assert ([st] + more)[1..] == more;
  }

  /** A transfer of a valid image without faults: as long as it runs somebody can move,
      and when the sender reports success the device is installed with the file and the
      largest acknowledgement seen is the size of the file. */
  lemma HealthyTransferSucceeds(file: seq<Byte>, steps: seq<Step>)
    requires file != [] && file[0] == ESP_IMAGE_MAGIC
    requires AllHealthy(steps) && Possible(Begin(file), steps)
    ensures var o := After(Begin(file), steps);
      if o.sender.phase == Succeeded
      then o.sender.ack == |file| && o.device.switched && o.device.flash == file
      else o.sender.phase != Failed && exists st :: Healthy(st) && Enabled(o, st)
  {
    BeginIsLive(file);
    HealthyRunIsLive(Begin(file), steps);
    FileStays(Begin(file), steps);
    var o := After(Begin(file), steps);
    if o.sender.phase == Succeeded {
      SuccessMeansInstalled(file, steps);
    } else {
      var st := NobodyIsStuck(o);
    }
  }
}
