/** The receiving side of an over-the-air update (src/system/esp_ota_manager.cpp):
    it got whatever the connection has, up to its buffer, writes it to flash,
    acknowledges the running total, and finally switches the boot partition. */
module OtaDevices {
  import opened Words
  import opened OtaText

  const OTA_BUFFER_SIZE := 1024
  const ESP_IMAGE_MAGIC: Byte := 0xE9

  const TIMEOUT_TEXT := "ERROR[3]: timeout"
  const IMAGE_TEXT := "ERROR[4]: bad image"
  const WRITE_TEXT := "ERROR[5]: write"
  const END_TEXT := "ERROR[6]: end"
  const BOOT_TEXT := "ERROR[7]: boot"

  datatype Status = Receiving | Restarted | Aborted

  datatype Device = Device(
    expected: nat,
    total: nat,
    checkedMagic: bool,
    flash: seq<Byte>,       // the concatenation of the flash writes
    switched: bool,         // the boot partition was set to the new image
    status: Status,
    sent: seq<Message>)

  function Fresh(expected: nat): Device {
    Device(expected, 0, false, [], false, Receiving, [])
  }

  function Abort(d: Device, text: string): Device {
    d.(status := Aborted, sent := d.sent + [Trouble(text)])
  }

  /** One receive call that returned bytes, and whether the flash write worked. */
  function OnBytes(d: Device, bytes: seq<Byte>, writeOk: bool): Device
    requires bytes != []
  {
    if !d.checkedMagic && bytes[0] != ESP_IMAGE_MAGIC then Abort(d.(checkedMagic := true), IMAGE_TEXT)
    else if !writeOk then Abort(d.(checkedMagic := true), WRITE_TEXT)
    else
      var total := d.total + |bytes|;
      d.(checkedMagic := true, flash := d.flash + bytes, total := total, sent := d.sent + [Ack(total)])
  }

  /** All expected bytes are there. */
  function Finish(d: Device, endOk: bool, bootOk: bool): Device {
    if !endOk then Abort(d, END_TEXT)
    else if !bootOk then Abort(d, BOOT_TEXT)
    else d.(switched := true, status := Restarted, sent := d.sent + [Ok])
  }

  /** What a receive call can come back with: bytes, nothing yet, or a connection that
      is closed, broken, or silent for too long. */
  datatype Read = Got(bytes: seq<Byte>, writeOk: bool) | Nothing | Broken

  predicate PossibleRead(r: Read) {
    r.Got? ==> 1 <= |r.bytes| <= OTA_BUFFER_SIZE
  }

  /** The whole transfer, given what the receive calls return. If they run out before
      the image is complete the device is still waiting. */
  function Transfer(d: Device, got: seq<Read>, endOk: bool, bootOk: bool): Device
    requires forall k :: 0 <= k < |got| ==> PossibleRead(got[k])
    decreases |got|
  {
    if !d.status.Receiving? then d
    else if d.total >= d.expected then Finish(d, endOk, bootOk)
    else if got == [] then d
    else
      assert PossibleRead(got[0]);
      match got[0]
      case Nothing => Transfer(d, got[1..], endOk, bootOk)
      case Broken => Abort(d, TIMEOUT_TEXT)
      case Got(bytes, writeOk) => Transfer(OnBytes(d, bytes, writeOk), got[1..], endOk, bootOk)
  }

  /** performTransfer, from the opened connection on. */
  method PerformTransfer(expected: nat, got: seq<Read>, endOk: bool, bootOk: bool)
    returns (flash: seq<Byte>, sent: seq<Message>, switched: bool, status: Status)
    requires forall k :: 0 <= k < |got| ==> PossibleRead(got[k])
    ensures var d := Transfer(Fresh(expected), got, endOk, bootOk);
      flash == d.flash && sent == d.sent && switched == d.switched && status == d.status
  {
    var totalReceived: nat, checkedMagic := 0, false;
    flash, sent, switched, status := [], [], false, Receiving;
    var next := 0;
    while totalReceived < expected
      invariant 0 <= next <= |got| && status == Receiving && !switched
      invariant Transfer(Fresh(expected), got, endOk, bootOk)
             == Transfer(Device(expected, totalReceived, checkedMagic, flash, false, Receiving, sent), got[next..],
               endOk, bootOk)
      decreases |got| - next
    {
      if next == |got| {
        return;
      }
      var r := got[next];
      assert PossibleRead(r);
      assert got[next..][1..] == got[next + 1..];
      next := next + 1;
      match r {
        case Nothing =>
        case Broken =>
          sent, status := sent + [Trouble(TIMEOUT_TEXT)], Aborted;
          return;
        case Got(bytes, writeOk) =>
          if !checkedMagic {
            checkedMagic := true;
            if bytes[0] != ESP_IMAGE_MAGIC {
              sent, status := sent + [Trouble(IMAGE_TEXT)], Aborted;
              return;
            }
          }
          if !writeOk {
            sent, status := sent + [Trouble(WRITE_TEXT)], Aborted;
            return;
          }
          flash := flash + bytes;
          totalReceived := totalReceived + |bytes|;
          sent := sent + [Ack(totalReceived)];
      }
    }
    if !endOk {
      sent, status := sent + [Trouble(END_TEXT)], Aborted;
      return;
    }
    if !bootOk {
      sent, status := sent + [Trouble(BOOT_TEXT)], Aborted;
      return;
    }
    switched := true;
    sent, status := sent + [Ok], Restarted;
  }

  // ------------------------------------------------------------- acknowledgements

  predicate IsComplaint(m: Message) {
    m.Trouble? && m.text in {TIMEOUT_TEXT, IMAGE_TEXT, WRITE_TEXT, END_TEXT, BOOT_TEXT}
  }

  function AckCount(ms: seq<Message>): nat {
    if ms == [] then 0 else (if ms[0].Ack? then 1 else 0) + AckCount(ms[1..])
  }

  /** The messages are acknowledgements of growing totals up to `total`, one for at
      most every 1024 bytes. */
  ghost predicate Acks(ms: seq<Message>, total: nat)
    decreases |ms|
  {
    if ms == [] then total == 0
    else
      var n := |ms| - 1;
      && ms[n] == Ack(total)
      && exists before: nat :: before < total <= before + OTA_BUFFER_SIZE && Acks(ms[..n], before)
  }

  /** What the device has sent matches what it did. */
  ghost predicate Honest(d: Device) {
    && d.total == |d.flash|
    && (d.flash != [] ==> d.checkedMagic && d.flash[0] == ESP_IMAGE_MAGIC)
    && (d.checkedMagic && d.status.Receiving? ==> d.flash != [])
    && (d.switched <==> d.status.Restarted?)
    && match d.status
       case Receiving => Acks(d.sent, d.total)
       case Restarted =>
         && d.sent != [] && Acks(d.sent[..|d.sent| - 1], d.total) && d.sent[|d.sent| - 1] == Ok
         && d.total >= d.expected
       case Aborted =>
         && d.sent != [] && Acks(d.sent[..|d.sent| - 1], d.total) && IsComplaint(d.sent[|d.sent| - 1])
  }

  lemma BytesKeepHonest(d: Device, bytes: seq<Byte>, writeOk: bool)
    requires Honest(d) && d.status.Receiving? && 1 <= |bytes| <= OTA_BUFFER_SIZE
    ensures Honest(OnBytes(d, bytes, writeOk))
  {
    var e := OnBytes(d, bytes, writeOk);
    assert e.sent[..|d.sent|] == d.sent;
    if e.status.Receiving? {
      assert e.flash[0] == if d.flash == [] then bytes[0] else d.flash[0];
      assert d.total < e.total <= d.total + OTA_BUFFER_SIZE;
    }
  }

  lemma EndKeepsHonest(d: Device, text: string, endOk: bool, bootOk: bool)
    requires Honest(d) && d.status.Receiving?
    requires text in {TIMEOUT_TEXT, IMAGE_TEXT, WRITE_TEXT, END_TEXT, BOOT_TEXT}
    ensures Honest(Abort(d, text))
    ensures d.total >= d.expected ==> Honest(Finish(d, endOk, bootOk))
  {
    assert Abort(d, text).sent[..|d.sent|] == d.sent;
    assert Finish(d, endOk, bootOk).sent[..|d.sent|] == d.sent;
  }

  /** Enough acknowledgements: their number times the buffer size covers every byte
      received. */
  lemma {:induction false} AcksCover(ms: seq<Message>, total: nat)
    requires Acks(ms, total)
    ensures |ms| * OTA_BUFFER_SIZE >= total
    ensures ms == [] <==> total == 0
    ensures forall k :: 0 <= k < |ms| ==> ms[k].Ack? && ms[k].total <= total
    decreases |ms|
  {
    if ms != [] {
      var n := |ms| - 1;
      var before: nat :| before < total <= before + OTA_BUFFER_SIZE && Acks(ms[..n], before);
      AcksCover(ms[..n], before);
      assert forall k :: 0 <= k < n ==> ms[k] == ms[..n][k];
    }
  }

  /** Whatever the connection delivers and however it is cut up, once the first k
      chunks of 1024 bytes are written the device has sent at least k
      acknowledgements. */
  lemma AtLeastOneAckPerChunk(expected: nat, got: seq<Read>, endOk: bool, bootOk: bool, k: nat)
    requires forall j :: 0 <= j < |got| ==> PossibleRead(got[j])
    requires |Transfer(Fresh(expected), got, endOk, bootOk).flash| >= k * OTA_BUFFER_SIZE
    ensures AckCount(Transfer(Fresh(expected), got, endOk, bootOk).sent) >= k
  {
    var d := Transfer(Fresh(expected), got, endOk, bootOk);
    TransferIsHonest(Fresh(expected), got, endOk, bootOk);
    var acks := if d.status.Receiving? then d.sent else d.sent[..|d.sent| - 1];
    AcksCover(acks, d.total);
    assert d.sent == acks + (if d.status.Receiving? then [] else [d.sent[|d.sent| - 1]]);
    AllAcksCount(acks, if d.status.Receiving? then [] else [d.sent[|d.sent| - 1]]);
  }

  lemma {:induction false} AllAcksCount(acks: seq<Message>, rest: seq<Message>)
    requires forall k :: 0 <= k < |acks| ==> acks[k].Ack?
    ensures AckCount(acks + rest) >= |acks|
    decreases |acks|
  {
    if acks != [] {
      assert (acks + rest)[1..] == acks[1..] + rest;
      AllAcksCount(acks[1..], rest);
    }
  }

  lemma {:induction false} TransferIsHonest(d: Device, got: seq<Read>, endOk: bool, bootOk: bool)
    requires Honest(d) && forall j :: 0 <= j < |got| ==> PossibleRead(got[j])
    ensures Honest(Transfer(d, got, endOk, bootOk))
    decreases |got|
  {
    if d.status.Receiving? {
      EndKeepsHonest(d, TIMEOUT_TEXT, endOk, bootOk);
      if d.total < d.expected && got != [] {
        match got[0] {
          case Nothing => TransferIsHonest(d, got[1..], endOk, bootOk);
          case Broken =>
          case Got(bytes, writeOk) =>
            BytesKeepHonest(d, bytes, writeOk);
            TransferIsHonest(OnBytes(d, bytes, writeOk), got[1..], endOk, bootOk);
        }
      }
    }
  }

  // ----------------------------------------------------- what decides the outcome

  /** The bytes that the calls returned, one behind the other. */
  function BytesOf(got: seq<Read>): seq<Byte> {
    if got == [] then []
    else BytesOf(got[..|got| - 1]) + if got[|got| - 1].Got? then got[|got| - 1].bytes else []
  }

  /** Nothing has gone wrong in these calls: no end of the connection, every flash write
      worked, and the first byte is the magic one. */
  predicate GoodSoFar(got: seq<Read>) {
    && (forall k :: 0 <= k < |got| ==> !got[k].Broken? && (got[k].Got? ==> got[k].writeOk))
    && (BytesOf(got) != [] ==> BytesOf(got)[0] == 0xE9)
  }

  predicate AllPossible(got: seq<Read>) {
    forall k :: 0 <= k < |got| ==> PossibleRead(got[k])
  }

  /** The device behind such calls. */
  ghost predicate Received(d: Device, expected: nat, got: seq<Read>) {
    && d.expected == expected && d.status.Receiving? && !d.switched
    && d.flash == BytesOf(got) && d.total == |d.flash|
    && (d.checkedMagic <==> BytesOf(got) != [])
  }

  lemma BytesOfMore(got: seq<Read>, r: Read)
    ensures BytesOf(got + [r]) == BytesOf(got) + if r.Got? then r.bytes else []
  {
    assert (got + [r])[..|got|] == got;
  }

  lemma GoodBefore(got: seq<Read>, r: Read)
    requires GoodSoFar(got + [r]) && PossibleRead(r)
    ensures GoodSoFar(got) && !r.Broken? && (r.Got? ==> r.writeOk)
    ensures r.Got? && BytesOf(got) == [] ==> r.bytes[0] == 0xE9
  {
    BytesOfMore(got, r);
    assert (got + [r])[|got|] == r;
    assert forall k :: 0 <= k < |got| ==> (got + [r])[k] == got[k];
    if BytesOf(got) != [] {
      assert BytesOf(got + [r])[0] == BytesOf(got)[0];
    }
  }

  /** One good call. */
  lemma OneMoreRead(d: Device, expected: nat, before: seq<Read>, r: Read)
    requires Received(d, expected, before) && GoodSoFar(before + [r]) && PossibleRead(r) && r.Got?
    ensures Received(OnBytes(d, r.bytes, r.writeOk), expected, before + [r])
  {
    GoodBefore(before, r);
    BytesOfMore(before, r);
  }

  lemma PrefixOfReads(got: seq<Read>, n: nat)
    requires 0 < n <= |got|
    ensures got[..n] == got[..n - 1] + [got[n - 1]] && got[n - 1..][0] == got[n - 1] && got[n - 1..][1..] == got[n..]
  {
  }

  /** The transfer gets past the good calls as long as bytes are missing. */
  lemma {:induction false} GetsThrough(expected: nat, got: seq<Read>, endOk: bool, bootOk: bool, n: nat)
    returns (d: Device)
    requires AllPossible(got) && n <= |got| && GoodSoFar(got[..n])
    requires n > 0 ==> |BytesOf(got[..n - 1])| < expected
    ensures Received(d, expected, got[..n])
    ensures Transfer(Fresh(expected), got, endOk, bootOk) == Transfer(d, got[n..], endOk, bootOk)
  {
    if n == 0 {
      d := Fresh(expected);
    } else {
      var r := got[n - 1];
      PrefixOfReads(got, n);
      GoodBefore(got[..n - 1], r);
      if n > 1 {
        PrefixOfReads(got, n - 1);
        BytesOfMore(got[..n - 2], got[n - 2]);
      }
      var before := GetsThrough(expected, got, endOk, bootOk, n - 1);
      if r.Got? {
        OneMoreRead(before, expected, got[..n - 1], r);
        d := OnBytes(before, r.bytes, r.writeOk);
      } else {
        BytesOfMore(got[..n - 1], r);
        d := before;
      }
    }
  }

  predicate Last(d: Device, m: Message) {
    d.sent != [] && d.sent[|d.sent| - 1] == m
  }

  /** The n calls have brought the whole image and the last of them was needed. */
  predicate CompleteAfter(expected: nat, got: seq<Read>, n: nat) {
    && n <= |got| && GoodSoFar(got[..n]) && |BytesOf(got[..n])| >= expected
    && (n > 0 ==> |BytesOf(got[..n - 1])| < expected)
  }

  /** Once the image is there the two final calls decide: a failed check or a failed boot
      switch is reported, and nothing is switched; otherwise the device switches, restarts
      and says OK. */
  lemma FinalCallsDecide(expected: nat, got: seq<Read>, endOk: bool, bootOk: bool, n: nat)
    requires AllPossible(got) && CompleteAfter(expected, got, n)
    ensures var d := Transfer(Fresh(expected), got, endOk, bootOk);
      && d.flash == BytesOf(got[..n])
      && (d.switched <==> endOk && bootOk)
      && (!endOk ==> d.status.Aborted? && Last(d, Trouble("ERROR[6]: end")))
      && (endOk && !bootOk ==> d.status.Aborted? && Last(d, Trouble("ERROR[7]: boot")))
      && (endOk && bootOk ==> d.status.Restarted? && Last(d, Ok))
  {
    var d := GetsThrough(expected, got, endOk, bootOk, n);
  }

  /** A call that goes wrong before the image is there: which message is the last. */
  lemma FailedCallDecides(expected: nat, got: seq<Read>, endOk: bool, bootOk: bool, n: nat)
    requires AllPossible(got) && n < |got| && GoodSoFar(got[..n]) && |BytesOf(got[..n])| < expected
    requires !GoodSoFar(got[..n + 1])
    ensures var d := Transfer(Fresh(expected), got, endOk, bootOk);
      && d.flash == BytesOf(got[..n]) && !d.switched && d.status.Aborted?
      && (got[n].Broken? ==> Last(d, Trouble("ERROR[3]: timeout")))
      && (got[n].Got? ==>
           Last(d, Trouble(if BytesOf(got[..n]) == [] && got[n].bytes[0] != 0xE9 then "ERROR[4]: bad image"
                           else "ERROR[5]: write")))
  {
    if n > 0 {
      PrefixOfReads(got, n);
      BytesOfMore(got[..n - 1], got[n - 1]);
    }
    var d := GetsThrough(expected, got, endOk, bootOk, n);
    assert got[n..][0] == got[n];
    PrefixOfReads(got, n + 1);
    BadCall(got[..n], got[n]);
  }

  lemma BadCall(before: seq<Read>, r: Read)
    requires GoodSoFar(before) && !GoodSoFar(before + [r]) && PossibleRead(r)
    ensures r.Broken? || (r.Got? && (!r.writeOk || (BytesOf(before) == [] && r.bytes[0] != 0xE9)))
  {
    BytesOfMore(before, r);
    if BytesOf(before) != [] {
      assert BytesOf(before + [r])[0] == BytesOf(before)[0];
    }
  }

  /** And while nothing goes wrong and bytes are missing, the device waits. */
  lemma ItWaits(expected: nat, got: seq<Read>, endOk: bool, bootOk: bool)
    requires AllPossible(got) && GoodSoFar(got) && |BytesOf(got)| < expected
    ensures var d := Transfer(Fresh(expected), got, endOk, bootOk);
      d.status.Receiving? && !d.switched && d.flash == BytesOf(got)
  {
    var n := |got|;
    assert got[..n] == got;
    if n > 0 {
      PrefixOfReads(got, n);
      BytesOfMore(got[..n - 1], got[n - 1]);
    }
    var d := GetsThrough(expected, got, endOk, bootOk, n);
  }

  /** One of the three it always is: n is the first call that goes wrong, or the last one
      needed, or there is neither. */
  lemma {:induction false} ComesToSomething(expected: nat, got: seq<Read>, k: nat) returns (n: nat)
    requires k <= |got| && GoodSoFar(got[..k]) && (k > 0 ==> |BytesOf(got[..k - 1])| < expected)
    ensures || CompleteAfter(expected, got, n)
            || (n < |got| && GoodSoFar(got[..n]) && |BytesOf(got[..n])| < expected && !GoodSoFar(got[..n + 1]))
            || (GoodSoFar(got) && |BytesOf(got)| < expected)
    decreases |got| - k
  {
    n := k;
    if |BytesOf(got[..k])| < expected {
      if k == |got| {
        assert got[..k] == got;
      } else if GoodSoFar(got[..k + 1]) {
        n := ComesToSomething(expected, got, k + 1);
      }
    }
  }

  /** The whole image has come in: bytes of the expected length, every write of them good,
      the first one the magic byte. */
  ghost predicate ImageArrived(expected: nat, got: seq<Read>) {
    exists n: nat :: CompleteAfter(expected, got, n)
  }

  lemma {:induction false} GoodUpTo(got: seq<Read>, m: nat, n: nat)
    requires m <= n <= |got| && AllPossible(got) && GoodSoFar(got[..n])
    ensures GoodSoFar(got[..m]) && |BytesOf(got[..m])| <= |BytesOf(got[..n])|
    decreases n
  {
    if m < n {
      PrefixOfReads(got, n);
      GoodBefore(got[..n - 1], got[n - 1]);
      BytesOfMore(got[..n - 1], got[n - 1]);
      GoodUpTo(got, m, n - 1);
    }
  }

  lemma NotBoth(expected: nat, got: seq<Read>, m: nat, n: nat)
    requires AllPossible(got) && CompleteAfter(expected, got, m)
    ensures !(n < |got| && GoodSoFar(got[..n]) && |BytesOf(got[..n])| < expected && !GoodSoFar(got[..n + 1]))
    ensures !(GoodSoFar(got) && |BytesOf(got)| < expected)
  {
    if n < |got| && GoodSoFar(got[..n]) && |BytesOf(got[..n])| < expected {
      if m <= n {
        GoodUpTo(got, m, n);
      } else {
        GoodUpTo(got, n + 1, m);
      }
    }
    assert got[..|got|] == got;
    if GoodSoFar(got) {
      GoodUpTo(got, m, |got|);
    }
  }

  /** The device boots the new image exactly if the whole image has come in and both final
      calls have worked. */
  lemma SwitchesExactlyIf(expected: nat, got: seq<Read>, endOk: bool, bootOk: bool)
    requires AllPossible(got)
    ensures Transfer(Fresh(expected), got, endOk, bootOk).switched <==>
      ImageArrived(expected, got) && endOk && bootOk
  {
    assert got[..0] == [];
    var n := ComesToSomething(expected, got, 0);
    if CompleteAfter(expected, got, n) {
      FinalCallsDecide(expected, got, endOk, bootOk, n);
    } else {
      if ImageArrived(expected, got) {
        var m: nat :| CompleteAfter(expected, got, m);
        NotBoth(expected, got, m, n);
      }
      if GoodSoFar(got) && |BytesOf(got)| < expected {
        ItWaits(expected, got, endOk, bootOk);
      } else {
        FailedCallDecides(expected, got, endOk, bootOk, n);
      }
    }
  }
}
