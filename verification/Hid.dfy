// CTAPHID framing over 64-byte reports (src/shared/fido/hid.c; section 11.2.4 of CTAP 2.1).
module Hid {
  import opened Bytes
  import opened Limits

  const MESSAGE_SIZE: nat := 4096
  const REPORT: nat := 64
  const FIRST: nat := 57
  const NEXT: nat := 59

  const PING: byte := 0x81
  const INIT: byte := 0x86
  const CBOR: byte := 0x90
  const CANCEL: byte := 0x91
  const ERROR: byte := 0xbf

  const BROADCAST: uint32 := UINT32_MAX

  // Error codes of a reply.
  const BAD_COMMAND: byte := 1
  const BAD_LENGTH: byte := 3
  const BAD_SEQUENCE: byte := 4
  const TIMED_OUT: byte := 5
  const BUSY: byte := 6
  const BAD_CHANNEL: byte := 0x0b

  /** A big-endian word. */
  function Get32(p: seq<byte>): (n: uint32)
    requires |p| >= 4
  {
    256 * (256 * (256 * (p[0] as int) + p[1] as int) + p[2] as int) + p[3] as int
  }

  function Put32(n: uint32): (p: seq<byte>)
    ensures |p| == 4 && Get32(p) == n
  {
    var a := n / 256;
    var b := a / 256;
    [b / 256, b % 256, a % 256, n % 256]
  }

  // ---- Frames --------------------------------------------------------------

  function Pad(p: seq<byte>): (r: seq<byte>)
    requires |p| <= REPORT
    ensures |r| == REPORT
  {
    p + Zeros(REPORT - |p|)
  }

  /** The frame that starts a message. */
  function InitialFrame(cid: uint32, command: byte, message: seq<byte>): (r: seq<byte>)
    requires |message| <= MESSAGE_SIZE
    ensures |r| == REPORT
  {
    Pad(Put32(cid) + [command, |message| / 256, |message| % 256] + message[..Least(FIRST, |message|)])
  }

  /** The frame that carries the message on from byte used. */
  function ContinuationFrame(cid: uint32, sequence: byte, message: seq<byte>, used: nat): (r: seq<byte>)
    requires used <= |message|
    ensures |r| == REPORT
  {
    Pad(Put32(cid) + [sequence] + message[used..used + Least(NEXT, |message| - used)])
  }

  /** How far a message has got after k frames. */
  function Used(k: nat): nat {
    if k == 0 then 0 else FIRST + NEXT * (k - 1)
  }

  class Transport {
    var channels: seq<uint32>
    var nextChannel: uint32
    var activeChannel: uint32
    var rxTime: uint32
    var txChannel: uint32
    var rxSize: nat
    var rxUsed: nat
    var txSize: nat
    var txUsed: nat
    var rxCommand: byte
    var rxSequence: byte
    var txCommand: byte
    var txSequence: byte
    var receiving: bool
    var transmitting: bool
    var processing: bool
    var cancelled: bool
    var resyncRequested: bool
    var controlPending: bool
    var pending: bool
    var resyncNonce: seq<byte>
    var controlReport: seq<byte>
    const rx: array<byte>
    const tx: array<byte>
    /** How many channels have ever been handed out. */
    ghost var issued: nat

    /** The buffers are never overrun, and a channel in use is a channel that is known. */
    ghost predicate Framed()
      reads this, rx, tx
    {
      && rx != tx && rx.Length == tx.Length == MESSAGE_SIZE
      && |channels| == 4 && |resyncNonce| == 8 && |controlReport| == REPORT
      && rxUsed <= rxSize <= MESSAGE_SIZE && txUsed <= txSize <= MESSAGE_SIZE
      && nextChannel == (issued + 1) % WRAP
      && (issued < BROADCAST ==> forall i: nat :: i < 4 ==> channels[i] == Holder(issued, i))
      && (receiving ==> !processing && rxCommand in {PING, CBOR} && (rxCommand == CBOR ==> rxSize > 0))
      && (processing ==> !transmitting && rxUsed == rxSize > 0 && rxCommand == CBOR)
      && (receiving || processing ==> Known(activeChannel))
      && (transmitting && txSize > 0 ==> txUsed < txSize)
      && (pending ==> processing)
    }

    /** And neither buffer keeps anything of a message that is over. */
    ghost predicate Shape()
      reads this, rx, tx
    {
      Framed() && (!receiving && !processing ==> Blank(rx)) && (!transmitting ==> Blank(tx))
    }

    /** Nothing is left of a message. */
    predicate Blank(a: array<byte>)
      reads a
    {
      forall i :: 0 <= i < a.Length ==> a[i] == 0
    }

    /** Between reports a message being received still lacks something. */
    ghost predicate Valid()
      reads this, rx, tx
    {
      Shape() && (receiving ==> rxUsed < rxSize)
    }

    /** Whether a channel has been handed out and not yet reclaimed. */
    predicate Known(cid: uint32)
      reads this
    {
      cid != 0 && cid != BROADCAST && cid in channels
    }

    constructor ()
      ensures Valid() && issued == 0 && !receiving && !transmitting && !processing && !pending && !controlPending
      ensures fresh(rx) && fresh(tx)
    {
      channels, nextChannel, activeChannel, rxTime, txChannel := [0, 0, 0, 0], 1, 0, 0, 0;
      rxSize, rxUsed, txSize, txUsed := 0, 0, 0, 0;
      rxCommand, rxSequence, txCommand, txSequence := 0, 0, 0, 0;
      receiving, transmitting, processing, cancelled, resyncRequested := false, false, false, false, false;
      controlPending, pending := false, false;
      resyncNonce, controlReport := Zeros(8), Zeros(REPORT);
      rx := new byte[MESSAGE_SIZE](_ => 0);
      tx := new byte[MESSAGE_SIZE](_ => 0);
      issued := 0;
    }

    /** A message is waiting to be sent on a channel. */
    ghost predicate Sending(cid: uint32, command: byte, message: seq<byte>)
      reads this, tx
    {
      && transmitting && txChannel == cid && txCommand == command && txUsed == 0 && txSequence == 0
      && txSize <= tx.Length && tx[..txSize] == message
    }

    /** A whole message has arrived: a ping is answered, a command handed to the worker. */
    ghost predicate Delivered(cid: uint32, command: byte, message: seq<byte>)
      reads this, rx, tx
    {
      if command == PING then Sending(cid, PING, message) && !processing
      else processing && pending && !cancelled && !resyncRequested && activeChannel == cid
           && rxSize <= rx.Length && rx[..rxSize] == message
    }

    /** The answer to a request for a channel: the nonce it came with, the channel, the protocol
        version, the device version and what the device can do. */
    ghost predicate Grants(cid: uint32, nonce: seq<byte>, given: uint32)
      reads this, tx
    {
      && transmitting && txChannel == cid && txCommand == INIT && txUsed == 0 && txSequence == 0
      && txSize == 17 <= tx.Length && tx[0..8] == nonce
      && 0x1000000 * (tx[8] as int) + 0x10000 * (tx[9] as int) + 0x100 * (tx[10] as int) + tx[11] as int == given
      && tx[12] == 2 && tx[13] == 0 && tx[14] == 1 && tx[15] == 0 && tx[16] == 0x0c
    }

    method Reply(cid: uint32, command: byte, size: nat)
      modifies this`txChannel, this`txCommand, this`txSize, this`txUsed, this`txSequence, this`transmitting
      ensures txChannel == cid && txCommand == command && txSize == size && txUsed == 0 && txSequence == 0 && transmitting
    {
      txChannel, txCommand, txSize, txUsed, txSequence, transmitting := cid, command, size, 0, 0, true;
    }

    method Error(cid: uint32, code: byte)
      requires Valid() && !processing
      modifies this`txChannel, this`txCommand, this`txSize, this`txUsed, this`txSequence, this`transmitting, tx
      ensures Valid() && Sending(cid, ERROR, [code])
    {
      tx[0] := code;
      Reply(cid, ERROR, 1);
      assert tx[..1] == [code];
    }

    method ClearRx()
      requires rx.Length == MESSAGE_SIZE
      modifies rx
      ensures forall i :: 0 <= i < MESSAGE_SIZE ==> rx[i] == 0
    {
      for i := 0 to MESSAGE_SIZE
        invariant forall k :: 0 <= k < i ==> rx[k] == 0
      {
        rx[i] := 0;
      }
    }

    method CopyInto(a: array<byte>, at: nat, b: seq<byte>)
      requires at + |b| <= a.Length
      modifies a
      ensures a[..at] == old(a[..at]) && a[at..at + |b|] == b
      ensures forall i :: at + |b| <= i < a.Length ==> a[i] == old(a[i])
    {
      for i := 0 to |b|
        invariant forall k :: 0 <= k < a.Length ==> a[k] == if at <= k < at + i then b[k - at] else old(a[k])
      {
        a[at + i] := b[i];
      }
    }

    /** A ping is sent back as it came. */
    method Echo()
      requires Shape() && receiving && !transmitting && rxUsed == rxSize && rxCommand == PING
      modifies this`receiving, this`txChannel, this`txCommand, this`txSize, this`txUsed, this`txSequence, this`transmitting, rx, tx
      ensures Valid() && !receiving && Sending(activeChannel, PING, old(rx[..rxSize]))
    {
      receiving := false;
      CopyInto(tx, 0, rx[..rxSize]);
      Reply(activeChannel, PING, rxSize);
      ClearRx();
      assert tx[..txSize] == tx[0..txSize];
    }

    /** The last byte has arrived. */
    method Complete()
      requires Shape() && receiving && !transmitting && rxUsed == rxSize
      modifies this, rx, tx
      ensures Valid() && !receiving
      ensures channels == old(channels) && issued == old(issued)
      ensures Delivered(old(activeChannel), old(rxCommand), old(rx[..rxSize]))
    {
      if rxCommand == PING {
        Echo();
      } else {
        receiving, processing, cancelled, resyncRequested, pending := false, true, false, false, true;
      }
    }

    /** Store what a frame carries, up to the announced size. */
    method Accept(r: seq<byte>, offset: nat, now: uint32)
      requires Shape() && receiving && !transmitting && |r| == REPORT && offset <= REPORT
      requires rxUsed == rxSize || offset < REPORT
      modifies this, rx, tx
      ensures Valid() && channels == old(channels) && issued == old(issued)
      ensures var count := Least(REPORT - offset, old(rxSize) - old(rxUsed));
        var message := old(rx[..rxUsed]) + r[offset..offset + count];
        if old(rxUsed) + count == old(rxSize) then !receiving && Delivered(old(activeChannel), old(rxCommand), message)
        else receiving && !transmitting && activeChannel == old(activeChannel) && rxCommand == old(rxCommand)
             && rxSize == old(rxSize) && rxUsed == old(rxUsed) + count && rx[..rxUsed] == message
             && rxSequence == old(rxSequence) && rxTime == now
    {
      var count := rxSize - rxUsed;
      if count > REPORT - offset {
        count := REPORT - offset;
      }
      ghost var message := rx[..rxUsed] + r[offset..offset + count];
      CopyInto(rx, rxUsed, r[offset..offset + count]);
      rxUsed, rxTime := rxUsed + count, now;
      assert rx[..rxUsed] == message;
      if rxUsed == rxSize {
        Complete();
      }
    }

    /** While a worker owns rx, reports can only ask it to stop or be told to wait. */
    method ReceiveBusy(r: seq<byte>)
      requires Valid() && processing && |r| == REPORT
      modifies this`cancelled, this`resyncRequested, this`resyncNonce, this`controlReport, this`controlPending
      ensures Valid()
      ensures cancelled <==> old(cancelled) || (Get32(r) == activeChannel && (IsCancel(r) || IsInit(r)))
      ensures resyncRequested <==> old(resyncRequested) || (Get32(r) == activeChannel && IsInit(r))
      ensures Get32(r) == activeChannel && IsInit(r) ==> resyncNonce == r[7..15]
      ensures !(Get32(r) == activeChannel && IsInit(r)) ==> resyncNonce == old(resyncNonce)
      ensures var refused := !IsCancel(r) && !(Get32(r) == activeChannel && IsInit(r)) && r[4] >= 0x80 && !old(controlPending);
        if refused then controlPending && controlReport == Pad(Put32(Get32(r)) + [ERROR, 0, 1,
          if Known(Get32(r)) || (Get32(r) == BROADCAST && r[4] == INIT) then BUSY else BAD_CHANNEL])
        else controlPending == old(controlPending) && controlReport == old(controlReport)
    {
      var cid := Get32(r);
      if IsCancel(r) {
        if cid == activeChannel {
          cancelled := true;
        }
        return;
      }
      if cid == activeChannel && IsInit(r) {
        cancelled, resyncRequested, resyncNonce := true, true, r[7..15];
        return;
      }
      if r[4] >= 0x80 && !controlPending {
        controlReport := Pad(Put32(cid) + [ERROR, 0, 1, if Known(cid) || (cid == BROADCAST && r[4] == INIT) then BUSY else BAD_CHANNEL]);
        controlPending := true;
      }
    }

    /** The slot a new channel takes: a free one, or else that of the oldest. */
    method ChooseSlot() returns (slot: nat)
      requires Valid()
      ensures slot < 4 && (issued < BROADCAST ==> slot == issued % 4)
    {
      if issued < BROADCAST {
        FreeSlots(issued, channels);
      }
      slot := 0;
      while slot < 4 && channels[slot] != 0
        invariant slot <= 4 && forall k: nat :: k < slot ==> channels[k] != 0
      {
        slot := slot + 1;
      }
      assert slot > 0 ==> channels[slot - 1] != 0;
      if slot == 4 {
        slot := (nextChannel + WRAP - 1) % WRAP % 4;
      }
    }

    /** Hand out a channel. Only ever done while nothing is being received, processed or sent. */
    method Assign() returns (cid: uint32)
      requires Valid() && !receiving && !processing && !transmitting
      modifies this`channels, this`nextChannel, this`issued
      ensures Valid() && issued == old(issued) + 1 && cid == old(nextChannel) == issued % WRAP && cid in channels
      ensures Known(cid) <==> issued % WRAP !in {0, BROADCAST}
    {
      hide Holder;
      var slot := ChooseSlot();
      cid := nextChannel;
      nextChannel := (nextChannel + 1) % WRAP;
      channels := channels[slot := cid];
      assert channels[slot] == cid;
      issued := issued + 1;
      HolderNext(old(issued), issued);
    }

    /** The message being received is as it was. */
    predicate Undisturbed(wasReceiving: bool, wasRx: seq<byte>, wasUsed: nat)
      reads this, rx
    {
      receiving == wasReceiving && rx[..] == wasRx && rxUsed == wasUsed
    }

    method SendInit(cid: uint32, nonce: seq<byte>, given: uint32)
      requires Framed() && !processing && |nonce| == 8
      modifies this`txChannel, this`txCommand, this`txSize, this`txUsed, this`txSequence, this`transmitting, tx
      ensures Framed() && Grants(cid, nonce, given)
    {
      var payload := InitReply(nonce, given);
      CopyInto(tx, 0, payload);
      Reply(cid, INIT, 17);
      assert tx[..17] == tx[0..|payload|] == payload;
      assert forall i :: 0 <= i < 17 ==> tx[i] == tx[..17][i];
    }

    method ReceiveInit(r: seq<byte>)
      requires Valid() && !processing && !transmitting && |r| == REPORT && r[4] == INIT
      requires Get32(r) == BROADCAST || Known(Get32(r))
      modifies this, rx, tx
      ensures Valid() && !processing
      ensures !IsInit(r) ==> Sending(Get32(r), ERROR, [BAD_LENGTH]) && Undisturbed(old(receiving), old(rx[..]), old(rxUsed))
      ensures IsInit(r) && old(receiving) && Get32(r) != old(activeChannel) ==>
        Sending(Get32(r), ERROR, [BUSY]) && Undisturbed(old(receiving), old(rx[..]), old(rxUsed))
      ensures IsInit(r) && !(old(receiving) && Get32(r) != old(activeChannel)) ==>
        !receiving && Grants(Get32(r), r[7..15], if Get32(r) == BROADCAST then old(nextChannel) else Get32(r))
      ensures old(receiving) || !IsInit(r) ==> channels == old(channels) && issued == old(issued)
      ensures IsInit(r) && Get32(r) == BROADCAST && !old(receiving) ==> (Known(old(nextChannel)) <==> old(nextChannel) !in {0, BROADCAST})
      ensures issued == old(issued) + (if IsInit(r) && Get32(r) == BROADCAST && !old(receiving) then 1 else 0)
    {
      var cid := Get32(r);
      if !IsInit(r) {
        Error(cid, BAD_LENGTH);
        return;
      }
      if receiving && cid != activeChannel {
        Error(cid, BUSY);
        return;
      }
      var given := cid;
      if cid == BROADCAST {
        given := Assign();
      }
      receiving := false;
      ClearRx();
      SendInit(cid, r[7..15], given);
    }

    method ReceiveCancel(r: seq<byte>)
      requires Valid() && !processing && !transmitting && |r| == REPORT && r[4] == CANCEL
      modifies this, rx, tx
      ensures Valid() && !processing && channels == old(channels) && issued == old(issued)
      ensures !IsCancel(r) ==> Sending(Get32(r), ERROR, [BAD_LENGTH]) && Undisturbed(old(receiving), old(rx[..]), old(rxUsed))
      ensures IsCancel(r) ==> !transmitting && receiving == (old(receiving) && Get32(r) != old(activeChannel))
      ensures IsCancel(r) && Get32(r) != old(activeChannel) ==> Undisturbed(old(receiving), old(rx[..]), old(rxUsed))
    {
      if !IsCancel(r) {
        Error(Get32(r), BAD_LENGTH);
        return;
      }
      if Get32(r) == activeChannel {
        receiving := false;
        ClearRx();
      }
    }

    method Begin(cid: uint32, command: byte, size: nat)
      requires Valid() && !receiving && !processing && Known(cid)
      requires command in {PING, CBOR} && size <= MESSAGE_SIZE && (command == CBOR ==> size > 0)
      modifies this`activeChannel, this`rxCommand, this`rxSize, this`rxUsed, this`rxSequence, this`receiving
      ensures Shape() && receiving && activeChannel == cid && rxCommand == command && rxSize == size
      ensures rxUsed == rxSequence == 0 && rx[..rxUsed] == []
    {
      activeChannel, rxCommand, rxSize, rxUsed, rxSequence, receiving := cid, command, size, 0, 0, true;
    }

    /** The first report of a message. */
    method ReceiveStart(r: seq<byte>, now: uint32)
      requires Valid() && !processing && !transmitting && |r| == REPORT && r[4] >= 0x80
      requires Known(Get32(r)) && (receiving ==> Get32(r) == activeChannel)
      modifies this, rx, tx
      ensures Valid() && channels == old(channels) && issued == old(issued)
      ensures var e := StartError(r, old(receiving)); e != 0 ==>
        Sending(Get32(r), ERROR, [e]) && !processing && Undisturbed(old(receiving), old(rx[..]), old(rxUsed))
      ensures StartError(r, old(receiving)) == 0 ==> Received(Get32(r), r[4], AnnouncedSize(r), r[7..7 + Least(FIRST, AnnouncedSize(r))], 0)
    {
      hide Get32, Delivered;
      var cid, size := Get32(r), AnnouncedSize(r);
      if receiving {
        Error(cid, BUSY);
        return;
      }
      if size > MESSAGE_SIZE || (r[4] == CBOR && size == 0) {
        Error(cid, BAD_LENGTH);
        return;
      }
      if r[4] != PING && r[4] != CBOR {
        Error(cid, BAD_COMMAND);
        return;
      }
      ghost var part := r[7..7 + Least(FIRST, size)];
      assert [] + part == part;
      Begin(cid, r[4], size);
      Accept(r, 7, now);
    }

    /** Another report of the message being received. */
    method ReceiveContinuation(r: seq<byte>, now: uint32)
      requires Valid() && !processing && !transmitting && |r| == REPORT && r[4] < 0x80
      requires receiving ==> Get32(r) == activeChannel
      modifies this, rx, tx
      ensures Valid() && channels == old(channels) && issued == old(issued)
      ensures !old(receiving) ==> !receiving && !processing && !transmitting && rx[..] == old(rx[..])
      ensures old(receiving) && r[4] != old(rxSequence) ==>
        !receiving && !processing && Sending(Get32(r), ERROR, [BAD_SEQUENCE])
      ensures old(receiving) && r[4] == old(rxSequence) ==>
        Received(Get32(r), old(rxCommand), old(rxSize),
          old(rx[..rxUsed]) + r[5..5 + Least(NEXT, old(rxSize) - old(rxUsed))], (old(rxSequence) + 1) % 256)
    {
      if !receiving {
        return;
      }
      var expected := rxSequence;
      rxSequence := (rxSequence + 1) % 256;
      if r[4] != expected {
        receiving := false;
        ClearRx();
        Error(Get32(r), BAD_SEQUENCE);
        return;
      }
      Accept(r, 5, now);
    }

    /** So much of a message of this size is here; once all of it is, it has been delivered. */
    ghost predicate Received(cid: uint32, command: byte, size: nat, part: seq<byte>, sequence: byte)
      reads this, rx, tx
    {
      if |part| == size then !receiving && Delivered(cid, command, part)
      else receiving && !processing && !transmitting && activeChannel == cid && rxCommand == command
           && rxSize == size && rxUsed == |part| <= rx.Length && rx[..rxUsed] == part && rxSequence == sequence
    }

    /** A report on a channel nobody may use. */
    predicate BadChannel(r: seq<byte>)
      requires |r| == REPORT
      reads this
    {
      var cid := Get32(r);
      cid == 0 || (cid == BROADCAST && r[4] != INIT) || (cid != BROADCAST && !Known(cid))
    }

    /** One report from the host. */
    method Receive(r: seq<byte>, now: uint32)
      requires Valid() && |r| == REPORT
      modifies this, rx, tx
      ensures Valid()
      // While a worker owns rx nothing it may look at changes.
      ensures old(processing) ==> processing && unchanged(rx) && unchanged(tx)
      ensures old(processing) ==>
        unchanged(this`rxSize) && unchanged(this`rxUsed) && unchanged(this`activeChannel) && unchanged(this`pending)
      ensures old(processing) ==>
        (cancelled <==>
          || old(cancelled)
          || (Get32(r) == old(activeChannel) && ((r[4] == 0x91 && r[5] == 0 && r[6] == 0) || (r[4] == 0x86 && r[5] == 0 && r[6] == 8))))
      ensures !old(processing) && old(transmitting) ==> unchanged(this) && unchanged(rx) && unchanged(tx)
      // A channel with a transaction in flight is never reclaimed.
      ensures old(receiving || processing || transmitting) || !(r[4] == 0x86 && r[5] == 0 && r[6] == 8) ==>
        channels == old(channels) && issued == old(issued)
      ensures old(!processing && !transmitting && BadChannel(r)) ==>
        Sending(Get32(r), ERROR, [BAD_CHANNEL]) && Undisturbed(old(receiving), old(rx[..]), old(rxUsed))
      ensures old(!processing && !transmitting && !BadChannel(r) && receiving && Get32(r) != activeChannel) && r[4] !in {INIT, CANCEL} ==>
        Sending(Get32(r), ERROR, [BUSY]) && Undisturbed(old(receiving), old(rx[..]), old(rxUsed))
      ensures old(!processing && !transmitting && !BadChannel(r) && !receiving) && r[4] == 0x86 && r[5] == 0 && r[6] == 8 && Get32(r) == BROADCAST ==>
        && issued == old(issued) + 1 && (Known(old(nextChannel)) <==> old(nextChannel) !in {0, BROADCAST})
        && Grants(BROADCAST, r[7..15], old(nextChannel))
      ensures old(!processing && !transmitting && !BadChannel(r)) && r[4] == 0x86 && r[5] == 0 && r[6] == 8 && Get32(r) != BROADCAST ==>
        if old(receiving) && Get32(r) != old(activeChannel) then Sending(Get32(r), ERROR, [BUSY])
        else !receiving && Grants(Get32(r), r[7..15], Get32(r))
      ensures old(!processing && !transmitting && !BadChannel(r) && !receiving) && r[4] >= 0x80 && r[4] !in {INIT, CANCEL} ==>
        if StartError(r, false) != 0 then Sending(Get32(r), ERROR, [StartError(r, false)])
        else Received(Get32(r), r[4], AnnouncedSize(r), r[7..7 + Least(FIRST, AnnouncedSize(r))], 0)
      ensures old(!processing && !transmitting && receiving && Get32(r) == activeChannel && r[4] == rxSequence) && r[4] < 0x80 ==>
        Received(Get32(r), old(rxCommand), old(rxSize),
          old(rx[..rxUsed]) + r[5..5 + Least(NEXT, old(rxSize) - old(rxUsed))], (old(rxSequence) + 1) % 256)
      ensures old(!processing && !transmitting && receiving && Get32(r) == activeChannel && r[4] != rxSequence) && r[4] < 0x80 ==>
        !receiving && Sending(Get32(r), ERROR, [BAD_SEQUENCE])
    {
      hide Received, Holder, Delivered, InitReply;
      var cid := Get32(r);
      if processing {
        ReceiveBusy(r);
        return;
      }
      if transmitting {
        return;
      }
      if cid == 0 || (cid == BROADCAST && r[4] != INIT) {
        Error(cid, BAD_CHANNEL);
        return;
      }
      if cid != BROADCAST && !Known(cid) {
        Error(cid, BAD_CHANNEL);
        return;
      }
      if r[4] == INIT {
        ReceiveInit(r);
      } else if r[4] == CANCEL {
        ReceiveCancel(r);
      } else if receiving && cid != activeChannel {
        Error(cid, BUSY);
      } else if r[4] >= 0x80 {
        ReceiveStart(r, now);
      } else {
        ReceiveContinuation(r, now);
      }
    }

    /** Give up on a message that has stopped arriving. */
    method Tick(now: uint32)
      requires Valid()
      modifies this, rx, tx
      ensures Valid() && channels == old(channels) && issued == old(issued)
      ensures var late := old(receiving) && !old(transmitting) && (now + WRAP - old(rxTime)) % WRAP >= 3000;
        if late then !receiving && Sending(old(activeChannel), ERROR, [TIMED_OUT])
        else unchanged(this) && unchanged(rx) && unchanged(tx)
    {
      if receiving && !transmitting && (now + WRAP - rxTime) % WRAP >= 3000 {
        receiving := false;
        ClearRx();
        Error(activeChannel, TIMED_OUT);
      }
    }

    /** The next frame to send, without sending it. */
    method Peek() returns (ok: bool, r: seq<byte>)
      requires Valid()
      ensures ok == transmitting && |r| == REPORT
      ensures ok && txUsed == 0 ==> r == InitialFrame(txChannel, txCommand, tx[..txSize])
      ensures ok && txUsed > 0 ==> r == ContinuationFrame(txChannel, txSequence, tx[..txSize], txUsed)
    {
      if !transmitting {
        return false, Zeros(REPORT);
      }
      var header: seq<byte> := Put32(txChannel);
      var offset := 5;
      if txUsed == 0 {
        var high: byte, low: byte := txSize / 256, txSize % 256;
        header := header + [txCommand, high, low];
        offset := 7;
      } else {
        header := header + [txSequence];
      }
      var count := txSize - txUsed;
      if count > REPORT - offset {
        count := REPORT - offset;
      }
      assert tx[..txSize][txUsed..txUsed + count] == tx[txUsed..txUsed + count];
      return true, Pad(header + tx[txUsed..txUsed + count]);
    }

    /** The frame last peeked at has gone. */
    method Sent()
      requires Valid()
      modifies this, tx
      ensures Valid() && unchanged(this`txChannel) && unchanged(this`txCommand) && unchanged(this`txSize)
      ensures unchanged(this`processing) && unchanged(this`receiving) && unchanged(this`channels)
      ensures var count := if old(txUsed) == 0 then FIRST else NEXT; old(transmitting) ==>
        if count >= txSize - old(txUsed) then !transmitting
        else transmitting && txUsed == old(txUsed) + count && unchanged(tx)
             && txSequence == (if old(txUsed) == 0 then old(txSequence) else (old(txSequence) + 1) % 256)
      ensures !old(transmitting) ==> unchanged(this) && unchanged(tx)
    {
      if !transmitting {
        return;
      }
      var count := if txUsed == 0 then FIRST else NEXT;
      if txUsed != 0 {
        txSequence := (txSequence + 1) % 256;
      }
      if count >= txSize - txUsed {
        transmitting := false;
        for i := 0 to MESSAGE_SIZE
          modifies tx
          invariant forall k :: 0 <= k < i ==> tx[k] == 0
        {
          tx[i] := 0;
        }
      } else {
        txUsed := txUsed + count;
      }
    }

    method Answer(answer: seq<byte>)
      requires Framed() && !processing && 0 < |answer| <= MESSAGE_SIZE
      modifies this`txChannel, this`txCommand, this`txSize, this`txUsed, this`txSequence, this`transmitting, tx
      ensures Framed() && Sending(activeChannel, CBOR, answer)
    {
      CopyInto(tx, 0, answer);
      Reply(activeChannel, CBOR, |answer|);
      assert tx[..txSize] == tx[0..|answer|];
    }

    /** The worker is done with rx: answer the channel it was for. */
    method Finish(response: seq<byte>)
      requires Valid()
      modifies this, rx, tx
      ensures Valid() && !processing
      ensures !old(processing) ==> unchanged(this) && unchanged(rx) && unchanged(tx)
      ensures old(processing) && old(resyncRequested) ==>
        Grants(old(activeChannel), old(resyncNonce), old(activeChannel))
      ensures old(processing) && !old(resyncRequested) ==>
        Sending(old(activeChannel), CBOR, if old(cancelled) then [0x2d] else if 0 < |response| <= MESSAGE_SIZE then response else [0x7f])
    {
      if !processing {
        return;
      }
      processing, pending := false, false;
      if resyncRequested {
        SendInit(activeChannel, resyncNonce, activeChannel);
      } else {
        Answer(if cancelled then [0x2d] else if |response| == 0 || |response| > MESSAGE_SIZE then [0x7f] else response);
      }
      ClearRx();
    }
  }

  /** The size a first report announces. */
  function AnnouncedSize(r: seq<byte>): nat
    requires |r| == REPORT
  {
    256 * (r[5] as int) + r[6] as int
  }

  /** Why a first report is refused, or zero. */
  function StartError(r: seq<byte>, receiving: bool): byte
    requires |r| == REPORT
  {
    if receiving then BUSY
    else if AnnouncedSize(r) > MESSAGE_SIZE || (r[4] == CBOR && AnnouncedSize(r) == 0) then BAD_LENGTH
    else if r[4] != PING && r[4] != CBOR then BAD_COMMAND
    else 0
  }

  predicate IsCancel(r: seq<byte>)
    requires |r| == REPORT
  {
    r[4] == CANCEL && r[5] == 0 && r[6] == 0
  }

  predicate IsInit(r: seq<byte>)
    requires |r| == REPORT
  {
    r[4] == INIT && r[5] == 0 && r[6] == 8
  }

  /** Protocol version 2, device version 0.1.0, CBOR but no CTAP1 messages. */
  function InitReply(nonce: seq<byte>, cid: uint32): seq<byte> {
    nonce + Put32(cid) + [2, 0, 1, 0, 0x0c]
  }

  lemma HolderNext(n: nat, m: nat)
    requires m == n + 1
    ensures forall i: nat :: i < 4 ==> Holder(m, i) == if i == n % 4 then m else Holder(n, i)
  {
  }

  /** A slot is free exactly while no more channels than its index have been handed out. */
  lemma FreeSlots(n: nat, channels: seq<uint32>)
    requires |channels| == 4 && forall i: nat :: i < 4 ==> channels[i] == Holder(n, i)
    ensures forall i: nat :: i < 4 ==> (channels[i] == 0 <==> n <= i)
  {
  }

  /** The channel slot i holds after n have been handed out: the latest n with that residue. */
  function Holder(n: nat, i: nat): nat
    requires i < 4
  {
    if n <= i then 0 else n - (n - 1 - i) % 4
  }

  /** So the channels known are exactly the last four handed out. */
  lemma LastFourKnown(n: nat, cid: nat)
    requires cid != 0
    ensures (exists i :: 0 <= i < 4 && Holder(n, i) == cid) <==> cid <= n < cid + 4
  {
    if cid <= n < cid + 4 {
      assert Holder(n, (cid - 1) % 4) == cid;
    }
  }

  /** Two assignments give one number exactly if a whole number of wraps lies between them. */
  lemma NumbersRepeat(n: nat, m: nat)
    requires n < m
    ensures (n + 1) % WRAP == (m + 1) % WRAP <==> (m - n) % WRAP == 0
  {
  }

  predicate Distinct(given: seq<uint32>) {
    forall i, j :: 0 <= i < j < |given| ==> given[i] != given[j]
  }

  /** Consecutive assignments are distinct exactly if there are no more of them than numbers. */
  lemma DistinctUntilWrap(given: seq<uint32>, first: nat)
    requires forall i: nat :: i < |given| ==> given[i] == (first + i) % WRAP
    ensures Distinct(given) <==> |given| <= WRAP
  {
    if |given| > WRAP {
      assert given[0] == given[WRAP];
    } else {
      forall i: nat, j: nat | i < j < |given|
        ensures given[i] != given[j]
      {
        WithinWrap(first + i, first + j);
      }
    }
  }

  lemma WithinWrap(a: nat, b: nat)
    requires a < b < a + WRAP
    ensures a % WRAP != b % WRAP
  {
  }

  /** A run of assignments on an idle transport: the numbers it hands out count on from those
      handed out before, and one comes back exactly if there are more than 2^32. */
  method AssignMany(t: Transport, n: nat) returns (given: seq<uint32>)
    requires t.Valid() && !t.receiving && !t.processing && !t.transmitting
    modifies t`channels, t`nextChannel, t`issued
    ensures t.Valid() && t.issued == old(t.issued) + n && |given| == n
    ensures forall i: nat :: i < n ==> given[i] == (old(t.issued) + 1 + i) % WRAP
    ensures Distinct(given) <==> n <= WRAP
    ensures n > WRAP ==> given[0] == given[WRAP]
  {
    given := [];
    for i := 0 to n
      invariant t.Valid() && !t.receiving && !t.processing && !t.transmitting && t.issued == old(t.issued) + i && |given| == i
      invariant forall k: nat :: k < i ==> given[k] == (old(t.issued) + 1 + k) % WRAP
    {
      var cid := t.Assign();
      given := given + [cid];
    }
    DistinctUntilWrap(given, old(t.issued) + 1);
  }

  // ---- The round trip ------------------------------------------------------

  lemma InitialFields(cid: uint32, command: byte, message: seq<byte>)
    requires |message| <= MESSAGE_SIZE
    ensures var r := InitialFrame(cid, command, message);
      && Get32(r) == cid && r[4] == command && AnnouncedSize(r) == |message|
      && r[7..7 + Least(FIRST, |message|)] == message[..Least(FIRST, |message|)]
  {
    hide Put32;
    var r := InitialFrame(cid, command, message);
    assert r[..4] == Put32(cid);
    SameWord(r, Put32(cid));
  }

  lemma ContinuationFields(cid: uint32, sequence: byte, message: seq<byte>, used: nat)
    requires used <= |message|
    ensures var r := ContinuationFrame(cid, sequence, message, used); var count := Least(NEXT, |message| - used);
      Get32(r) == cid && r[4] == sequence && r[5..5 + count] == message[used..used + count]
  {
    hide Put32;
    var r := ContinuationFrame(cid, sequence, message, used);
    assert r[..4] == Put32(cid);
    SameWord(r, Put32(cid));
  }

  lemma SameWord(a: seq<byte>, b: seq<byte>)
    requires |a| >= 4 && |b| == 4 && a[..4] == b
    ensures Get32(a) == Get32(b)
  {
    assert a[0] == a[..4][0] && a[1] == a[..4][1] && a[2] == a[..4][2] && a[3] == a[..4][3];
  }

  /** How the two ends agree after k frames. */
  ghost predicate InStep(a: Transport, b: Transport, cid: uint32, command: byte, message: seq<byte>, k: nat)
    reads a, a.rx, a.tx, b, b.rx, b.tx
  {
    && a.Valid() && b.Valid() && a.transmitting && a.txChannel == cid && a.txCommand == command
    && a.txSize == |message| <= MESSAGE_SIZE == a.tx.Length && a.tx[..a.txSize] == message
    && a.txUsed == Used(k) <= |message| && (k > 0 ==> Used(k) < |message|)
    && a.txSequence == (if k == 0 then 0 else k - 1) && k < 0x80
    && command in {PING, CBOR} && (command == CBOR ==> |message| > 0)
    && !b.processing && !b.transmitting && b.Known(cid)
    && (if k == 0 then !b.receiving else b.Received(cid, command, |message|, message[..Used(k)], k - 1))
  }

  /** One frame across the wire. */
  method Pass(a: Transport, b: Transport, now: uint32, ghost cid: uint32, ghost command: byte, ghost message: seq<byte>, ghost k: nat)
    requires InStep(a, b, cid, command, message, k)
    requires a != b && a.rx != b.rx && a.rx != b.tx && a.tx != b.rx && a.tx != b.tx
    modifies a, a.tx, b, b.rx, b.tx
    ensures a.Valid() && b.Valid()
    ensures a.transmitting ==> InStep(a, b, cid, command, message, k + 1)
    ensures !a.transmitting ==> b.Delivered(cid, command, message)
  {
    hide Pad, InitialFrame, ContinuationFrame, Holder, Get32, Put32, Transport.Shape, Transport.Delivered, AnnouncedSize;
    var ok, r := a.Peek();
    if k == 0 {
      InitialFields(cid, command, message);
    } else {
      ContinuationFields(cid, a.txSequence, message, a.txUsed);
      JoinSlices(message, 0, Used(k), Used(k) + Least(NEXT, |message| - Used(k)));
    }
    b.Receive(r, now);
    a.Sent();
    assert message[..|message|] == message;
  }

  /** Everything one end sends, frame by frame, arrives whole at the other, whatever its size. */
  method Exchange(a: Transport, b: Transport, now: uint32, ghost cid: uint32, ghost command: byte, ghost message: seq<byte>)
    requires a.Valid() && a.Sending(cid, command, message)
    requires command in {PING, CBOR} && (command == CBOR ==> |message| > 0)
    requires b.Valid() && !b.receiving && !b.processing && !b.transmitting && b.Known(cid)
    requires a != b && a.rx != b.rx && a.rx != b.tx && a.tx != b.rx && a.tx != b.tx
    modifies a, a.tx, b, b.rx, b.tx
    ensures a.Valid() && b.Valid() && !a.transmitting && b.Delivered(cid, command, message)
  {
    hide Transport.Delivered, Transport.Received;
    ghost var k: nat := 0;
    while a.transmitting
      invariant a.transmitting ==> InStep(a, b, cid, command, message, k)
      invariant a.Valid() && b.Valid() && (!a.transmitting ==> b.Delivered(cid, command, message))
      decreases a.transmitting, MESSAGE_SIZE - Used(k)
    {
      Pass(a, b, now, cid, command, message, k);
      k := k + 1;
    }
  }
}
