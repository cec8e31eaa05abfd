/** The network driver over its two virtqueues (virtio.rs). Driver calls and device steps
    are methods that may follow each other in any order; the invariant `Valid` holds
    between any two of them. */
module VirtioNet {
  import opened Words
  import opened Bits
  import opened VirtQueue

  const RX_BUFFERS := 32
  const TX_BUFFERS := 16
  const PACKET_SIZE := 1514
  const HDR_SIZE := 12
  const BUF_SIZE := PACKET_SIZE + HDR_SIZE

  datatype DriverError = NotReady | BufferFull | BufferEmpty | InvalidState
  datatype Result<+T> = Ok(value: T) | Err(error: DriverError)

  type Frame = seq<Byte>

  function Header(): (h: Frame)
    ensures |h| == 12 && forall k :: 0 <= k < 12 ==> h[k] == 0
  {
    seq(HDR_SIZE, _ => 0)
  }

  ghost predicate MaskOk(mask: nat, q: Queue) {
    && mask < Pow2(TX_BUFFERS) && |q.places| == TX_BUFFERS
    && forall i :: 0 <= i < TX_BUFFERS ==> (Bit(mask, i) <==> q.places[i] == Free)
  }

  ghost predicate DeviceOk(seen: nat, owned: set<nat>, q: Queue) {
    && seen == q.fetched % U16_LIMIT
    && (forall i :: i in owned ==> i < |q.places|)
    && (forall i :: 0 <= i < |q.places| ==> (i in owned <==> q.places[i].Held?))
  }

  /** The buffer of a post that the device has not completed still holds its frame. */
  ghost predicate FrameOk(q: Queue, frames: seq<Frame>, buffers: seq<Frame>, lens: seq<nat>, i: nat)
    requires |q.places| == |buffers| == |lens| && i < |q.places|
  {
    q.places[i].Queued? || q.places[i].Held? ==>
      && q.places[i].post < |frames| && lens[i] == |frames[q.places[i].post]| <= |buffers[i]|
      && buffers[i][..lens[i]] == frames[q.places[i].post]
  }

  ghost predicate FramesOk(q: Queue, frames: seq<Frame>, buffers: seq<Frame>, lens: seq<nat>) {
    && |q.places| == |buffers| == |lens| && |frames| == |q.posted|
    && (forall i :: 0 <= i < |buffers| ==> |buffers[i]| == BUF_SIZE)
    && (forall i :: 0 <= i < |buffers| ==> FrameOk(q, frames, buffers, lens, i))
  }

  /** A completed receive buffer holds what the device put there. */
  ghost predicate PacketOk(q: Queue, packets: seq<Frame>, buffers: seq<Frame>, i: nat)
    requires |q.places| == |buffers| && i < |q.places|
  {
    q.places[i].Done? ==>
      && q.places[i].completion < |packets| == |q.done|
      && q.done[q.places[i].completion].len == |packets[q.places[i].completion]| <= |buffers[i]|
      && buffers[i][..|packets[q.places[i].completion]|] == packets[q.places[i].completion]
  }

  ghost predicate PacketsOk(q: Queue, packets: seq<Frame>, buffers: seq<Frame>) {
    && |q.places| == |buffers| && |packets| == |q.done|
    && (forall i :: 0 <= i < |buffers| ==> |buffers[i]| == BUF_SIZE)
    && (forall i :: 0 <= i < |buffers| ==> PacketOk(q, packets, buffers, i))
  }

  /** All completions reaped. */
  ghost function ReapAll(q: Queue, n: nat): (r: Queue)
    requires QueueOk(q, n)
    ensures |r.places| == n
    decreases |q.done| - q.reaped
  {
    if q.reaped >= |q.done| then q else ReapKeeps(q, n); ReapAll(Reap(q), n)
  }

  lemma {:induction false} ReapAllFrees(q: Queue, n: nat)
    requires QueueOk(q, n)
    ensures QueueOk(ReapAll(q, n), n) && ReapAll(q, n).posted == q.posted && ReapAll(q, n).fetched == q.fetched
    ensures ReapAll(q, n).done == q.done && ReapAll(q, n).reaped == |q.done|
    ensures forall i :: 0 <= i < n ==> ReapAll(q, n).places[i] == if q.places[i].Done? then Free else q.places[i]
    decreases |q.done| - q.reaped
  {
    if q.reaped < |q.done| {
      ReapKeeps(q, n);
      ReapAllFrees(Reap(q), n);
    } else {
      forall i | 0 <= i < n ensures !q.places[i].Done? { assert InPlace(q, i); }
    }
  }

  class Driver {
    var initialized: bool
    const rxAvail: array<nat>
    var rxAvailIdx: nat
    const rxUsed: array<Used>
    var rxUsedIdx: nat
    var rxLastUsed: nat
    const rxBuffers: array<Frame>
    const txAvail: array<nat>
    var txAvailIdx: nat
    const txUsed: array<Used>
    var txUsedIdx: nat
    var txLastUsed: nat
    /** The length field of each transmit descriptor; its address is fixed. */
    const txLen: array<nat>
    const txBuffers: array<Frame>
    var txFreeMask: nat

    // The device: its positions in the available rings, and the buffers it holds.
    var rxSeen: nat
    var rxOwned: set<nat>
    var txSeen: nat
    var txOwned: set<nat>

    ghost var rx: Queue
    ghost var tx: Queue
    /** Every frame ever transmitted, every frame the device ever read, and every packet
        it ever received. */
    ghost var frames: seq<Frame>
    ghost var sent: seq<Frame>
    ghost var packets: seq<Frame>

    ghost predicate Separate()
      reads this
    {
      && rxAvail != txAvail && rxAvail != txLen && txAvail != txLen && rxUsed != txUsed && rxBuffers != txBuffers
      && rxBuffers.Length == RX_BUFFERS && txBuffers.Length == TX_BUFFERS && txLen.Length == TX_BUFFERS
      && rxAvail.Length == txAvail.Length == rxUsed.Length == txUsed.Length == QUEUE_SIZE
    }

    ghost predicate TxOk()
      reads this, txAvail, txUsed, txLen, txBuffers
    {
      && QueueOk(tx, TX_BUFFERS) && Rings(txAvail[..], txAvailIdx, txUsed[..], txUsedIdx, txLastUsed, tx)
      && MaskOk(txFreeMask, tx) && FramesOk(tx, frames, txBuffers[..], txLen[..])
      && DeviceOk(txSeen, txOwned, tx) && tx.fetched <= |frames| && sent == frames[..tx.fetched]
    }

    ghost predicate RxOk()
      reads this, rxAvail, rxUsed, rxBuffers
    {
      && QueueOk(rx, RX_BUFFERS) && Rings(rxAvail[..], rxAvailIdx, rxUsed[..], rxUsedIdx, rxLastUsed, rx)
      && PacketsOk(rx, packets, rxBuffers[..]) && DeviceOk(rxSeen, rxOwned, rx)
    }

    ghost predicate Valid()
      reads this, rxAvail, rxUsed, rxBuffers, txAvail, txUsed, txLen, txBuffers
    {
      Separate() && TxOk() && RxOk()
    }

    constructor ()
      ensures Valid() && !initialized
      ensures tx == Queue([], 0, [], 0, seq(TX_BUFFERS, _ => Free)) && frames == []
      ensures rx == Queue([], 0, [], 0, seq(RX_BUFFERS, _ => Free)) && packets == []
    {
      hide Bit, Pow2, MaskOk, QueueOk, Rings, FramesOk, PacketsOk, DeviceOk;
      initialized := false;
      rxAvail, rxUsed := new nat[QUEUE_SIZE](_ => 0), new Used[QUEUE_SIZE](_ => Used(0, 0));
      txAvail, txUsed := new nat[QUEUE_SIZE](_ => 0), new Used[QUEUE_SIZE](_ => Used(0, 0));
      rxBuffers := new Frame[RX_BUFFERS](_ => seq(BUF_SIZE, _ => 0));
      txBuffers := new Frame[TX_BUFFERS](_ => seq(BUF_SIZE, _ => 0));
      txLen := new nat[TX_BUFFERS](_ => 0);
      rxAvailIdx, rxUsedIdx, rxLastUsed, txAvailIdx, txUsedIdx, txLastUsed := 0, 0, 0, 0, 0, 0;
      txFreeMask := 0xFFFF;
      tx := Queue([], 0, [], 0, seq(TX_BUFFERS, _ => Free));
      rx := Queue([], 0, [], 0, seq(RX_BUFFERS, _ => Free));
      rxSeen, rxOwned, txSeen, txOwned := 0, {}, 0, {};
      frames, sent, packets := [], [], [];
      new;
      Initially(txAvail[..], txUsed[..], txBuffers[..], txLen[..], TX_BUFFERS);
      Initially(rxAvail[..], rxUsed[..], rxBuffers[..], seq(RX_BUFFERS, _ => 0), RX_BUFFERS);
      AllFree();
    }

    // ---------- Transmit ----------

    /** Takes back every completed buffer. */
    method ReclaimTx()
      requires Valid()
      modifies this`tx, this`txLastUsed, this`txFreeMask
      ensures QueueOk(old(tx), TX_BUFFERS) && Valid() && tx == ReapAll(old(tx), TX_BUFFERS)
    {
      hide Pow2, Bit, SetBit, Rings, FramesOk, QueueOk, MaskOk, PacketsOk, ReapAll;
      while txLastUsed != txUsedIdx
        invariant Valid() && ReapAll(tx, TX_BUFFERS) == ReapAll(old(tx), TX_BUFFERS)
        decreases |tx.done| - tx.reaped
      {
        OneCompletion(txAvail[..], txAvailIdx, txUsed[..], txUsedIdx, txLastUsed, tx, TX_BUFFERS);
        var elem := txUsed[txLastUsed % QUEUE_SIZE];
        if elem.id < TX_BUFFERS {
          MaskReap(txFreeMask, tx);
          FramesReap(tx, frames, txBuffers[..], txLen[..]);
          txFreeMask := SetBit(txFreeMask, elem.id);
        }
        txLastUsed := (txLastUsed + 1) % U16_LIMIT;
        tx := Reap(tx);
      }
      NoCompletion(txAvail[..], txAvailIdx, txUsed[..], txUsedIdx, txLastUsed, tx, TX_BUFFERS);
    }

    /** Queues one frame in a buffer that neither side uses. Fails exactly when the driver
        is not ready, the data too long, or every buffer on offer to or with the device. */
    method Transmit(data: Frame) returns (r: Result<()>)
      requires Valid()
      modifies this`tx, this`txLastUsed, this`txFreeMask, this`txAvailIdx, this`frames, txAvail, txLen, txBuffers
      ensures Valid()
      ensures !initialized ==> r == Err(NotReady)
      ensures initialized && |data| > PACKET_SIZE ==> r == Err(BufferFull)
      ensures r.Ok? <==> initialized && |data| <= PACKET_SIZE && HasIdle(old(tx))
      ensures r.Err? ==> frames == old(frames) && (r.error == NotReady || r.error == BufferFull)
      ensures r.Err? ==> tx == old(tx) || tx == ReapAll(old(tx), TX_BUFFERS)
      ensures r.Ok? ==> frames == old(frames) + [Header() + data]
      ensures r.Ok? ==> FirstFree(ReapAll(old(tx), TX_BUFFERS).places) < TX_BUFFERS
      ensures r.Ok? ==> tx == Post(ReapAll(old(tx), TX_BUFFERS), FirstFree(ReapAll(old(tx), TX_BUFFERS).places))
      ensures forall i :: 0 <= i < TX_BUFFERS && !Idle(old(tx), i) ==>
                txBuffers[i] == old(txBuffers[i]) && txLen[i] == old(txLen[i])
    {
      hide Rings, FramesOk, QueueOk, PacketsOk, ReapAll, MaskOk, DeviceOk, HasIdle, Header;
      if !initialized { return Err(NotReady); }
      if |data| > PACKET_SIZE { return Err(BufferFull); }
      IdleAfterReap(tx, TX_BUFFERS);
      ReclaimTx();
      FreeMask(txFreeMask, tx);
      if txFreeMask == 0 { return Err(BufferFull); }
      Enqueue(LowestSet(txFreeMask), Header() + data);
      r := Ok(());
    }

    /** Puts a frame into a free buffer and offers it to the device. */
    method Enqueue(i: nat, frame: Frame)
      requires Valid() && i < TX_BUFFERS && tx.places[i] == Free && |frame| <= BUF_SIZE
      modifies this`tx, this`txFreeMask, this`txAvailIdx, this`frames, txAvail, txLen, txBuffers
      ensures Valid() && tx == Post(old(tx), i) && frames == old(frames) + [frame]
      ensures forall j :: 0 <= j < TX_BUFFERS && j != i ==>
              txBuffers[j] == old(txBuffers[j]) && txLen[j] == old(txLen[j])
    {
      hide Rings, FramesOk, QueueOk, PacketsOk, MaskOk, DeviceOk, Bit, ClearBit;
      PostStep(txAvail[..], txAvailIdx, txUsed[..], txUsedIdx, txLastUsed, txFreeMask, txSeen, txOwned, tx, i);
      FramesPost(tx, frames, txBuffers[..], txLen[..], i, frame);
      txFreeMask := ClearBit(txFreeMask, i);
      txBuffers[i] := frame + txBuffers[i][|frame|..];
      txLen[i] := |frame|;
      txAvail[txAvailIdx % QUEUE_SIZE] := i;
      txAvailIdx := (txAvailIdx + 1) % U16_LIMIT;
      tx := Post(tx, i);
      frames := frames + [frame];
    }

    /** The device reads the next frame on offer: the oldest one it has not read. */
    method DeviceReads() returns (frame: Frame)
      requires Valid() && txSeen != txAvailIdx
      modifies this`tx, this`txSeen, this`txOwned, this`sent
      ensures Valid() && old(tx.fetched) < |frames| && frame == frames[old(tx.fetched)]
      ensures old(tx.fetched) < |old(tx).posted| && PostedOk(old(tx), old(tx.fetched)) && tx == Fetch(old(tx))
              && sent == old(sent) + [frame]
    {
      hide Rings, FramesOk, QueueOk, PacketsOk, MaskOk, DeviceOk;
      FetchStep(txAvail[..], txAvailIdx, txUsed[..], txUsedIdx, txLastUsed, txSeen, txOwned, tx, TX_BUFFERS);
      FramesFetch(txFreeMask, tx, frames, txBuffers[..], txLen[..]);
      var i := txAvail[txSeen % QUEUE_SIZE];
      frame := txBuffers[i][..txLen[i]];
      txSeen, txOwned := (txSeen + 1) % U16_LIMIT, txOwned + {i};
      sent := sent + [frame];
      tx := Fetch(tx);
    }

    /** The device is done with a frame it has read. */
    method DeviceReturns(i: nat)
      requires Valid() && i in txOwned
      modifies this`tx, this`txUsedIdx, this`txOwned, txUsed
      ensures Valid() && i < TX_BUFFERS == |old(tx).places| && tx == Complete(old(tx), i, 0)
    {
      hide Rings, FramesOk, QueueOk, PacketsOk, MaskOk, DeviceOk;
      CompleteStep(txAvail[..], txAvailIdx, txUsed[..], txUsedIdx, txLastUsed, txSeen, txOwned, tx, TX_BUFFERS, i, 0);
      FramesComplete(txFreeMask, tx, frames, txBuffers[..], txLen[..], i);
      txUsed[txUsedIdx % QUEUE_SIZE] := Used(i, 0);
      txUsedIdx, txOwned := (txUsedIdx + 1) % U16_LIMIT, txOwned - {i};
      tx := Complete(tx, i, 0);
    }

    // ---------- Receive ----------

    /** Offers a receive buffer to the device; the steps shared by set-up and `Receive`. */
    method Provide(i: nat)
      requires Valid() && i < RX_BUFFERS && rx.places[i] == Free
      modifies this`rx, this`rxAvailIdx, rxAvail
      ensures Valid() && rx == Post(old(rx), i)
    {
      hide Rings, FramesOk, QueueOk, PacketsOk, MaskOk, DeviceOk;
      ProvideStep(rxAvail[..], rxAvailIdx, rxUsed[..], rxUsedIdx, rxLastUsed, rxSeen, rxOwned, rx, i);
      PacketsPost(rx, packets, rxBuffers[..], i);
      rxAvail[rxAvailIdx % QUEUE_SIZE] := i;
      rxAvailIdx := (rxAvailIdx + 1) % U16_LIMIT;
      rx := Post(rx, i);
    }

    /** Offers all receive buffers, in order. */
    method PopulateRxQueue()
      requires Valid() && !initialized && rx == Queue([], 0, [], 0, seq(RX_BUFFERS, _ => Free))
      modifies this`rx, this`rxAvailIdx, this`initialized, rxAvail
      ensures Valid() && initialized && Circulating(rx) && Accounted(rx) && rx.posted == seq(RX_BUFFERS, i => i)
    {
      hide Rings, FramesOk, QueueOk, PacketsOk, MaskOk, DeviceOk;
      for i := 0 to RX_BUFFERS
        invariant Valid() && |rx.places| == RX_BUFFERS && rx.reaped == 0 && rx.posted == seq(i, k => k)
        invariant forall k :: 0 <= k < RX_BUFFERS ==> rx.places[k] == if k < i then Queued(k) else Free
      {
        Provide(i);
      }
      PopulatedAccounts(rx);
      initialized := true;
    }

    method DeviceTakes() returns (i: nat)
      requires Valid() && rxSeen != rxAvailIdx
      modifies this`rx, this`rxSeen, this`rxOwned
      ensures Valid() && old(rx.fetched) < |old(rx).posted| && PostedOk(old(rx), old(rx.fetched))
              && rx == Fetch(old(rx))
      ensures i == old(rx.posted[rx.fetched])
    {
      hide Rings, FramesOk, QueueOk, PacketsOk, MaskOk, DeviceOk;
      FetchStep(rxAvail[..], rxAvailIdx, rxUsed[..], rxUsedIdx, rxLastUsed, rxSeen, rxOwned, rx, RX_BUFFERS);
      PacketsFetch(rx, packets, rxBuffers[..]);
      i := rxAvail[rxSeen % QUEUE_SIZE];
      rxSeen, rxOwned := (rxSeen + 1) % U16_LIMIT, rxOwned + {i};
      rx := Fetch(rx);
    }

    /** The device writes a packet, header included, into a buffer it holds. */
    method DeviceDelivers(i: nat, packet: Frame)
      requires Valid() && i in rxOwned && |packet| <= BUF_SIZE
      modifies this`rx, this`rxUsedIdx, this`rxOwned, this`packets, rxUsed, rxBuffers
      ensures Valid() && i < RX_BUFFERS && RX_BUFFERS == |old(rx).places| && old(rx).places[i].Held?
      ensures rx == Complete(old(rx), i, |packet|)
      ensures packets == old(packets) + [packet]
    {
      hide Rings, FramesOk, QueueOk, PacketsOk, MaskOk, DeviceOk;
      CompleteStep(rxAvail[..], rxAvailIdx, rxUsed[..], rxUsedIdx, rxLastUsed, rxSeen, rxOwned, rx, RX_BUFFERS, i,
          |packet|);
      PacketsComplete(rx, packets, rxBuffers[..], i, packet);
      rxBuffers[i] := packet + rxBuffers[i][|packet|..];
      rxUsed[rxUsedIdx % QUEUE_SIZE] := Used(i, |packet|);
      rxUsedIdx, rxOwned := (rxUsedIdx + 1) % U16_LIMIT, rxOwned - {i};
      packets := packets + [packet];
      rx := Complete(rx, i, |packet|);
    }

    /** Hands out the oldest packet that has not been handed out, without its header and
        cut to the size of `buf`, and offers its buffer again. A completion of at most 12
        bytes is skipped, and its buffer stays with the driver for good. */
    method Receive(buf: array<Byte>) returns (r: Result<nat>)
      requires Valid()
      modifies this`rx, this`rxLastUsed, this`rxAvailIdx, rxAvail, buf
      ensures Valid()
      ensures r == Err(NotReady) <==> !initialized
      ensures r == Err(BufferEmpty) <==> initialized && old(rx).reaped == |old(rx).done|
      ensures r.Err? ==> buf[..] == old(buf[..])
      ensures r.Err? && r.error != InvalidState ==> rx == old(rx)
      ensures initialized && old(rx).reaped < |old(rx).done| ==>
                TakesOldest(old(rx), rx, packets, r, old(buf[..]), buf[..])
    {
      hide Rings, FramesOk, QueueOk, PacketsOk, MaskOk, DeviceOk, TakesOldest, TxOk, Reap;
      if !initialized { return Err(NotReady); }
      NoCompletion(rxAvail[..], rxAvailIdx, rxUsed[..], rxUsedIdx, rxLastUsed, rx, RX_BUFFERS);
      if rxLastUsed == rxUsedIdx { return Err(BufferEmpty); }
      var elem := OldestCompletion();
      ghost var q := rx;
      if elem.id >= RX_BUFFERS || elem.len <= HDR_SIZE {
        Advance();
        Skipped(q, rx, packets, buf[..]);
        return Err(InvalidState);
      }
      r := HandOut(elem, buf);
    }

    /** The packet of the oldest completion. */
    method HandOut(elem: Used, buf: array<Byte>) returns (r: Result<nat>)
      requires Valid() && rxLastUsed != rxUsedIdx && rx.reaped < |rx.done| && DoneOk(rx, rx.reaped)
      requires elem == rx.done[rx.reaped] && elem.id < RX_BUFFERS && elem.len > HDR_SIZE
      requires rx.reaped < |packets| && |packets[rx.reaped]| == elem.len <= BUF_SIZE == |rxBuffers[elem.id]|
      requires rxBuffers[elem.id][..elem.len] == packets[rx.reaped]
      modifies this`rx, this`rxLastUsed, this`rxAvailIdx, rxAvail, buf
      ensures Valid() && r.Ok? && TakesOldest(old(rx), rx, packets, r, old(buf[..]), buf[..])
    {
      hide Rings, FramesOk, QueueOk, PacketsOk, MaskOk, DeviceOk, TakesOldest, TxOk;
      ghost var q, before := rx, buf[..];
      var copyLen := Min(elem.len - HDR_SIZE, buf.Length);
      SamePacket(rxBuffers[elem.id], packets[rx.reaped], copyLen);
      CopyPacket(rxBuffers[elem.id], buf, copyLen);
      Advance();
      Provide(elem.id);
      r := Ok(copyLen);
      HandedOut(q, rx, packets, copyLen, before, buf[..]);
    }

    method OldestCompletion() returns (elem: Used)
      requires Valid() && rxLastUsed != rxUsedIdx
      ensures rx.reaped < |rx.done| && DoneOk(rx, rx.reaped) && elem == rx.done[rx.reaped] && elem.id < RX_BUFFERS
      ensures rx.reaped < |packets| && |packets[rx.reaped]| == elem.len <= BUF_SIZE == |rxBuffers[elem.id]|
      ensures rxBuffers[elem.id][..elem.len] == packets[rx.reaped]
    {
      hide Rings, FramesOk, QueueOk, PacketsOk, MaskOk, DeviceOk;
      OneCompletion(rxAvail[..], rxAvailIdx, rxUsed[..], rxUsedIdx, rxLastUsed, rx, RX_BUFFERS);
      PacketsReap(rx, packets, rxBuffers[..]);
      elem := rxUsed[rxLastUsed % QUEUE_SIZE];
    }

    method Advance()
      requires Valid() && rxLastUsed != rxUsedIdx
      modifies this`rx, this`rxLastUsed
      ensures Valid() && old(rx.reaped) < |old(rx).done| && DoneOk(old(rx), old(rx).reaped) && rx == Reap(old(rx))
    {
      hide Rings, FramesOk, QueueOk, PacketsOk, MaskOk, DeviceOk;
      OneCompletion(rxAvail[..], rxAvailIdx, rxUsed[..], rxUsedIdx, rxLastUsed, rx, RX_BUFFERS);
      PacketsReap(rx, packets, rxBuffers[..]);
      DeviceReap(rxSeen, rxOwned, rx);
      rxLastUsed := (rxLastUsed + 1) % U16_LIMIT;
      rx := Reap(rx);
    }

    /** Any interleaving of driver calls, interrupts and device steps. The device has always
        read a prefix of the transmitted frames, in order. The receive buffers that are out
        of circulation are as many as the completions without a packet that were taken; so
        all stay in circulation if the device delivers more than a header each time. */
    method Run(steps: seq<NetStep>)
      requires Valid() && Accounted(rx)
      requires forall k :: 0 <= k < |steps| && steps[k].Delivered? ==> |steps[k].packet| <= BUF_SIZE
      modifies this, rxAvail, rxUsed, rxBuffers, txAvail, txUsed, txLen, txBuffers
      ensures Valid() && Accounted(rx)
      ensures tx.fetched <= |frames| && sent == frames[..tx.fetched] && old(frames) <= frames && old(sent) <= sent
      ensures old(AllCirculate()) && AllLong(steps) ==> AllCirculate()
    {
      hide Accounted, LongCompletions, Circulating, TxOk, RxOk, Separate;
      ghost var long := AllCirculate() && AllLong(steps);
      var k := 0;
      while k < |steps|
        invariant 0 <= k <= |steps| && Valid() && Accounted(rx) && (long ==> AllCirculate() && AllLong(steps))
        invariant old(frames) <= frames && old(sent) <= sent
      {
        Perform(steps[k]);
        k := k + 1;
      }
      SentIsPrefix();
    }

    lemma SentIsPrefix()
      requires Valid()
      ensures tx.fetched <= |frames| && sent == frames[..tx.fetched]
    {
    }

    /** One step. A device step that the device cannot take is none. */
    method Perform(step: NetStep)
      requires Valid() && Accounted(rx) && (step.Delivered? ==> |step.packet| <= BUF_SIZE)
      modifies this, rxAvail, rxUsed, rxBuffers, txAvail, txUsed, txLen, txBuffers
      ensures Valid() && Accounted(rx) && old(frames) <= frames && old(sent) <= sent
      ensures old(AllCirculate()) && (step.Delivered? ==> |step.packet| > HDR_SIZE) ==> AllCirculate()
    {
      hide Rings, FramesOk, PacketsOk, MaskOk, DeviceOk, ReapAll, DoneOk, PostedOk, InPlace, Accounted;
      hide LongCompletions, Circulating;
      ghost var q, all := rx, AllCirculate() && (step.Delivered? ==> |step.packet| > HDR_SIZE);
      match step {
        case Transmitted(data) => var r := Transmit(data);
        case Interrupted => ReclaimTx();
        case Read => if txSeen != txAvailIdx { var frame := DeviceReads(); }
        case Returned(i) => if i in txOwned { DeviceReturns(i); }
        case Taken =>
          if rxSeen != rxAvailIdx {
            var i := DeviceTakes();
            FetchAccounts(q);
            if all { FetchCirculates(q); }
          }
        case Delivered(i, packet) =>
          if i in rxOwned {
            DeviceDelivers(i, packet);
            CompleteAccounts(q, i, |packet|);
            if all { CompleteCirculates(q, i, |packet|); }
          }
        case Received(size) =>
          var buf := new Byte[size];
          var r := Receive(buf);
          if r.Ok? || r == Err(InvalidState) {
            ReceiveAccounts(q);
            if all { ReceiveCirculates(q); }
          }
      }
    }

    ghost predicate AllCirculate()
      reads this
    {
      LongCompletions(rx) && Circulating(rx)
    }
  }

  /** The device delivers more than a header each time. */
  ghost predicate AllLong(steps: seq<NetStep>) {
    forall k :: 0 <= k < |steps| && steps[k].Delivered? ==> |steps[k].packet| > HDR_SIZE
  }

  // ---------- Buffers out of circulation ----------

  ghost function Lost(q: Queue): set<nat> { set i | 0 <= i < |q.places| && q.places[i] == Free }

  /** How many of the first `n` completions carry no more than a header. */
  ghost function Shorts(done: seq<Used>, n: nat): nat
    requires n <= |done|
  {
    if n == 0 then 0 else Shorts(done, n - 1) + if done[n - 1].len <= HDR_SIZE then 1 else 0
  }

  /** The buffers lost are as many as the short completions that were taken. */
  ghost predicate Accounted(q: Queue) {
    q.reaped <= |q.done| && |Lost(q)| == Shorts(q.done, q.reaped)
  }

  lemma {:induction false} ShortsOfPrefix(done: seq<Used>, more: seq<Used>, n: nat)
    requires n <= |done|
    ensures Shorts(done + more, n) == Shorts(done, n)
  {
    if n > 0 { ShortsOfPrefix(done, more, n - 1); }
  }

  lemma FetchAccounts(q: Queue)
    requires Accounted(q) && q.fetched < |q.posted| && PostedOk(q, q.fetched)
    ensures Accounted(Fetch(q))
  {
    assert Lost(Fetch(q)) == Lost(q);
  }

  lemma CompleteAccounts(q: Queue, i: nat, len: nat)
    requires Accounted(q) && i < |q.places| && q.places[i].Held?
    ensures Accounted(Complete(q, i, len))
  {
    assert Lost(Complete(q, i, len)) == Lost(q);
    ShortsOfPrefix(q.done, [Used(i, len)], q.reaped);
  }

  lemma ReceiveAccounts(q: Queue)
    requires Accounted(q) && q.reaped < |q.done| && DoneOk(q, q.reaped)
    ensures q.done[q.reaped].len <= HDR_SIZE ==> Accounted(Reap(q))
    ensures q.done[q.reaped].len > HDR_SIZE ==> Accounted(Post(Reap(q), q.done[q.reaped].id))
  {
    var i := q.done[q.reaped].id;
    assert Lost(Reap(q)) == Lost(q) + {i};
    assert Lost(Post(Reap(q), i)) == Lost(q);
  }

  lemma PopulatedAccounts(q: Queue)
    requires Circulating(q) && q.reaped == 0
    ensures Accounted(q)
  {
    assert Lost(q) == {};
  }

  datatype NetStep =
    | Transmitted(data: Frame) | Interrupted | Received(size: nat)
    | Read | Returned(i: nat) | Taken | Delivered(i: nat, packet: Frame)

  /** Every completion that waits is longer than a header. */
  ghost predicate LongCompletions(q: Queue) {
    forall k :: 0 <= q.reaped <= k < |q.done| ==> q.done[k].len > HDR_SIZE
  }

  lemma FetchCirculates(q: Queue)
    requires Circulating(q) && LongCompletions(q) && q.fetched < |q.posted| && PostedOk(q, q.fetched)
    ensures Circulating(Fetch(q)) && LongCompletions(Fetch(q))
  {
  }

  lemma CompleteCirculates(q: Queue, i: nat, len: nat)
    requires Circulating(q) && LongCompletions(q) && i < |q.places| && len > HDR_SIZE
    ensures Circulating(Complete(q, i, len)) && LongCompletions(Complete(q, i, len))
  {
  }

  lemma ReceiveCirculates(q: Queue)
    requires Circulating(q) && LongCompletions(q) && q.reaped < |q.done| && DoneOk(q, q.reaped)
    ensures q.done[q.reaped].len > HDR_SIZE
    ensures Circulating(Post(Reap(q), q.done[q.reaped].id)) && LongCompletions(Post(Reap(q), q.done[q.reaped].id))
  {
  }

  /** From `q` to `q1` the oldest completion was taken. One with a packet hands the packet out,
      without its header and cut to the size of the caller's buffer, and its own buffer is
      offered again; one without keeps its buffer. All stay in circulation in the first case
      only. */
  ghost predicate TakesOldest(
      q: Queue, q1: Queue, packets: seq<Frame>, r: Result<nat>, before: seq<Byte>, after: seq<Byte>)
  {
    && q.reaped < |q.done| && DoneOk(q, q.reaped) && q.reaped < |packets|
    && var e, packet := q.done[q.reaped], packets[q.reaped];
       && |packet| == e.len && (Circulating(q) ==> (Circulating(q1) <==> e.len > HDR_SIZE))
       && if e.len <= HDR_SIZE then r == Err(InvalidState) && q1 == Reap(q)
          else
            var n := Min(e.len - HDR_SIZE, |before|);
            r == Ok(n) && q1 == Post(Reap(q), e.id) && after == packet[HDR_SIZE..HDR_SIZE + n] + before[n..]
  }

  lemma Skipped(q: Queue, q1: Queue, packets: seq<Frame>, buf: seq<Byte>)
    requires q.reaped < |q.done| && DoneOk(q, q.reaped) && q.reaped < |packets|
    requires |packets[q.reaped]| == q.done[q.reaped].len <= HDR_SIZE && q1 == Reap(q)
    ensures TakesOldest(q, q1, packets, Err(InvalidState), buf, buf)
  {
    ReapTakesOut(q);
  }

  lemma HandedOut(q: Queue, q1: Queue, packets: seq<Frame>, n: nat, before: seq<Byte>, after: seq<Byte>)
    requires q.reaped < |q.done| && DoneOk(q, q.reaped) && q.reaped < |packets|
    requires |packets[q.reaped]| == q.done[q.reaped].len > HDR_SIZE && q1 == Post(Reap(q), q.done[q.reaped].id)
    requires n == Min(q.done[q.reaped].len - HDR_SIZE, |before|)
    requires after == packets[q.reaped][HDR_SIZE..HDR_SIZE + n] + before[n..]
    ensures TakesOldest(q, q1, packets, Ok(n), before, after)
  {
    ReapTakesOut(q);
  }

  function Min(a: int, b: int): int { if a < b then a else b }

  method CopyPacket(from: Frame, buf: array<Byte>, n: nat)
    requires n <= buf.Length && HDR_SIZE + n <= |from|
    modifies buf
    ensures buf[..] == from[HDR_SIZE..HDR_SIZE + n] + old(buf[..])[n..]
  {
    for i := 0 to n
      invariant buf[..i] == from[HDR_SIZE..HDR_SIZE + i] && buf[i..] == old(buf[i..])
    {
      buf[i] := from[HDR_SIZE + i];
      assert buf[..i + 1] == buf[..i] + [from[HDR_SIZE + i]];
    }
    assert buf[..] == buf[..n] + buf[n..];
  }

  lemma SamePacket(buffer: Frame, packet: Frame, n: nat)
    requires HDR_SIZE + n <= |packet| <= |buffer| && buffer[..|packet|] == packet
    ensures buffer[HDR_SIZE..HDR_SIZE + n] == packet[HDR_SIZE..HDR_SIZE + n]
  {
    assert buffer[..|packet|][HDR_SIZE..HDR_SIZE + n] == buffer[HDR_SIZE..HDR_SIZE + n];
  }

  /** No receive buffer is out of circulation. */
  ghost predicate Circulating(q: Queue) { forall i :: 0 <= i < |q.places| ==> q.places[i] != Free }

  lemma ProvideStep(avail: seq<nat>, availIdx: nat, used: seq<Used>, usedIdx: nat, lastUsed: nat, seen: nat,
        owned: set<nat>, q: Queue, i: nat)
    requires QueueOk(q, RX_BUFFERS) && Rings(avail, availIdx, used, usedIdx, lastUsed, q) && DeviceOk(seen, owned, q)
    requires i < RX_BUFFERS && q.places[i] == Free
    ensures |q.places| == RX_BUFFERS
    ensures availIdx % QUEUE_SIZE < |avail| && QueueOk(Post(q, i), RX_BUFFERS)
    ensures Rings(avail[availIdx % QUEUE_SIZE := i], (availIdx + 1) % U16_LIMIT, used, usedIdx, lastUsed, Post(q, i))
    ensures DeviceOk(seen, owned, Post(q, i))
  {
    PostKeeps(q, RX_BUFFERS, i);
    RingsNeverFull(q, RX_BUFFERS);
    PostRings(avail, availIdx, used, usedIdx, lastUsed, q, i);
    hide QueueOk, Rings;
  }

  lemma PacketsPost(q: Queue, packets: seq<Frame>, buffers: seq<Frame>, i: nat)
    requires PacketsOk(q, packets, buffers) && i < |q.places|
    ensures PacketsOk(Post(q, i), packets, buffers)
  {
    forall j | 0 <= j < |buffers|
        ensures PacketOk(Post(q, i), packets, buffers, j) { assert PacketOk(q, packets, buffers, j); }
  }

  lemma PacketsFetch(q: Queue, packets: seq<Frame>, buffers: seq<Frame>)
    requires PacketsOk(q, packets, buffers) && q.fetched < |q.posted| && PostedOk(q, q.fetched)
    ensures PacketsOk(Fetch(q), packets, buffers)
  {
    forall j | 0 <= j < |buffers|
        ensures PacketOk(Fetch(q), packets, buffers, j) { assert PacketOk(q, packets, buffers, j); }
  }

  lemma PacketsComplete(q: Queue, packets: seq<Frame>, buffers: seq<Frame>, i: nat, packet: Frame)
    requires PacketsOk(q, packets, buffers) && i < |q.places| && |packet| <= BUF_SIZE
    ensures |buffers| == |q.places| && |buffers[i]| == BUF_SIZE
    ensures PacketsOk(Complete(q, i, |packet|), packets + [packet], buffers[i := packet + buffers[i][|packet|..]])
  {
    var bs, ps, r := buffers[i := packet + buffers[i][|packet|..]], packets + [packet], Complete(q, i, |packet|);
    forall j | 0 <= j < |bs| ensures PacketOk(r, ps, bs, j) { assert PacketOk(q, packets, buffers, j); }
  }

  lemma PacketsReap(q: Queue, packets: seq<Frame>, buffers: seq<Frame>)
    requires PacketsOk(q, packets, buffers) && q.reaped < |q.done| && DoneOk(q, q.reaped)
    ensures PacketsOk(Reap(q), packets, buffers) && |packets| == |q.done| && |buffers| == |q.places|
    ensures var e := q.done[q.reaped];
            && |packets[q.reaped]| == e.len <= BUF_SIZE == |buffers[e.id]|
            && buffers[e.id][..e.len] == packets[q.reaped]
  {
    assert PacketOk(q, packets, buffers, q.done[q.reaped].id);
    forall j | 0 <= j < |buffers|
        ensures PacketOk(Reap(q), packets, buffers, j) { assert PacketOk(q, packets, buffers, j); }
  }

  lemma DeviceReap(seen: nat, owned: set<nat>, q: Queue)
    requires DeviceOk(seen, owned, q) && q.reaped < |q.done| && DoneOk(q, q.reaped)
    ensures DeviceOk(seen, owned, Reap(q))
  {
  }

  /** Taking a completion takes its buffer out of circulation; offering it puts it back. */
  lemma ReapTakesOut(q: Queue)
    requires q.reaped < |q.done| && DoneOk(q, q.reaped)
    ensures !Circulating(Reap(q))
    ensures Circulating(q) ==> Circulating(Post(Reap(q), q.done[q.reaped].id))
  {
    assert Reap(q).places[q.done[q.reaped].id] == Free;
  }

  /** With the driver, or about to be: the driver may use buffer `i`. */
  ghost predicate Idle(q: Queue, i: nat) {
    i < |q.places| && (q.places[i] == Free || q.places[i].Done?)
  }

  ghost predicate HasIdle(q: Queue) { exists i :: 0 <= i < |q.places| && Idle(q, i) }

  ghost function FirstFree(places: seq<Place>): nat {
    if places == [] || places[0] == Free then 0 else 1 + FirstFree(places[1..])
  }

  lemma {:induction false} FirstFreeIs(places: seq<Place>, k: nat)
    requires k < |places| && places[k] == Free && forall i :: 0 <= i < k ==> places[i] != Free
    ensures FirstFree(places) == k
    decreases k
  {
    if k > 0 { FirstFreeIs(places[1..], k - 1); }
  }

  /** Reaping frees the buffers that the device is done with, and no others. */
  lemma IdleAfterReap(q: Queue, n: nat)
    requires QueueOk(q, n)
    ensures |q.places| == n
    ensures forall i :: 0 <= i < n ==> (Idle(q, i) <==> ReapAll(q, n).places[i] == Free)
    ensures HasIdle(q) <==> exists i :: 0 <= i < n && ReapAll(q, n).places[i] == Free
  {
    ReapAllFrees(q, n);
  }

  lemma FreeMask(mask: nat, q: Queue)
    requires MaskOk(mask, q)
    ensures |q.places| == TX_BUFFERS
    ensures mask == 0 <==> forall i :: 0 <= i < TX_BUFFERS ==> q.places[i] != Free
    ensures mask > 0 ==> LowestSet(mask) == FirstFree(q.places) < TX_BUFFERS && q.places[FirstFree(q.places)] == Free
  {
    hide Bit, Pow2, LowestSet;
    if mask == 0 {
      forall i | 0 <= i < TX_BUFFERS ensures !Bit(mask, i) { ZeroHasNoBits(i); }
    } else {
      LowestSetIsLowest(mask, TX_BUFFERS);
      FirstFreeIs(q.places, LowestSet(mask));
    }
  }

  lemma PostStep(avail: seq<nat>, availIdx: nat, used: seq<Used>, usedIdx: nat, lastUsed: nat, mask: nat, seen: nat,
        owned: set<nat>, q: Queue, i: nat)
    requires QueueOk(q, TX_BUFFERS) && Rings(avail, availIdx, used, usedIdx, lastUsed, q) && MaskOk(mask, q)
             && DeviceOk(seen, owned, q)
    requires i < TX_BUFFERS && q.places[i] == Free
    ensures availIdx % QUEUE_SIZE < |avail| && QueueOk(Post(q, i), TX_BUFFERS) && MaskOk(ClearBit(mask, i), Post(q, i))
    ensures Rings(avail[availIdx % QUEUE_SIZE := i], (availIdx + 1) % U16_LIMIT, used, usedIdx, lastUsed, Post(q, i))
    ensures DeviceOk(seen, owned, Post(q, i))
  {
    hide Bit, Pow2, ClearBit, QueueOk, Rings;
    PostKeeps(q, TX_BUFFERS, i);
    RingsNeverFull(q, TX_BUFFERS);
    PostRings(avail, availIdx, used, usedIdx, lastUsed, q, i);
    BitsFit(mask, i, TX_BUFFERS);
    forall j | 0 <= j < TX_BUFFERS
      ensures Bit(ClearBit(mask, i), j) <==> Post(q, i).places[j] == Free
    {
      ClearBitBits(mask, i, j);
    }
  }

  lemma FramesPost(q: Queue, frames: seq<Frame>, buffers: seq<Frame>, lens: seq<nat>, i: nat, frame: Frame)
    requires FramesOk(q, frames, buffers, lens) && i < |buffers| && |frame| <= BUF_SIZE
    ensures |buffers| == |lens| == |q.places| && |buffers[i]| == BUF_SIZE
    ensures FramesOk(Post(q, i), frames + [frame], buffers[i := frame + buffers[i][|frame|..]], lens[i := |frame|])
  {
    var bs, ls, fs := buffers[i := frame + buffers[i][|frame|..]], lens[i := |frame|], frames + [frame];
    forall j | 0 <= j < |bs| ensures FrameOk(Post(q, i), fs, bs, ls, j) { assert FrameOk(q, frames, buffers, lens, j); }
  }

  lemma FetchStep(avail: seq<nat>, availIdx: nat, used: seq<Used>, usedIdx: nat, lastUsed: nat, seen: nat,
        owned: set<nat>, q: Queue, n: nat)
    requires QueueOk(q, n) && n < U16_LIMIT && Rings(avail, availIdx, used, usedIdx, lastUsed, q)
             && DeviceOk(seen, owned, q) && seen != availIdx
    ensures q.fetched < |q.posted| && PostedOk(q, q.fetched) && QueueOk(Fetch(q), n) && n == |q.places|
    ensures seen % QUEUE_SIZE < |avail| && avail[seen % QUEUE_SIZE] == q.posted[q.fetched]
    ensures Rings(avail, availIdx, used, usedIdx, lastUsed, Fetch(q))
    ensures DeviceOk((seen + 1) % U16_LIMIT, owned + {q.posted[q.fetched]}, Fetch(q))
  {
    RingsNeverFull(q, n);
    EmptyByIndex(q.fetched, |q.posted|);
    FetchKeeps(q, n);
    FetchRings(avail, availIdx, used, usedIdx, lastUsed, q);
    Slots(q.fetched);
    hide QueueOk, Rings, DoneOk, InPlace;
  }

  lemma FramesFetch(mask: nat, q: Queue, frames: seq<Frame>, buffers: seq<Frame>, lens: seq<nat>)
    requires MaskOk(mask, q) && FramesOk(q, frames, buffers, lens) && q.fetched < |q.posted| && PostedOk(q, q.fetched)
    ensures MaskOk(mask, Fetch(q)) && FramesOk(Fetch(q), frames, buffers, lens)
    ensures |q.places| == |buffers| == |lens| && |frames| == |q.posted|
    ensures var i := q.posted[q.fetched]; lens[i] <= |buffers[i]| && buffers[i][..lens[i]] == frames[q.fetched]
  {
    hide Bit, Pow2;
    assert FrameOk(q, frames, buffers, lens, q.posted[q.fetched]);
    forall j | 0 <= j < |buffers|
        ensures FrameOk(Fetch(q), frames, buffers, lens, j) { assert FrameOk(q, frames, buffers, lens, j); }
  }

  lemma CompleteStep(avail: seq<nat>, availIdx: nat, used: seq<Used>, usedIdx: nat, lastUsed: nat, seen: nat,
        owned: set<nat>, q: Queue, n: nat, i: nat, len: nat)
    requires QueueOk(q, n) && n < QUEUE_SIZE && Rings(avail, availIdx, used, usedIdx, lastUsed, q)
             && DeviceOk(seen, owned, q) && i in owned
    ensures i < n == |q.places| && q.places[i].Held? && QueueOk(Complete(q, i, len), n)
    ensures usedIdx % QUEUE_SIZE < |used|
    ensures Rings(avail, availIdx, used[usedIdx % QUEUE_SIZE := Used(i, len)], (usedIdx + 1) % U16_LIMIT, lastUsed,
            Complete(q, i, len))
    ensures DeviceOk(seen, owned - {i}, Complete(q, i, len))
  {
    RingsNeverFull(q, n);
    CompleteKeeps(q, n, i, len);
    CompleteRings(avail, availIdx, used, usedIdx, lastUsed, q, i, len);
    hide QueueOk, Rings, DoneOk, InPlace;
  }

  lemma FramesComplete(mask: nat, q: Queue, frames: seq<Frame>, buffers: seq<Frame>, lens: seq<nat>, i: nat)
    requires MaskOk(mask, q) && FramesOk(q, frames, buffers, lens) && i < |q.places| && q.places[i].Held?
    ensures MaskOk(mask, Complete(q, i, 0)) && FramesOk(Complete(q, i, 0), frames, buffers, lens)
  {
    hide Bit, Pow2;
    forall j | 0 <= j < |buffers|
        ensures FrameOk(Complete(q, i, 0), frames, buffers, lens, j) { assert FrameOk(q, frames, buffers, lens, j); }
  }

  lemma Initially(avail: seq<nat>, used: seq<Used>, buffers: seq<Frame>, lens: seq<nat>, n: nat)
    requires |avail| == |used| == QUEUE_SIZE && |buffers| == |lens| == n
    requires forall i :: 0 <= i < n ==> |buffers[i]| == BUF_SIZE
    ensures var q := Queue([], 0, [], 0, seq(n, _ => Free));
            && QueueOk(q, n) && Rings(avail, 0, used, 0, 0, q) && DeviceOk(0, {}, q)
            && FramesOk(q, [], buffers, lens) && PacketsOk(q, [], buffers)
  {
  }

  lemma AllFree()
    ensures MaskOk(0xFFFF, Queue([], 0, [], 0, seq(TX_BUFFERS, _ => Free)))
  {
    assert Pow2(8) == 256;
    LowestClearIsLowest(0xFFFF, TX_BUFFERS);
  }

  /** A completion waits exactly when the indices differ; it is the one at the slot. */
  lemma OneCompletion(avail: seq<nat>, availIdx: nat, used: seq<Used>, usedIdx: nat, lastUsed: nat, q: Queue, n: nat)
    requires QueueOk(q, n) && n < U16_LIMIT && Rings(avail, availIdx, used, usedIdx, lastUsed, q) && lastUsed != usedIdx
    ensures q.reaped < |q.done| && DoneOk(q, q.reaped) && QueueOk(Reap(q), n) && |q.places| == n
    ensures lastUsed % QUEUE_SIZE < |used| && used[lastUsed % QUEUE_SIZE] == q.done[q.reaped]
    ensures Rings(avail, availIdx, used, usedIdx, (lastUsed + 1) % U16_LIMIT, Reap(q))
    ensures ReapAll(q, n) == ReapAll(Reap(q), n)
  {
    hide QueueOk;
    EmptyByIndex(q.reaped, |q.done|) by { RingsNeverFull(q, n); }
    ReapKeeps(q, n);
    ReapRings(avail, availIdx, used, usedIdx, lastUsed, q);
  }

  lemma NoCompletion(avail: seq<nat>, availIdx: nat, used: seq<Used>, usedIdx: nat, lastUsed: nat, q: Queue, n: nat)
    requires QueueOk(q, n) && n < U16_LIMIT && Rings(avail, availIdx, used, usedIdx, lastUsed, q)
    ensures lastUsed == usedIdx <==> q.reaped == |q.done|
    ensures lastUsed == usedIdx ==> ReapAll(q, n) == q
  {
    hide QueueOk;
    RingsNeverFull(q, n);
    EmptyByIndex(q.reaped, |q.done|);
  }

  lemma MaskReap(mask: nat, q: Queue)
    requires MaskOk(mask, q) && q.reaped < |q.done| && DoneOk(q, q.reaped)
    ensures MaskOk(SetBit(mask, q.done[q.reaped].id), Reap(q))
  {
    hide Bit, Pow2, SetBit;
    var j := q.done[q.reaped].id;
    BitsFit(mask, j, TX_BUFFERS);
    forall i | 0 <= i < TX_BUFFERS
      ensures Bit(SetBit(mask, j), i) <==> Reap(q).places[i] == Free
    {
      SetBitBits(mask, j, i);
    }
  }

  lemma FramesReap(q: Queue, frames: seq<Frame>, buffers: seq<Frame>, lens: seq<nat>)
    requires FramesOk(q, frames, buffers, lens) && q.reaped < |q.done| && DoneOk(q, q.reaped)
    ensures FramesOk(Reap(q), frames, buffers, lens)
  {
    forall i | 0 <= i < |buffers|
        ensures FrameOk(Reap(q), frames, buffers, lens, i) { assert FrameOk(q, frames, buffers, lens, i); }
  }
}
