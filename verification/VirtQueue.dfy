/** A split virtqueue as a protocol between driver and device (virtio.rs; section 2.6 of
    VIRTIO 1.1): the complete history of both rings, and where each buffer is. */
module VirtQueue {

  const QUEUE_SIZE := 64
  const U16_LIMIT := 0x1_0000

  /** An element of the used ring. */
  datatype Used = Used(id: nat, len: nat)

  /** A buffer is with the driver, in the available ring at a post number, with the device
      since that post, or in the used ring at a completion number. */
  datatype Place = Free | Queued(post: nat) | Held(post: nat) | Done(completion: nat)

  /** Everything ever posted, how much of it the device fetched, everything ever completed,
      how much of it the driver reaped, and the place of every buffer. */
  datatype Queue = Queue(posted: seq<nat>, fetched: nat, done: seq<Used>, reaped: nat, places: seq<Place>)

  ghost predicate InPlace(q: Queue, i: nat)
    requires i < |q.places|
  {
    match q.places[i]
    case Free => true
    case Queued(k) => q.fetched <= k < |q.posted| && q.posted[k] == i
    case Held(k) => k < q.fetched <= |q.posted| && q.posted[k] == i
    case Done(k) => q.reaped <= k < |q.done| && q.done[k].id == i
  }

  ghost predicate PostedOk(q: Queue, k: nat)
    requires k < |q.posted|
  {
    q.posted[k] < |q.places| && q.places[q.posted[k]] == Queued(k)
  }

  ghost predicate DoneOk(q: Queue, k: nat)
    requires k < |q.done|
  {
    q.done[k].id < |q.places| && q.places[q.done[k].id] == Done(k)
  }

  /** Each of the `n` buffers is in exactly one place, and the rings hold nothing else. */
  ghost predicate QueueOk(q: Queue, n: nat) {
    && |q.places| == n && q.fetched <= |q.posted| && q.reaped <= |q.done|
    && (forall k :: q.fetched <= k < |q.posted| ==> PostedOk(q, k))
    && (forall k :: q.reaped <= k < |q.done| ==> DoneOk(q, k))
    && (forall i :: 0 <= i < n ==> InPlace(q, i))
  }

  // ---------- Steps ----------

  /** The driver offers a buffer of its own. */
  function Post(q: Queue, i: nat): Queue
    requires i < |q.places|
  {
    q.(posted := q.posted + [i], places := q.places[i := Queued(|q.posted|)])
  }

  /** The device takes the oldest buffer on offer. */
  function Fetch(q: Queue): Queue
    requires q.fetched < |q.posted| && q.posted[q.fetched] < |q.places|
  {
    q.(fetched := q.fetched + 1, places := q.places[q.posted[q.fetched] := Held(q.fetched)])
  }

  /** The device gives a buffer back, in any order. */
  function Complete(q: Queue, i: nat, len: nat): Queue
    requires i < |q.places|
  {
    q.(done := q.done + [Used(i, len)], places := q.places[i := Done(|q.done|)])
  }

  /** The driver takes the oldest completion. */
  function Reap(q: Queue): Queue
    requires q.reaped < |q.done| && q.done[q.reaped].id < |q.places|
  {
    q.(reaped := q.reaped + 1, places := q.places[q.done[q.reaped].id := Free])
  }

  lemma PostKeeps(q: Queue, n: nat, i: nat)
    requires QueueOk(q, n) && i < n && q.places[i] == Free
    ensures QueueOk(Post(q, i), n)
  {
    var r := Post(q, i);
    forall k | r.fetched <= k < |r.posted| ensures PostedOk(r, k) { assert k < |q.posted| ==> PostedOk(q, k); }
    forall k | r.reaped <= k < |r.done| ensures DoneOk(r, k) { assert DoneOk(q, k); }
    forall j | 0 <= j < n ensures InPlace(r, j) { assert InPlace(q, j); }
  }

  lemma FetchKeeps(q: Queue, n: nat)
    requires QueueOk(q, n) && q.fetched < |q.posted|
    ensures PostedOk(q, q.fetched) && QueueOk(Fetch(q), n)
  {
    assert PostedOk(q, q.fetched);
    var r := Fetch(q);
    forall k | r.fetched <= k < |r.posted| ensures PostedOk(r, k) { assert PostedOk(q, k); }
    forall k | r.reaped <= k < |r.done| ensures DoneOk(r, k) { assert DoneOk(q, k); }
    forall j | 0 <= j < n ensures InPlace(r, j) { assert InPlace(q, j); }
  }

  lemma CompleteKeeps(q: Queue, n: nat, i: nat, len: nat)
    requires QueueOk(q, n) && i < n && q.places[i].Held?
    ensures QueueOk(Complete(q, i, len), n)
  {
    var r := Complete(q, i, len);
    forall k | r.fetched <= k < |r.posted| ensures PostedOk(r, k) { assert PostedOk(q, k); }
    forall k | r.reaped <= k < |r.done| ensures DoneOk(r, k) { assert k < |q.done| ==> DoneOk(q, k); }
    forall j | 0 <= j < n ensures InPlace(r, j) { assert InPlace(q, j); }
  }

  lemma ReapKeeps(q: Queue, n: nat)
    requires QueueOk(q, n) && q.reaped < |q.done|
    ensures DoneOk(q, q.reaped) && QueueOk(Reap(q), n)
  {
    assert DoneOk(q, q.reaped);
    var r := Reap(q);
    forall k | r.fetched <= k < |r.posted| ensures PostedOk(r, k) { assert PostedOk(q, k); }
    forall k | r.reaped <= k < |r.done| ensures DoneOk(r, k) { assert DoneOk(q, k); }
    forall j | 0 <= j < n ensures InPlace(r, j) { assert InPlace(q, j); }
  }

  // ---------- No ring holds more than there are buffers ----------

  lemma {:induction false} Distinct(s: seq<nat>, n: nat)
    requires forall i :: 0 <= i < |s| ==> s[i] < n
    requires forall i, j :: 0 <= i < j < |s| ==> s[i] != s[j]
    ensures |s| <= n
    decreases n
  {
    if |s| > 0 {
      assert s[0] < n;
      if i :| 0 <= i < |s| && s[i] == n - 1 {
        Distinct(s[..i] + s[i + 1..], n - 1);
      } else {
        Distinct(s, n - 1);
      }
    }
  }

  /** At most `n` buffers are on offer, and at most `n` completions wait. */
  lemma RingsNeverFull(q: Queue, n: nat)
    requires QueueOk(q, n)
    ensures |q.posted| - q.fetched <= n && |q.done| - q.reaped <= n
  {
    var offers := q.posted[q.fetched..];
    forall i | 0 <= i < |offers| ensures offers[i] < n && q.places[offers[i]] == Queued(q.fetched + i) {
      assert PostedOk(q, q.fetched + i);
    }
    Distinct(offers, n);
    var n1 := |q.done| - q.reaped;
    var back: seq<nat> := seq<nat>(n1, i requires 0 <= i < n1 => q.done[q.reaped + i].id);
    forall i | 0 <= i < |back| ensures back[i] == q.done[q.reaped + i].id && DoneOk(q, q.reaped + i) {}
    Distinct(back, n);
  }

  // ---------- The rings in memory ----------

  /** The rings and their 16-bit indices show the part of the history that is still open.
      `avail`, `used` are the ring arrays; the other three are the wrapping counters. */
  ghost predicate Rings(avail: seq<nat>, availIdx: nat, used: seq<Used>, usedIdx: nat, lastUsed: nat, q: Queue) {
    && |avail| == QUEUE_SIZE && |used| == QUEUE_SIZE && q.fetched <= |q.posted| && q.reaped <= |q.done|
    && availIdx == |q.posted| % U16_LIMIT && usedIdx == |q.done| % U16_LIMIT && lastUsed == q.reaped % U16_LIMIT
    && (forall k :: q.fetched <= k < |q.posted| ==> avail[k % QUEUE_SIZE] == q.posted[k])
    && (forall k :: q.reaped <= k < |q.done| ==> used[k % QUEUE_SIZE] == q.done[k])
  }

  lemma Slots(a: nat)
    ensures a % U16_LIMIT % QUEUE_SIZE == a % QUEUE_SIZE
    ensures (a % U16_LIMIT + 1) % U16_LIMIT == (a + 1) % U16_LIMIT
  {
    assert a == a / U16_LIMIT * U16_LIMIT + a % U16_LIMIT;
  }

  /** Comparing wrapped indices tells whether a ring is empty. */
  lemma EmptyByIndex(a: nat, b: nat)
    requires a <= b < a + U16_LIMIT
    ensures a % U16_LIMIT == b % U16_LIMIT <==> a == b
  {
  }

  /** Posting writes a slot that the device has consumed. */
  lemma PostRings(avail: seq<nat>, availIdx: nat, used: seq<Used>, usedIdx: nat, lastUsed: nat, q: Queue, i: nat)
    requires Rings(avail, availIdx, used, usedIdx, lastUsed, q) && i < |q.places| && |q.posted| - q.fetched < QUEUE_SIZE
    ensures availIdx % QUEUE_SIZE < |avail|
    ensures Rings(avail[availIdx % QUEUE_SIZE := i], (availIdx + 1) % U16_LIMIT, used, usedIdx, lastUsed, Post(q, i))
    ensures forall k :: q.fetched <= k < |q.posted| ==> k % QUEUE_SIZE != availIdx % QUEUE_SIZE
  {
    var n := |q.posted|;
    Slots(n);
    forall k | q.fetched <= k < n ensures k % QUEUE_SIZE != n % QUEUE_SIZE { OtherSlot(k, n); }
  }

  lemma OtherSlot(k: nat, n: nat)
    requires k < n < k + QUEUE_SIZE
    ensures k % QUEUE_SIZE != n % QUEUE_SIZE
  {
  }

  lemma FetchRings(avail: seq<nat>, availIdx: nat, used: seq<Used>, usedIdx: nat, lastUsed: nat, q: Queue)
    requires Rings(avail, availIdx, used, usedIdx, lastUsed, q) && q.fetched < |q.posted|
             && q.posted[q.fetched] < |q.places|
    ensures avail[q.fetched % QUEUE_SIZE] == q.posted[q.fetched]
    ensures Rings(avail, availIdx, used, usedIdx, lastUsed, Fetch(q))
  {
  }

  lemma CompleteRings(avail: seq<nat>, availIdx: nat, used: seq<Used>, usedIdx: nat, lastUsed: nat, q: Queue, i: nat,
        len: nat)
    requires Rings(avail, availIdx, used, usedIdx, lastUsed, q) && i < |q.places| && |q.done| - q.reaped < QUEUE_SIZE
    ensures usedIdx % QUEUE_SIZE < |used|
    ensures Rings(avail, availIdx, used[usedIdx % QUEUE_SIZE := Used(i, len)], (usedIdx + 1) % U16_LIMIT, lastUsed,
            Complete(q, i, len))
  {
    var n := |q.done|;
    Slots(n);
    forall k | q.reaped <= k < n ensures k % QUEUE_SIZE != n % QUEUE_SIZE { OtherSlot(k, n); }
  }

  lemma ReapRings(avail: seq<nat>, availIdx: nat, used: seq<Used>, usedIdx: nat, lastUsed: nat, q: Queue)
    requires Rings(avail, availIdx, used, usedIdx, lastUsed, q) && q.reaped < |q.done|
             && q.done[q.reaped].id < |q.places|
    ensures lastUsed % QUEUE_SIZE < |used| && used[lastUsed % QUEUE_SIZE] == q.done[q.reaped]
    ensures Rings(avail, availIdx, used, usedIdx, (lastUsed + 1) % U16_LIMIT, Reap(q))
  {
    Slots(q.reaped);
  }
}
