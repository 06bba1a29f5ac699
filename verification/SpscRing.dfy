/** The lock-free ring between the loop thread and the parser thread (common/util/SpscRingBuffer.cpp),
    stepped one shared access at a time. */
module SpscRing {
  import opened Bytes

  const BUDGET := 0x40_0000
  const DEFAULT_SLOTS := 64
  const MIN_SLOTS := 4

  /** SpscRingBuffer.cpp:7-16. */
  function SlotCountFor(slotSize: nat): (r: nat)
    ensures MIN_SLOTS <= r <= DEFAULT_SLOTS
  {
    if slotSize == 0 then DEFAULT_SLOTS
    else if BUDGET / slotSize < MIN_SLOTS then MIN_SLOTS
    else if BUDGET / slotSize < DEFAULT_SLOTS then BUDGET / slotSize
    else DEFAULT_SLOTS
  }

  lemma QuotientBounds(n: nat, d: nat)
    requires d > 0
    ensures n / d * d <= n < (n / d + 1) * d
  {
    assert n == n / d * d + n % d;
  }

  /** Between the two clamps: as many slots as fit, and no more. */
  lemma UnclampedFits(slotSize: nat)
    requires slotSize > 0 && MIN_SLOTS <= BUDGET / slotSize < DEFAULT_SLOTS
    ensures SlotCountFor(slotSize) * slotSize <= BUDGET < (SlotCountFor(slotSize) + 1) * slotSize
  {
    QuotientBounds(BUDGET, slotSize);
  }

  /** Whenever at least `count` slots fit, that many do not exceed the budget. */
  lemma AtLeastFits(count: nat, slotSize: nat)
    requires slotSize > 0 && count <= BUDGET / slotSize
    ensures count * slotSize <= BUDGET
  {
    QuotientBounds(BUDGET, slotSize);
    MulMonotone(count, BUDGET / slotSize, slotSize);
  }

  /** The ring stays within its memory budget whenever four slots fit into it, and no further slot
      would fit unless the default count is reached. */
  lemma SlotCountWithinBudget(slotSize: nat)
    ensures slotSize <= BUDGET / MIN_SLOTS <==> SlotCountFor(slotSize) * slotSize <= BUDGET
    ensures MIN_SLOTS < SlotCountFor(slotSize) < DEFAULT_SLOTS ==> (SlotCountFor(slotSize) + 1) * slotSize > BUDGET
  {
    if slotSize == 0 {
      assert SlotCountFor(slotSize) * slotSize == 0;
    } else if BUDGET / slotSize < MIN_SLOTS {
      assert SlotCountFor(slotSize) * slotSize == MIN_SLOTS * slotSize;
    } else {
      AtLeastFits(MIN_SLOTS, slotSize);
      if BUDGET / slotSize < DEFAULT_SLOTS {
        UnclampedFits(slotSize);
      } else {
        AtLeastFits(DEFAULT_SLOTS, slotSize);
      }
    }
  }

  lemma MulMonotone(a: nat, b: nat, k: nat)
    requires a <= b
    ensures a * k <= b * k
  {}

  // ---- Indices of fixed width ----

  const INDEX_LIMIT := 0x1_0000_0000_0000_0000

  lemma {:induction false} ShiftedIndex(i: nat, count: nat, q: nat, d: nat)
    requires count > 0 && INDEX_LIMIT == count * q
    ensures (INDEX_LIMIT * d + i) % count == i % count
  {
    assert INDEX_LIMIT * d + i == count * (q * d) + i by {
      assert INDEX_LIMIT * d == count * q * d == count * (q * d);
    }
    AddMultiple(i, count, q * d);
  }

  lemma {:induction false} AddMultiple(i: nat, count: nat, d: nat)
    requires count > 0
    ensures (count * d + i) % count == i % count
  {
    var r := i % count;
    assert count * d + i == count * (d + i / count) + r by {
      assert count * (d + i / count) == count * d + count * (i / count);
    }
    RemainderIs(count * d + i, count, d + i / count, r);
  }

  lemma {:induction false} RemainderIs(v: nat, count: nat, q: nat, r: nat)
    requires count > 0 && v == count * q + r && r < count
    ensures v % count == r
  {
    var e := v / count - q;
    assert count * e == r - v % count by {
      assert count * e == count * (v / count) - count * q;
    }
    Multiples(count, e);
  }

  /** The source's indices are 64 bits wide and wrap. Slots keep their places across the wrap if and only if
      the slot count divides 2^64; otherwise they would shift there, after 2^64 commits. */
  lemma {:induction false} WrapKeepsSlots(count: nat)
    requires count > 0
    ensures (forall i: nat :: (i % INDEX_LIMIT) % count == i % count) <==> INDEX_LIMIT % count == 0
  {
    if INDEX_LIMIT % count == 0 {
      forall i: nat ensures (i % INDEX_LIMIT) % count == i % count {
        ShiftedIndex(i % INDEX_LIMIT, count, INDEX_LIMIT / count, i / INDEX_LIMIT);
      }
    } else {
      var i: nat := INDEX_LIMIT;
      assert (i % INDEX_LIMIT) % count != i % count;
    }
  }

  // ---- Two threads, one access at a time ----

  /** Where the producer is inside tryAcquire .. commit. */
  datatype Producer = Outside | Writing | Sized

  /** Where the consumer is inside tryPeek .. release, with the bytes it has read of its view. */
  datatype Consumer = Away | Peeked | Reading(size: nat, bytes: Bytes)

  /** The shared memory, each thread's position and last observation of the other's index, and the
      history of what was committed and what was seen at release. */
  datatype State = State(
    slots: seq<Bytes>, sizes: seq<nat>, head: nat, tail: nat,
    producer: Producer, seenHead: nat,
    consumer: Consumer, seenTail: nat,
    committed: seq<Bytes>, taken: seq<Bytes>)

  /** A step of one thread. Loads carry the value read, which may be older than the current one. A producer that
      has nothing to commit leaves the slot it was lent as it is (Session.cpp:126-141, when the read brings nothing). */
  datatype Step =
    | LoadHead(value: nat) | WriteByte(at: nat, b: byte) | Abandon | StoreSize(size: nat) | StoreTail
    | LoadTail(value: nat) | LoadSize | ReadByte | StoreHead

  predicate Enabled(s: State, slotSize: nat, step: Step) {
    match step
    case LoadHead(v) => s.producer == Outside && s.seenHead <= v <= s.head
    case WriteByte(at, _) => s.producer == Writing && at < slotSize
    case Abandon => s.producer == Writing
    case StoreSize(size) => s.producer == Writing && size <= slotSize
    case StoreTail => s.producer == Sized
    case LoadTail(v) => s.consumer == Away && s.seenTail <= v <= s.tail
    case LoadSize => s.consumer == Peeked
    case ReadByte => s.consumer.Reading? && |s.consumer.bytes| < s.consumer.size <= slotSize
    case StoreHead => s.consumer.Reading? && s.consumer.size <= slotSize
  }

  predicate Shaped(s: State, count: nat, slotSize: nat) {
    && count > 0 && |s.slots| == |s.sizes| == count
    && forall i :: 0 <= i < count ==> |s.slots[i]| == slotSize && s.sizes[i] <= slotSize
  }

  /** The step's effect; the slot of index i is i modulo the slot count. */
  function Next(s: State, count: nat, slotSize: nat, step: Step): (r: State)
    requires Shaped(s, count, slotSize) && Enabled(s, slotSize, step)
  {
    var p, c := s.tail % count, s.head % count;
    match step
    case LoadHead(v) =>
      s.(seenHead := v, producer := if s.tail - v == count then Outside else Writing)
    case WriteByte(at, b) => s.(slots := s.slots[p := s.slots[p][..at] + [b] + s.slots[p][at + 1..]])
    case Abandon => s.(producer := Outside)
    case StoreSize(size) => s.(sizes := s.sizes[p := size], producer := Sized)
    case StoreTail =>
      s.(tail := s.tail + 1, producer := Outside, committed := s.committed + [s.slots[p][..s.sizes[p]]])
    case LoadTail(v) => s.(seenTail := v, consumer := if v == s.head then Away else Peeked)
    case LoadSize => s.(consumer := Reading(s.sizes[c], []))
    case ReadByte =>
      s.(consumer := s.consumer.(bytes := s.consumer.bytes + [s.slots[c][|s.consumer.bytes|]]))
    case StoreHead =>
      s.(head := s.head + 1, consumer := Away, taken := s.taken + [s.slots[c][..s.consumer.size]])
  }

  /** What every step keeps. */
  ghost predicate Inv(s: State, count: nat, slotSize: nat) {
    && Shaped(s, count, slotSize)
    && s.seenHead <= s.head <= s.tail <= s.seenHead + count
    && s.head <= s.seenTail <= s.tail
    && |s.committed| == s.tail && |s.taken| == s.head
    && (s.producer != Outside ==> s.tail < s.seenHead + count)
    && (s.consumer != Away ==> s.head < s.seenTail)
    && (s.consumer.Reading? ==> ReadingView(s, count))
    && (forall i :: s.head <= i < s.tail ==> Holds(s, count, i))
    && (forall i :: 0 <= i < s.head ==> s.taken[i] == s.committed[i])
  }

  /** Slot i still holds what was committed as number i. */
  ghost predicate Holds(s: State, count: nat, i: nat)
    requires count > 0 && |s.slots| == |s.sizes| == count && i < |s.committed|
  {
    var k := i % count;
    s.sizes[k] <= |s.slots[k]| && s.slots[k][..s.sizes[k]] == s.committed[i]
  }

  ghost predicate ReadingView(s: State, count: nat)
    requires count > 0 && |s.sizes| == count && s.consumer.Reading?
  {
    && s.consumer.size == s.sizes[s.head % count]
    && s.head < |s.committed|
    && s.consumer.bytes <= s.committed[s.head]
  }

  function Init(count: nat, slots: seq<Bytes>): State {
    State(slots, seq(count, i => 0), 0, 0, Outside, 0, Away, 0, [], [])
  }

  lemma {:induction false} SlotsDiffer(a: nat, b: nat, count: nat)
    requires a < b < a + count
    ensures a % count != b % count
  {
    if a % count == b % count {
      var q := b / count - a / count;
      assert b - a == count * q;
      Multiples(count, q);
    }
  }

  lemma Multiples(count: nat, q: int)
    ensures q >= 1 ==> count * q >= count
    ensures q <= 0 ==> count * q <= 0
    ensures q <= -1 ==> count * q + count <= 0
  {}

  /** A slot may be owned by both sides only if the ring is both full and empty: never. */
  lemma {:induction false} OwnersDiffer(s: State, count: nat, slotSize: nat)
    requires Inv(s, count, slotSize)
    ensures s.producer != Outside && s.consumer != Away ==> s.tail % count != s.head % count
  {
    if s.producer != Outside && s.consumer != Away {
      SlotsDiffer(s.head, s.tail, count);
    }
  }

  lemma {:induction false} ProducerSlotFree(s: State, count: nat, slotSize: nat)
    requires Inv(s, count, slotSize) && s.producer != Outside
    ensures forall i :: s.head <= i < s.tail ==> i % count != s.tail % count
  {
    forall i | s.head <= i < s.tail ensures i % count != s.tail % count {
      SlotsDiffer(i, s.tail, count);
    }
  }

  lemma {:induction false} StepKeepsInv(s: State, count: nat, slotSize: nat, step: Step)
    requires Inv(s, count, slotSize) && Enabled(s, slotSize, step)
    ensures Inv(Next(s, count, slotSize, step), count, slotSize)
  {
    var t := Next(s, count, slotSize, step);
    if s.producer != Outside {
      ProducerSlotFree(s, count, slotSize);
    }
    forall i | t.head <= i < t.tail ensures Holds(t, count, i) {
      if i < s.tail {
        assert Holds(s, count, i);
      }
    }
    if s.consumer != Away {
      assert Holds(s, count, s.head);
    }
    if t.consumer.Reading? {
      assert Holds(t, count, t.head);
    }
  }

  // ---- Whole runs ----

  /** Any interleaving of the two threads; a step that is not enabled does not happen. */
  function Exec(s: State, count: nat, slotSize: nat, steps: seq<Step>): (r: State) {
    if steps == [] then s
    else
      var before := Exec(s, count, slotSize, steps[..|steps| - 1]);
      var step := steps[|steps| - 1];
      if Shaped(before, count, slotSize) && Enabled(before, slotSize, step)
      then Next(before, count, slotSize, step) else before
  }

  lemma {:induction false} RunKeepsInv(slots: seq<Bytes>, count: nat, slotSize: nat, steps: seq<Step>)
    requires count > 0 && |slots| == count && forall i :: 0 <= i < count ==> |slots[i]| == slotSize
    ensures Inv(Exec(Init(count, slots), count, slotSize, steps), count, slotSize)
  {
    if steps != [] {
      RunKeepsInv(slots, count, slotSize, steps[..|steps| - 1]);
      var before := Exec(Init(count, slots), count, slotSize, steps[..|steps| - 1]);
      if Enabled(before, slotSize, steps[|steps| - 1]) {
        StepKeepsInv(before, count, slotSize, steps[|steps| - 1]);
      }
    }
  }

  /** The bounded queue the ring implements. */
  function Queue(s: State): (r: seq<Bytes>)
    requires s.head <= s.tail == |s.committed|
  {
    s.committed[s.head..]
  }

  /** Every step leaves the queue alone, appends the producer's slot while there is room, or removes
      the oldest entry, which is exactly what the consumer saw. */
  lemma {:induction false} StepRefinesQueue(s: State, count: nat, slotSize: nat, step: Step)
    requires Inv(s, count, slotSize) && Enabled(s, slotSize, step)
    ensures var t := Next(s, count, slotSize, step);
            && t.head <= t.tail == |t.committed|
            && (match step
                case StoreTail =>
                  |Queue(s)| < count && Queue(t) == Queue(s) + [s.slots[s.tail % count][..s.sizes[s.tail % count]]]
                case StoreHead =>
                  Queue(s) != [] && Queue(t) == Queue(s)[1..] && t.taken == s.taken + [Queue(s)[0]]
                case _ => Queue(t) == Queue(s) && t.taken == s.taken)
  {
    if step == StoreHead {
      assert Holds(s, count, s.head);
    }
  }

  /** In every run: the occupancy stays within the slots, no slot has two owners, and what came out is
      what went in, in order; what is being read is a prefix of the next entry. */
  lemma {:induction false} RunIsFifo(slots: seq<Bytes>, count: nat, slotSize: nat, steps: seq<Step>)
    requires count > 0 && |slots| == count && forall i :: 0 <= i < count ==> |slots[i]| == slotSize
    ensures var s := Exec(Init(count, slots), count, slotSize, steps);
            && 0 <= s.tail - s.head <= count
            && |s.committed| == s.tail && s.taken == s.committed[..s.head]
            && (s.producer != Outside && s.consumer != Away ==> s.tail % count != s.head % count)
            && (s.consumer.Reading? ==> s.head < s.tail && s.consumer.bytes <= s.committed[s.head])
  {
    var s := Exec(Init(count, slots), count, slotSize, steps);
    RunKeepsInv(slots, count, slotSize, steps);
    OwnersDiffer(s, count, slotSize);
  }

  /** The full test errs only on the safe side: a producer told "not full" really has room, and one told
      "full" by an up-to-date load faces a full ring. */
  lemma FullTestSafe(s: State, count: nat, slotSize: nat, v: nat)
    requires Inv(s, count, slotSize) && Enabled(s, slotSize, LoadHead(v))
    ensures s.tail - v != count ==> |Queue(s)| < count
    ensures v == s.head ==> (s.tail - v == count <==> |Queue(s)| == count)
  {}

  // ---- The source's object, called from one thread at a time ----

  /** A stretch of bytes, cut to slots. */
  function Pieces(data: Bytes, size: nat): (r: seq<Bytes>)
    requires size > 0
  {
    if data == [] then [] else [data[..Min(size, |data|)]] + Pieces(data[Min(size, |data|)..], size)
  }

  lemma {:induction false} PiecesWhole(data: Bytes, size: nat)
    requires size > 0
    ensures Flatten(Pieces(data, size)) == data
  {
    if data != [] {
      var n := Min(size, |data|);
      PiecesWhole(data[n..], size);
      assert data == data[..n] + data[n..];
    }
  }

  lemma PiecesStep(before: seq<Bytes>, rest: Bytes, size: nat)
    requires size > 0 && rest != []
    ensures var n := Min(size, |rest|); before + [rest[..n]] + Pieces(rest[n..], size) == before + Pieces(rest, size)
  {
    hide Pieces;
    var n := Min(size, |rest|);
    assert Pieces(rest, size) == [rest[..n]] + Pieces(rest[n..], size) by { PiecesFront(rest, size); }
  }

  lemma PiecesFront(rest: Bytes, size: nat)
    requires size > 0 && rest != []
    ensures var n := Min(size, |rest|); Pieces(rest, size) == [rest[..n]] + Pieces(rest[n..], size)
  {}

  class SpscRingBuffer {
    const slotCount: nat
    const slotSize: nat
    const storage: array2<byte>
    const sizes: array<nat>
    var head: nat
    var tail: nat

    ghost predicate Valid()
      reads this, storage, sizes
    {
      && slotCount > 0 && storage.Length0 == slotCount && storage.Length1 == slotSize
      && sizes.Length == slotCount && head <= tail <= head + slotCount
      && forall k :: 0 <= k < slotCount ==> sizes[k] <= slotSize
    }

    /** The first `size` bytes of slot `k`. */
    ghost function Slot(k: nat, size: nat): (r: Bytes)
      requires k < storage.Length0 && size <= storage.Length1
      reads storage
      ensures |r| == size
    {
      seq(size, j requires 0 <= j < size reads storage => storage[k, j])
    }

    ghost function Entry(i: nat): (r: Bytes)
      requires Valid()
      reads this, storage, sizes
    {
      Slot(i % slotCount, sizes[i % slotCount])
    }

    ghost function Contents(): (r: seq<Bytes>)
      requires Valid()
      reads this, storage, sizes
      ensures |r| == tail - head
    {
      seq(tail - head, i requires Valid() && 0 <= i < tail - head reads this, storage, sizes => Entry(head + i))
    }

    constructor (slotCount: nat, slotSize: nat)
      requires slotCount > 0
      ensures Valid() && Contents() == [] && this.slotCount == slotCount && this.slotSize == slotSize
      ensures fresh(storage) && fresh(sizes)
    {
      this.slotCount, this.slotSize := slotCount, slotSize;
      storage := new byte[slotCount, slotSize];
      sizes := new nat[slotCount](_ => 0);
      head, tail := 0, 0;
    }

    method TryAcquire() returns (ok: bool, slot: nat)
      requires Valid()
      ensures ok <==> |Contents()| < slotCount
      ensures ok ==> slot == tail % slotCount
    {
      ok, slot := tail - head != slotCount, tail % slotCount;
    }

    /** The producer fills the slot it was lent; nothing published changes. */
    method Write(data: Bytes)
      requires Valid() && |Contents()| < slotCount && |data| <= slotSize
      modifies storage
      ensures Valid() && Contents() == old(Contents()) && Slot(tail % slotCount, |data|) == data
    {
      ghost var before := Contents();
      var slot := tail % slotCount;
      for j := 0 to |data|
        invariant forall k, m :: 0 <= k < slotCount && 0 <= m < slotSize && k != slot ==>
                  storage[k, m] == old(storage[k, m])
        invariant forall m :: 0 <= m < j ==> storage[slot, m] == data[m]
      {
        storage[slot, j] := data[j];
      }
      forall i | 0 <= i < tail - head ensures Entry(head + i) == before[i] {
        SlotsDiffer(head + i, tail, slotCount);
        assert old(Entry(head + i)) == before[i];
      }
    }

    /** SpscRingBuffer.cpp:35-40: publishes the first `size` bytes of the lent slot. */
    method Commit(size: nat)
      requires Valid() && |Contents()| < slotCount && size <= slotSize
      modifies this`tail, sizes
      ensures Valid() && Contents() == old(Contents()) + [Slot(old(tail) % slotCount, size)]
    {
      ghost var before := Contents();
      sizes[tail % slotCount] := size;
      tail := tail + 1;
      forall i | 0 <= i < tail - 1 - head ensures Entry(head + i) == before[i] {
        SlotsDiffer(head + i, tail - 1, slotCount);
        assert old(Entry(head + i)) == before[i];
      }
    }

    /** Session.cpp:307-320: payload that arrived elsewhere is copied into slot after slot. What was copied is
        in the ring piece by piece; copying stops early only at a full ring. */
    method CopyIn(data: Bytes) returns (copied: nat)
      requires Valid() && slotSize > 0
      modifies this`tail, sizes, storage
      ensures Valid() && copied <= |data|
      ensures Contents() + Pieces(data[copied..], slotSize) == old(Contents()) + Pieces(data, slotSize)
      ensures copied < |data| ==> |Contents()| == slotCount
    {
      copied := 0;
      assert data[0..] == data;
      while copied < |data|
        invariant Valid() && copied <= |data|
        invariant Contents() + Pieces(data[copied..], slotSize) == old(Contents()) + Pieces(data, slotSize)
        decreases |data| - copied
      {
        var ok, _ := TryAcquire();
        if !ok {
          return;
        }
        var chunk := Min(slotSize, |data| - copied);
        ghost var before, rest := Contents(), data[copied..];
        Write(data[copied..copied + chunk]);
        Commit(chunk);
        PiecesStep(before, rest, slotSize);
        assert rest[..chunk] == data[copied..copied + chunk] && rest[chunk..] == data[copied + chunk..];
        copied := copied + chunk;
      }
    }

    method TryPeek() returns (ok: bool, view: Bytes)
      requires Valid()
      ensures ok <==> Contents() != []
      ensures ok ==> view == Contents()[0]
    {
      ok, view := tail != head, [];
      if ok {
        var slot := head % slotCount;
        for j := 0 to sizes[slot]
          invariant view == Slot(slot, j)
        {
          view := view + [storage[slot, j]];
        }
        assert Contents()[0] == Entry(head + 0);
      }
    }

    method Release()
      requires Valid() && Contents() != []
      modifies this`head
      ensures Valid() && Contents() == old(Contents())[1..]
    {
      ghost var before := Contents();
      head := head + 1;
      ghost var now := Contents();
      forall i | 0 <= i < |now| ensures now[i] == before[1..][i] {
        var j := head + i;
        assert Entry(j) == now[i] && old(Entry(j)) == before[i + 1];
      }
    }

    method Full() returns (full: bool)
      requires Valid()
      ensures full <==> |Contents()| == slotCount
    {
      full := tail - head == slotCount;
    }

    method Empty() returns (empty: bool)
      requires Valid()
      ensures empty <==> Contents() == []
    {
      empty := tail == head;
    }
  }
}
