/**
  The in-process half of the heap profiler: the client that records malloc and
  free events into a ring buffer shared with the profiling daemon.

  What the client does not own is passed in as the value it returned: whether
  the shared ring buffer accepted a record, what a socket send or receive
  returned, whether the free-batch mutex was obtained within its timeout, and
  what the operating system reported as a thread's stack base. Calls are
  sequential: the atomic sequence counter is a plain field and the mutex is
  "obtained or not".
*/
module HeapprofdClient {
  import opened Wrappers

  type byte = bv8

  /** The errno values the client tells apart. On Linux EAGAIN and EWOULDBLOCK are equal; the source tests both. */
  datatype Errno = EAgain | EWouldBlock | OtherErrno(code: int)

  predicate WouldBlock(e: Errno) {
    e == EAgain || e == EWouldBlock
  }

  /** What a socket send or receive returned: a byte count, or -1 with errno set. */
  datatype IoResult = Transferred(bytes: nat) | IoError(errno: Errno)

  /** The header of a malloc record (register snapshot and architecture tag are not modelled). */
  datatype AllocMetadata = AllocMetadata(
    sequenceNumber: nat,
    allocSize: nat,
    totalSize: nat,
    allocAddress: nat,
    stackPointer: nat,
    stackPointerOffset: nat)

  datatype FreeBatchEntry = FreeBatchEntry(sequenceNumber: nat, addr: nat)

  /** A record as written to the shared ring buffer. A malloc record carries the raw stack from `payloadStart`. */
  datatype WireMessage =
    | MallocRecord(header: AllocMetadata, payloadStart: nat, payloadSize: nat)
    | FreeRecord(entries: seq<FreeBatchEntry>)

  /** The sequence numbers a record carries. */
  function Numbers(m: WireMessage): (r: seq<nat>)
    ensures m.MallocRecord? ==> r == [m.header.sequenceNumber]
    ensures m.FreeRecord? ==>
      |r| == |m.entries| && forall i :: 0 <= i < |r| ==> r[i] == m.entries[i].sequenceNumber
  {
    match m
    case MallocRecord(h, _, _) => [h.sequenceNumber]
    case FreeRecord(es) => seq(|es|, i requires 0 <= i < |es| => es[i].sequenceNumber)
  }

  /** The sequence numbers of a series of records, in order. */
  function RingNumbers(ring: seq<WireMessage>): seq<nat>
  {
    if |ring| == 0 then [] else RingNumbers(ring[..|ring| - 1]) + Numbers(ring[|ring| - 1])
  }

  predicate Distinct(s: seq<nat>) {
    forall i, j :: 0 <= i < j < |s| ==> s[i] != s[j]
  }

  lemma {:induction false} RingNumbersFrom(ring: seq<WireMessage>, x: nat)
    requires x in RingNumbers(ring)
    ensures exists k :: 0 <= k < |ring| && x in Numbers(ring[k])
    decreases |ring|
  {
    var last := ring[|ring| - 1];
    if x !in Numbers(last) {
      RingNumbersFrom(ring[..|ring| - 1], x);
      var k :| 0 <= k < |ring| - 1 && x in Numbers(ring[..|ring| - 1][k]);
      assert ring[..|ring| - 1][k] == ring[k];
    }
  }

  lemma RingNumbersAppend(ring: seq<WireMessage>, m: WireMessage)
    ensures RingNumbers(ring + [m]) == RingNumbers(ring) + Numbers(m)
  {
    assert (ring + [m])[..|ring|] == ring;
  }

  lemma NumbersSnoc(batch: seq<FreeBatchEntry>, e: FreeBatchEntry)
    ensures Numbers(FreeRecord(batch + [e])) == Numbers(FreeRecord(batch)) + [e.sequenceNumber]
  {
  }

  /** Appending an entry to the batch appends its number; a number above all others keeps them distinct. */
  lemma AppendFreshNumber(ring: seq<WireMessage>, batch: seq<FreeBatchEntry>, n: nat, addr: nat)
    ensures var before := RingNumbers(ring) + Numbers(FreeRecord(batch));
      && RingNumbers(ring) + Numbers(FreeRecord(batch + [FreeBatchEntry(n, addr)])) == before + [n]
      && (Distinct(before) && (forall x :: x in before ==> x < n) ==> Distinct(before + [n]))
  {
    var before := RingNumbers(ring) + Numbers(FreeRecord(batch));
    NumbersSnoc(batch, FreeBatchEntry(n, addr));
    if Distinct(before) && forall x :: x in before ==> x < n {
      InsertFresh(before, [], n);
      assert before + [n] + [] == before + [n];
    }
  }

  /** Pending entries carry increasing numbers, each positive and at most `bound`. */
  predicate BatchOrdered(batch: seq<FreeBatchEntry>, bound: nat) {
    && (forall i, j :: 0 <= i < j < |batch| ==> batch[i].sequenceNumber < batch[j].sequenceNumber)
    && (forall i :: 0 <= i < |batch| ==> 0 < batch[i].sequenceNumber <= bound)
  }

  lemma BatchOrderedSnoc(batch: seq<FreeBatchEntry>, e: FreeBatchEntry, bound: nat)
    requires BatchOrdered(batch, bound) && 0 < e.sequenceNumber <= bound
    requires forall i :: 0 <= i < |batch| ==> batch[i].sequenceNumber < e.sequenceNumber
    ensures BatchOrdered(batch + [e], bound)
  {
  }

  /** Every number the records carry is a positive one at most `bound`. */
  predicate NumbersBelow(ring: seq<WireMessage>, bound: nat) {
    forall k, n :: 0 <= k < |ring| && n in Numbers(ring[k]) ==> 0 < n <= bound
  }

  lemma NumbersBelowAppend(ring: seq<WireMessage>, m: WireMessage, bound: nat)
    requires NumbersBelow(ring, bound)
    requires forall x :: x in Numbers(m) ==> 0 < x <= bound
    ensures NumbersBelow(ring + [m], bound)
  {
    forall k, n | 0 <= k < |ring| + 1 && n in Numbers((ring + [m])[k])
      ensures 0 < n <= bound
    {
      if k < |ring| {
        assert (ring + [m])[k] == ring[k];
      }
    }
  }

  /** A number that is not yet present can be put anywhere without making two equal. */
  lemma InsertFresh(a: seq<nat>, b: seq<nat>, x: nat)
    requires Distinct(a + b) && x !in a + b
    ensures Distinct(a + [x] + b)
  {
    var s := a + [x] + b;
    forall i, j | 0 <= i < j < |s| ensures s[i] != s[j] {
      if j < |a| {
        assert s[i] == (a + b)[i] && s[j] == (a + b)[j];
      } else if j == |a| {
        assert s[i] == (a + b)[i];
      } else if i < |a| {
        assert s[i] == (a + b)[i] && s[j] == (a + b)[j - 1];
      } else if i == |a| {
        assert s[j] == (a + b)[j - 1];
      } else {
        assert s[i] == (a + b)[i - 1] && s[j] == (a + b)[j - 1];
      }
    }
  }

  /** The one-byte "wake" message after a write: it fails only on a send error other than "would block". */
  function SendControlSocketByte(sent: IoResult): (ok: bool)
    ensures sent.Transferred? ==> ok
    ensures sent.IoError? ==> (ok <==> WouldBlock(sent.errno))
  {
    !(sent.IoError? && !WouldBlock(sent.errno))
  }

  /** Liveness check by a non-blocking one-byte receive on the control socket. */
  function IsConnected(received: IoResult): (connected: bool)
    ensures received == Transferred(0) ==> !connected
    ensures received.Transferred? && received.bytes > 0 ==> connected
    ensures received.IoError? ==> (connected <==> WouldBlock(received.errno))
  {
    match received
    case Transferred(n) => n > 0
    case IoError(e) => WouldBlock(e)
  }

  /** The daemon's end of the control socket: open or closed, and bytes it sent that are still unread. */
  datatype Peer = Peer(open: bool, unread: seq<byte>)

  /** A non-blocking receive of at most one byte, as the kernel answers it. */
  function NonBlockingReceive(p: Peer): (r: IoResult)
    ensures |p.unread| > 0 ==> r == Transferred(1)
    ensures |p.unread| == 0 && p.open ==> r == IoError(EAgain)
    ensures |p.unread| == 0 && !p.open ==> r == Transferred(0)
  {
    if |p.unread| > 0 then Transferred(1)
    else if p.open then IoError(EAgain)
    else Transferred(0)
  }

  /** The client sees the daemon as connected exactly while its end is open or it has unread data. */
  lemma IsConnectedMeansPeerAlive(p: Peer)
    ensures IsConnected(NonBlockingReceive(p)) <==> (p.open || |p.unread| > 0)
  {
  }

  /** The two socket tests: an open, silent peer is connected; a closed one is not. */
  lemma ConnectedSocketPairScenarios()
    ensures IsConnected(NonBlockingReceive(Peer(true, [])))
    ensures !IsConnected(NonBlockingReceive(Peer(false, [])))
  {
  }

  /** The stack base a call uses: the main thread's is cached on first use, other threads ask every time. */
  function StackBaseFor(cached: nat, onMainThread: bool, threadStackBase: nat): (base: nat)
    ensures onMainThread && cached != 0 ==> base == cached
    ensures onMainThread && cached == 0 ==> base == threadStackBase
    ensures !onMainThread ==> base == threadStackBase
  {
    if onMainThread then (if cached == 0 then threadStackBase else cached) else threadStackBase
  }

  class Client {
    /** kFreeBatchSize: the capacity of a free batch. */
    const freeBatchSize: nat
    /** sizeof(AllocMetadata): where the stack payload starts in a malloc record. */
    const metadataSize: nat
    /** The configuration received during the handshake. */
    const config: seq<byte>

    /** The counter shared by malloc and free: the last sequence number handed out. */
    var sequenceNumber: nat
    /** The free batch: a fixed array and its count of used entries. */
    var freeBatch: array<FreeBatchEntry>
    var numEntries: nat
    /** The cached main-thread stack base; 0 stands for null. */
    var mainThreadStackBase: nat
    /** The records the shared ring buffer accepted from this client, in order. */
    var ring: seq<WireMessage>

    ghost predicate Valid()
      reads this`freeBatch, this`numEntries, this`sequenceNumber, this`ring, freeBatch
    {
      && 0 < freeBatchSize
      && freeBatch.Length == freeBatchSize
      && numEntries <= freeBatchSize
      && BatchOrdered(freeBatch[..numEntries], sequenceNumber)
      && NumbersBelow(ring, sequenceNumber)
    }

    /** The pending free entries. */
    ghost function Batch(): seq<FreeBatchEntry>
      reads this`freeBatch, this`numEntries, this`sequenceNumber, this`ring, freeBatch
      requires Valid()
    {
      freeBatch[..numEntries]
    }

    /** Every sequence number written to the ring or waiting in the batch, in order. */
    ghost function Written(): seq<nat>
      reads this`freeBatch, this`numEntries, this`sequenceNumber, this`ring, freeBatch
      requires Valid()
    {
      RingNumbers(ring) + Numbers(FreeRecord(Batch()))
    }

    /** No sequence number reaches the daemon twice. */
    ghost predicate NoNumberTwice()
      reads this`freeBatch, this`numEntries, this`sequenceNumber, this`ring, freeBatch
      requires Valid()
    {
      Distinct(Written())
    }

    /** Every number written or pending is one already handed out. */
    lemma WrittenBelowCounter()
      requires Valid()
      ensures forall x :: x in Written() ==> 0 < x <= sequenceNumber
    {
      forall x | x in Written() ensures 0 < x <= sequenceNumber {
        if x in RingNumbers(ring) {
          RingNumbersFrom(ring, x);
        } else {
          var b := Numbers(FreeRecord(Batch()));
          var i :| 0 <= i < |b| && b[i] == x;
        }
      }
    }

    constructor (config: seq<byte>, mainThreadStackBase: nat, freeBatchSize: nat, metadataSize: nat)
      requires 0 < freeBatchSize
      ensures Valid() && fresh(freeBatch)
      ensures this.config == config && this.mainThreadStackBase == mainThreadStackBase
      ensures this.freeBatchSize == freeBatchSize && this.metadataSize == metadataSize
      ensures sequenceNumber == 0 && Batch() == [] && ring == []
    {
      this.config := config;
      this.freeBatchSize := freeBatchSize;
      this.metadataSize := metadataSize;
      this.mainThreadStackBase := mainThreadStackBase;
      sequenceNumber := 0;
      freeBatch := new FreeBatchEntry[freeBatchSize](_ => FreeBatchEntry(0, 0));
      numEntries := 0;
      ring := [];
    }

    /** The calling thread's stack base; the main thread's value is computed once and reused. */
    method GetStackBase(onMainThread: bool, threadStackBase: nat) returns (base: nat)
      modifies this`mainThreadStackBase
      ensures base == StackBaseFor(old(mainThreadStackBase), onMainThread, threadStackBase)
      ensures mainThreadStackBase ==
        if onMainThread then base else old(mainThreadStackBase)
    {
      if onMainThread {
        if mainThreadStackBase == 0 {
          mainThreadStackBase := threadStackBase;
        }
        return mainThreadStackBase;
      }
      return threadStackBase;
    }

    /** Takes the next sequence number: one more than the counter, which is bumped. */
    method NextSequenceNumber() returns (n: nat)
      requires Valid()
      modifies this`sequenceNumber
      ensures Valid()
      ensures n == old(sequenceNumber) + 1 && sequenceNumber == n
      ensures Written() == old(Written())
      ensures forall x :: x in Written() ==> x < n
      ensures forall i :: 0 <= i < numEntries ==> freeBatch[i].sequenceNumber < n
    {
      WrittenBelowCounter();
      sequenceNumber := sequenceNumber + 1;
      n := sequenceNumber;
    }

    /**
      Records an allocation. `stackTop` is the caller's frame address; the stack
      between it and the stack base is the payload. Fails without using a
      sequence number when the base is below the top.
    */
    method RecordMalloc(
      allocSize: nat, totalSize: nat, allocAddress: nat,
      onMainThread: bool, threadStackBase: nat, stackTop: nat,
      ringAccepts: bool, wake: IoResult)
      returns (ok: bool)
      requires Valid()
      modifies this`mainThreadStackBase, this`sequenceNumber, this`ring
      ensures Valid()
      ensures old(NoNumberTwice()) ==> NoNumberTwice()
      ensures mainThreadStackBase ==
        if onMainThread then StackBaseFor(old(mainThreadStackBase), true, threadStackBase)
        else old(mainThreadStackBase)
      ensures var base := StackBaseFor(old(mainThreadStackBase), onMainThread, threadStackBase);
        if base < stackTop then
          !ok && sequenceNumber == old(sequenceNumber) && ring == old(ring)
        else
          var header := AllocMetadata(old(sequenceNumber) + 1, allocSize, totalSize,
                                      allocAddress, stackTop, metadataSize);
          && sequenceNumber == old(sequenceNumber) + 1
          && ring == old(ring) + (if ringAccepts then [MallocRecord(header, stackTop, base - stackTop)] else [])
          && ok == (ringAccepts && SendControlSocketByte(wake))
    {
      var stackBase := GetStackBase(onMainThread, threadStackBase);
      assert sequenceNumber == old(sequenceNumber) && ring == old(ring) && Valid();
      if stackBase < stackTop {
        return false;
      }
      ok := WriteMallocRecord(allocSize, totalSize, allocAddress, stackTop, stackBase - stackTop, ringAccepts, wake);
    }

    /** The part of RecordMalloc after the stack bounds are known: number, write, wake. */
    method WriteMallocRecord(
      allocSize: nat, totalSize: nat, allocAddress: nat, stackTop: nat, stackSize: nat,
      ringAccepts: bool, wake: IoResult)
      returns (ok: bool)
      requires Valid()
      modifies this`sequenceNumber, this`ring
      ensures Valid()
      ensures old(NoNumberTwice()) ==> NoNumberTwice()
      ensures sequenceNumber == old(sequenceNumber) + 1
      ensures var header := AllocMetadata(old(sequenceNumber) + 1, allocSize, totalSize,
                                          allocAddress, stackTop, metadataSize);
        ring == old(ring) + (if ringAccepts then [MallocRecord(header, stackTop, stackSize)] else [])
      ensures ok == (ringAccepts && SendControlSocketByte(wake))
    {
      var n := NextSequenceNumber();
      var metadata := AllocMetadata(n, allocSize, totalSize, allocAddress, stackTop, metadataSize);
      if !ringAccepts {
        return false;
      }
      AppendFresh(MallocRecord(metadata, stackTop, stackSize));
      ok := SendControlSocketByte(wake);
    }

    /** Adds a record the ring buffer accepted. */
    method Append(m: WireMessage)
      requires Valid()
      requires forall x :: x in Numbers(m) ==> 0 < x <= sequenceNumber
      modifies this`ring
      ensures Valid()
      ensures ring == old(ring) + [m]
      ensures Written() == old(RingNumbers(ring)) + Numbers(m) + Numbers(FreeRecord(Batch()))
    {
      ghost var batch := Batch();
      RingNumbersAppend(ring, m);
      NumbersBelowAppend(ring, m, sequenceNumber);
      ring := ring + [m];
      assert Batch() == batch;
    }

    /** Adds a malloc record carrying the number just handed out. */
    method AppendFresh(m: WireMessage)
      requires Valid() && m.MallocRecord? && 0 < m.header.sequenceNumber == sequenceNumber
      requires forall x :: x in Written() ==> x < sequenceNumber
      modifies this`ring
      ensures Valid()
      ensures ring == old(ring) + [m]
      ensures old(NoNumberTwice()) ==> NoNumberTwice()
    {
      ghost var earlier, pending := RingNumbers(ring), Numbers(FreeRecord(Batch()));
      ghost var distinct := NoNumberTwice();
      WrittenBelowCounter();
      Append(m);
      if distinct {
        InsertFresh(earlier, pending, m.header.sequenceNumber);
      }
    }

    /** Writes the whole batch as one free record and sends the wake byte; the batch itself is not touched. */
    method FlushFreesLocked(ringAccepts: bool, wake: IoResult) returns (ok: bool)
      requires Valid()
      modifies this`ring
      ensures Valid()
      ensures ring == old(ring) + (if ringAccepts then [FreeRecord(Batch())] else [])
      ensures ok == (ringAccepts && SendControlSocketByte(wake))
    {
      if !ringAccepts {
        return false;
      }
      Append(FreeRecord(freeBatch[..numEntries]));
      ok := SendControlSocketByte(wake);
    }

    /**
      Records a free. The sequence number is taken before the lock, so a
      timed-out lock leaves a gap. A full batch is flushed lazily, by the next
      free that finds it full; if that flush fails the batch stays as it was.
    */
    method RecordFree(addr: nat, lockObtained: bool, ringAccepts: bool, wake: IoResult)
      returns (ok: bool)
      requires Valid()
      modifies this`sequenceNumber, this`ring, this`numEntries, freeBatch
      ensures Valid()
      ensures sequenceNumber == old(sequenceNumber) + 1
      ensures var entry := FreeBatchEntry(old(sequenceNumber) + 1, addr);
        if !lockObtained then
          !ok && Batch() == old(Batch()) && ring == old(ring)
        else if old(numEntries) < freeBatchSize then
          ok && Batch() == old(Batch()) + [entry] && ring == old(ring)
        else if !ringAccepts then
          !ok && Batch() == old(Batch()) && ring == old(ring)
        else
          && ring == old(ring) + [FreeRecord(old(Batch()))]
          && ok == SendControlSocketByte(wake)
          && Batch() == (if ok then [entry] else old(Batch()))
    {
      var n := NextSequenceNumber();
      if !lockObtained {
        return false;
      }
      if numEntries == freeBatchSize {
        var flushed := FlushFreesLocked(ringAccepts, wake);
        if !flushed {
          return false;
        }
        numEntries := 0;
      }
      AddToBatch(n, addr);
      ok := true;
    }

    /**
      RecordFree with a flushed batch cleared as soon as the ring buffer has
      accepted it, whether or not the wake byte then goes through, so that no
      batch is written twice.
    */
    method RecordFreeClearingFlushed(addr: nat, lockObtained: bool, ringAccepts: bool, wake: IoResult)
      returns (ok: bool)
      requires Valid()
      modifies this`sequenceNumber, this`ring, this`numEntries, freeBatch
      ensures Valid()
      ensures old(NoNumberTwice()) ==> NoNumberTwice()
      ensures sequenceNumber == old(sequenceNumber) + 1
      ensures var entry := FreeBatchEntry(old(sequenceNumber) + 1, addr);
        if !lockObtained then
          !ok && Batch() == old(Batch()) && ring == old(ring)
        else if old(numEntries) < freeBatchSize then
          ok && Batch() == old(Batch()) + [entry] && ring == old(ring)
        else if !ringAccepts then
          !ok && Batch() == old(Batch()) && ring == old(ring)
        else
          && ring == old(ring) + [FreeRecord(old(Batch()))]
          && ok == SendControlSocketByte(wake)
          && Batch() == (if ok then [entry] else [])
    {
      var n := NextSequenceNumber();
      if !lockObtained {
        return false;
      }
      if numEntries == freeBatchSize {
        var flushed := FlushAndClear(ringAccepts, wake);
        if !flushed {
          return false;
        }
      }
      AddToBatch(n, addr);
      ok := true;
    }

    /** Flushes the batch and empties it once the ring buffer has accepted it. */
    method FlushAndClear(ringAccepts: bool, wake: IoResult) returns (ok: bool)
      requires Valid()
      modifies this`ring, this`numEntries
      ensures Valid()
      ensures ring == old(ring) + (if ringAccepts then [FreeRecord(old(Batch()))] else [])
      ensures Batch() == if ringAccepts then [] else old(Batch())
      ensures Written() == old(Written())
      ensures ok == (ringAccepts && SendControlSocketByte(wake))
    {
      ghost var ring0, batch0 := ring, Batch();
      ok := FlushFreesLocked(ringAccepts, wake);
      if ringAccepts {
        RingNumbersAppend(ring0, FreeRecord(batch0));
        numEntries := 0;
        assert Numbers(FreeRecord(Batch())) == [];
        assert Written() == RingNumbers(ring0) + Numbers(FreeRecord(batch0)) + [];
      } else {
        assert ring == ring0 && Batch() == batch0;
      }
    }

    /** Puts an entry into a batch that has room. */
    method AddToBatch(n: nat, addr: nat)
      requires Valid() && numEntries < freeBatchSize && 0 < n == sequenceNumber
      requires forall i :: 0 <= i < numEntries ==> freeBatch[i].sequenceNumber < n
      modifies this`numEntries, freeBatch
      ensures Valid()
      ensures Batch() == old(Batch()) + [FreeBatchEntry(n, addr)]
      ensures Written() == old(Written()) + [n]
      ensures old(NoNumberTwice()) && (forall x :: x in old(Written()) ==> x < n) ==> NoNumberTwice()
    {
      ghost var batch0 := Batch();
      AppendFreshNumber(ring, batch0, n, addr);
      BatchOrderedSnoc(batch0, FreeBatchEntry(n, addr), sequenceNumber);
      var k := numEntries;
      freeBatch[k] := FreeBatchEntry(n, addr);
      assert freeBatch[..k] == batch0;
      assert freeBatch[..k + 1] == freeBatch[..k] + [freeBatch[k]];
      numEntries := k + 1;
    }
  }

  // ---------------------------------------------------------------------------
  // The handshake that creates a client.

  function Min(a: nat, b: nat): nat {
    if a <= b then a else b
  }

  /**
    What one receive call on the still-blocking handshake socket returns: the
    bytes the kernel has ready (at most the amount asked for are taken; none
    means the daemon has closed its end) with the descriptor that came with
    them, or -1.
  */
  datatype Receipt = Received(data: seq<byte>, fd: Option<int>) | ReceiveFailed

  datatype ConfigReceipt = ConfigReceived(config: seq<byte>, shmemFd: Option<int>) | ReceiveAborted

  /**
    The receive loop of the handshake, from call `i` of `script` on, with
    `received` bytes of the configuration already in hand. A descriptor is asked
    for only while none has arrived. Past the end of the script the daemon has
    closed the socket.
  */
  function ReceiveConfig(script: seq<Receipt>, i: nat, size: nat,
                         received: seq<byte>, shmemFd: Option<int>): (r: ConfigReceipt)
    requires |received| <= size
    ensures r.ConfigReceived? ==>
      |r.config| == size && r.config[..|received|] == received
    ensures r.ConfigReceived? && shmemFd.Some? ==> r.shmemFd == shmemFd
    decreases size - |received|
  {
    if |received| == size then ConfigReceived(received, shmemFd)
    else
      var receipt := if i < |script| then script[i] else Received([], None);
      match receipt
      case ReceiveFailed => ReceiveAborted
      case Received(data, fd) =>
        var rd := Min(|data|, size - |received|);
        if rd == 0 then ReceiveAborted
        else
          var r := ReceiveConfig(script, i + 1, size, received + data[..rd],
                                 if shmemFd.None? then fd else shmemFd);
          assert r.ConfigReceived? ==> r.config[..|received|] == (received + data[..rd])[..|received|];
          r
  }

  /** A configuration that arrives in two pieces is put back together, and the descriptor of the first piece kept. */
  lemma {:induction false} TwoPieceConfiguration(a: seq<byte>, b: seq<byte>, fd: int, other: Option<int>)
    requires |a| > 0 && |b| > 0
    ensures ReceiveConfig([Received(a, Some(fd)), Received(b, other)], 0, |a| + |b|, [], None)
         == ConfigReceived(a + b, Some(fd))
  {
    var script := [Received(a, Some(fd)), Received(b, other)];
    assert a[..Min(|a|, |a| + |b|)] == a;
    assert b[..Min(|b|, |b|)] == b;
    assert [] + a == a;
    calc {
      ReceiveConfig(script, 0, |a| + |b|, [], None);
      ReceiveConfig(script, 1, |a| + |b|, a, Some(fd));
      ReceiveConfig(script, 2, |a| + |b|, a + b, Some(fd));
    }
  }

  /** A daemon that closes the socket, or answers with an error, before the whole configuration arrived aborts the handshake. */
  lemma ClosedPeerAbortsHandshake(size: nat, received: seq<byte>, shmemFd: Option<int>)
    requires |received| < size
    ensures ReceiveConfig([], 0, size, received, shmemFd) == ReceiveAborted
    ensures ReceiveConfig([ReceiveFailed], 0, size, received, shmemFd) == ReceiveAborted
  {
  }

  /** Receipts `i` up to `n` of the script each delivered at least one byte. */
  predicate Delivers(script: seq<Receipt>, i: nat, n: nat) {
    i <= n <= |script| &&
    forall k :: i <= k < n ==> script[k].Received? && |script[k].data| > 0
  }

  /** The bytes receipts `i` up to `n` delivered, one after the other. */
  function Pieces(script: seq<Receipt>, i: nat, n: nat): (r: seq<byte>)
    requires Delivers(script, i, n)
    ensures |r| >= n - i
    decreases n - i
  {
    if i == n then [] else script[i].data + Pieces(script, i + 1, n)
  }

  /** The descriptors that came with receipts `i` up to `n`. */
  function Fds(script: seq<Receipt>, i: nat, n: nat): (fds: seq<Option<int>>)
    requires Delivers(script, i, n)
    ensures |fds| == n - i && forall k :: 0 <= k < |fds| ==> fds[k] == script[i + k].fd
    decreases n - i
  {
    if i == n then [] else [script[i].fd] + Fds(script, i + 1, n)
  }

  /** The first descriptor in `fds`, if there is one. */
  function FirstSome(fds: seq<Option<int>>): (r: Option<int>)
    ensures r.None? <==> forall k :: 0 <= k < |fds| ==> fds[k].None?
    ensures r.Some? ==> exists k :: 0 <= k < |fds| && fds[k] == r && forall j :: 0 <= j < k ==> fds[j].None?
  {
    if fds == [] then None
    else if fds[0].Some? then fds[0]
    else
      var r := FirstSome(fds[1..]);
      assert forall k :: 1 <= k < |fds| ==> fds[k] == fds[1..][k - 1];
      r
  }

  /** The first descriptor among receipts `i` up to `n`, if any came. */
  function FirstFd(script: seq<Receipt>, i: nat, n: nat): Option<int>
    requires Delivers(script, i, n)
  {
    FirstSome(Fds(script, i, n))
  }

  /** The descriptor the loop ends with: the one already held, else the first that arrived. */
  function KeptFd(held: Option<int>, script: seq<Receipt>, i: nat, n: nat): Option<int>
    requires Delivers(script, i, n)
  {
    if held.Some? then held else FirstFd(script, i, n)
  }

  /** Taking the descriptor of receipt `i` when none is held, and looking on from `i + 1`, gives the same descriptor. */
  lemma KeptFdStep(held: Option<int>, script: seq<Receipt>, i: nat, n: nat)
    requires Delivers(script, i, n) && i < n
    ensures KeptFd(held, script, i, n) == KeptFd(if held.None? then script[i].fd else held, script, i + 1, n)
  {
    assert Fds(script, i, n) == [script[i].fd] + Fds(script, i + 1, n);
    assert Fds(script, i, n)[1..] == Fds(script, i + 1, n);
  }

  lemma PiecesStep(script: seq<Receipt>, i: nat, n: nat)
    requires Delivers(script, i, n) && i < n
    ensures Pieces(script, i, n) == script[i].data + Pieces(script, i + 1, n)
  {
  }

  /** Cutting a piece at the room left changes nothing below the configured size. */
  lemma CutAfterPiece(received: seq<byte>, data: seq<byte>, rest: seq<byte>, size: nat)
    requires |received| < size <= |received| + |data| + |rest|
    ensures var rd := Min(|data|, size - |received|);
      (received + (data + rest))[..size] == (received + data[..rd] + rest)[..size]
  {
    var rd := Min(|data|, size - |received|);
    if rd == |data| {
      assert data[..rd] == data;
      assert received + (data + rest) == received + data[..rd] + rest;
    } else {
      assert (received + (data + rest))[..size] == received + data[..rd];
      assert (received + data[..rd] + rest)[..size] == received + data[..rd];
    }
  }

  /**
    Receipts `i` up to `n` deliver bytes, only the last of them reaches the
    configured size, and then the loop ends with the bytes concatenated (the
    last piece cut at the size) and the descriptor kept or first arrived.
  */
  lemma {:induction false} ReceiveConfigCompletes(script: seq<Receipt>, i: nat, n: nat, size: nat,
                                                  received: seq<byte>, shmemFd: Option<int>)
    requires Delivers(script, i, n)
    requires |received| + |Pieces(script, i, n)| >= size
    requires n == i ==> |received| == size
    requires n > i ==> |received| + |Pieces(script, i, n - 1)| < size
    ensures ReceiveConfig(script, i, size, received, shmemFd)
         == ConfigReceived((received + Pieces(script, i, n))[..size], KeptFd(shmemFd, script, i, n))
    decreases n - i
  {
    if n == i {
      assert received + [] == received;
    } else {
      var data := script[i].data;
      var rd := Min(|data|, size - |received|);
      var held := if shmemFd.None? then script[i].fd else shmemFd;
      PiecesStep(script, i, n);
      if n > i + 1 {
        PiecesStep(script, i, n - 1);
      }
      ReceiveConfigCompletes(script, i + 1, n, size, received + data[..rd], held);
      KeptFdStep(shmemFd, script, i, n);
      CutAfterPiece(received, data, Pieces(script, i + 1, n), size);
    }
  }

  /**
    Receipts `i` up to `j` deliver bytes without reaching the configured size,
    and then the script ends, receipt `j` fails, or it brings no byte: the
    handshake aborts, wherever that happens.
  */
  lemma {:induction false} ReceiveConfigAbortsAnywhere(script: seq<Receipt>, i: nat, j: nat, size: nat,
                                                       received: seq<byte>, shmemFd: Option<int>)
    requires Delivers(script, i, j)
    requires |received| + |Pieces(script, i, j)| < size
    requires j == |script| || script[j].ReceiveFailed? || |script[j].data| == 0
    ensures ReceiveConfig(script, i, size, received, shmemFd) == ReceiveAborted
    decreases j - i
  {
    if i < j {
      var data, fd := script[i].data, script[i].fd;
      assert Pieces(script, i, j) == data + Pieces(script, i + 1, j);
      assert data[..|data|] == data;
      ReceiveConfigAbortsAnywhere(script, i + 1, j, size, received + data,
                                  if shmemFd.None? then fd else shmemFd);
    }
  }

  /**
    Every configuration the loop ends with is the delivered pieces concatenated
    and cut at the configured size, up to the receipt that reached it, with
    the descriptor kept or first arrived.
  */
  lemma {:induction false} ConfigReceivedIsPieces(script: seq<Receipt>, i: nat, size: nat,
                                                  received: seq<byte>, shmemFd: Option<int>)
    requires i <= |script| && |received| <= size
    requires ReceiveConfig(script, i, size, received, shmemFd).ConfigReceived?
    ensures var r := ReceiveConfig(script, i, size, received, shmemFd);
      exists n: nat {:trigger Delivers(script, i, n)} ::
        && Delivers(script, i, n)
        && |received| + |Pieces(script, i, n)| >= size
        && (n > i ==> |received| + |Pieces(script, i, n - 1)| < size)
        && r == ConfigReceived((received + Pieces(script, i, n))[..size], KeptFd(shmemFd, script, i, n))
    decreases size - |received|
  {
    if |received| == size {
      assert Delivers(script, i, i);
      ReceiveConfigCompletes(script, i, i, size, received, shmemFd);
    } else {
      var data, fd := script[i].data, script[i].fd;
      var rd := Min(|data|, size - |received|);
      var held := if shmemFd.None? then fd else shmemFd;
      ConfigReceivedIsPieces(script, i + 1, size, received + data[..rd], held);
      var n: nat :| Delivers(script, i + 1, n) && |received + data[..rd]| + |Pieces(script, i + 1, n)| >= size &&
        (n > i + 1 ==> |received + data[..rd]| + |Pieces(script, i + 1, n - 1)| < size) &&
        ReceiveConfig(script, i + 1, size, received + data[..rd], held)
          == ConfigReceived((received + data[..rd] + Pieces(script, i + 1, n))[..size], KeptFd(held, script, i + 1, n));
      assert Delivers(script, i + 1, n);
      assert i + 1 <= n;
      assert Delivers(script, i, n);
      PiecesStep(script, i, n);
      if n > i + 1 {
        PiecesStep(script, i, n - 1);
      }
      ReceiveConfigCompletes(script, i, n, size, received, shmemFd);
    }
  }

  /** Something done to the process during the handshake. */
  datatype ProcessEvent = SetDumpable(value: nat) | OpenFile(path: string, succeeded: bool)

  /** The process attributes the handshake touches: its dumpable flag (0, 1 or 2) and what was done to it. */
  class Process {
    var dumpable: nat
    var events: seq<ProcessEvent>

    constructor (dumpable: nat)
      ensures this.dumpable == dumpable && events == []
    {
      this.dumpable := dumpable;
      events := [];
    }

    method SetDumpableFlag(value: nat)
      modifies this
      ensures dumpable == value && events == old(events) + [SetDumpable(value)]
    {
      dumpable := value;
      events := events + [SetDumpable(value)];
    }

    /** Opening a file under /proc/self; `opens` is whether the kernel allowed it. */
    method Open(path: string, opens: bool) returns (succeeded: bool)
      modifies this
      ensures succeeded == opens
      ensures dumpable == old(dumpable) && events == old(events) + [OpenFile(path, opens)]
    {
      events := events + [OpenFile(path, opens)];
      succeeded := opens;
    }
  }

  /** What the handshake does to the process: the dumpable flag is raised around the two opens only when it was 0. */
  function HandshakeProcessEvents(origDumpable: nat, mapsOpens: bool, memOpens: bool): seq<ProcessEvent>
  {
    var opens := [OpenFile("/proc/self/maps", mapsOpens)]
                 + (if mapsOpens then [OpenFile("/proc/self/mem", memOpens)] else []);
    if origDumpable == 0 then [SetDumpable(1)] + opens + [SetDumpable(0)] else opens
  }

  /** The dumpable flag after `events`, starting from `flag`. */
  function Replay(flag: nat, events: seq<ProcessEvent>): nat
    decreases |events|
  {
    if |events| == 0 then flag
    else Replay(if events[0].SetDumpable? then events[0].value else flag, events[1..])
  }

  /** Every open in `events`, replayed from `flag`, happens while the process is dumpable. */
  predicate OpensWhileDumpable(flag: nat, events: seq<ProcessEvent>)
    decreases |events|
  {
    |events| == 0 ||
    ((events[0].OpenFile? ==> flag != 0) &&
     OpensWhileDumpable(if events[0].SetDumpable? then events[0].value else flag, events[1..]))
  }

  /** The proc files are always opened while dumpable, and the flag ends as it started. */
  lemma HandshakeRestoresDumpability(origDumpable: nat, mapsOpens: bool, memOpens: bool)
    ensures OpensWhileDumpable(origDumpable, HandshakeProcessEvents(origDumpable, mapsOpens, memOpens))
    ensures Replay(origDumpable, HandshakeProcessEvents(origDumpable, mapsOpens, memOpens)) == origDumpable
  {
    var events := HandshakeProcessEvents(origDumpable, mapsOpens, memOpens);
    var opens := [OpenFile("/proc/self/maps", mapsOpens)]
                 + (if mapsOpens then [OpenFile("/proc/self/mem", memOpens)] else []);
    OpensKeepFlag(origDumpable, opens);
    if origDumpable == 0 {
      OpensKeepFlag(1, opens);
      assert events[1..] == opens + [SetDumpable(0)];
      ReplayAppend(1, opens, SetDumpable(0));
    }
  }

  lemma {:induction false} OpensKeepFlag(flag: nat, opens: seq<ProcessEvent>)
    requires forall k :: 0 <= k < |opens| ==> opens[k].OpenFile?
    ensures Replay(flag, opens) == flag
    ensures flag != 0 ==> OpensWhileDumpable(flag, opens)
    decreases |opens|
  {
    if |opens| > 0 {
      OpensKeepFlag(flag, opens[1..]);
    }
  }

  lemma {:induction false} ReplayAppend(flag: nat, opens: seq<ProcessEvent>, last: ProcessEvent)
    requires forall k :: 0 <= k < |opens| ==> opens[k].OpenFile?
    requires flag != 0 && last.SetDumpable?
    ensures Replay(flag, opens + [last]) == last.value
    ensures OpensWhileDumpable(flag, opens + [last])
    decreases |opens|
  {
    if |opens| > 0 {
      assert (opens + [last])[1..] == opens[1..] + [last];
      ReplayAppend(flag, opens[1..], last);
    }
  }

  /** The handshake socket: whether it holds a connected descriptor, and its blocking mode. */
  class Socket {
    const valid: bool
    var blocking: bool

    constructor (valid: bool)
      ensures this.valid == valid && blocking
    {
      this.valid := valid;
      blocking := true;
    }
  }

  /**
    Creates a client over a connected socket: sends one byte carrying the
    maps and mem descriptors, receives the configuration and the shared
    memory descriptor, attaches the ring buffer and switches the socket to
    non-blocking. Returns null on any failure.
  */
  method CreateAndHandshake(
    sock: Socket, proc: Process,
    mapsOpens: bool, memOpens: bool, fdsSent: IoResult,
    script: seq<Receipt>, configSize: nat, shmemAttaches: bool,
    mainThreadStack: nat, freeBatchSize: nat, metadataSize: nat)
    returns (client: Client?)
    requires sock.blocking
    requires 0 < freeBatchSize
    modifies sock, proc
    ensures proc.dumpable == old(proc.dumpable)
    ensures proc.events == old(proc.events) +
      (if sock.valid then HandshakeProcessEvents(old(proc.dumpable), mapsOpens, memOpens) else [])
    ensures var r := ReceiveConfig(script, 0, configSize, [], None);
      client != null <==>
        (sock.valid && mapsOpens && memOpens && fdsSent == Transferred(1) &&
         r.ConfigReceived? && r.shmemFd.Some? && shmemAttaches)
    ensures sock.blocking <==> client == null
    ensures client != null ==>
      && fresh(client) && fresh(client.freeBatch) && client.Valid()
      && client.config == ReceiveConfig(script, 0, configSize, [], None).config
      && client.mainThreadStackBase == mainThreadStack
      && client.sequenceNumber == 0 && client.Batch() == [] && client.ring == []
  {
    if !sock.valid {
      return null;
    }
    var filesOpen := OpenProcFiles(proc, mapsOpens, memOpens);
    if !filesOpen {
      return null;
    }
    if fdsSent != Transferred(1) {
      return null;
    }
    var r := ReceiveHandshakeConfig(script, configSize);
    if r.ReceiveAborted? || r.shmemFd.None? || !shmemAttaches {
      return null;
    }
    sock.blocking := false;
    client := new Client(r.config, mainThreadStack, freeBatchSize, metadataSize);
  }

  /**
    Opens /proc/self/maps and then /proc/self/mem, with the process made
    dumpable for the duration when it was not.
  */
  method OpenProcFiles(proc: Process, mapsOpens: bool, memOpens: bool) returns (filesOpen: bool)
    modifies proc
    ensures filesOpen == (mapsOpens && memOpens)
    ensures proc.dumpable == old(proc.dumpable)
    ensures proc.events == old(proc.events) + HandshakeProcessEvents(old(proc.dumpable), mapsOpens, memOpens)
  {
    var origDumpable := proc.dumpable;
    if origDumpable == 0 {
      proc.SetDumpableFlag(1);
    }
    var maps := proc.Open("/proc/self/maps", mapsOpens);
    var mem := false;
    if maps {
      mem := proc.Open("/proc/self/mem", memOpens);
    }
    if origDumpable == 0 {
      proc.SetDumpableFlag(0);
    }
    filesOpen := maps && mem;
  }

  /** The receive loop of the handshake, reading the configuration and the shared-memory descriptor. */
  method ReceiveHandshakeConfig(script: seq<Receipt>, configSize: nat) returns (r: ConfigReceipt)
    ensures r == ReceiveConfig(script, 0, configSize, [], None)
  {
    var received: seq<byte> := [];
    var shmemFd: Option<int> := None;
    var i := 0;
    while |received| < configSize
      invariant |received| <= configSize
      invariant ReceiveConfig(script, i, configSize, received, shmemFd)
             == ReceiveConfig(script, 0, configSize, [], None)
      decreases configSize - |received|
    {
      var receipt := if i < |script| then script[i] else Received([], None);
      match receipt
      case ReceiveFailed =>
        return ReceiveAborted;
      case Received(data, fd) =>
        var rd := Min(|data|, configSize - |received|);
        if rd == 0 {
          return ReceiveAborted;
        }
        received := received + data[..rd];
        if shmemFd.None? {
          shmemFd := fd;
        }
        i := i + 1;
    }
    r := ConfigReceived(received, shmemFd);
  }

  /** A client with a batch of one entry, after `count` numbers were handed out. */
  ghost predicate BatchOfOne(c: Client, count: nat, batch: seq<FreeBatchEntry>, ring: seq<WireMessage>)
    reads c, c.freeBatch
  {
    c.Valid() && c.freeBatchSize == 1 && c.sequenceNumber == count && c.Batch() == batch && c.ring == ring
  }

  /** The client as written, on a fresh client with a batch of one: the first free is batched. */
  method FreeIntoEmptyBatch(c: Client)
    requires BatchOfOne(c, 0, [], [])
    modifies c`sequenceNumber, c`ring, c`numEntries, c.freeBatch
    ensures BatchOfOne(c, 1, [FreeBatchEntry(1, 16)], [])
  {
    var ok := c.RecordFree(16, true, true, Transferred(1));
  }

  /** A batch written twice carries its numbers twice. */
  lemma BatchWrittenTwice(e: FreeBatchEntry)
    ensures RingNumbers([FreeRecord([e]), FreeRecord([e])]) == [e.sequenceNumber, e.sequenceNumber]
  {
    var record := FreeRecord([e]);
    RingNumbersAppend([], record);
    RingNumbersAppend([record], record);
    assert [record] + [record] == [record, record];
  }

  /** The client as written, on a full batch of one: a failed wake byte after the ring write keeps the batch. */
  method FreeWithFailedWake(c: Client, e: FreeBatchEntry)
    requires BatchOfOne(c, 1, [e], [])
    modifies c`sequenceNumber, c`ring, c`numEntries, c.freeBatch
    ensures BatchOfOne(c, 2, [e], [FreeRecord([e])])
  {
    var ok := c.RecordFree(32, true, true, IoError(OtherErrno(32)));
  }

  /** The client as written, on the kept batch: the next free writes it once more. */
  method FreeRewritingBatch(c: Client, e: FreeBatchEntry)
    requires BatchOfOne(c, 2, [e], [FreeRecord([e])])
    modifies c`sequenceNumber, c`ring, c`numEntries, c.freeBatch
    ensures c.Valid() && c.ring == [FreeRecord([e]), FreeRecord([e])]
  {
    var ok := c.RecordFree(48, true, true, Transferred(1));
  }

  /**
    The client as written: with a batch of one entry, a flush whose ring write
    succeeds but whose wake byte fails keeps the batch, and the next free
    writes it again, so sequence number 1 reaches the daemon twice.
  */
  method DuplicateFreeRecordScenario() returns (c: Client)
    ensures c.Valid() && !c.NoNumberTwice()
    ensures c.ring == [FreeRecord([FreeBatchEntry(1, 16)]), FreeRecord([FreeBatchEntry(1, 16)])]
  {
    c := new Client([], 0, 1, 0);
    FreeIntoEmptyBatch(c);
    var e := FreeBatchEntry(1, 16);
    FreeWithFailedWake(c, e);
    FreeRewritingBatch(c, e);
    BatchWrittenTwice(e);
    assert c.Written()[0] == c.Written()[1];
  }

  /** The corrected client, on a fresh client with a batch of one: the first free is batched. */
  method ClearingFreeIntoEmptyBatch(c: Client)
    requires BatchOfOne(c, 0, [], []) && c.NoNumberTwice()
    modifies c`sequenceNumber, c`ring, c`numEntries, c.freeBatch
    ensures BatchOfOne(c, 1, [FreeBatchEntry(1, 16)], []) && c.NoNumberTwice()
  {
    var ok := c.RecordFreeClearingFlushed(16, true, true, Transferred(1));
  }

  /** The corrected client, on a full batch of one: a failed wake byte after the ring write still empties the batch. */
  method ClearingFreeWithFailedWake(c: Client, e: FreeBatchEntry)
    requires BatchOfOne(c, 1, [e], []) && c.NoNumberTwice()
    modifies c`sequenceNumber, c`ring, c`numEntries, c.freeBatch
    ensures BatchOfOne(c, 2, [], [FreeRecord([e])]) && c.NoNumberTwice()
  {
    assert c.numEntries == c.freeBatchSize;
    assert !SendControlSocketByte(IoError(OtherErrno(32)));
    var ok := c.RecordFreeClearingFlushed(32, true, true, IoError(OtherErrno(32)));
    assert !ok && c.Batch() == [];
    assert c.ring == [] + [FreeRecord([e])];
  }

  /** The corrected client, with room in the batch: the free is batched. */
  method ClearingFreeIntoRoom(c: Client, e: FreeBatchEntry)
    requires BatchOfOne(c, 2, [], [FreeRecord([e])]) && c.NoNumberTwice()
    modifies c`sequenceNumber, c`ring, c`numEntries, c.freeBatch
    ensures BatchOfOne(c, 3, [FreeBatchEntry(3, 48)], [FreeRecord([e])]) && c.NoNumberTwice()
  {
    var ok := c.RecordFreeClearingFlushed(48, true, true, Transferred(1));
  }

  /** The corrected client, on a full batch: the batch is written and the new free takes its place. */
  method ClearingFreeFlushing(c: Client, e: FreeBatchEntry)
    requires BatchOfOne(c, 3, [FreeBatchEntry(3, 48)], [FreeRecord([e])]) && c.NoNumberTwice()
    modifies c`sequenceNumber, c`ring, c`numEntries, c.freeBatch
    ensures c.Valid() && c.NoNumberTwice()
    ensures c.ring == [FreeRecord([e]), FreeRecord([FreeBatchEntry(3, 48)])]
  {
    var ok := c.RecordFreeClearingFlushed(64, true, true, Transferred(1));
  }

  /** The corrected client, driven the same way, writes the batch once. */
  method ClearedFreeRecordScenario() returns (c: Client)
    ensures c.Valid() && c.NoNumberTwice()
    ensures c.ring == [FreeRecord([FreeBatchEntry(1, 16)]), FreeRecord([FreeBatchEntry(3, 48)])]
  {
    c := new Client([], 0, 1, 0);
    assert c.Written() == [];
    ClearingFreeIntoEmptyBatch(c);
    var e := FreeBatchEntry(1, 16);
    ClearingFreeWithFailedWake(c, e);
    ClearingFreeIntoRoom(c, e);
    ClearingFreeFlushing(c, e);
  }
}
