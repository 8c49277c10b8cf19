/** What holds of every run of the file transfer. */
module FileTransfer {
  import opened Words
  import opened FileManagementSpec
  import opened Prelude

  // --- bounds over every interleaving -------------------------------------------------------------------------

  predicate Bounded(c: Config, m: Manager)
  {
    m.next <= m.expected
    && (m.phase == PacketTransfer ==>
          c.usable && c.chunk > 0 && m.retries < 3 && m.expected == Chunks(c, m.size)
          && (m.next < m.expected <==> m.expected > 0) && (Sane(c) ==> (m.expected > 0 <==> m.size > 0)))
  }

  lemma NothingToDivide(size: nat, payload: nat)
    requires payload > 0
    ensures CeilDiv(size, payload) > 0 <==> size > 0
  {
  }

  lemma ChunksOfNothing(c: Config, size: nat)
    requires Sane(c)
    ensures Chunks(c, size) > 0 <==> size > 0
  {
    NothingToDivide(size, Payload(c));
  }

  lemma PacketKeepsBounds(c: Config, m: Manager, p: seq<byte>, writeOk: bool, read: nat -> seq<byte>)
    requires Bounded(c, m)
    ensures Bounded(c, OnPacket(c, m, p, writeOk, read))
  {
    if Sane(c) {
      ChunksOfNothing(c, m.size);
    }
  }

  lemma StepKeepsBounds(c: Config, m: Manager, e: Event)
    requires Bounded(c, m)
    ensures Bounded(c, Step(c, m, e))
  {
    match e
    case Parameter(name, hash, size, startOk) =>
      if Sane(c) {
        ChunksOfNothing(c, size);
      }
    case Packet(packet, writeOk, read) => PacketKeepsBounds(c, m, packet, writeOk, read);
    case Url(url) =>
    case Abort(payload) =>
    case Process(answers) =>
  }

  /** Every run keeps the chunk index and the retry counter of a transfer below their limits. */
  lemma {:induction false} RunKeepsBounds(c: Config, events: seq<Event>)
    ensures Bounded(c, Run(c, Fresh(), events))
    decreases |events|
  {
    if events != [] {
      RunKeepsBounds(c, events[..|events| - 1]);
      StepKeepsBounds(c, Run(c, Fresh(), events[..|events| - 1]), events[|events| - 1]);
    }
  }

  // --- progress -----------------------------------------------------------------------------------------------

  /** A packet that the machine takes: valid, and chained to the one before. */
  predicate Takes(c: Config, m: Manager, p: seq<byte>) { PacketIsValid(c, p) && m.previousHash == PreviousHash(p) }

  /** A packet that the machine counts: taken, or invalid. */
  predicate Counts(c: Config, m: Manager, p: seq<byte>) { Takes(c, m, p) || !PacketIsValid(c, p) }

  /** What is left of a transfer: chunks to come, and invalid packets to be tolerated. */
  function Measure(m: Manager): int { m.expected - m.next + (3 - m.retries) }

  /** A packet that counts ends the transfer or brings it one step nearer to its end; any other repeats the request. */
  lemma PacketProgresses(c: Config, m: Manager, p: seq<byte>, writeOk: bool, read: nat -> seq<byte>)
    requires Bounded(c, m) && m.phase == PacketTransfer
    ensures Measure(m) > 0
    ensures var after := OnPacket(c, m, p, writeOk, read);
            if Counts(c, m, p) then
              after.phase == Idle || (after.phase == PacketTransfer && Measure(after) == Measure(m) - 1)
            else after == Say(m, Request(c, m))
  {
  }

  /** Packet events only, none of which ends the transfer. */
  predicate Transferring(c: Config, m: Manager, events: seq<Event>)
    decreases |events|
  {
    m.phase == PacketTransfer
    && (events != [] ==>
          Transferring(c, m, events[..|events| - 1]) && events[|events| - 1].Packet?
          && Run(c, m, events).phase == PacketTransfer)
  }

  /** How many of the packets count. */
  function Counted(c: Config, m: Manager, events: seq<Event>): nat
    decreases |events|
  {
    if events == [] then 0
    else
      var before := events[..|events| - 1];
      var last := events[|events| - 1];
      Counted(c, m, before) + (if last.Packet? && Counts(c, Run(c, m, before), last.packet) then 1 else 0)
  }

  /** A transfer that has not ended has seen no more packets that count than its measure allows. */
  lemma {:induction false} TransferIsBounded(c: Config, m: Manager, events: seq<Event>)
    requires Bounded(c, m) && Transferring(c, m, events)
    ensures Bounded(c, Run(c, m, events))
    ensures 0 < Measure(Run(c, m, events)) == Measure(m) - Counted(c, m, events)
    decreases |events|
  {
    if events != [] {
      var before, last := events[..|events| - 1], events[|events| - 1];
      TransferIsBounded(c, m, before);
      StepKeepsBounds(c, Run(c, m, before), last);
      PacketProgresses(c, Run(c, m, before), last.packet, last.writeOk, last.read);
    } else {
      NothingSent(c, m);
    }
  }

  lemma NothingSent(c: Config, m: Manager)
    requires Bounded(c, m) && m.phase == PacketTransfer
    ensures Measure(m) > 0
  {
  }

  /** From its start on, a transfer that nothing interrupts is over before the chunks and the retries are used up. */
  lemma TransferEndsInTime(c: Config, m: Manager, name: string, hash: seq<byte>, size: nat, events: seq<Event>)
    requires Bounded(c, m) && m.phase == Idle
    requires var started := Step(c, m, Parameter(name, hash, size, true));
             Transferring(c, started, events)
    ensures Counted(c, Step(c, m, Parameter(name, hash, size, true)), events) < Chunks(c, size) + 3
  {
    var started := Step(c, m, Parameter(name, hash, size, true));
    InTransfer(c, started, events);
    StepKeepsBounds(c, m, Parameter(name, hash, size, true));
    TransferIsBounded(c, started, events);
  }

  // --- the hash chain -----------------------------------------------------------------------------------------

  /** The packets that a run takes, in order. */
  function Taken(c: Config, m: Manager, events: seq<Event>): seq<seq<byte>>
    decreases |events|
  {
    if events == [] then []
    else
      var before := events[..|events| - 1];
      var last := events[|events| - 1];
      Taken(c, m, before)
      + (if last.Packet? && Takes(c, Run(c, m, before), last.packet) then [last.packet] else [])
  }

  /** The data of packets, one after the other. */
  function Joined(packets: seq<seq<byte>>): seq<byte>
    requires forall p :: p in packets ==> LongEnough(p)
  {
    if packets == [] then []
    else Joined(packets[..|packets| - 1]) + Data(packets[|packets| - 1])
  }

  /** The hash that the packet behind `packets` has to begin with, in a transfer that began with `first`. */
  function LinkBehind(c: Config, first: seq<byte>, packets: seq<seq<byte>>): seq<byte>
    requires forall p :: p in packets ==> LongEnough(p)
  {
    if packets == [] then first else c.sha(Data(packets[|packets| - 1]))
  }

  /** Each packet carries the SHA-256 of its data and begins with that of the data before it. */
  predicate Chained(c: Config, first: seq<byte>, packets: seq<seq<byte>>)
    decreases |packets|
  {
    packets != [] ==>
      var before := packets[..|packets| - 1];
      var last := packets[|packets| - 1];
      Chained(c, first, before) && PacketIsValid(c, last)
      && (forall p :: p in before ==> LongEnough(p)) && PreviousHash(last) == LinkBehind(c, first, before)
  }

  /** The chain spelled out by positions. */
  lemma {:induction false} ChainAt(c: Config, first: seq<byte>, packets: seq<seq<byte>>, i: nat)
    requires Chained(c, first, packets) && i < |packets|
    ensures PacketIsValid(c, packets[i])
    ensures i == 0 ==> PreviousHash(packets[0]) == first
    ensures i > 0 ==> LongEnough(packets[i - 1]) && PreviousHash(packets[i]) == c.sha(Data(packets[i - 1]))
    decreases |packets|
  {
    if i + 1 < |packets| {
      ChainAt(c, first, packets[..|packets| - 1], i);
    }
  }

  /** Where a transfer stands: `packets` are taken, `invalid` packets were seen, nothing else has changed since `m0`. */
  predicate Stands(c: Config, m0: Manager, packets: seq<seq<byte>>, m: Manager) {
    Chained(c, m0.previousHash, packets)
    && (forall p :: p in packets ==> LongEnough(p))
    && m.written == m0.written + Joined(packets)
    && m.next == m0.next + |packets|
    && m.previousHash == LinkBehind(c, m0.previousHash, packets)
    && m.expected == m0.expected && m.name == m0.name && m.hash == m0.hash && m.size == m0.size
  }

  lemma OneMorePacket(c: Config, first: seq<byte>, packets: seq<seq<byte>>, p: seq<byte>)
    requires Chained(c, first, packets) && PacketIsValid(c, p)
    requires forall q :: q in packets ==> LongEnough(q)
    requires PreviousHash(p) == LinkBehind(c, first, packets)
    ensures Chained(c, first, packets + [p])
    ensures forall q :: q in packets + [p] ==> LongEnough(q)
    ensures Joined(packets + [p]) == Joined(packets) + Data(p)
    ensures LinkBehind(c, first, packets + [p]) == OwnHash(p)
  {
    assert (packets + [p])[..|packets|] == packets;
  }

  lemma PacketMovesOn(c: Config, m0: Manager, packets: seq<seq<byte>>, m: Manager, e: Event)
    requires c.usable && e.Packet? && Stands(c, m0, packets, m)
    requires m.phase == PacketTransfer && Step(c, m, e).phase == PacketTransfer
    ensures Stands(c, m0, packets + (if Takes(c, m, e.packet) then [e.packet] else []), Step(c, m, e))
  {
    if Takes(c, m, e.packet) {
      OneMorePacket(c, m0.previousHash, packets, e.packet);
    } else {
      NothingTaken(packets);
    }
  }

  lemma NothingTaken(packets: seq<seq<byte>>)
    ensures packets + [] == packets
  {
  }

  /** The bytes written are the data of the taken packets, which form a chain; the chunk index is their number. */
  lemma {:induction false} TransferStands(c: Config, m0: Manager, events: seq<Event>)
    requires c.usable && Transferring(c, m0, events)
    ensures Stands(c, m0, Taken(c, m0, events), Run(c, m0, events))
    decreases |events|
  {
    if events == [] {
      assert m0.written + [] == m0.written;
    } else {
      var before := events[..|events| - 1];
      TransferStands(c, m0, before);
      PacketMovesOn(c, m0, Taken(c, m0, before), Run(c, m0, before), events[|events| - 1]);
    }
  }

  // --- what the verification loop reads -----------------------------------------------------------------------

  /** The `i`-th piece of up to `k` bytes. */
  function Piece(file: seq<byte>, k: nat, i: nat): seq<byte> {
    assert k * i <= k * (i + 1);
    file[Min(k * i, |file|)..Min(k * (i + 1), |file|)]
  }

  /** The contract of the read_chunk callback. */
  ghost predicate ReadsFile(read: nat -> seq<byte>, file: seq<byte>) {
    forall i: nat :: read(i) == Piece(file, 1024, i)
  }

  lemma PieceFollows(file: seq<byte>, k: nat, i: nat)
    ensures file[..Min(k * i, |file|)] + Piece(file, k, i) == file[..Min(k * (i + 1), |file|)]
  {
    assert k * i <= k * (i + 1);
  }

  /** `n` reads feed the first 1024 * n bytes of the file to MD5. */
  lemma {:induction false} FedIsPrefix(read: nat -> seq<byte>, file: seq<byte>, n: nat)
    requires ReadsFile(read, file)
    ensures Fed(read, n) == file[..Min(1024 * n, |file|)]
  {
    if n > 0 {
      FedIsPrefix(read, file, n - 1);
      assert read(n - 1) == Piece(file, VERIFICATION_CHUNK_SIZE, n - 1);
      PieceFollows(file, VERIFICATION_CHUNK_SIZE, n - 1);
    }
  }

  /** The reads feed the whole file exactly when it is no longer than they can reach. */
  lemma FedIsWholeFile(read: nat -> seq<byte>, file: seq<byte>, n: nat)
    requires ReadsFile(read, file)
    ensures Fed(read, n) == file <==> |file| <= 1024 * n
  {
    FedIsPrefix(read, file, n);
    assert file[..|file|] == file;
  }

  lemma CeilDivCovers(size: nat, payload: nat)
    requires payload > 0
    ensures payload * CeilDiv(size, payload) >= size
    ensures size > 0 ==> payload * (CeilDiv(size, payload) - 1) < size
  {
  }

  lemma SmallPayloadReaches(payload: nat, size: nat)
    requires 0 < payload <= 1024
    ensures size <= 1024 * CeilDiv(size, payload)
  {
    CeilDivCovers(size, payload);
    FactorsOrdered(payload, 1024, CeilDiv(size, payload));
  }

  lemma FactorsOrdered(a: nat, b: nat, x: nat)
    requires a <= b
    ensures a * x <= b * x
  {
  }

  /** A file in one packet that is longer than one read. */
  lemma LongPacketIsCut(c: Config, file: seq<byte>, read: nat -> seq<byte>)
    requires 1024 < |file| <= Payload(c) && ReadsFile(read, file)
    ensures Fed(read, Chunks(c, |file|)) != file
  {
    OneChunk(|file|, Payload(c));
    FedIsWholeFile(read, file, 1);
  }

  lemma OneChunk(size: nat, payload: nat)
    requires 0 < size <= payload
    ensures CeilDiv(size, payload) == 1
  {
  }

  lemma SmallFileIsReached(c: Config, size: nat)
    requires Sane(c) && (Payload(c) <= 1024 || size <= 1024)
    ensures size <= 1024 * Chunks(c, size)
  {
    if Payload(c) <= VERIFICATION_CHUNK_SIZE {
      SmallPayloadReaches(Payload(c), size);
    } else {
      ChunksOfNothing(c, size);
    }
  }

  /** The verification loop reads every file that may be announced, if it has its announced size, to its end. */
  ghost predicate ReadsAll(c: Config) {
    forall file: seq<byte>, read: nat -> seq<byte> ::
      |file| <= c.maximum && ReadsFile(read, file) ==> Fed(read, Chunks(c, |file|)) == file
  }

  /**
   * That is so exactly when the packets that are asked for carry no more than one verification chunk, or no file may be
   * longer than that.
   */
  lemma VerificationCoversEveryFile(c: Config)
    requires Sane(c)
    ensures ReadsAll(c) <==> Payload(c) <= 1024 || c.maximum <= 1024
  {
    if Payload(c) <= VERIFICATION_CHUNK_SIZE || c.maximum <= VERIFICATION_CHUNK_SIZE {
      forall file: seq<byte>, read: nat -> seq<byte> | |file| <= c.maximum && ReadsFile(read, file)
        ensures Fed(read, Chunks(c, |file|)) == file
      {
        SmallFileIsReached(c, |file|);
        FedIsWholeFile(read, file, Chunks(c, |file|));
      }
    } else {
      var file: seq<byte> := Zeros(VERIFICATION_CHUNK_SIZE + 1);
      var read: nat -> seq<byte> := i => Piece(file, VERIFICATION_CHUNK_SIZE, i);
      assert ReadsFile(read, file);
      LongPacketIsCut(c, file, read);
    }
  }

  // --- a file is finalized only when it is the announced one --------------------------------------------------

  ghost predicate FinalizesBetween(m: Manager, after: Manager) {
    exists i :: |m.out| <= i < |after.out| && after.out[i] == Finalizes
  }

  /** Whether the packet is the last one, is written, and passes the check. */
  predicate Completes(c: Config, m: Manager, e: Event) {
    e.Packet? && c.usable && Takes(c, m, e.packet) && e.writeOk && m.next + 1 >= m.expected
    && c.checksum(Fed(e.read, m.expected)) == m.hash
  }

  lemma PacketFinalizes(c: Config, m: Manager, e: Event)
    requires e.Packet?
    ensures FinalizesBetween(m, Step(c, m, e)) <==> Completes(c, m, e)
  {
    var after := Step(c, m, e);
    if Completes(c, m, e) {
      assert after.out[|m.out| + 2] == Finalizes;
    }
  }

  /** The file is handed over in no other step than the one that completes a transfer. */
  lemma OnlyCompletionFinalizes(c: Config, m: Manager, e: Event)
    ensures FinalizesBetween(m, Step(c, m, e)) <==> Completes(c, m, e)
  {
    if e.Packet? {
      PacketFinalizes(c, m, e);
    }
  }

  ghost predicate WritesBetween(m: Manager, after: Manager, data: seq<byte>) {
    exists i :: |m.out| <= i < |after.out| && after.out[i] == Writes(data)
  }

  lemma PacketWrites(c: Config, m: Manager, e: Event, data: seq<byte>)
    requires e.Packet?
    ensures WritesBetween(m, Step(c, m, e), data) <==> c.usable && Takes(c, m, e.packet) && data == Data(e.packet)
  {
    if c.usable && Takes(c, m, e.packet) {
      assert Step(c, m, e).out[|m.out|] == Writes(Data(e.packet));
    }
  }

  /** write_chunk is called exactly for the data of a packet that is taken, whatever the state is. */
  lemma OnlyTakenPacketsAreWritten(c: Config, m: Manager, e: Event, data: seq<byte>)
    ensures WritesBetween(m, Step(c, m, e), data)
        <==> e.Packet? && c.usable && Takes(c, m, e.packet) && data == Data(e.packet)
  {
    if e.Packet? {
      PacketWrites(c, m, e, data);
    }
  }

  /** So a machine to which nothing was announced writes, too; it then refuses the file and is cleared. */
  lemma UnannouncedPacketIsWritten(c: Config, data: seq<byte>, writeOk: bool, read: nat -> seq<byte>)
    requires c.usable && data != [] && |c.sha(data)| == HASH_SIZE && c.checksum([]) != NoHash()
    ensures var e := Packet(NoHash() + data + c.sha(data), writeOk, read);
            WritesBetween(Fresh(), Step(c, Fresh(), e), data)
            && Step(c, Fresh(), e) == Fresh().(written := Step(c, Fresh(), e).written, out := Step(c, Fresh(), e).out)
            && !FinalizesBetween(Fresh(), Step(c, Fresh(), e))
            && Step(c, Fresh(), e).written == if writeOk then data else []
  {
    var e := Packet(NoHash() + data + c.sha(data), writeOk, read);
    PacketParts(NoHash(), data, c.sha(data));
    OnlyTakenPacketsAreWritten(c, Fresh(), e, data);
    PacketFinalizes(c, Fresh(), e);
  }

  lemma {:induction false} JoinedLength(packets: seq<seq<byte>>, k: nat)
    requires forall p :: p in packets ==> LongEnough(p) && |Data(p)| <= k
    ensures |Joined(packets)| <= |packets| * k
    decreases |packets|
  {
    if packets != [] {
      var before := packets[..|packets| - 1];
      JoinedLength(before, k);
      OneMoreTimes(|before|, k);
    }
  }

  /** How many packets a transfer takes: an empty file, of which no chunk is asked for, takes one. */
  function Wanted(c: Config, size: nat): nat {
    if Chunks(c, size) == 0 then 1 else Chunks(c, size)
  }

  /** A chain of as many packets as the size asks for is written, and what is read back has the announced MD5. */
  ghost predicate WroteChain(c: Config, m0: Manager, packets: seq<seq<byte>>, after: Manager, read: nat -> seq<byte>)
  {
    Chained(c, m0.previousHash, packets)
    && |packets| == Wanted(c, m0.size)
    && (forall p :: p in packets ==> LongEnough(p))
    && after.written == Joined(packets)
    && c.checksum(Fed(read, Chunks(c, m0.size))) == m0.hash
  }

  lemma LastPacket(c: Config, m0: Manager, packets: seq<seq<byte>>, m: Manager, e: Event)
    requires Stands(c, m0, packets, m) && Bounded(c, m) && m.phase == PacketTransfer
    requires m0.next == 0 && m0.written == [] && Completes(c, m, e)
    ensures WroteChain(c, m0, packets + [e.packet], Step(c, m, e), e.read)
  {
    OneMorePacket(c, m0.previousHash, packets, e.packet);
  }

  lemma InTransfer(c: Config, m: Manager, events: seq<Event>)
    requires Transferring(c, m, events)
    ensures m.phase == PacketTransfer && Run(c, m, events).phase == PacketTransfer
  {
  }

  /**
   * A transfer that ends with the file handed over has written the data of a chain of packets, as many as the size asks
   * for, or one if it asks for none; the bytes read back have the announced MD5.
   */
  lemma FinalizedChain(c: Config, m0: Manager, events: seq<Event>, e: Event)
    requires Bounded(c, m0) && m0.next == 0 && m0.written == []
    requires Transferring(c, m0, events) && FinalizesBetween(Run(c, m0, events), Step(c, Run(c, m0, events), e))
    ensures e.Packet? && c.usable
    ensures WroteChain(c, m0, Taken(c, m0, events) + [e.packet], Step(c, Run(c, m0, events), e), e.read)
  {
    var m := Run(c, m0, events);
    OnlyCompletionFinalizes(c, m, e);
    InTransfer(c, m0, events);
    TransferIsBounded(c, m0, events);
    TransferStands(c, m0, events);
    LastPacket(c, m0, Taken(c, m0, events), m, e);
  }

  /**
   * When read_chunk reads what was written, the bytes whose MD5 is the announced one are all the bytes written exactly
   * when these are no more than 1024 for each chunk that the size asks for; of an empty file that is never the case.
   */
  lemma FinalizedFileIsTheAnnouncedOne(c: Config, m0: Manager, events: seq<Event>, e: Event)
    requires Bounded(c, m0) && m0.next == 0 && m0.written == []
    requires Transferring(c, m0, events) && FinalizesBetween(Run(c, m0, events), Step(c, Run(c, m0, events), e))
    ensures e.Packet? && c.usable
    ensures var after := Step(c, Run(c, m0, events), e);
            var fed := Fed(e.read, Chunks(c, m0.size));
            WroteChain(c, m0, Taken(c, m0, events) + [e.packet], after, e.read)
            && c.checksum(fed) == m0.hash && after.written != []
            && (ReadsFile(e.read, after.written) ==>
                  (fed == after.written <==> |after.written| <= 1024 * Chunks(c, m0.size)))
  {
    FinalizedChain(c, m0, events, e);
    var after := Step(c, Run(c, m0, events), e);
    SomethingJoined(Taken(c, m0, events), e.packet);
    if ReadsFile(e.read, after.written) {
      FedIsWholeFile(e.read, after.written, Chunks(c, m0.size));
    }
  }

  lemma SomethingJoined(packets: seq<seq<byte>>, p: seq<byte>)
    requires forall q :: q in packets + [p] ==> LongEnough(q)
    ensures Joined(packets + [p]) != []
  {
    assert p in packets + [p];
    assert (packets + [p])[..|packets|] == packets;
  }

  /**
   * So a transfer whose packets carry at most a verification chunk hands over the announced file exactly when a size
   * other than 0 was announced: otherwise nothing of what is handed over was compared.
   */
  lemma ShortPacketsAreVerified(c: Config, m0: Manager, events: seq<Event>, e: Event)
    requires Sane(c) && Bounded(c, m0) && m0.next == 0 && m0.written == []
    requires Transferring(c, m0, events) && FinalizesBetween(Run(c, m0, events), Step(c, Run(c, m0, events), e))
    requires e.Packet? && ReadsFile(e.read, Step(c, Run(c, m0, events), e).written)
    requires forall p :: p in Taken(c, m0, events) + [e.packet] ==>
               LongEnough(p) && |Data(p)| <= 1024
    ensures var written := Step(c, Run(c, m0, events), e).written;
            (Fed(e.read, Chunks(c, m0.size)) == written <==> m0.size > 0)
            && (m0.size > 0 ==> c.checksum(written) == m0.hash)
            && (m0.size == 0 ==> c.checksum([]) == m0.hash && written != [])
  {
    FinalizedFileIsTheAnnouncedOne(c, m0, events, e);
    ChunksOfNothing(c, m0.size);
    JoinedLength(Taken(c, m0, events) + [e.packet], VERIFICATION_CHUNK_SIZE);
  }

  /** An input on which it is so: nothing is announced, with the MD5 of nothing, and any one packet is handed over. */
  lemma AnythingForNothing(c: Config, name: string, data: seq<byte>, read: nat -> seq<byte>)
    requires Sane(c) && c.usable && c.chunk > 0 && c.maximum > 0 && name != ""
    requires data != [] && |c.sha(data)| == HASH_SIZE
    ensures var m := Step(c, Fresh(), Parameter(name, c.checksum([]), 0, true));
            var e := Packet(NoHash() + data + c.sha(data), true, read);
            m.phase == PacketTransfer && FinalizesBetween(m, Step(c, m, e)) && Step(c, m, e).written == data
            && Fed(read, m.expected) == [] != data
  {
    var m := Step(c, Fresh(), Parameter(name, c.checksum([]), 0, true));
    var e := Packet(NoHash() + data + c.sha(data), true, read);
    ChunksOfNothing(c, 0);
    PacketParts(NoHash(), data, c.sha(data));
    PacketFinalizes(c, m, e);
  }

  /** The condition in front of the last packet, from any state: what a receiver would have to compare. */
  lemma CompletedFileIsRead(c: Config, m: Manager, e: Event)
    requires Completes(c, m, e) && ReadsFile(e.read, m.written + Data(e.packet))
    ensures Step(c, m, e).written == m.written + Data(e.packet)
    ensures Fed(e.read, m.expected) == Step(c, m, e).written
        <==> |m.written| + |Data(e.packet)| <= 1024 * m.expected
  {
    FedIsWholeFile(e.read, m.written + Data(e.packet), m.expected);
  }

  /**
   * A packet longer than the one asked for is taken in every configuration: announced as a file of one packet, all of
   * it is written and handed over, and only its first 1024 bytes were compared with the announced MD5.
   */
  lemma OversizedPacketIsHandedOver(c: Config, name: string, size: nat, data: seq<byte>, read: nat -> seq<byte>)
    requires c.usable && c.chunk > 0 && 0 < size <= c.maximum && Chunks(c, size) == 1 && name != ""
    requires |data| > 1024 && |c.sha(data)| == HASH_SIZE && ReadsFile(read, data)
    ensures var m := Step(c, Fresh(), Parameter(name, c.checksum(data[..1024]), size, true));
            var e := Packet(NoHash() + data + c.sha(data), true, read);
            m.phase == PacketTransfer && FinalizesBetween(m, Step(c, m, e)) && Step(c, m, e).written == data
            && Fed(read, m.expected) == data[..1024] != data
  {
    var m := Step(c, Fresh(), Parameter(name, c.checksum(data[..1024]), size, true));
    var e := Packet(NoHash() + data + c.sha(data), true, read);
    PacketParts(NoHash(), data, c.sha(data));
    FedIsPrefix(read, data, 1);
    PacketFinalizes(c, m, e);
  }

  /** For example 2000 bytes where 64 are announced and asked for. */
  lemma TwoThousandForSixtyFour(c: Config, name: string, data: seq<byte>, read: nat -> seq<byte>)
    requires c.usable && c.chunk == 128 && c.maximum >= 64 && name != ""
    requires |data| == 2000 && |c.sha(data)| == HASH_SIZE && ReadsFile(read, data)
    ensures var m := Step(c, Fresh(), Parameter(name, c.checksum(data[..1024]), 64, true));
            var e := Packet(NoHash() + data + c.sha(data), true, read);
            FinalizesBetween(m, Step(c, m, e)) && Step(c, m, e).written == data
            && Fed(read, m.expected) == data[..1024] != data
  {
    OneChunk(64, 64);
    OversizedPacketIsHandedOver(c, name, 64, data, read);
  }

  lemma PacketParts(link: seq<byte>, data: seq<byte>, hash: seq<byte>)
    requires |link| == 32 && |hash| == 32 && data != []
    ensures var p := link + data + hash;
            LongEnough(p) && PreviousHash(p) == link && Data(p) == data && OwnHash(p) == hash
  {
  }
}
