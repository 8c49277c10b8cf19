/** The transfer seen from the platform: which idle machines it can send to, and what an orderly transfer achieves. */
module FileSender {
  import opened Words
  import opened FileManagementSpec
  import opened FileTransfer
  import opened Prelude

  // --- clean machines -----------------------------------------------------------------------------------------

  /** No trace of an earlier transfer when idle, and no download under way. */
  predicate Clean(m: Manager) {
    && (m.phase == Idle || m.phase == PacketTransfer)
    && (m.phase == Idle ==> m.previousHash == NoHash() && m.next == 0 && m.expected == 0 && m.name == "" && m.size == 0)
  }

  lemma PacketKeepsClean(c: Config, m: Manager, p: seq<byte>, writeOk: bool, read: nat -> seq<byte>)
    requires Clean(m)
    ensures Clean(OnPacket(c, m, p, writeOk, read))
  {
  }

  lemma StepKeepsClean(c: Config, m: Manager, e: Event)
    requires Clean(m) && !e.Url?
    ensures Clean(Step(c, m, e))
  {
    match e
    case Parameter(name, hash, size, startOk) =>
    case Packet(packet, writeOk, read) => PacketKeepsClean(c, m, packet, writeOk, read);
    case Abort(payload) =>
    case Process(answers) =>
  }

  /** Without URL downloads every transfer starts its hash chain from zeros. */
  lemma {:induction false} RunWithoutUrlIsClean(c: Config, events: seq<Event>)
    requires forall e :: e in events ==> !e.Url?
    ensures Clean(Run(c, Fresh(), events))
    decreases |events|
  {
    if events != [] {
      RunWithoutUrlIsClean(c, events[..|events| - 1]);
      StepKeepsClean(c, Run(c, Fresh(), events[..|events| - 1]), events[|events| - 1]);
    }
  }

  // --- hashes that are left behind ----------------------------------------------------------------------------

  /** Outside a transfer a hash is kept, to which the first packet of the next file will not be chained. */
  predicate Stale(m: Manager) { m.phase != PacketTransfer && m.previousHash != NoHash() }

  /** A URL command takes over a transfer that has a hash, or a packet is taken outside a transfer and asks for more. */
  predicate Soils(c: Config, m: Manager, e: Event) {
    match e
    case Url(url) =>
      m.phase == PacketTransfer && 0 < |url| < 64 && c.canDownload && m.previousHash != NoHash()
    case Packet(packet, writeOk, read) =>
      c.usable && m.phase != PacketTransfer && Takes(c, m, packet) && writeOk && m.next + 1 < m.expected
      && OwnHash(packet) != NoHash()
    case _ => false
  }

  /** The events that clear a kept hash, or start a transfer on it. */
  predicate Cleans(c: Config, m: Manager, e: Event) {
    c.usable
    && match e
       case Parameter(name, hash, size, startOk) =>
         m.phase == Idle && c.chunk > 0 && c.maximum > 0 && name != "" && size <= c.maximum && startOk
       case Packet(packet, writeOk, read) =>
         if PacketIsValid(c, packet) then
           m.previousHash == PreviousHash(packet)
           && (!writeOk || m.next + 1 >= m.expected || OwnHash(packet) == NoHash())
         else (m.retries + 1) % WORD_LIMIT >= 3
       case Url(url) => false
       case Abort(payload) => m.phase != Idle || !Contains(payload, m.name)
       case Process(answers) =>
         c.canDownload
         && ((m.phase == UrlDownload && !answers.startOk)
             || (m.phase == FileObtained && (!answers.done || !answers.success)))
  }

  lemma PacketSoils(c: Config, m: Manager, p: seq<byte>, writeOk: bool, read: nat -> seq<byte>)
    requires !Stale(m)
    ensures Stale(OnPacket(c, m, p, writeOk, read)) <==> Soils(c, m, Packet(p, writeOk, read))
  {
  }

  lemma PacketCleans(c: Config, m: Manager, p: seq<byte>, writeOk: bool, read: nat -> seq<byte>)
    requires Stale(m)
    ensures !Stale(OnPacket(c, m, p, writeOk, read)) <==> Cleans(c, m, Packet(p, writeOk, read))
  {
  }

  /** One event leaves a hash behind exactly if it soils the machine, and removes it exactly if it cleans it. */
  lemma StaleExactly(c: Config, m: Manager, e: Event)
    ensures Stale(Step(c, m, e)) <==> if Stale(m) then !Cleans(c, m, e) else Soils(c, m, e)
  {
    match e
    case Parameter(name, hash, size, startOk) =>
    case Packet(packet, writeOk, read) =>
      if Stale(m) {
        PacketCleans(c, m, packet, writeOk, read);
      } else {
        PacketSoils(c, m, packet, writeOk, read);
      }
    case Url(url) =>
    case Abort(payload) =>
    case Process(answers) =>
  }

  /** The `i`-th event soils the machine, and nothing behind it cleans it. */
  ghost predicate StaleSince(c: Config, events: seq<Event>, i: nat) {
    SoilsAt(c, events, i) && forall j :: i < j < |events| ==> !CleansAt(c, events, j)
  }

  /** The quantifiers keep the run folded. */
  ghost predicate SoilsAt(c: Config, events: seq<Event>, i: nat) {
    i < |events| && forall k :: k == i && k < |events| ==>
      !Stale(Run(c, Fresh(), events[..k])) && Soils(c, Run(c, Fresh(), events[..k]), events[k])
  }

  ghost predicate CleansAt(c: Config, events: seq<Event>, i: nat) {
    i < |events| && forall k :: k == i && k < |events| ==> Cleans(c, Run(c, Fresh(), events[..k]), events[k])
  }

  lemma AtBefore(c: Config, events: seq<Event>, i: nat)
    requires i + 1 < |events|
    ensures SoilsAt(c, events, i) == SoilsAt(c, events[..|events| - 1], i)
    ensures CleansAt(c, events, i) == CleansAt(c, events[..|events| - 1], i)
  {
    var before := events[..|events| - 1];
    assert before[..i] == events[..i] && before[i] == events[i];
    SoilsIs(c, events, i);
    SoilsIs(c, before, i);
  }

  lemma SoilsIs(c: Config, events: seq<Event>, i: nat)
    requires i < |events|
    ensures SoilsAt(c, events, i)
        <==> !Stale(Run(c, Fresh(), events[..i])) && Soils(c, Run(c, Fresh(), events[..i]), events[i])
    ensures CleansAt(c, events, i) <==> Cleans(c, Run(c, Fresh(), events[..i]), events[i])
  {
  }

  lemma StaleBefore(c: Config, events: seq<Event>, i: nat)
    requires i + 1 < |events|
    ensures StaleSince(c, events, i) <==>
            StaleSince(c, events[..|events| - 1], i) && !CleansAt(c, events, |events| - 1)
  {
    var before := events[..|events| - 1];
    AtBefore(c, events, i);
    forall j: nat | j < |before|
      ensures CleansAt(c, events, j) == CleansAt(c, before, j)
    {
      AtBefore(c, events, j);
    }
  }

  lemma {:induction false} StaysStale(c: Config, events: seq<Event>, i: nat)
    requires StaleSince(c, events, i)
    ensures Stale(Run(c, Fresh(), events))
    decreases |events|
  {
    var before, last := events[..|events| - 1], events[|events| - 1];
    StaleExactly(c, Run(c, Fresh(), before), last);
    SoilsIs(c, events, |events| - 1);
    if i + 1 < |events| {
      StaleBefore(c, events, i);
      StaysStale(c, before, i);
    }
  }

  lemma {:induction false} BecameStale(c: Config, events: seq<Event>) returns (i: nat)
    requires Stale(Run(c, Fresh(), events))
    ensures StaleSince(c, events, i)
    decreases |events|
  {
    var before, last := events[..|events| - 1], events[|events| - 1];
    StaleExactly(c, Run(c, Fresh(), before), last);
    SoilsIs(c, events, |events| - 1);
    if Stale(Run(c, Fresh(), before)) {
      i := BecameStale(c, before);
      StaleBefore(c, events, i);
    } else {
      i := |events| - 1;
    }
  }

  /**
   * In every run: a machine outside a transfer keeps a hash exactly when some event has soiled it and none since has
   * cleaned it.
   */
  lemma StaleExactlyWhenSoiled(c: Config, events: seq<Event>)
    ensures Stale(Run(c, Fresh(), events)) <==> exists i: nat :: StaleSince(c, events, i)
  {
    if Stale(Run(c, Fresh(), events)) {
      var i := BecameStale(c, events);
    }
    forall i: nat | StaleSince(c, events, i) ensures Stale(Run(c, Fresh(), events)) {
      StaysStale(c, events, i);
    }
  }

  // --- an orderly sender --------------------------------------------------------------------------------------

  ghost predicate Hashes(c: Config) { forall x :: |c.sha(x)| == 32 }

  /** The hash that the `i`-th packet of `file` begins with. */
  function Link(c: Config, file: seq<byte>, i: nat): seq<byte>
  {
    if i == 0 then NoHash() else c.sha(Piece(file, Payload(c), i - 1))
  }

  /** The `i`-th packet of `file`. */
  function Sent(c: Config, file: seq<byte>, i: nat): seq<byte>
  {
    Link(c, file, i) + Piece(file, Payload(c), i) + c.sha(Piece(file, Payload(c), i))
  }

  lemma PieceIsThere(file: seq<byte>, k: nat, i: nat)
    requires k > 0 && i < CeilDiv(|file|, k)
    ensures 0 < |Piece(file, k, i)| <= k
  {
    CeilDivCovers(|file|, k);
    FactorsOrdered(i, CeilDiv(|file|, k) - 1, k);
    assert k * (i + 1) == k * i + k;
  }

  lemma SentParts(c: Config, file: seq<byte>, i: nat)
    requires Sane(c) && Hashes(c) && i < Chunks(c, |file|)
    ensures var p := Sent(c, file, i);
            LongEnough(p) && PreviousHash(p) == Link(c, file, i) && Data(p) == Piece(file, Payload(c), i)
            && OwnHash(p) == Link(c, file, i + 1) && PacketIsValid(c, p)
  {
    PieceIsThere(file, Payload(c), i);
    PacketParts(Link(c, file, i), Piece(file, Payload(c), i), c.sha(Piece(file, Payload(c), i)));
  }

  /** The idle machine accepts the announcement. */
  predicate Acceptable(c: Config, name: string, size: nat) {
    c.usable && c.chunk > 0 && c.maximum > 0 && name != "" && size <= c.maximum
  }

  /** The first packet is taken exactly by a machine whose hash was cleared. */
  lemma FirstPacketTaken(c: Config, m: Manager, name: string, hash: seq<byte>, file: seq<byte>)
    requires Sane(c) && Hashes(c) && Acceptable(c, name, |file|) && file != [] && m.phase == Idle
    ensures var started := Step(c, m, Parameter(name, hash, |file|, true));
            started.phase == PacketTransfer && (Takes(c, started, Sent(c, file, 0)) <==> m.previousHash == NoHash())
  {
    ChunksOfNothing(c, |file|);
    SentParts(c, file, 0);
  }

  /** In every run that ends idle: the next file is begun exactly when no event has soiled the machine since. */
  lemma NextFileIsBegun(c: Config, events: seq<Event>, name: string, hash: seq<byte>, file: seq<byte>)
    requires Sane(c) && Hashes(c) && Acceptable(c, name, |file|) && file != [] && Run(c, Fresh(), events).phase == Idle
    ensures Takes(c, Step(c, Run(c, Fresh(), events), Parameter(name, hash, |file|, true)), Sent(c, file, 0))
        <==> !exists i: nat :: StaleSince(c, events, i)
  {
    StaleExactlyWhenSoiled(c, events);
    FirstPacketTaken(c, Run(c, Fresh(), events), name, hash, file);
  }

  // --- an orderly transfer ------------------------------------------------------------------------------------

  /** The machine waits for the `i`-th packet of `file`. */
  predicate Waits(c: Config, file: seq<byte>, hash: seq<byte>, m: Manager, i: nat)
  {
    m.phase == PacketTransfer && m.next == i && m.expected == Chunks(c, |file|) && m.hash == hash
    && m.written == file[..Min(Payload(c) * i, |file|)] && m.previousHash == Link(c, file, i)
  }

  lemma WaitsForTheFirst(c: Config, m: Manager, name: string, hash: seq<byte>, file: seq<byte>)
    requires Acceptable(c, name, |file|) && m.phase == Idle && m.previousHash == NoHash()
    ensures Waits(c, file, hash, Step(c, m, Parameter(name, hash, |file|, true)), 0)
  {
  }

  lemma WaitsForTheNext(c: Config, file: seq<byte>, hash: seq<byte>, m: Manager, i: nat, read: nat -> seq<byte>)
    requires c.usable && Sane(c) && Hashes(c) && i + 1 < Chunks(c, |file|) && Waits(c, file, hash, m, i)
    ensures Waits(c, file, hash, Step(c, m, Packet(Sent(c, file, i), true, read)), i + 1)
  {
    SentParts(c, file, i);
    PieceFollows(file, Payload(c), i);
  }

  /** The file is handed over, or refused because its MD5 is not the announced one. */
  predicate HandedOver(m: Manager) {
    var n := |m.out|;
    n >= 3 && m.out[n - 3] == Reports(Ok(FileReady)) && m.out[n - 2] == Finalizes && m.out[n - 1] == Lists
  }

  predicate Refused(m: Manager) {
    var n := |m.out|;
    n >= 2 && m.out[n - 2] == Aborts && m.out[n - 1] == Reports(Err(FileHashMismatch))
  }

  /** The transfer is over and the file written; it is handed over if the part that is read has the announced MD5. */
  predicate Ended(c: Config, file: seq<byte>, hash: seq<byte>, after: Manager)
  {
    after.phase == Idle && after.written == file
    && if c.checksum(file[..Min(1024 * Chunks(c, |file|), |file|)]) == hash
       then HandedOver(after) else Refused(after)
  }

  lemma EndsAtTheLast(c: Config, file: seq<byte>, hash: seq<byte>, m: Manager, i: nat, read: nat -> seq<byte>)
    requires c.usable && Sane(c) && Hashes(c) && i + 1 == Chunks(c, |file|)
    requires Waits(c, file, hash, m, i)
    requires ReadsFile(read, file)
    ensures Ended(c, file, hash, Step(c, m, Packet(Sent(c, file, i), true, read)))
  {
    SentParts(c, file, i);
    LastPiece(file, Payload(c), i);
    FedIsPrefix(read, file, i + 1);
  }

  lemma LastPiece(file: seq<byte>, k: nat, i: nat)
    requires k > 0 && i + 1 == CeilDiv(|file|, k)
    ensures file[..Min(k * i, |file|)] + Piece(file, k, i) == file
  {
    PieceFollows(file, k, i);
    CeilDivCovers(|file|, k);
    assert file[..|file|] == file;
  }

  /** The announcement and then the packets in order. */
  function Sending(c: Config, name: string, hash: seq<byte>, file: seq<byte>, read: nat -> seq<byte>, n: nat)
    : seq<Event>
  {
    if n == 0 then [Parameter(name, hash, |file|, true)]
    else Sending(c, name, hash, file, read, n - 1) + [Packet(Sent(c, file, n - 1), true, read)]
  }

  lemma RunOneMore(c: Config, m: Manager, events: seq<Event>, e: Event)
    ensures Run(c, m, events + [e]) == Step(c, Run(c, m, events), e)
  {
    assert (events + [e])[..|events|] == events;
  }

  ghost predicate WaitsBehind(c: Config, m: Manager, events: seq<Event>, file: seq<byte>, hash: seq<byte>, i: nat)
  {
    forall k: nat :: k == i ==> Waits(c, file, hash, Run(c, m, events), k)
  }

  lemma WaitsAtFirst(c: Config, m: Manager, name: string, hash: seq<byte>, file: seq<byte>)
    requires Acceptable(c, name, |file|) && m.phase == Idle && m.previousHash == NoHash()
    ensures WaitsBehind(c, m, [Parameter(name, hash, |file|, true)], file, hash, 0)
  {
    RunOneMore(c, m, [], Parameter(name, hash, |file|, true));
    NoEventBefore(Parameter(name, hash, |file|, true));
    WaitsForTheFirst(c, m, name, hash, file);
  }

  lemma WaitsOnceMore(c: Config, m: Manager, before: seq<Event>, file: seq<byte>, hash: seq<byte>, i: nat,
                      read: nat -> seq<byte>)
    requires c.usable && Sane(c) && Hashes(c) && i + 1 < Chunks(c, |file|)
    requires WaitsBehind(c, m, before, file, hash, i)
    ensures WaitsBehind(c, m, before + [Packet(Sent(c, file, i), true, read)], file, hash, i + 1)
  {
    assert Waits(c, file, hash, Run(c, m, before), i);
    RunOneMore(c, m, before, Packet(Sent(c, file, i), true, read));
    WaitsForTheNext(c, file, hash, Run(c, m, before), i, read);
  }

  lemma {:induction false} WaitsAfter(c: Config, m: Manager, name: string, hash: seq<byte>, file: seq<byte>,
                                      read: nat -> seq<byte>, n: nat)
    requires Sane(c) && Hashes(c) && Acceptable(c, name, |file|) && m.phase == Idle && m.previousHash == NoHash()
    requires n < Chunks(c, |file|)
    ensures WaitsBehind(c, m, Sending(c, name, hash, file, read, n), file, hash, n)
  {
    if n == 0 {
      WaitsAtFirst(c, m, name, hash, file);
    } else {
      WaitsAfter(c, m, name, hash, file, read, n - 1);
      WaitsOnceMore(c, m, Sending(c, name, hash, file, read, n - 1), file, hash, n - 1, read);
    }
  }

  lemma NoEventBefore(e: Event)
    ensures [] + [e] == [e]
  {
  }

  lemma EndsBehind(c: Config, m: Manager, before: seq<Event>, file: seq<byte>, hash: seq<byte>, i: nat,
                   read: nat -> seq<byte>)
    requires c.usable && Sane(c) && Hashes(c) && i + 1 == Chunks(c, |file|)
    requires WaitsBehind(c, m, before, file, hash, i)
    requires ReadsFile(read, file)
    ensures Ended(c, file, hash, Run(c, m, before + [Packet(Sent(c, file, i), true, read)]))
  {
    assert Waits(c, file, hash, Run(c, m, before), i);
    RunOneMore(c, m, before, Packet(Sent(c, file, i), true, read));
    EndsAtTheLast(c, file, hash, Run(c, m, before), i, read);
  }

  /**
   * A file sent in order to a machine whose hash is cleared, with callbacks that succeed, is written byte for byte; it
   * is handed over exactly when the part that the verification loop reads has the announced MD5.
   */
  lemma OrderlyTransfer(c: Config, m: Manager, name: string, hash: seq<byte>, file: seq<byte>, read: nat -> seq<byte>)
    requires Sane(c) && Hashes(c) && Acceptable(c, name, |file|) && m.phase == Idle && m.previousHash == NoHash()
    requires file != [] && ReadsFile(read, file)
    ensures Ended(c, file, hash, Run(c, m, Sending(c, name, hash, file, read, Chunks(c, |file|))))
  {
    ChunksOfNothing(c, |file|);
    var last := Chunks(c, |file|) - 1;
    WaitsAfter(c, m, name, hash, file, read, last);
    EndsBehind(c, m, Sending(c, name, hash, file, read, last), file, hash, last, read);
  }

  /**
   * Announced with its own MD5, an orderly file is handed over exactly when the verification loop reaches its end, or
   * else when the MD5 of the part that it reads happens to be the same.
   */
  lemma WholeFileIsHandedOver(c: Config, m: Manager, name: string, file: seq<byte>, read: nat -> seq<byte>)
    requires Sane(c) && Hashes(c) && Acceptable(c, name, |file|) && m.phase == Idle && m.previousHash == NoHash()
    requires file != [] && ReadsFile(read, file)
    ensures var after := Run(c, m, Sending(c, name, c.checksum(file), file, read, Chunks(c, |file|)));
            after.written == file
            && (HandedOver(after) <==>
                  |file| <= 1024 * Chunks(c, |file|)
                  || c.checksum(file[..1024 * Chunks(c, |file|)]) == c.checksum(file))
  {
    OrderlyTransfer(c, m, name, c.checksum(file), file, read);
    if |file| <= 1024 * Chunks(c, |file|) {
      assert file[..|file|] == file;
    }
  }

  // --- an interrupted transfer --------------------------------------------------------------------------------

  /** Valid packets that are not chained to what the machine has: each one only repeats the request. */
  predicate Unchained(c: Config, m: Manager, e: Event) {
    e.Packet? && PacketIsValid(c, e.packet) && PreviousHash(e.packet) != m.previousHash
  }

  lemma {:induction false} UnchainedPacketsChangeNothing(c: Config, m: Manager, events: seq<Event>)
    requires forall e :: e in events ==> Unchained(c, m, e)
    ensures Run(c, m, events) == m.(out := Run(c, m, events).out)
    decreases |events|
  {
    if events != [] {
      var before, last := events[..|events| - 1], events[|events| - 1];
      UnchainedPacketsChangeNothing(c, m, before);
      assert Unchained(c, m, last);
    }
  }

  /** From a fresh machine: a file is announced, its first packet accepted, and two URL commands come. */
  function Interruption(c: Config, name: string, hash: seq<byte>, file: seq<byte>, read: nat -> seq<byte>, url: string)
    : seq<Event>
  {
    Sending(c, name, hash, file, read, 1) + [Url(url)] + [Url(url)]
  }

  lemma InterruptionLeavesHash(c: Config, name: string, hash: seq<byte>, file: seq<byte>, read: nat -> seq<byte>,
                               url: string)
    requires Sane(c) && Hashes(c) && Acceptable(c, name, |file|) && Chunks(c, |file|) > 1
    requires c.canDownload && 0 < |url| < 64
    ensures var idle := Run(c, Fresh(), Interruption(c, name, hash, file, read, url));
            idle.phase == Idle && idle.previousHash == c.sha(Piece(file, Payload(c), 0))
  {
    WaitsAfter(c, Fresh(), name, hash, file, read, 1);
    var sent := Sending(c, name, hash, file, read, 1);
    assert Waits(c, file, hash, Run(c, Fresh(), sent), 1);
    RunOneMore(c, Fresh(), sent, Url(url));
    RunOneMore(c, Fresh(), sent + [Url(url)], Url(url));
  }

  /** An idle machine with a hash accepts the next file, and then refuses its first packet however often it is sent. */
  lemma StaleMachineTakesNothing(c: Config, idle: Manager, name: string, hash: seq<byte>, file: seq<byte>,
                                 events: seq<Event>)
    requires Sane(c) && Hashes(c) && Acceptable(c, name, |file|) && file != []
    requires idle.phase == Idle && idle.previousHash != NoHash()
    requires forall e :: e in events ==> e.Packet? && e.packet == Sent(c, file, 0)
    ensures var after := Run(c, Step(c, idle, Parameter(name, hash, |file|, true)), events);
            after.phase == PacketTransfer && after.next == 0 && after.written == []
            && after.previousHash == idle.previousHash
  {
    var started := Step(c, idle, Parameter(name, hash, |file|, true));
    ChunksOfNothing(c, |file|);
    SentParts(c, file, 0);
    forall e | e in events ensures Unchained(c, started, e) {
    }
    UnchainedPacketsChangeNothing(c, started, events);
  }

  /**
   * Behind such a run the next file is announced and accepted, but however often its first packet, the one that is
   * asked for, is sent, nothing of it is written.
   */
  lemma NextFileIsNeverReceived(c: Config, name: string, hash: seq<byte>, file: seq<byte>, read: nat -> seq<byte>,
                                url: string, name': string, hash': seq<byte>, file': seq<byte>, events: seq<Event>)
    requires Sane(c) && Hashes(c) && Acceptable(c, name, |file|) && Chunks(c, |file|) > 1
    requires c.canDownload && 0 < |url| < 64 && c.sha(Piece(file, Payload(c), 0)) != NoHash()
    requires Acceptable(c, name', |file'|) && file' != []
    requires forall e :: e in events ==> e.Packet? && e.packet == Sent(c, file', 0)
    ensures var idle := Run(c, Fresh(), Interruption(c, name, hash, file, read, url));
            var after := Run(c, Step(c, idle, Parameter(name', hash', |file'|, true)), events);
            after.phase == PacketTransfer && after.next == 0 && after.written == []
            && after.previousHash == c.sha(Piece(file, Payload(c), 0))
  {
    InterruptionLeavesHash(c, name, hash, file, read, url);
    var idle := Run(c, Fresh(), Interruption(c, name, hash, file, read, url));
    StaleMachineTakesNothing(c, idle, name', hash', file', events);
  }
}
