/** What the platform and the device are told in the course of a transfer or a download, output by output. */
module FileLog {
  import opened Words
  import opened FileManagementSpec
  import opened FileTransfer
  import opened FileSender
  import opened Prelude

  // --- requests -----------------------------------------------------------------------------------------------

  /** An accepted announcement is answered with a request for the first packet. */
  lemma AnnouncementAsksForTheFirst(c: Config, m: Manager, name: string, hash: seq<byte>, size: nat)
    requires Acceptable(c, name, size) && m.phase == Idle
    ensures var started := Step(c, m, Parameter(name, hash, size, true));
            started.phase == PacketTransfer && started.name == name && started.next == 0 && started.written == []
            && started.out == m.out + [Starts(name, size), Reports(Ok(Transfer)), Requests(name, 0, c.chunk + 64)]
  {
  }

  /** What one packet of a transfer is answered with, when `k` were taken before it. */
  function Answer(c: Config, m: Manager, name: string, k: nat, p: seq<byte>): seq<Output> {
    if Takes(c, m, p) then [Writes(Data(p)), Requests(name, k + 1, c.chunk + 64)]
    else [Requests(name, k, c.chunk + 64)]
  }

  function Answers(c: Config, m0: Manager, events: seq<Event>): seq<Output>
    decreases |events|
  {
    if events == [] then []
    else
      var before, last := events[..|events| - 1], events[|events| - 1];
      Answers(c, m0, before)
      + if last.Packet? then Answer(c, Run(c, m0, before), m0.name, |Taken(c, m0, before)|, last.packet) else []
  }

  lemma PacketIsAnswered(c: Config, m: Manager, e: Event)
    requires c.usable && e.Packet? && m.phase == PacketTransfer && Step(c, m, e).phase == PacketTransfer
    ensures Step(c, m, e).out == m.out + Answer(c, m, m.name, m.next, e.packet)
  {
  }

  /**
   * In every uninterrupted run each packet is answered with one request: it names the announced file, the number of
   * packets taken so far, and the chunk size with room for two hashes.
   */
  lemma {:induction false} EveryPacketIsAnswered(c: Config, m0: Manager, events: seq<Event>)
    requires c.usable && Transferring(c, m0, events) && m0.next == 0
    ensures Run(c, m0, events).out == m0.out + Answers(c, m0, events)
    decreases |events|
  {
    if events == [] {
      NothingAdded(m0.out);
    } else {
      var before, last := events[..|events| - 1], events[|events| - 1];
      EveryPacketIsAnswered(c, m0, before);
      TransferStands(c, m0, before);
      InTransfer(c, m0, before);
      PacketIsAnswered(c, Run(c, m0, before), last);
      Associates(m0.out, Answers(c, m0, before),
                 Answer(c, Run(c, m0, before), m0.name, |Taken(c, m0, before)|, last.packet));
    }
  }

  lemma NothingAdded(out: seq<Output>)
    ensures out + [] == out
  {
  }

  lemma Associates(a: seq<Output>, b: seq<Output>, d: seq<Output>)
    ensures a + b + d == a + (b + d)
  {
  }

  /** Three invalid packets in a row end a transfer that has just begun. */
  lemma ThirdInvalidPacketAborts(c: Config, m: Manager, name: string, hash: seq<byte>, size: nat, p: Event, q: Event,
                                 r: Event)
    requires Acceptable(c, name, size) && m.phase == Idle && p.Packet? && q.Packet? && r.Packet?
    requires !PacketIsValid(c, p.packet) && !PacketIsValid(c, q.packet) && !PacketIsValid(c, r.packet)
    ensures var started := Step(c, m, Parameter(name, hash, size, true));
            var again := Requests(name, 0, c.chunk + 64);
            var ended := Step(c, Step(c, Step(c, started, p), q), r);
            ended.phase == Idle
            && ended.out == started.out + [again, again, Aborts, Reports(Err(RetryCountExceeded))]
  {
  }

  /** A packet that cannot be written ends it, too. */
  lemma FailedWriteEnds(c: Config, m: Manager, p: seq<byte>, read: nat -> seq<byte>)
    requires c.usable && Takes(c, m, p)
    ensures var ended := Step(c, m, Packet(p, false, read));
            ended.phase == Idle && ended.written == m.written
            && ended.out == m.out + [Writes(Data(p)), Reports(Err(FileSystem))]
  {
  }

  /** From `m`, and from `m` in another state, the same was done. */
  predicate Alike(m: Manager, phase: Phase, here: Manager, there: Manager) {
    && there.(phase := here.phase) == here && (there.phase == phase || there.phase == Idle)
    && (m.phase != Idle && phase != Idle ==> (here.phase == m.phase <==> there.phase == phase))
  }

  lemma InvalidAlike(c: Config, m: Manager, phase: Phase)
    ensures Alike(m, phase, AfterInvalid(c, m), AfterInvalid(c, m.(phase := phase)))
  {
  }

  lemma LastChunkAlike(c: Config, m: Manager, phase: Phase, read: nat -> seq<byte>)
    ensures Alike(m, phase, AfterLastChunk(c, m, read), AfterLastChunk(c, m.(phase := phase), read))
  {
  }

  lemma AcceptedAlike(c: Config, m: Manager, phase: Phase, p: seq<byte>, writeOk: bool, read: nat -> seq<byte>)
    requires LongEnough(p)
    ensures Alike(m, phase, AfterAccepted(c, m, p, writeOk, read),
                  AfterAccepted(c, m.(phase := phase), p, writeOk, read))
  {
    var told := Say(m.(previousHash := OwnHash(p)), Writes(Data(p)));
    LastChunkAlike(c, told.(written := told.written + Data(p), next := told.next + 1), phase, read);
  }

  /** A packet is answered alike in every state, whatever is going on; only a machine that is not usable refuses it. */
  lemma PacketsDoNotLookAtTheState(c: Config, m: Manager, phase: Phase, e: Event)
    requires e.Packet?
    ensures Alike(m, phase, Step(c, m, e), Step(c, m.(phase := phase), e))
    ensures !c.usable ==> Step(c, m, e) == m.(out := m.out + [Reports(Err(Disabled))])
  {
    if PacketIsValid(c, e.packet) {
      AcceptedAlike(c, m, phase, e.packet, e.writeOk, e.read);
    } else {
      InvalidAlike(c, m, phase);
    }
  }

  // --- an orderly transfer ------------------------------------------------------------------------------------

  /** Everything that is said until the `i`-th packet of `file` is asked for. */
  function Said(c: Config, name: string, file: seq<byte>, i: nat): seq<Output> {
    if i == 0 then [Starts(name, |file|), Reports(Ok(Transfer)), Requests(name, 0, c.chunk + 64)]
    else Said(c, name, file, i - 1) + [Writes(Piece(file, Payload(c), i - 1)), Requests(name, i, c.chunk + 64)]
  }

  /** The machine waits for the `i`-th packet and has said what belongs to that. */
  predicate Asks(c: Config, name: string, file: seq<byte>, hash: seq<byte>, before: seq<Output>, m: Manager, i: nat) {
    Waits(c, file, hash, m, i) && m.name == name && m.out == before + Said(c, name, file, i)
  }

  lemma AsksForTheFirst(c: Config, m: Manager, name: string, hash: seq<byte>, file: seq<byte>)
    requires Sane(c) && Acceptable(c, name, |file|) && m.phase == Idle && m.previousHash == NoHash()
    ensures Asks(c, name, file, hash, m.out, Step(c, m, Parameter(name, hash, |file|, true)), 0)
  {
    WaitsForTheFirst(c, m, name, hash, file);
    AnnouncementAsksForTheFirst(c, m, name, hash, |file|);
  }

  lemma AsksForTheNext(c: Config, name: string, file: seq<byte>, hash: seq<byte>, before: seq<Output>, m: Manager,
                       i: nat, read: nat -> seq<byte>)
    requires c.usable && Sane(c) && Hashes(c) && i + 1 < Chunks(c, |file|) && Asks(c, name, file, hash, before, m, i)
    ensures Asks(c, name, file, hash, before, Step(c, m, Packet(Sent(c, file, i), true, read)), i + 1)
  {
    WaitsForTheNext(c, file, hash, m, i, read);
    SentParts(c, file, i);
    PacketIsAnswered(c, m, Packet(Sent(c, file, i), true, read));
    Associates(before, Said(c, name, file, i),
               [Writes(Piece(file, Payload(c), i)), Requests(name, i + 1, c.chunk + 64)]);
  }

  /** Everything that is said in a transfer that is over. */
  function Verdict(handedOver: bool): seq<Output> {
    if handedOver then [Reports(Ok(FileReady)), Finalizes, Lists] else [Aborts, Reports(Err(FileHashMismatch))]
  }

  predicate Passes(c: Config, file: seq<byte>, hash: seq<byte>) {
    c.checksum(file[..Min(1024 * Chunks(c, |file|), |file|)]) == hash
  }

  lemma LastPacketIsAnswered(c: Config, m: Manager, p: seq<byte>, read: nat -> seq<byte>)
    requires c.usable && Takes(c, m, p) && m.next + 1 >= m.expected
    ensures Step(c, m, Packet(p, true, read)).out ==
            m.out + [Writes(Data(p))] + Verdict(c.checksum(Fed(read, m.expected)) == m.hash)
  {
  }

  lemma SaysTheVerdict(c: Config, name: string, file: seq<byte>, hash: seq<byte>, before: seq<Output>, m: Manager,
                       i: nat, read: nat -> seq<byte>)
    requires c.usable && Sane(c) && Hashes(c) && i + 1 == Chunks(c, |file|) && Asks(c, name, file, hash, before, m, i)
    requires ReadsFile(read, file)
    ensures Ended(c, file, hash, Step(c, m, Packet(Sent(c, file, i), true, read)))
    ensures Step(c, m, Packet(Sent(c, file, i), true, read)).out ==
            before + Said(c, name, file, i) + [Writes(Piece(file, Payload(c), i))] + Verdict(Passes(c, file, hash))
  {
    EndsAtTheLast(c, file, hash, m, i, read);
    SentParts(c, file, i);
    LastPacketIsAnswered(c, m, Sent(c, file, i), read);
    FedIsPrefix(read, file, i + 1);
  }

  // --- a platform that answers requests -----------------------------------------------------------------------

  /** The platform reads the last output: a request for its file is answered with the packet of that index. */
  function Served(c: Config, m: Manager, name: string, file: seq<byte>, read: nat -> seq<byte>): Manager {
    if m.out == [] then m
    else
      match m.out[|m.out| - 1]
      case Requests(asked, index, size) =>
        if asked == name && size == c.chunk + 64 then Step(c, m, Packet(Sent(c, file, index), true, read)) else m
      case _ => m
  }

  function ServedTimes(c: Config, m: Manager, name: string, file: seq<byte>, read: nat -> seq<byte>, n: nat): Manager {
    if n == 0 then m else Served(c, ServedTimes(c, m, name, file, read, n - 1), name, file, read)
  }

  lemma LastIsRequest(c: Config, name: string, file: seq<byte>, i: nat)
    ensures |Said(c, name, file, i)| >= 1
    ensures Said(c, name, file, i)[|Said(c, name, file, i)| - 1] == Requests(name, i, c.chunk + 64)
  {
  }

  lemma ServesWhatIsAsked(c: Config, name: string, file: seq<byte>, hash: seq<byte>, before: seq<Output>, m: Manager,
                          i: nat, read: nat -> seq<byte>)
    requires Asks(c, name, file, hash, before, m, i)
    ensures Served(c, m, name, file, read) == Step(c, m, Packet(Sent(c, file, i), true, read))
  {
    LastIsRequest(c, name, file, i);
    assert m.out[|m.out| - 1] == Said(c, name, file, i)[|Said(c, name, file, i)| - 1];
  }

  /** The quantifier keeps the machine folded. */
  ghost predicate AsksBehind(c: Config, name: string, file: seq<byte>, hash: seq<byte>, before: seq<Output>, m: Manager,
                             i: nat)
  {
    forall k: nat :: k == i ==> Asks(c, name, file, hash, before, m, k)
  }

  lemma ServedOnce(c: Config, name: string, file: seq<byte>, hash: seq<byte>, before: seq<Output>, m: Manager, i: nat,
                   read: nat -> seq<byte>)
    requires c.usable && Sane(c) && Hashes(c) && i + 1 < Chunks(c, |file|)
    requires AsksBehind(c, name, file, hash, before, m, i)
    ensures AsksBehind(c, name, file, hash, before, Served(c, m, name, file, read), i + 1)
  {
    assert Asks(c, name, file, hash, before, m, i);
    ServesWhatIsAsked(c, name, file, hash, before, m, i, read);
    AsksForTheNext(c, name, file, hash, before, m, i, read);
  }

  lemma {:induction false} ServedInOrder(c: Config, name: string, file: seq<byte>, hash: seq<byte>,
                                         before: seq<Output>, m: Manager, read: nat -> seq<byte>, n: nat)
    requires c.usable && Sane(c) && Hashes(c) && n < Chunks(c, |file|)
    requires AsksBehind(c, name, file, hash, before, m, 0)
    ensures AsksBehind(c, name, file, hash, before, ServedTimes(c, m, name, file, read, n), n)
  {
    if n > 0 {
      ServedInOrder(c, name, file, hash, before, m, read, n - 1);
      ServedOnce(c, name, file, hash, before, ServedTimes(c, m, name, file, read, n - 1), n - 1, read);
    }
  }

  lemma ServedLast(c: Config, name: string, file: seq<byte>, hash: seq<byte>, before: seq<Output>, m: Manager, i: nat,
                   read: nat -> seq<byte>)
    requires c.usable && Sane(c) && Hashes(c) && i + 1 == Chunks(c, |file|) && ReadsFile(read, file)
    requires AsksBehind(c, name, file, hash, before, m, i)
    ensures Ended(c, file, hash, Served(c, m, name, file, read))
    ensures Served(c, m, name, file, read).out ==
            before + Said(c, name, file, i) + [Writes(Piece(file, Payload(c), i))] + Verdict(Passes(c, file, hash))
  {
    assert Asks(c, name, file, hash, before, m, i);
    ServesWhatIsAsked(c, name, file, hash, before, m, i, read);
    SaysTheVerdict(c, name, file, hash, before, m, i, read);
  }

  /**
   * A platform that announces a file and then answers every request with the packet of the index that it reads there
   * gets the file written byte for byte, with as many answers as there are chunks; and this is all that is said.
   */
  lemma RequestsAreServed(c: Config, m: Manager, name: string, hash: seq<byte>, file: seq<byte>, read: nat -> seq<byte>)
    requires Sane(c) && Hashes(c) && Acceptable(c, name, |file|) && m.phase == Idle && m.previousHash == NoHash()
    requires file != [] && ReadsFile(read, file)
    ensures var started := Step(c, m, Parameter(name, hash, |file|, true));
            var n := Chunks(c, |file|);
            n > 0 && Ended(c, file, hash, ServedTimes(c, started, name, file, read, n))
            && ServedTimes(c, started, name, file, read, n).out ==
               m.out + Said(c, name, file, n - 1) + [Writes(Piece(file, Payload(c), n - 1))]
               + Verdict(Passes(c, file, hash))
  {
    var started := Step(c, m, Parameter(name, hash, |file|, true));
    ChunksOfNothing(c, |file|);
    var last := Chunks(c, |file|) - 1;
    AsksForTheFirst(c, m, name, hash, file);
    ServedInOrder(c, name, file, hash, m.out, started, read, last);
    ServedLast(c, name, file, hash, m.out, ServedTimes(c, started, name, file, read, last), last, read);
  }

  // --- refusals, aborts and downloads -------------------------------------------------------------------------

  /** What an announcement that is not accepted is answered with; nothing else changes. */
  lemma RefusedAnnouncements(c: Config, m: Manager, name: string, hash: seq<byte>, size: nat, startOk: bool)
    ensures var after := Step(c, m, Parameter(name, hash, size, startOk));
            (!c.usable ==> after == m.(out := m.out + [Reports(Err(Disabled))]))
            && (c.usable && m.phase != Idle ==> after == m)
            && (c.usable && m.phase == Idle && c.chunk > 0 && c.maximum > 0 ==>
                  (name == "" ==> after == m.(out := m.out + [Reports(Err(Unknown))]))
                  && (name != "" && size > c.maximum ==>
                        after == m.(out := m.out + [Reports(Err(UnsupportedFileSize))]))
                  && (name != "" && size <= c.maximum && !startOk ==>
                        after == m.(out := m.out + [Starts(name, size), Reports(Err(Unknown))])))
  {
  }

  /** strstr: the part stands somewhere in the text. */
  lemma {:induction false} ContainsSomewhere(text: string, part: string) returns (a: string, b: string)
    requires Contains(text, part)
    ensures text == a + part + b
    decreases |text|
  {
    if part <= text {
      a, b := "", text[|part|..];
    } else {
      a, b := ContainsSomewhere(text[1..], part);
      FrontMoves(text[0], a, part, b);
      a := [text[0]] + a;
      assert text == [text[0]] + text[1..];
    }
  }

  lemma FrontMoves(x: char, a: string, part: string, b: string)
    ensures [x] + (a + part + b) == [x] + a + part + b
  {
  }

  lemma {:induction false} SomewhereContains(a: string, part: string, b: string)
    ensures Contains(a + part + b, part)
    decreases |a|
  {
    if a == "" {
      assert (a + part + b)[..|part|] == part;
    } else {
      assert (a + part + b)[1..] == a[1..] + part + b;
      SomewhereContains(a[1..], part, b);
    }
  }

  /** An abort that names the file ends whatever is going on, in the words of what it is. */
  lemma AbortOfTheFile(c: Config, m: Manager, a: string, b: string)
    requires c.usable
    ensures var after := Step(c, m, Abort(a + m.name + b));
            match m.phase
            case Idle => after == m
            case UrlDownload =>
              after.phase == Idle && after.out == m.out + [Aborts, UrlReports(Ok(Aborted)), Lists]
            case _ => after.phase == Idle && after.out == m.out + [Aborts, Reports(Ok(Aborted)), Lists]
    ensures m.phase != Idle ==> Cleared(Step(c, m, Abort(a + m.name + b)))
  {
    SomewhereContains(a, m.name, b);
  }

  predicate Cleared(m: Manager) {
    m.previousHash == NoHash() && m.next == 0 && m.expected == 0 && m.name == "" && m.size == 0
  }

  /** Any other clears the machine all the same, but the device is not told. */
  lemma AbortOfAnotherFile(c: Config, m: Manager, payload: string)
    requires c.usable && forall a, b :: payload != a + m.name + b
    ensures var after := Step(c, m, Abort(payload));
            after.phase == Idle && Cleared(after) && after.out == m.out + [Reports(Ok(Failed)), Lists]
  {
    if Contains(payload, m.name) {
      var a, b := ContainsSomewhere(payload, m.name);
      assert false;
    }
  }

  /** A download that succeeds: the command, the start and the end. */
  lemma DownloadSaysAll(c: Config, m: Manager, url: string, first: Answers, second: Answers)
    requires c.usable && c.canDownload && 0 < |url| < 64 && (m.phase == Idle || m.phase == PacketTransfer)
    requires first.startOk && second.done && second.success
    ensures var asked := Step(c, m, Url(url));
            var after := Step(c, Step(c, asked, Process(first)), Process(second));
            asked.phase == UrlDownload && after.phase == Idle && after.name == second.name
            && after.out == m.out + [UrlReports(Ok(Transfer)), UrlReports(Ok(Transfer)), Downloads(url),
                                     UrlReports(Ok(FileReady)), Lists]
  {
  }

  /** One that does not: the URL, the configuration, the start, and the end in two ways. */
  lemma DownloadsThatFail(c: Config, m: Manager, url: string, first: Answers, second: Answers)
    requires m.phase == Idle || m.phase == PacketTransfer
    ensures |url| == 0 || |url| >= 64 ==>
              Step(c, m, Url(url)) == m.(out := m.out + [UrlReports(Err(MalformedUrl))])
    ensures 0 < |url| < 64 && !c.canDownload ==>
              Step(c, m, Url(url)) == m.(url := url, name := "", out := m.out + [UrlReports(Err(Disabled))])
    ensures c.usable && c.canDownload && 0 < |url| < 64 ==>
              var asked := Step(c, m, Url(url));
              var started := Step(c, asked, Process(first));
              var after := Step(c, started, Process(second));
              (!first.startOk ==>
                 started.phase == Idle && Cleared(started)
                 && started.out == asked.out + [UrlReports(Ok(Transfer)), Downloads(url), UrlReports(Err(Unknown))])
              && (first.startOk && !second.done ==>
                    after.phase == Idle && Cleared(after)
                    && after.out == started.out + [UrlReports(Err(MalformedUrl))])
              && (first.startOk && second.done && !second.success ==>
                    after.phase == Idle && Cleared(after) && after.out == started.out + [UrlReports(Err(Unknown))])
  {
  }
}
