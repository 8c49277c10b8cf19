/** What holds of every run of the download from a URL. */
module FileDownload {
  import opened Words
  import opened FileManagementSpec

  /** A download is asked for with a URL that fits its buffer; when its result is awaited, it was started. */
  predicate DownloadsInOrder(c: Config, m: Manager) {
    && (m.phase == UrlDownload || m.phase == FileObtained ==> c.canDownload && 0 < |m.url| < 64)
    && (m.phase == FileObtained ==> Downloads(m.url) in m.out)
  }

  lemma PacketKeepsDownloads(c: Config, m: Manager, p: seq<byte>, writeOk: bool, read: nat -> seq<byte>)
    requires DownloadsInOrder(c, m)
    ensures DownloadsInOrder(c, OnPacket(c, m, p, writeOk, read))
  {
  }

  lemma StepKeepsDownloads(c: Config, m: Manager, e: Event)
    requires DownloadsInOrder(c, m)
    ensures DownloadsInOrder(c, Step(c, m, e))
  {
    match e
    case Parameter(name, hash, size, startOk) =>
    case Packet(packet, writeOk, read) => PacketKeepsDownloads(c, m, packet, writeOk, read);
    case Url(url) =>
    case Abort(payload) =>
    case Process(answers) =>
  }

  lemma {:induction false} RunKeepsDownloads(c: Config, events: seq<Event>)
    ensures DownloadsInOrder(c, Run(c, Fresh(), events))
    decreases |events|
  {
    if events != [] {
      RunKeepsDownloads(c, events[..|events| - 1]);
      StepKeepsDownloads(c, Run(c, Fresh(), events[..|events| - 1]), events[|events| - 1]);
    }
  }

  /** A step tells the platform that the file of a URL is ready. */
  ghost predicate TellsReady(m: Manager, after: Manager) {
    exists i :: |m.out| <= i < |after.out| && after.out[i] == UrlReports(Ok(FileReady))
  }

  lemma PacketTellsNothing(c: Config, m: Manager, p: seq<byte>, writeOk: bool, read: nat -> seq<byte>)
    ensures !TellsReady(m, OnPacket(c, m, p, writeOk, read))
  {
  }

  lemma ReadyInStep(c: Config, m: Manager, e: Event)
    ensures TellsReady(m, Step(c, m, e)) <==>
            e.Process? && c.usable && c.canDownload && m.phase == FileObtained && e.answers.done && e.answers.success
  {
    if e.Packet? {
      PacketTellsNothing(c, m, e.packet, e.writeOk, e.read);
    } else if e.Process? && m.phase == FileObtained && c.usable && c.canDownload
              && e.answers.done && e.answers.success {
      assert Step(c, m, e).out[|m.out|] == UrlReports(Ok(FileReady));
    }
  }

  /** In every run a file is reported ready only when its download was started and the device says that it succeeded. */
  lemma ReadyFileWasDownloaded(c: Config, events: seq<Event>, e: Event)
    requires TellsReady(Run(c, Fresh(), events), Step(c, Run(c, Fresh(), events), e))
    ensures e.Process? && e.answers.done && e.answers.success
    ensures var m := Run(c, Fresh(), events);
            0 < |m.url| < 64 && Downloads(m.url) in m.out && Step(c, m, e).phase == Idle
  {
    RunKeepsDownloads(c, events);
    ReadyInStep(c, Run(c, Fresh(), events), e);
  }
}
