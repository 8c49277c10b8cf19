/** sources/model/file_management/file_management.c: the event handlers, which update the fields of the object. */
module FileManagement {
  import opened Words
  import opened FileManagementSpec
  import opened FileTransfer

  class FileManager {
    const config: Config
    var phase: Phase
    var previousHash: seq<byte>
    var currentHash: seq<byte>
    var nextChunkIndex: nat
    var expectedNumberOfChunks: nat
    var retryCount: nat
    var fileName: string
    var fileHash: seq<byte>
    var fileSize: nat
    var fileUrl: string
    /** The file that the write_chunk callback has written since the start callback. */
    var written: seq<byte>
    /** What the listeners and callbacks were told. */
    var out: seq<Output>

    function Snapshot(): Manager
      reads this
    {
      Manager(phase, previousHash, currentHash, nextChunkIndex, expectedNumberOfChunks, retryCount, fileName, fileHash,
              fileSize, fileUrl, written, out)
    }

    /** The bounds that every run keeps. */
    ghost predicate Valid()
      reads this
    {
      Bounded(config, Snapshot())
    }

    /** file_management_init. */
    constructor (parts: set<Part>, maximum: nat, chunk: nat, sha: seq<byte> -> seq<byte>,
                 checksum: seq<byte> -> seq<byte>, atZero: nat -> nat)
      ensures config == Configured(parts, maximum, chunk, sha, checksum, atZero) && Snapshot() == Fresh()
      ensures Valid()
    {
      config := Configured(parts, maximum, chunk, sha, checksum, atZero);
      phase := Idle;
      previousHash, currentHash := NoHash(), NoHash();
      nextChunkIndex, expectedNumberOfChunks, retryCount := 0, 0, 0;
      fileName, fileHash, fileSize, fileUrl := "", NoHash(), 0, "";
      written, out := [], [];
    }

    method Tell(o: Output)
      modifies this`out
      ensures out == old(out) + [o]
    {
      out := out + [o];
    }

    method RequestPacket()
      modifies this`out
      ensures Snapshot() == Say(old(Snapshot()), FileManagementSpec.Request(config, old(Snapshot())))
    {
      Tell(Requests(fileName, nextChunkIndex, config.chunk + 2 * HASH_SIZE));
    }

    /** reset_state. */
    method ResetState()
      modifies this
      ensures Snapshot() == Reset(old(Snapshot()))
    {
      phase := Idle;
      previousHash, currentHash := NoHash(), NoHash();
      nextChunkIndex, expectedNumberOfChunks := 0, 0;
      fileName, fileHash, fileSize := "", NoHash(), 0;
    }

    /** is_file_valid: the file is read back chunk by chunk and its MD5 compared. */
    method IsFileValid(read: nat -> seq<byte>) returns (ok: bool)
      ensures ok == FileIsValid(config, Snapshot(), read)
    {
      var fed: seq<byte> := [];
      var i := 0;
      while i < expectedNumberOfChunks
        invariant i <= expectedNumberOfChunks && fed == Fed(read, i)
      {
        fed := fed + read(i);
        i := i + 1;
      }
      ok := config.checksum(fed) == fileHash;
    }

    method CountInvalidPacket()
      modifies this
      ensures Snapshot() == AfterInvalid(config, old(Snapshot()))
    {
      retryCount := (retryCount + 1) % WORD_LIMIT;
      if retryCount >= MAX_RETRIES {
        Tell(Aborts);
        Tell(Reports(Err(RetryCountExceeded)));
        ResetState();
      } else {
        RequestPacket();
      }
    }

    method FinishTransfer(read: nat -> seq<byte>)
      modifies this
      ensures Snapshot() == AfterLastChunk(config, old(Snapshot()), read)
    {
      var valid := IsFileValid(read);
      if !valid {
        Tell(Aborts);
        Tell(Reports(Err(FileHashMismatch)));
        ResetState();
        return;
      }
      phase := FileObtained;
      Tell(Reports(Ok(FileReady)));
      Tell(Finalizes);
      Tell(Lists);
      ResetState();
    }

    method AcceptPacket(packet: seq<byte>, writeOk: bool, read: nat -> seq<byte>)
      requires LongEnough(packet)
      modifies this
      ensures Snapshot() == AfterAccepted(config, old(Snapshot()), packet, writeOk, read)
    {
      previousHash := packet[|packet| - HASH_SIZE..];
      var data := packet[HASH_SIZE..|packet| - HASH_SIZE];
      Tell(Writes(data));
      if !writeOk {
        Tell(Reports(Err(FileSystem)));
        ResetState();
        return;
      }
      written := written + data;
      nextChunkIndex := nextChunkIndex + 1;
      if nextChunkIndex < expectedNumberOfChunks {
        RequestPacket();
        return;
      }
      FinishTransfer(read);
    }

    /** file_management_handle_packet. */
    method HandlePacket(packet: seq<byte>, writeOk: bool, read: nat -> seq<byte>)
      modifies this
      ensures Snapshot() == OnPacket(config, old(Snapshot()), packet, writeOk, read)
      ensures old(Valid()) ==> Valid()
    {
      if Valid() {
        StepKeepsBounds(config, Snapshot(), Packet(packet, writeOk, read));
      }
      if !config.usable {
        Tell(Reports(Err(Disabled)));
        return;
      }
      if !PacketIsValid(config, packet) {
        CountInvalidPacket();
        return;
      }
      if previousHash != packet[..HASH_SIZE] {
        RequestPacket();
        return;
      }
      AcceptPacket(packet, writeOk, read);
    }

    method SetFile(name: string, hash: seq<byte>, size: nat)
      modifies this`fileName, this`fileHash, this`fileSize
      ensures fileName == name && fileHash == hash && fileSize == size
    {
      fileName, fileHash, fileSize := name, hash, size;
    }

    method StartTransfer(name: string, hash: seq<byte>, size: nat)
      modifies this
      ensures Snapshot() == Started(config, old(Snapshot()), name, hash, size)
    {
      written := [];
      SetFile(name, hash, size);
      phase := PacketTransfer;
      nextChunkIndex, expectedNumberOfChunks, retryCount := 0, Chunks(config, size), 0;
      Tell(Reports(Ok(Transfer)));
      RequestPacket();
    }

    /** file_management_handle_parameter. */
    method HandleParameter(name: string, hash: seq<byte>, size: nat, startOk: bool)
      modifies this
      ensures Snapshot() == OnParameter(config, old(Snapshot()), name, hash, size, startOk)
      ensures old(Valid()) ==> Valid()
    {
      if Valid() {
        StepKeepsBounds(config, Snapshot(), Parameter(name, hash, size, startOk));
      }
      if !config.usable {
        Tell(Reports(Err(Disabled)));
        return;
      }
      match phase {
        case Idle =>
          if config.maximum == 0 || config.chunk == 0 {
            Tell(Reports(Err(Disabled)));
            return;
          }
          if name == "" {
            Tell(Reports(Err(Unknown)));
            return;
          }
          if config.maximum < size {
            Tell(Reports(Err(UnsupportedFileSize)));
            return;
          }
          Tell(Starts(name, size));
          if !startOk {
            Tell(Reports(Err(Unknown)));
            return;
          }
          StartTransfer(name, hash, size);
        case PacketTransfer =>
        case UrlDownload =>
        case FileObtained =>
      }
    }

    /** file_management_handle_url_download. */
    method HandleUrlDownload(url: string)
      modifies this
      ensures Snapshot() == OnUrl(config, old(Snapshot()), url)
      ensures old(Valid()) ==> Valid()
    {
      if Valid() {
        StepKeepsBounds(config, Snapshot(), Url(url));
      }
      match phase {
        case UrlDownload => phase := Idle;
        case FileObtained => phase := Idle;
        case _ =>
          if |url| >= URL_SIZE || |url| == 0 {
            Tell(UrlReports(Err(MalformedUrl)));
            return;
          }
          fileUrl, fileName := url, "";
          if !config.canDownload {
            Tell(UrlReports(Err(Disabled)));
            return;
          }
          Tell(UrlReports(Ok(Transfer)));
          phase := UrlDownload;
      }
    }

    method AbortTransfer(told: Output)
      modifies this
      ensures Snapshot() == Reset(Say(Say(Say(old(Snapshot()), Aborts), told), Lists))
    {
      Tell(Aborts);
      Tell(told);
      Tell(Lists);
      ResetState();
    }

    /** file_management_handle_abort. */
    method HandleAbort(payload: string)
      modifies this
      ensures Snapshot() == OnAbort(config, old(Snapshot()), payload)
      ensures old(Valid()) ==> Valid()
    {
      if Valid() {
        StepKeepsBounds(config, Snapshot(), Abort(payload));
      }
      if !config.usable {
        return;
      }
      if Contains(payload, fileName) {
        match phase {
          case Idle =>
          case FileObtained => AbortTransfer(Reports(Ok(Aborted)));
          case PacketTransfer => AbortTransfer(Reports(Ok(Aborted)));
          case UrlDownload => AbortTransfer(UrlReports(Ok(Aborted)));
        }
      } else {
        Tell(Reports(Ok(Failed)));
        Tell(Lists);
        ResetState();
      }
    }

    method StartDownload(startOk: bool)
      modifies this
      ensures Snapshot() ==
              var told := Say(Say(old(Snapshot()), UrlReports(Ok(Transfer))), Downloads(old(fileUrl)));
              if !startOk then Reset(Say(told, UrlReports(Err(Unknown)))) else told.(phase := FileObtained)
    {
      Tell(UrlReports(Ok(Transfer)));
      Tell(Downloads(fileUrl));
      if !startOk {
        Tell(UrlReports(Err(Unknown)));
        ResetState();
        return;
      }
      phase := FileObtained;
    }

    /** file_management_process. */
    method Process(a: Answers)
      modifies this
      ensures Snapshot() == OnProcess(config, old(Snapshot()), a)
      ensures old(Valid()) ==> Valid()
    {
      if Valid() {
        StepKeepsBounds(config, Snapshot(), FileManagementSpec.Process(a));
      }
      if !config.usable || !config.canDownload {
        return;
      }
      match phase {
        case Idle =>
        case PacketTransfer =>
        case UrlDownload => StartDownload(a.startOk);
        case FileObtained =>
          if !a.done {
            Tell(UrlReports(Err(MalformedUrl)));
            ResetState();
            return;
          }
          if !a.success {
            Tell(UrlReports(Err(Unknown)));
            ResetState();
            return;
          }
          fileName := Overlay(fileName, a.name);
          Tell(UrlReports(Ok(FileReady)));
          Tell(Lists);
          phase := Idle;
      }
    }
  }
}
