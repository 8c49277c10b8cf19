/**
 * sources/model/file_management/file_management.c as a state machine on values. The results of the user's callbacks are
 * part of the event that makes them run; what the machine tells the platform and the callbacks is kept in `out`.
 */
module FileManagementSpec {
  import opened Words

  const MAX_RETRIES := 3
  const HASH_SIZE := 32
  const VERIFICATION_CHUNK_SIZE := 1024
  const URL_SIZE := 64

  /** The range of a 64-bit size_t. */
  const SIZE_LIMIT := 0x1_0000_0000_0000_0000

  datatype Phase = Idle | PacketTransfer | UrlDownload | FileObtained

  datatype Report = Transfer | FileReady | Aborted | Failed
  datatype ErrorCode =
    | Unknown | Disabled | UnsupportedFileSize | MalformedUrl | FileHashMismatch | FileSystem | RetryCountExceeded
  datatype Status = Ok(report: Report) | Err(error: ErrorCode)

  datatype Output =
    | Reports(status: Status)
    | UrlReports(status: Status)
    | Requests(name: string, index: nat, size: nat)
    | Lists
    | Starts(name: string, size: nat)
    | Writes(data: seq<byte>)
    | Aborts
    | Finalizes
    | Downloads(url: string)

  /**
   * What file_management_init makes of its arguments; `sha` is SHA-256 and `checksum` the MD5 digest as compared. What
   * the number of chunks becomes when a size is divided by zero is left to `atZero`.
   */
  datatype Config = Config(usable: bool, canDownload: bool, maximum: nat, chunk: nat,
                           sha: seq<byte> -> seq<byte>, checksum: seq<byte> -> seq<byte>, atZero: nat -> nat)

  /** The arguments of file_management_init that may be missing. */
  datatype Part =
    | DeviceKey | Context | StartCallback | WriteChunk | ReadChunk | AbortCallback | FinalizeCallback | StartUrlDownload

  /** file_management_init: a transfer needs all but the last of them, and sizes other than 0. */
  function Configured(parts: set<Part>, maximum: nat, chunk: nat, sha: seq<byte> -> seq<byte>,
                      checksum: seq<byte> -> seq<byte>, atZero: nat -> nat): Config
  {
    var needed := {DeviceKey, Context, StartCallback, WriteChunk, ReadChunk, AbortCallback, FinalizeCallback};
    Config(needed <= parts && maximum != 0 && chunk != 0, StartUrlDownload in parts, maximum, chunk, sha, checksum,
           atZero)
  }

  /** The data that a packet carries: the chunk size less two hashes, as an unsigned difference. */
  function Payload(c: Config): nat {
    if c.chunk >= 2 * HASH_SIZE then c.chunk - 2 * HASH_SIZE else SIZE_LIMIT + c.chunk - 2 * HASH_SIZE
  }

  /** The file size is not divided by zero. */
  predicate Sane(c: Config) { Payload(c) > 0 }

  /** The fields of struct file_management, the file the device has written, and the outputs so far. */
  datatype Manager = Manager(phase: Phase, previousHash: seq<byte>, currentHash: seq<byte>, next: nat, expected: nat,
                             retries: nat, name: string, hash: seq<byte>, size: nat, url: string,
                             written: seq<byte>, out: seq<Output>)

  /** A hash that is cleared. */
  function NoHash(): (r: seq<byte>)
    ensures |r| == HASH_SIZE
  {
    Zeros(HASH_SIZE)
  }

  function Fresh(): Manager { Manager(Idle, NoHash(), NoHash(), 0, 0, 0, "", NoHash(), 0, "", [], []) }

  function Say(m: Manager, o: Output): Manager { m.(out := m.out + [o]) }

  /** reset_state: neither the retry counter nor the URL is cleared. */
  function Reset(m: Manager): Manager {
    m.(phase := Idle, previousHash := NoHash(), currentHash := NoHash(), next := 0, expected := 0, name := "",
       hash := NoHash(), size := 0)
  }

  // --- packets ------------------------------------------------------------------------------------------------

  predicate LongEnough(p: seq<byte>) { |p| > 2 * HASH_SIZE }

  function PreviousHash(p: seq<byte>): seq<byte>
    requires LongEnough(p)
  {
    p[..HASH_SIZE]
  }

  function Data(p: seq<byte>): seq<byte>
    requires LongEnough(p)
  {
    p[HASH_SIZE..|p| - HASH_SIZE]
  }

  function OwnHash(p: seq<byte>): seq<byte>
    requires LongEnough(p)
  {
    p[|p| - HASH_SIZE..]
  }

  predicate PacketIsValid(c: Config, p: seq<byte>) { LongEnough(p) && OwnHash(p) == c.sha(Data(p)) }

  function Request(c: Config, m: Manager): Output { Requests(m.name, m.next, c.chunk + 2 * HASH_SIZE) }

  /** What the first `n` reads of the verification loop feed to MD5. */
  function Fed(read: nat -> seq<byte>, n: nat): seq<byte> {
    if n == 0 then [] else Fed(read, n - 1) + read(n - 1)
  }

  predicate FileIsValid(c: Config, m: Manager, read: nat -> seq<byte>) {
    c.checksum(Fed(read, m.expected)) == m.hash
  }

  function AfterInvalid(c: Config, m: Manager): Manager {
    var counted := m.(retries := (m.retries + 1) % WORD_LIMIT);
    if counted.retries >= MAX_RETRIES then Reset(Say(Say(counted, Aborts), Reports(Err(RetryCountExceeded))))
    else Say(counted, Request(c, counted))
  }

  function AfterLastChunk(c: Config, m: Manager, read: nat -> seq<byte>): Manager {
    if !FileIsValid(c, m, read) then Reset(Say(Say(m, Aborts), Reports(Err(FileHashMismatch))))
    else Reset(Say(Say(Say(m, Reports(Ok(FileReady))), Finalizes), Lists))
  }

  function AfterWrite(c: Config, m: Manager, data: seq<byte>, read: nat -> seq<byte>): Manager {
    var one := m.(written := m.written + data, next := m.next + 1);
    if one.next < one.expected then Say(one, Request(c, one)) else AfterLastChunk(c, one, read)
  }

  function AfterAccepted(c: Config, m: Manager, p: seq<byte>, writeOk: bool, read: nat -> seq<byte>): Manager
    requires LongEnough(p)
  {
    var told := Say(m.(previousHash := OwnHash(p)), Writes(Data(p)));
    if !writeOk then Reset(Say(told, Reports(Err(FileSystem)))) else AfterWrite(c, told, Data(p), read)
  }

  /** file_management_handle_packet; the state is not looked at. */
  function OnPacket(c: Config, m: Manager, p: seq<byte>, writeOk: bool, read: nat -> seq<byte>): Manager {
    if !c.usable then Say(m, Reports(Err(Disabled)))
    else if !PacketIsValid(c, p) then AfterInvalid(c, m)
    else if m.previousHash != PreviousHash(p) then Say(m, Request(c, m))
    else AfterAccepted(c, m, p, writeOk, read)
  }

  // --- the other events ---------------------------------------------------------------------------------------

  function CeilDiv(size: nat, payload: nat): nat
    requires payload > 0
  {
    (size + payload - 1) / payload
  }

  function Chunks(c: Config, size: nat): nat
  {
    if Payload(c) == 0 then c.atZero(size) else CeilDiv(size, Payload(c))
  }

  function Started(c: Config, m: Manager, name: string, hash: seq<byte>, size: nat): Manager
  {
    var ready := m.(written := [], name := name, hash := hash, size := size, phase := PacketTransfer, next := 0,
                    expected := Chunks(c, size), retries := 0);
    Say(Say(ready, Reports(Ok(Transfer))), Request(c, ready))
  }

  /** handle_file_management in an idle machine. */
  function Initiated(c: Config, m: Manager, name: string, hash: seq<byte>, size: nat, startOk: bool): Manager
  {
    if c.maximum == 0 || c.chunk == 0 then Say(m, Reports(Err(Disabled)))
    else if name == "" then Say(m, Reports(Err(Unknown)))
    else if c.maximum < size then Say(m, Reports(Err(UnsupportedFileSize)))
    else if !startOk then Say(Say(m, Starts(name, size)), Reports(Err(Unknown)))
    else Started(c, Say(m, Starts(name, size)), name, hash, size)
  }

  /** file_management_handle_parameter. */
  function OnParameter(c: Config, m: Manager, name: string, hash: seq<byte>, size: nat, startOk: bool): Manager
  {
    if !c.usable then Say(m, Reports(Err(Disabled)))
    else if m.phase == Idle then Initiated(c, m, name, hash, size, startOk)
    else m
  }

  /** file_management_handle_url_download; the configuration is not looked at. */
  function OnUrl(c: Config, m: Manager, url: string): Manager {
    if m.phase == UrlDownload || m.phase == FileObtained then m.(phase := Idle)
    else if |url| >= URL_SIZE || |url| == 0 then Say(m, UrlReports(Err(MalformedUrl)))
    else
      var named := m.(url := url, name := "");
      if !c.canDownload then Say(named, UrlReports(Err(Disabled)))
      else Say(named, UrlReports(Ok(Transfer))).(phase := UrlDownload)
  }

  /** strstr. */
  predicate Contains(text: string, part: string) {
    part <= text || (text != "" && Contains(text[1..], part))
  }

  /** file_management_handle_abort. */
  function OnAbort(c: Config, m: Manager, payload: string): Manager {
    if !c.usable then m
    else if !Contains(payload, m.name) then Reset(Say(Say(m, Reports(Ok(Failed))), Lists))
    else
      match m.phase
      case Idle => m
      case UrlDownload => Reset(Say(Say(Say(m, Aborts), UrlReports(Ok(Aborted))), Lists))
      case PacketTransfer => Reset(Say(Say(Say(m, Aborts), Reports(Ok(Aborted))), Lists))
      case FileObtained => Reset(Say(Say(Say(m, Aborts), Reports(Ok(Aborted))), Lists))
  }

  /** strncpy without the terminator: what was longer keeps its end. */
  function Overlay(was: string, text: string): string {
    if |was| <= |text| then text else text + was[|text|..]
  }

  /** The answers of start_url_download and is_url_download_done. */
  datatype Answers = Answers(startOk: bool, done: bool, success: bool, name: string)

  /** file_management_process. */
  function OnProcess(c: Config, m: Manager, a: Answers): Manager {
    if !c.usable || !c.canDownload then m
    else
      match m.phase
      case Idle => m
      case PacketTransfer => m
      case UrlDownload =>
        var told := Say(Say(m, UrlReports(Ok(Transfer))), Downloads(m.url));
        if !a.startOk then Reset(Say(told, UrlReports(Err(Unknown)))) else told.(phase := FileObtained)
      case FileObtained =>
        if !a.done then Reset(Say(m, UrlReports(Err(MalformedUrl))))
        else if !a.success then Reset(Say(m, UrlReports(Err(Unknown))))
        else Say(Say(m.(name := Overlay(m.name, a.name)), UrlReports(Ok(FileReady))), Lists).(phase := Idle)
  }

  // --- runs ---------------------------------------------------------------------------------------------------

  datatype Event =
    | Parameter(name: string, hash: seq<byte>, size: nat, startOk: bool)
    | Packet(packet: seq<byte>, writeOk: bool, read: nat -> seq<byte>)
    | Url(url: string)
    | Abort(payload: string)
    | Process(answers: Answers)

  function Step(c: Config, m: Manager, e: Event): Manager
  {
    match e
    case Parameter(name, hash, size, startOk) => OnParameter(c, m, name, hash, size, startOk)
    case Packet(packet, writeOk, read) => OnPacket(c, m, packet, writeOk, read)
    case Url(url) => OnUrl(c, m, url)
    case Abort(payload) => OnAbort(c, m, payload)
    case Process(answers) => OnProcess(c, m, answers)
  }

  function Run(c: Config, m: Manager, events: seq<Event>): Manager
    decreases |events|
  {
    if events == [] then m else Step(c, Run(c, m, events[..|events| - 1]), events[|events| - 1])
  }
}
