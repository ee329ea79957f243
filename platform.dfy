/**
 * What the command reaches outside its own code: the /keys directory, the
 * environment, the MD5 address hasher, the PGP helpers, the transport and the
 * ways the process ends.
 */
module Platform {
  import opened Wrappers
  import opened Mail

  /** Level of a transport result; smaller is more severe (logrus numbering). */
  type Level = int

  /** sendmail.WarnLevel: the threshold the result drains compare against. */
  const WarnLevel: Level := 3

  /** sendmail.Result: one graded outcome of a delivery attempt. */
  datatype Report = Report(level: Level, message: string, error: Option<Error>)

  /** os.ReadFile: the contents, a missing file, or another read error. */
  datatype FileRead = Found(data: string) | NotExist | Unreadable(reason: string)

  /** How the process ends early: log.Fatal, or a runtime panic. */
  datatype Exit = Fatal(message: string) | Panic(message: string)

  /** The text of the runtime panic raised by indexing an empty slice. */
  const IndexOutOfRange := "index out of range"

  /**
   * The host as the command sees it. `files` maps paths to what os.ReadFile
   * returns (an absent path reads as NotExist); `env` holds the environment
   * (os.Getenv gives "" for an absent name); `hasher` stands for the MD5-hex
   * digest; `encrypt` and `encryptSign` for helper.EncryptMessageArmored and
   * helper.EncryptSignMessageArmored; `send` for Envelope.Send, whose channel
   * is the finite sequence of results it yields before closing.
   */
  datatype Host = Host(
    lib: Library,
    files: map<string, FileRead>,
    env: map<string, string>,
    hasher: string -> string,
    encrypt: (string, string) -> Result<string, Error>,
    encryptSign: (string, string, string, string) -> Result<string, Error>,
    send: Envelope -> seq<Report>)

  function ReadFile(h: Host, path: string): FileRead
  {
    if path in h.files then h.files[path] else NotExist
  }

  /** The data os.ReadFile returns alongside its error: nil (empty) unless it read the file. */
  function Data(f: FileRead): string
  {
    if f.Found? then f.data else ""
  }

  function Getenv(h: Host, name: string): string
  {
    if name in h.env then h.env[name] else ""
  }
}
