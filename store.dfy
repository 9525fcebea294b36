/** The server's persistent state, shared by the auth and files routers: the JSON
    document `db.json` holding `{users, files}` and the uploads directory holding one
    blob per uploaded file. Both routers load the whole document, change it in
    memory and write it back. */
module Store {
  import opened Replies

  type Path = string

  /** File contents. Bytes are modelled as characters: encoding is not modelled. */
  type Blob = seq<char>

  /** A registered account; `password` holds the hash of the password. */
  datatype User = User(id: string, username: string, password: string, createdAt: int)

  /** A file's metadata record. `fileType` is the source's `type` field: the
      lower-cased extension of `originalName`. Timestamps are milliseconds. */
  datatype FileRecord = FileRecord(
    id: string,
    userId: string,
    originalName: string,
    storedName: string,
    path: Path,
    size: nat,
    fileType: string,
    uploadedBy: string,
    editedBy: string,
    createdAt: int,
    modifiedAt: int)

  /** The parsed contents of `db.json`. */
  datatype Db = Db(users: seq<User>, files: seq<FileRecord>)

  /** Everything a handler can observe or change: `dbFile` is `None` when `db.json`
      is missing or does not parse, and `disk` maps each blob path to its bytes. */
  datatype State = State(dbFile: Option<Db>, disk: map<Path, Blob>)

  /** A handler's effect: the state it leaves and the answer it gives. */
  datatype Step<+T> = Step(state: State, out: Outcome<T>)

  /** `readDB`: the stored document, or an empty one when it cannot be read. */
  function Document(dbFile: Option<Db>): (db: Db)
    ensures dbFile.Some? ==> db == dbFile.value
    ensures dbFile.None? ==> db.users == [] && db.files == []
  {
    match dbFile
    case Some(d) => d
    case None => Db([], [])
  }

  /** `Date.now().toString()`: the decimal digits of a clock reading. */
  function DecimalString(n: nat): (s: string)
    ensures |s| > 0
    ensures forall i :: 0 <= i < |s| ==> '0' <= s[i] <= '9'
    // no leading zero, as `String` of a number never writes one
    ensures n > 0 ==> s[0] != '0'
    ensures |s| > 1 ==> s[0] != '0'
  {
    if n < 10 then [Digit(n)] else DecimalString(n / 10) + [Digit(n % 10)]
  }

  function Digit(d: nat): (c: char)
    requires d < 10
    ensures '0' <= c <= '9'
    ensures DigitValue(c) == d
  {
    ((d + '0' as int) as char)
  }

  /** The value of a decimal digit. */
  function DigitValue(c: char): int {
    c as int - '0' as int
  }

  /** The number a string of decimal digits denotes, most significant first. */
  function DecimalValue(s: string): int {
    if s == [] then 0 else DecimalValue(s[..|s| - 1]) * 10 + DigitValue(s[|s| - 1])
  }

  /** Reading the digits back gives the clock reading. */
  lemma {:induction false} DecimalStringRoundTrip(n: nat)
    ensures DecimalValue(DecimalString(n)) == n
  {
    var s := DecimalString(n);
    if n >= 10 {
      DecimalStringRoundTrip(n / 10);
      assert s[..|s| - 1] == DecimalString(n / 10);
    }
  }

  /** Different clock readings give different ids. */
  lemma DecimalStringInjective(a: nat, b: nat)
    ensures a != b ==> DecimalString(a) != DecimalString(b)
  {
    DecimalStringRoundTrip(a);
    DecimalStringRoundTrip(b);
  }

  /** The server process's view of `db.json` and the uploads directory. Each method
      is one file-system call of the routers. */
  class Store {
    var dbFile: Option<Db>
    var disk: map<Path, Blob>

    constructor (dbFile: Option<Db>, disk: map<Path, Blob>)
      ensures this.dbFile == dbFile && this.disk == disk
    {
      this.dbFile := dbFile;
      this.disk := disk;
    }

    function Snapshot(): State
      reads this
    {
      State(dbFile, disk)
    }

    /** `writeDB`: replaces the whole document; `ok` is false when the write fails,
        and then the document on disk is left as it was. */
    method WriteDB(db: Db, ok: bool) returns (written: bool)
      modifies this
      ensures written == ok
      ensures dbFile == (if ok then Some(db) else old(dbFile))
      ensures disk == old(disk)
    {
      if ok {
        dbFile := Some(db);
      }
      written := ok;
    }

    /** `fs.unlink`: removes a blob; fails (returns false) when it is absent. */
    method Unlink(p: Path) returns (ok: bool)
      modifies this
      ensures ok == (p in old(disk))
      ensures disk == old(disk) - {p}
      ensures dbFile == old(dbFile)
    {
      ok := p in disk;
      disk := disk - {p};
    }

    /** `fs.writeFile` of a blob: creates it or replaces its contents. */
    method WriteFile(p: Path, content: Blob)
      modifies this
      ensures disk == old(disk)[p := content]
      ensures dbFile == old(dbFile)
    {
      disk := disk[p := content];
    }
  }
}
