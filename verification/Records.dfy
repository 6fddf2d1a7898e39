/** The records every core module shares: content hashes, file entries and turns. */
module Records {

  datatype Option<+T> = None | Some(value: T)

  datatype Result<+T, +E> = Ok(value: T) | Err(error: E)

  newtype byte = x: int | 0 <= x < 256

  type Bytes = seq<byte>

  type Path = string

  type Id = string

  /** A content address.  SHA-256 is taken to be injective, so an address is modelled by
      the bytes it addresses. */
  datatype Hash = Sha256(content: Bytes)

  datatype Op = Create | Modify | Delete | OtherOp(name: string)

  datatype Grade = Rich | Bare | OtherGrade(name: string)

  /** One changed file of a turn.  `before` and `after` are `None` for an absent file (or for
      content that was never captured). */
  datatype FileEntry = FileEntry(
    path: Path,
    before: Option<Hash>,
    after: Option<Hash>,
    op: Op,
    skipped: bool,
    withheld: bool,
    afterSynthesized: Option<bool>,
    linkKind: Option<string>)

  datatype TurnRecord = TurnRecord(
    id: Id,
    grade: Grade,
    truncated: bool,
    tool: Option<string>,
    model: Option<string>,
    promptRef: Option<Hash>,
    merges: seq<Id>,
    imported: Option<bool>,
    files: seq<FileEntry>)

  function EntryPaths(files: seq<FileEntry>): (paths: seq<Path>)
    ensures |paths| == |files|
    ensures forall i :: 0 <= i < |files| ==> paths[i] == files[i].path
  {
    seq(|files|, i requires 0 <= i < |files| => files[i].path)
  }

  function Elements<T(!new)>(s: seq<T>): (r: set<T>)
    ensures forall x :: x in r <==> x in s
  {
    set x | x in s
  }

  ghost predicate Distinct<T>(s: seq<T>) {
    forall i, j :: 0 <= i < j < |s| ==> s[i] != s[j]
  }

  /** The snapshot cap of the content store (10 MiB). */
  const MAX_SNAPSHOT_BYTES: nat := 10 * 1024 * 1024

  /** What reading one object of the content store gives. */
  datatype BlobRead = Missing | Corrupt | Blob(bytes: Bytes)

  /** The object files of the store, by address.  An object whose bytes do not hash to its
      address is corrupt. */
  type Objects = map<Hash, Bytes>

  function Get(objects: Objects, hash: Hash): BlobRead {
    if hash !in objects then Missing
    else if Sha256(objects[hash]) != hash then Corrupt
    else Blob(objects[hash])
  }

  /** Store `bytes`: refused over the cap, and otherwise the object at their address is intact
      afterwards, even if a corrupt object sat there. */
  function Put(objects: Objects, bytes: Bytes): Option<Objects> {
    if |bytes| > MAX_SNAPSHOT_BYTES then None
    else Some(objects[Sha256(bytes) := bytes])
  }
}
