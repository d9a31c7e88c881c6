/** Types shared by the cache store and the virtual filesystem. */
module Base {

  datatype Option<+T> = None | Some(value: T)

  /** Errors without their message text. */
  datatype Error =
    | NotFound
    | AlreadyExists
    | PermissionDenied
    | InvalidInput
    | UnsupportedOperation
    | Unavailable
    | RemoteBackend

  datatype Result<+T> = Ok(value: T) | Err(error: Error)

  type Byte = b: int | 0 <= b < 256
  type Bytes = seq<Byte>

  const U32_LIMIT: int := 0x1_0000_0000
  const U64_LIMIT: int := 0x1_0000_0000_0000_0000

  /** Machine integers: assigning a value that would wrap is a verification error. */
  type U32 = x: int | 0 <= x < U32_LIMIT
  type U64 = x: int | 0 <= x < U64_LIMIT

  type Positive = x: int | x > 0 witness 1

  function Min(a: int, b: int): int { if a <= b then a else b }
  function Max(a: int, b: int): int { if a <= b then b else a }

  type Path = string
  type ObjectId = nat
  type NodeId = nat
  type Handle = nat

  const ROOT: NodeId := 1

  datatype FileKind = File | Directory | Symlink

  datatype FileAttributes = FileAttributes(
    kind: FileKind,
    size: U64,
    mode: U32,
    uid: U32,
    gid: U32,
    modified: Option<int>,
    accessed: Option<int>,
    changed: Option<int>)

  /** What the cache compares to decide whether content is current. */
  datatype Version = Version(size: nat, modified: Option<int>)

  function VersionOf(a: FileAttributes): Version { Version(a.size, a.modified) }

  datatype CacheMode = Remote | OnDemand | Pinned | Offline

  datatype OpenFlags = OpenFlags(read: bool, write: bool, append: bool, truncate: bool)

  datatype SetAttributes = SetAttributes(
    size: Option<U64>, mode: Option<U32>, modified: Option<int>, accessed: Option<int>)

  datatype FileMetadata = FileMetadata(node: NodeId, attributes: FileAttributes)
  datatype DirectoryEntry = DirectoryEntry(name: string, metadata: FileMetadata)
  datatype CreatedFile = CreatedFile(metadata: FileMetadata, handle: Handle)
}
