/** The records the ingestion pipeline reads and writes: the library configuration and
    the persisted library-file record with its status. */
module Models {
  import opened Common

  datatype FileStatus =
    | Unprocessed
    | OutOfSchedule
    | Processing
    | Processed
    | ProcessingFailed
    | FlowNotFound
    | Duplicate

  /** A reference to another stored object; uid 0 stands for Guid.Empty. */
  datatype ObjectReference = ObjectReference(name: string, uid: nat, typeName: string)

  /** A watched library as configured. Null filter strings are modelled as "". */
  datatype Library = Library(
    uid: nat,
    name: string,
    path: string,
    folders: bool,
    enabled: bool,
    scan: bool,
    scanInterval: int,
    filter: string,
    exclusionFilter: string,
    excludeHidden: bool,
    useFingerprinting: bool,
    waitTimeSeconds: int,
    holdMinutes: int,
    reprocessRecreatedFiles: bool,
    skipFileAccessTests: bool,
    lastScanned: DateTime)

  /** A persisted library file. A null fingerprint is stored as "". */
  datatype LibraryFile = LibraryFile(
    uid: nat,
    name: string,
    relativePath: string,
    status: FileStatus,
    isDirectory: bool,
    fingerprint: string,
    originalSize: int,
    creationTime: DateTime,
    lastWriteTime: DateTime,
    duplicate: Option<ObjectReference>,
    holdUntil: DateTime,
    library: ObjectReference,
    order: int)

  /** The type name a library reference carries (Library.GetType().FullName). */
  const LibraryTypeName: string := "FileFlows.Shared.Models.Library"
  /** typeof(LibraryFile).FullName, carried by a duplicate reference. */
  const LibraryFileTypeName: string := "FileFlows.Shared.Models.LibraryFile"
}
