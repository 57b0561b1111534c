/** The record store the ingestion pipeline consumes: lookup of a library file by path and
    by fingerprint, insertion and update. The storage engine itself is not part of this
    model; the store is a sequence in insertion order in which record i has uid i + 1, so
    that uid 0 keeps the meaning of Guid.Empty ("not stored"). */
module RecordStore {
  import opened Common
  import opened Models

  /** The position of the first record satisfying `p`. */
  function FirstIndex(files: seq<LibraryFile>, p: LibraryFile -> bool): (r: Option<nat>)
    ensures r.Some? ==> r.value < |files| && p(files[r.value])
    ensures r.Some? ==> forall j :: 0 <= j < r.value ==> !p(files[j])
    ensures r.None? ==> forall j :: 0 <= j < |files| ==> !p(files[j])
  {
    if |files| == 0 then None
    else if p(files[0]) then Some(0)
    else
      match FirstIndex(files[1..], p)
      case None => None
      case Some(k) => Some(k + 1)
  }

  /** Lookup by exact full path (LibraryFileService.GetFileIfKnown). */
  function FindByPath(files: seq<LibraryFile>, path: string): (r: Option<LibraryFile>)
    ensures r.Some? ==> r.value in files && r.value.name == path
    ensures r.None? ==> forall f :: f in files ==> f.name != path
  {
    match FirstIndex(files, (f: LibraryFile) => f.name == path)
    case None => None
    case Some(i) => Some(files[i])
  }

  /** Lookup by stored fingerprint (LibraryFileService.GetFileByFingerprint). */
  function FindByFingerprint(files: seq<LibraryFile>, fingerprint: string): (r: Option<LibraryFile>)
    ensures r.Some? ==> r.value in files && r.value.fingerprint == fingerprint
    ensures r.None? ==> forall f :: f in files ==> f.fingerprint != fingerprint
  {
    match FirstIndex(files, (f: LibraryFile) => f.fingerprint == fingerprint)
    case None => None
    case Some(i) => Some(files[i])
  }

  /** Record i carries uid i + 1. */
  predicate UidsArePositions(files: seq<LibraryFile>) {
    forall i :: 0 <= i < |files| ==> files[i].uid == i + 1
  }

  /** No two records share a path: what GetFileIfKnown relies on to find "the" record. */
  predicate UniqueNames(files: seq<LibraryFile>) {
    forall i, j :: 0 <= i < j < |files| ==> files[i].name != files[j].name
  }

  class LibraryFileStore {
    var files: seq<LibraryFile>

    ghost predicate Valid()
      reads this
    {
      UidsArePositions(files)
    }

    constructor ()
      ensures Valid() && files == []
    {
      files := [];
    }

    /** Inserts a record and assigns it the next identifier. */
    method Add(lf: LibraryFile) returns (stored: LibraryFile)
      requires Valid()
      modifies this
      ensures Valid()
      ensures stored == lf.(uid := |old(files)| + 1)
      ensures files == old(files) + [stored]
    {
      stored := lf.(uid := |files| + 1);
      files := files + [stored];
    }

    /** Overwrites the stored record with the same uid; an unknown uid changes nothing. */
    method Update(lf: LibraryFile) returns (ok: bool)
      requires Valid()
      modifies this
      ensures Valid()
      ensures ok <==> 1 <= lf.uid <= |old(files)|
      ensures files == if ok then old(files)[lf.uid - 1 := lf] else old(files)
    {
      ok := 1 <= lf.uid <= |files|;
      if ok {
        files := files[lf.uid - 1 := lf];
      }
    }
  }

  /** A record found in a valid store sits at position uid - 1, so Update finds it again. */
  lemma {:induction false} FoundRecordIsAddressable(files: seq<LibraryFile>, path: string)
    requires UidsArePositions(files)
    requires FindByPath(files, path).Some?
    ensures var f := FindByPath(files, path).value;
      1 <= f.uid <= |files| && files[f.uid - 1] == f
  {
    var i := FirstIndex(files, (f: LibraryFile) => f.name == path).value;
    assert FindByPath(files, path).value == files[i];
  }
}
