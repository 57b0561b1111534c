/** The decision logic of a watched library (Server/Workers/WatchedLibrary.cs) stated as
    functions: the filter pipeline, the known-file classification, the record a drained
    path becomes, scan gating, directory traversal order and the guarded enqueue. The class
    in watched_library.dfy runs these decisions step by step. */
module LibraryRules {
  import opened Common
  import opened Models
  import RecordStore

  // ---------------------------------------------------------------- oracles

  /** What the regex engine reports for (pattern, input) under RegexOptions.IgnoreCase;
      Invalid when constructing or running the regex throws. */
  datatype RegexOutcome = Matched | NotMatched | Invalid
  type Regex = (string, string) -> RegexOutcome

  /** What the filesystem reports about one path at the time it is drained. */
  datatype Probe = Probe(
    isFile: bool,                              // File.Exists
    isDirectory: bool,                         // Directory.Exists
    hiddenAttribute: Option<bool>,             // File.GetAttributes has Hidden; None when it throws
    ancestorsHidden: seq<bool>,                // containing directory first, the root last
    creationTime: DateTime,
    lastWriteTime: DateTime,
    length: int,
    fingerprint: Option<string>,               // CalculateFingerprint; None is null
    contentWriteTimes: Option<seq<DateTime>>,  // last-write times below a folder; None when listing throws
    canAccess: bool)                           // CanAccess (size-stability and open-for-write probe)

  // ---------------------------------------------------------------- filters

  /** IsMatch: the exclusion filter rejects first, then a set inclusion filter decides;
      a filter whose regex throws is ignored and the default is to accept. */
  function IsMatch(lib: Library, input: string, regex: Regex): (r: bool)
  {
    if !IsNullOrWhiteSpace(lib.exclusionFilter) && regex(lib.exclusionFilter, input) == Matched then false
    else if !IsNullOrWhiteSpace(lib.filter) && regex(lib.filter, input) != Invalid then
      regex(lib.filter, input) == Matched
    else true
  }

  lemma ExclusionWins(lib: Library, input: string, regex: Regex)
    requires !IsNullOrWhiteSpace(lib.exclusionFilter) && regex(lib.exclusionFilter, input) == Matched
    ensures !IsMatch(lib, input, regex)
  {
  }

  lemma InclusionDecides(lib: Library, input: string, regex: Regex)
    requires IsNullOrWhiteSpace(lib.exclusionFilter) || regex(lib.exclusionFilter, input) != Matched
    requires !IsNullOrWhiteSpace(lib.filter) && regex(lib.filter, input) != Invalid
    ensures IsMatch(lib, input, regex) <==> regex(lib.filter, input) == Matched
  {
  }

  lemma NoEffectiveFilterAccepts(lib: Library, input: string, regex: Regex)
    requires IsNullOrWhiteSpace(lib.exclusionFilter) || regex(lib.exclusionFilter, input) != Matched
    requires IsNullOrWhiteSpace(lib.filter) || regex(lib.filter, input) == Invalid
    ensures IsMatch(lib, input, regex)
  {
  }

  /** The three checks ProcessQueuedItem applies before any record is touched: the filters,
      no trailing '_' and a case-insensitive prefix match on the library root. */
  predicate Admissible(lib: Library, path: string, regex: Regex) {
    && IsMatch(lib, path, regex)
    && !EndsWith(path, "_")
    && StartsWith(ToLower(path), ToLower(lib.path))
  }

  // ---------------------------------------------------------------- hidden check

  /** What FileIsHidden decides: Some(hidden), or None when the walk throws because the
      path has no containing directory. Only directories that have a parent are inspected,
      and at most 21 of them. */
  function HiddenVerdict(p: Probe): Option<bool> {
    match p.hiddenAttribute
    case None => Some(false)
    case Some(true) => Some(true)
    case Some(false) =>
      if |p.ancestorsHidden| == 0 then None
      else Some(exists k :: 0 <= k < |p.ancestorsHidden| - 1 && k <= 20 && p.ancestorsHidden[k])
  }

  // ---------------------------------------------------------------- known files

  datatype Classification = Classification(known: bool, fingerprint: Option<string>, duplicate: Option<ObjectReference>)

  /** The classification IsKnownFile returns, and the reset record it writes back (if any). */
  datatype KnownCheck = KnownCheck(result: Classification, reset: Option<LibraryFile>)

  /** IsKnownFile as written. Note the fingerprint lookup runs only when the computed
      fingerprint is null or empty. */
  function CheckKnown(lib: Library, files: seq<LibraryFile>, path: string, p: Probe): KnownCheck {
    match RecordStore.FindByPath(files, path)
    case Some(stored) =>
      if !lib.reprocessRecreatedFiles || p.creationTime <= stored.creationTime then
        KnownCheck(Classification(true, None, None), None)
      else
        KnownCheck(Classification(true, None, None),
          Some(stored.(creationTime := p.creationTime, lastWriteTime := p.lastWriteTime,
                       status := Unprocessed, fingerprint := p.fingerprint.GetOr(""))))
    case None =>
      if lib.useFingerprinting && !lib.folders then
        var fp := p.fingerprint;
        if fp.None? || fp.value == "" then
          match RecordStore.FindByFingerprint(files, fp.GetOr(""))
          case Some(other) =>
            KnownCheck(Classification(false, fp, Some(ObjectReference(other.name, other.uid, LibraryFileTypeName))), None)
          case None => KnownCheck(Classification(false, fp, None), None)
        else KnownCheck(Classification(false, fp, None), None)
      else KnownCheck(Classification(false, None, None), None)
  }

  /** The store after the reset write, if one was made. */
  function ApplyReset(files: seq<LibraryFile>, reset: Option<LibraryFile>): seq<LibraryFile> {
    match reset
    case Some(r) => if 1 <= r.uid <= |files| then files[r.uid - 1 := r] else files
    case None => files
  }

  lemma UnchangedKnownFileSkipped(lib: Library, files: seq<LibraryFile>, path: string, p: Probe)
    requires RecordStore.FindByPath(files, path).Some?
    requires !lib.reprocessRecreatedFiles || p.creationTime <= RecordStore.FindByPath(files, path).value.creationTime
    ensures CheckKnown(lib, files, path, p) == KnownCheck(Classification(true, None, None), None)
    ensures ApplyReset(files, CheckKnown(lib, files, path, p).reset) == files
  {
  }

  /** A recreated known file is reset to Unprocessed in place with the new times, and the
      caller is still told to skip it. */
  lemma {:induction false} RecreatedFileReset(lib: Library, files: seq<LibraryFile>, path: string, p: Probe)
    requires RecordStore.UidsArePositions(files)
    requires RecordStore.FindByPath(files, path).Some?
    requires lib.reprocessRecreatedFiles && p.creationTime > RecordStore.FindByPath(files, path).value.creationTime
    ensures var stored := RecordStore.FindByPath(files, path).value;
      var after := ApplyReset(files, CheckKnown(lib, files, path, p).reset);
      && CheckKnown(lib, files, path, p).result == Classification(true, None, None)
      && |after| == |files|
      && after[stored.uid - 1].status == Unprocessed
      && after[stored.uid - 1].creationTime == p.creationTime
      && after[stored.uid - 1].lastWriteTime == p.lastWriteTime
      && after[stored.uid - 1].name == path
      && forall j :: 0 <= j < |files| && j != stored.uid - 1 ==> after[j] == files[j]
  {
    RecordStore.FoundRecordIsAddressable(files, path);
  }

  /** A known file is never reported as a duplicate: the Update branch of ProcessQueuedItem
      (known file with a duplicate) can never run. */
  lemma KnownIsNeverDuplicate(lib: Library, files: seq<LibraryFile>, path: string, p: Probe)
    ensures CheckKnown(lib, files, path, p).result.known ==> CheckKnown(lib, files, path, p).result.duplicate.None?
  {
  }

  /** As written, a successfully computed (non-empty) fingerprint never yields a duplicate,
      however many stored files share it. */
  lemma NonEmptyFingerprintNeverDuplicate(lib: Library, files: seq<LibraryFile>, path: string, p: Probe)
    requires p.fingerprint.Some? && p.fingerprint.value != ""
    ensures CheckKnown(lib, files, path, p).result.duplicate.None?
  {
  }

  /** Identical content does not make a Duplicate: a concrete store holding another file
      with the same fingerprint, and a new file with that fingerprint, is classified new. */
  lemma {:induction false} IdenticalContentIsNotDuplicate(lib: Library, p: Probe)
    requires lib.useFingerprinting && !lib.folders
    requires p.fingerprint == Some("abc")
    ensures var other := LibraryFile(1, "/lib/a.mkv", "a.mkv", Processed, false, "abc", 10, 0, 0, None, 0,
                                     ObjectReference(lib.name, lib.uid, LibraryTypeName), -1);
      CheckKnown(lib, [other], "/lib/b.mkv", p) == KnownCheck(Classification(false, Some("abc"), None), None)
  {
    var other := LibraryFile(1, "/lib/a.mkv", "a.mkv", Processed, false, "abc", 10, 0, 0, None, 0,
                             ObjectReference(lib.name, lib.uid, LibraryTypeName), -1);
    assert "/lib/a.mkv" != "/lib/b.mkv" by { assert "/lib/a.mkv"[5] != "/lib/b.mkv"[5]; }
    assert RecordStore.FindByPath([other], "/lib/b.mkv") == None;
  }

  /** As written, an empty fingerprint pairs the new file with whichever stored file has
      an empty fingerprint. */
  lemma EmptyFingerprintPairsWithUnfingerprinted(lib: Library, files: seq<LibraryFile>, path: string, p: Probe, f: LibraryFile)
    requires lib.useFingerprinting && !lib.folders
    requires RecordStore.FindByPath(files, path).None?
    requires p.fingerprint == Some("")
    requires f in files && f.fingerprint == ""
    ensures CheckKnown(lib, files, path, p).result.fingerprint == Some("")
    ensures CheckKnown(lib, files, path, p).result.duplicate.Some?
    ensures CheckKnown(lib, files, path, p).result.duplicate.value.typeName == LibraryFileTypeName
  {
  }

  /** The assumption the model makes about `GetFileByFingerprint(null)`: a null fingerprint
      finds the same stored record a lookup of "" finds, and is itself reported as null. */
  lemma NullFingerprintLookedUpAsEmpty(lib: Library, files: seq<LibraryFile>, path: string, p: Probe)
    requires p.fingerprint.None?
    ensures CheckKnown(lib, files, path, p).result.fingerprint.None?
    ensures CheckKnown(lib, files, path, p).result.duplicate
         == CheckKnown(lib, files, path, p.(fingerprint := Some(""))).result.duplicate
  {
  }

  // ---------------------------------------------------------------- the new record

  /** Characters removed from a full path to make it relative: the root, plus a separator
      unless the root already ends with one. */
  function SkipLength(root: string): nat {
    if EndsWith(root, "/") || EndsWith(root, "\\") then |root| else |root| + 1
  }

  /** fullpath.Substring(skip); None where Substring throws (path shorter than skip). */
  function RelativePath(root: string, full: string): (r: Option<string>)
    ensures r.Some? <==> SkipLength(root) <= |full|
    ensures r.Some? ==> full == full[..SkipLength(root)] + r.value
  {
    var skip := SkipLength(root);
    if skip <= |full| then Some(full[skip..]) else None
  }

  /** Joining the root, one separator and a relative path and then relativising gives the
      relative path back. */
  lemma RelativePathOfJoin(root: string, sep: char, rel: string)
    requires !EndsWith(root, "/") && !EndsWith(root, "\\")
    ensures RelativePath(root, root + [sep] + rel) == Some(rel)
  {
    assert (root + [sep] + rel)[|root| + 1..] == rel;
  }

  lemma RelativePathUnderSeparatorRoot(root: string, rel: string)
    requires EndsWith(root, "/") || EndsWith(root, "\\")
    ensures RelativePath(root, root + rel) == Some(rel)
  {
    assert (root + rel)[|root|..] == rel;
  }

  /** The example of a file-mode library at /lib receiving /lib/a.mp4. */
  lemma RelativePathExample()
    ensures RelativePath("/lib", "/lib/a.mp4") == Some("a.mp4")
  {
    RelativePathOfJoin("/lib", '/', "a.mp4");
    assert "/lib" + ['/'] + "a.mp4" == "/lib/a.mp4";
  }

  function HoldUntil(holdMinutes: int, now: DateTime): (r: DateTime)
    ensures holdMinutes > 0 ==> r - now == holdMinutes * TicksPerMinute
    ensures holdMinutes <= 0 ==> r == DateTimeMinValue
  {
    if holdMinutes > 0 then AddMinutes(now, holdMinutes) else DateTimeMinValue
  }

  /** A held file is released strictly later than now; an unheld one is never held. */
  lemma HoldIsInTheFutureExactlyWhenConfigured(holdMinutes: int, now: DateTime)
    requires now >= 0
    ensures HoldUntil(holdMinutes, now) > now <==> holdMinutes > 0
  {
  }

  /** The record ProcessQueuedItem builds for an admitted path (uid assigned on insert). */
  function NewRecord(lib: Library, path: string, relative: string, p: Probe, c: Classification, now: DateTime): (r: LibraryFile)
    ensures r.status == (if c.duplicate.Some? then Duplicate else Unprocessed)
    ensures r.order == -1 && r.uid == 0
    ensures r.holdUntil == HoldUntil(lib.holdMinutes, now)
    ensures lib.folders ==> r.originalSize == 0 && r.isDirectory
  {
    LibraryFile(
      uid := 0,
      name := path,
      relativePath := relative,
      status := if c.duplicate.Some? then Duplicate else Unprocessed,
      isDirectory := lib.folders,
      fingerprint := c.fingerprint.GetOr(""),
      originalSize := if lib.folders then 0 else p.length,
      creationTime := p.creationTime,
      lastWriteTime := p.lastWriteTime,
      duplicate := c.duplicate,
      holdUntil := HoldUntil(lib.holdMinutes, now),
      library := ObjectReference(lib.name, lib.uid, LibraryTypeName),
      order := -1)
  }

  /** A folder library with a wait time re-queues a folder that was written to within the
      wait window, or whose contents cannot be listed. */
  predicate FolderStillBeingWritten(lib: Library, p: Probe, now: DateTime) {
    && lib.folders && lib.waitTimeSeconds > 0
    && (p.contentWriteTimes.None?
        || (|p.contentWriteTimes.value| > 0
            && MaxOf(p.contentWriteTimes.value) > AddSeconds(now, -lib.waitTimeSeconds)))
  }

  // ---------------------------------------------------------------- scan gating

  function NormalizedScanInterval(interval: int): (r: int)
    ensures r >= 10
    ensures interval >= 10 ==> r == interval
    ensures interval < 10 ==> r == 60
  {
    if interval < 10 then 60 else interval
  }

  /** Why a scan stops early, or that it proceeds (and whether as a full scan). */
  datatype ScanGate = Disabled | OutsideSchedule | TooSoon | WatcherCovers | PathMissing | Proceed(full: bool)

  /** The gate of Scan once the interval has been normalised. */
  function GateScan(lib: Library, useScanner: bool, scanComplete: bool, fullScan: bool,
                    now: DateTime, inSchedule: bool, pathExists: bool): ScanGate
  {
    if !lib.enabled then Disabled
    else if !inSchedule then OutsideSchedule
    else
      var full := fullScan || lib.lastScanned < now - TicksPerHour;
      if !full && lib.lastScanned > AddSeconds(now, -lib.scanInterval) then TooSoon
      else if !useScanner && scanComplete && !full then WatcherCovers
      else if lib.path == "" || !pathExists then PathMissing
      else Proceed(full)
  }

  lemma DisabledOrOutOfScheduleNeverScans(lib: Library, useScanner: bool, scanComplete: bool, fullScan: bool,
                                          now: DateTime, inSchedule: bool, pathExists: bool)
    requires !lib.enabled || !inSchedule
    ensures !GateScan(lib, useScanner, scanComplete, fullScan, now, inSchedule, pathExists).Proceed?
  {
  }

  /** A library last scanned over an hour ago gets a full scan whatever the caller asked. */
  lemma StaleLibraryGetsFullScan(lib: Library, useScanner: bool, scanComplete: bool, fullScan: bool,
                                 now: DateTime, pathExists: bool)
    requires lib.enabled && pathExists && lib.path != ""
    requires lib.lastScanned < now - TicksPerHour
    ensures GateScan(lib, useScanner, scanComplete, fullScan, now, true, pathExists) == Proceed(true)
  {
  }

  /** A non-full scan is skipped while the last scan is within the interval, and in watch
      mode once ScanComplete is set. */
  lemma NonFullScanSkipped(lib: Library, useScanner: bool, scanComplete: bool, now: DateTime, pathExists: bool)
    requires lib.enabled && lib.lastScanned >= now - TicksPerHour
    requires lib.lastScanned > AddSeconds(now, -lib.scanInterval) || (!useScanner && scanComplete)
    ensures !GateScan(lib, useScanner, scanComplete, false, now, true, pathExists).Proceed?
  {
  }

  // ---------------------------------------------------------------- directory tree

  datatype FileEntry = FileEntry(fullName: string, name: string, directoryName: string, extension: string,
                                 creationTime: DateTime)

  /** A directory as enumeration sees it; `subdirsReadable` / `filesReadable` are false where
      GetDirectories / GetFiles throw. */
  datatype Dir = Dir(fullName: string, subdirsReadable: bool, subdirs: seq<Dir>, filesReadable: bool,
                     files: seq<FileEntry>)

  function Concat<T>(parts: seq<seq<T>>): (r: seq<T>)
  {
    if parts == [] then [] else Concat(parts[..|parts| - 1]) + parts[|parts| - 1]
  }

  /** One more part on a prefix adds that part at the end. */
  lemma ConcatPrefixStep<T>(parts: seq<seq<T>>, i: nat)
    requires i < |parts|
    ensures Concat(parts[..i + 1]) == Concat(parts[..i]) + parts[i]
  {
    assert parts[..i + 1][..i] == parts[..i];
  }

  lemma {:induction false} InConcat<T>(parts: seq<seq<T>>, x: T)
    ensures x in Concat(parts) <==> exists i :: 0 <= i < |parts| && x in parts[i]
  {
    if parts != [] {
      var init := parts[..|parts| - 1];
      InConcat(init, x);
      assert forall i :: 0 <= i < |init| ==> init[i] == parts[i];
    }
  }

  /** What each subdirectory contributes, in enumeration order. */
  function SubdirFiles(d: Dir): seq<seq<FileEntry>>
    decreases d, 0
  {
    seq(|d.subdirs|, i requires 0 <= i < |d.subdirs| => AllFiles(d.subdirs[i]))
  }

  /** GetFiles: all files below a directory, subdirectories first (each recursively), then
      the directory's own files; an unreadable level contributes what was gathered before
      the failure. */
  function AllFiles(d: Dir): seq<FileEntry>
    decreases d, 1
  {
    if !d.subdirsReadable then []
    else Concat(SubdirFiles(d)) + (if d.filesReadable then d.files else [])
  }

  /** Traversal order: whatever a subdirectory yields is in the result, and the directory's
      own files form the tail of the result, after everything from its subdirectories. */
  lemma {:induction false} SubdirFilesPrecedeOwnFiles(d: Dir, f: FileEntry, i: nat)
    requires d.subdirsReadable && d.filesReadable && i < |d.subdirs|
    requires f in AllFiles(d.subdirs[i])
    ensures f in AllFiles(d)
    ensures |AllFiles(d)| == |Concat(SubdirFiles(d))| + |d.files|
    ensures AllFiles(d)[|Concat(SubdirFiles(d))|..] == d.files
  {
    InConcat(SubdirFiles(d), f);
    assert f in SubdirFiles(d)[i];
  }

  // ---------------------------------------------------------------- guarded enqueue

  /** The queue after offering each candidate in turn under the QueueContains guard. */
  function Enqueued(q: seq<string>, candidates: seq<string>): seq<string>
  {
    if candidates == [] then q
    else
      var prev := Enqueued(q, candidates[..|candidates| - 1]);
      var c := candidates[|candidates| - 1];
      if c in prev then prev else prev + [c]
  }

  /** Nothing already queued moves or disappears: the old queue is a prefix. */
  lemma {:induction false} EnqueuedExtends(q: seq<string>, candidates: seq<string>)
    ensures |q| <= |Enqueued(q, candidates)|
    ensures Enqueued(q, candidates)[..|q|] == q
  {
    if candidates != [] {
      EnqueuedExtends(q, candidates[..|candidates| - 1]);
    }
  }

  /** A path is queued afterwards exactly when it was queued before or was a candidate. */
  lemma {:induction false} EnqueuedContents(q: seq<string>, candidates: seq<string>, x: string)
    ensures x in Enqueued(q, candidates) <==> x in q || x in candidates
  {
    if candidates != [] {
      var init := candidates[..|candidates| - 1];
      EnqueuedContents(q, init, x);
      assert candidates == init + [candidates[|candidates| - 1]];
    }
  }

  /** The guard keeps the queue free of duplicates. */
  lemma {:induction false} EnqueuedKeepsNoDuplicates(q: seq<string>, candidates: seq<string>)
    requires NoDuplicates(q)
    ensures NoDuplicates(Enqueued(q, candidates))
  {
    if candidates != [] {
      EnqueuedKeepsNoDuplicates(q, candidates[..|candidates| - 1]);
    }
  }

  /** Offering a path that is already queued changes nothing. */
  lemma {:induction false} EnqueueQueuedIsNoOp(q: seq<string>, x: string)
    requires x in q
    ensures Enqueued(q, [x]) == q
  {
    assert [x][..0] == [];
  }

  /** The candidates a file-mode scan offers: matching, without the '_' suffix, and not a
      known file whose creation time did not advance (known map keyed by lower-cased path). */
  predicate ScanEligible(lib: Library, f: FileEntry, known: map<string, DateTime>, regex: Regex) {
    && IsMatch(lib, f.fullName, regex)
    && !EndsWith(f.fullName, "_")
    && !(ToLower(f.fullName) in known
         && (!lib.reprocessRecreatedFiles || f.creationTime <= known[ToLower(f.fullName)]))
  }

  function ScanCandidates(lib: Library, files: seq<FileEntry>, known: map<string, DateTime>, regex: Regex): seq<string>
  {
    if files == [] then []
    else
      var last := files[|files| - 1];
      ScanCandidates(lib, files[..|files| - 1], known, regex)
        + (if ScanEligible(lib, last, known, regex) then [last.fullName] else [])
  }

  /** One more file on a prefix adds that file's own offer at the end. */
  lemma ScanCandidatesStep(lib: Library, files: seq<FileEntry>, i: nat, known: map<string, DateTime>, regex: Regex)
    requires i < |files|
    ensures ScanCandidates(lib, files[..i + 1], known, regex)
         == ScanCandidates(lib, files[..i], known, regex) + ScanCandidates(lib, [files[i]], known, regex)
    ensures ScanCandidates(lib, [files[i]], known, regex)
         == if ScanEligible(lib, files[i], known, regex) then [files[i].fullName] else []
  {
    assert files[..i + 1][..i] == files[..i];
    assert [files[i]][..0] == [];
  }

  /** Exactly the eligible files are offered. */
  lemma {:induction false} ScanCandidatesAreEligible(lib: Library, files: seq<FileEntry>, known: map<string, DateTime>,
                                                     regex: Regex, x: string)
    ensures x in ScanCandidates(lib, files, known, regex)
            <==> exists f :: f in files && f.fullName == x && ScanEligible(lib, f, known, regex)
  {
    if files != [] {
      var init := files[..|files| - 1];
      ScanCandidatesAreEligible(lib, init, known, regex, x);
      assert files == init + [files[|files| - 1]];
    }
  }

  /** The paths a watcher event offers: those passing IsMatch, in order. */
  function MatchingPaths(lib: Library, paths: seq<string>, regex: Regex): seq<string>
  {
    if paths == [] then []
    else
      MatchingPaths(lib, paths[..|paths| - 1], regex)
        + (if IsMatch(lib, paths[|paths| - 1], regex) then [paths[|paths| - 1]] else [])
  }

  /** One more path on a prefix adds that path's own offer at the end. */
  lemma MatchingPathsStep(lib: Library, paths: seq<string>, i: nat, regex: Regex)
    requires i < |paths|
    ensures MatchingPaths(lib, paths[..i + 1], regex) == MatchingPaths(lib, paths[..i], regex) + MatchingPaths(lib, [paths[i]], regex)
    ensures |MatchingPaths(lib, [paths[i]], regex)| <= 1
  {
    assert paths[..i + 1][..i] == paths[..i];
    assert [paths[i]][..0] == [];
  }

  lemma {:induction false} MatchingPathsMatch(lib: Library, paths: seq<string>, regex: Regex, x: string)
    ensures x in MatchingPaths(lib, paths, regex) <==> x in paths && IsMatch(lib, x, regex)
  {
    if paths != [] {
      var init := paths[..|paths| - 1];
      MatchingPathsMatch(lib, init, regex, x);
      assert paths == init + [paths[|paths| - 1]];
    }
  }

  /** Full names of a directory's immediate subdirectories (folder-mode scan candidates). */
  function SubdirNames(d: Dir): (r: seq<string>)
    ensures |r| == |d.subdirs|
    ensures forall i :: 0 <= i < |r| ==> r[i] == d.subdirs[i].fullName
  {
    seq(|d.subdirs|, i requires 0 <= i < |d.subdirs| => d.subdirs[i].fullName)
  }

  /** What a scan offers to the queue: a folder library offers its immediate subdirectories
      (unfiltered), a file library the eligible files of the whole tree in traversal order. */
  function ScanOffer(lib: Library, tree: Dir, known: map<string, DateTime>, regex: Regex): seq<string>
  {
    if lib.folders then SubdirNames(tree) else ScanCandidates(lib, AllFiles(tree), known, regex)
  }
}
