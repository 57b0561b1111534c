/** A watched library (Server/Workers/WatchedLibrary.cs): its path queue, the drain step
    that turns a queued path into a stored library file, the scan, the watcher event
    handler and reconfiguration. The filesystem watcher, the queue timer and the scan mutex
    are flags; the filesystem, regex engine, schedule and clock are parameters. */
module WatchedLibraries {
  import opened Common
  import opened Models
  import opened LibraryRules
  import RecordStore

  /** Why a drained path stopped, or the record it became. */
  datatype DrainStep =
    | Missing              // CheckExists failed
    | Hidden               // ExcludeHidden and the file or a parent directory is hidden
    | HiddenCheckFailed    // the hidden walk threw; the catch of ProcessQueuedItem drops the path
    | Filtered             // IsMatch failed or the path ends with '_'
    | Foreign              // no longer under the library root
    | Known                // already stored (possibly reset to Unprocessed by IsKnownFile)
    | Requeued             // folder still being written: queued again
    | Inaccessible         // CanAccess failed
    | RelativePathFailed   // Substring threw: the path is shorter than the root plus separator
    | Added(record: LibraryFile)

  datatype DrainOutcome = QueueEmpty | Drained(path: string, step: DrainStep)

  datatype ScanOutcome =
    | Busy                       // another scan holds the mutex
    | Skipped(gate: ScanGate)    // a gate of Scan returned early
    | Failed                     // listing the library's subdirectories threw
    | Scanned(queued: nat, full: bool)

  /** The effect of draining one path: the step it ends with and the store afterwards. */
  datatype Drain = Drain(step: DrainStep, files: seq<LibraryFile>)

  /** What a watcher event's path names on disk. A path is a directory (`Directory.Exists`),
      an existing file (`FileInfo.Exists`, with its length before and after the settle
      delay), or neither; it is never both. */
  datatype ChangedEntry =
    | NothingAt
    | FileAt(sizeBefore: int, sizeAfter: int)
    | DirectoryAt(filesBelow: seq<string>)

  /** ProcessQueuedItem for one dequeued path, in the order of its checks. The source
      updates instead of inserting when a known file comes with a duplicate; IsKnownFile never
      returns that combination (KnownIsNeverDuplicate), so only insertion is written here. */
  function DrainPath(lib: Library, files: seq<LibraryFile>, path: string, p: Probe, regex: Regex, now: DateTime): Drain
  {
    if !(if lib.folders then p.isDirectory else p.isFile) then Drain(Missing, files)
    else if lib.excludeHidden && HiddenVerdict(p).None? then Drain(HiddenCheckFailed, files)
    else if lib.excludeHidden && HiddenVerdict(p) == Some(true) then Drain(Hidden, files)
    else if !IsMatch(lib, path, regex) || EndsWith(path, "_") then Drain(Filtered, files)
    else if !StartsWith(ToLower(path), ToLower(lib.path)) then Drain(Foreign, files)
    else DrainAdmitted(lib, files, path, p, now)
  }

  /** The rest of ProcessQueuedItem for a path that passed the existence, hidden, filter and
      root checks. */
  function DrainAdmitted(lib: Library, files: seq<LibraryFile>, path: string, p: Probe, now: DateTime): Drain
  {
    var k := CheckKnown(lib, files, path, p);
    var after := ApplyReset(files, k.reset);
    if k.result.known && k.result.duplicate.None? then Drain(Known, after)
    else if FolderStillBeingWritten(lib, p, now) then Drain(Requeued, after)
    else if !lib.skipFileAccessTests && !lib.folders && !p.canAccess then Drain(Inaccessible, after)
    else
      match RelativePath(lib.path, path)
      case None => Drain(RelativePathFailed, after)
      case Some(relative) =>
        var r := NewRecord(lib, path, relative, p, k.result, now).(uid := |after| + 1);
        Drain(Added(r), after + [r])
  }

  /** A path failing the filters, the '_' test or the root test never touches the store. */
  lemma InadmissiblePathLeavesStore(lib: Library, files: seq<LibraryFile>, path: string, p: Probe, regex: Regex, now: DateTime)
    requires !Admissible(lib, path, regex)
    ensures var d := DrainPath(lib, files, path, p, regex, now);
      d.files == files && d.step in {Missing, HiddenCheckFailed, Hidden, Filtered, Foreign}
  {
  }

  /** The store changes only by the reset of a known file or by appending one new record,
      and a new record is only ever made for a path the store does not hold. */
  lemma DrainStoreEffect(lib: Library, files: seq<LibraryFile>, path: string, p: Probe, regex: Regex, now: DateTime)
    ensures var d := DrainPath(lib, files, path, p, regex, now);
      && (d.step.Known? ==> RecordStore.FindByPath(files, path).Some?
                            && d.files == ApplyReset(files, CheckKnown(lib, files, path, p).reset))
      && (d.step.Added? ==>
            && Admissible(lib, path, regex)
            && RecordStore.FindByPath(files, path).None?
            && RelativePath(lib.path, path).Some?
            && d.step.record == NewRecord(lib, path, RelativePath(lib.path, path).value, p,
                                          CheckKnown(lib, files, path, p).result, now).(uid := |files| + 1)
            && d.files == files + [d.step.record])
      && (!d.step.Known? && !d.step.Added? ==> d.files == files)
  {
    var present := if lib.folders then p.isDirectory else p.isFile;
    var shown := !lib.excludeHidden || HiddenVerdict(p) == Some(false);
    if present && shown && Admissible(lib, path, regex) {
      AdmittedStoreEffect(lib, files, path, p, now);
    }
  }

  /** DrainStoreEffect for a path that passed the admission checks. */
  lemma AdmittedStoreEffect(lib: Library, files: seq<LibraryFile>, path: string, p: Probe, now: DateTime)
    ensures var d := DrainAdmitted(lib, files, path, p, now);
      && (d.step.Known? ==> RecordStore.FindByPath(files, path).Some?
                            && d.files == ApplyReset(files, CheckKnown(lib, files, path, p).reset))
      && (d.step.Added? ==>
            && RecordStore.FindByPath(files, path).None?
            && RelativePath(lib.path, path).Some?
            && d.step.record == NewRecord(lib, path, RelativePath(lib.path, path).value, p,
                                          CheckKnown(lib, files, path, p).result, now).(uid := |files| + 1)
            && d.files == files + [d.step.record])
      && (!d.step.Known? && !d.step.Added? ==> d.files == files)
  {
    KnownIsNeverDuplicate(lib, files, path, p);
  }

  /** A stored path is never inserted a second time. */
  lemma StoredPathIsNeverAdded(lib: Library, files: seq<LibraryFile>, path: string, p: Probe, regex: Regex, now: DateTime)
    requires RecordStore.FindByPath(files, path).Some?
    ensures !DrainPath(lib, files, path, p, regex, now).step.Added?
  {
    DrainStoreEffect(lib, files, path, p, regex, now);
  }

  /** Draining keeps uids aligned with positions and keeps paths unique in the store. */
  lemma {:induction false} DrainKeepsStoreInvariants(lib: Library, files: seq<LibraryFile>, path: string, p: Probe,
                                                     regex: Regex, now: DateTime)
    requires RecordStore.UidsArePositions(files) && RecordStore.UniqueNames(files)
    ensures var d := DrainPath(lib, files, path, p, regex, now);
      RecordStore.UidsArePositions(d.files) && RecordStore.UniqueNames(d.files)
  {
    var d := DrainPath(lib, files, path, p, regex, now);
    DrainStoreEffect(lib, files, path, p, regex, now);
    if d.step.Known? {
      KnownResetKeepsStoreInvariants(lib, files, path, p);
    } else if d.step.Added? {
      AppendKeepsStoreInvariants(files, d.step.record);
    }
  }

  /** The reset of a known file writes back to the slot the record was found in. */
  lemma KnownResetKeepsStoreInvariants(lib: Library, files: seq<LibraryFile>, path: string, p: Probe)
    requires RecordStore.UidsArePositions(files) && RecordStore.UniqueNames(files)
    requires RecordStore.FindByPath(files, path).Some?
    ensures var after := ApplyReset(files, CheckKnown(lib, files, path, p).reset);
      RecordStore.UidsArePositions(after) && RecordStore.UniqueNames(after)
  {
    var k := CheckKnown(lib, files, path, p);
    if k.reset.Some? {
      RecordStore.FoundRecordIsAddressable(files, path);
      var stored := RecordStore.FindByPath(files, path).value;
      assert k.reset.value.uid == stored.uid && k.reset.value.name == stored.name;
      assert ApplyReset(files, k.reset) == files[stored.uid - 1 := k.reset.value];
    }
  }

  /** Appending a record for a new path under the next uid. */
  lemma AppendKeepsStoreInvariants(files: seq<LibraryFile>, r: LibraryFile)
    requires RecordStore.UidsArePositions(files) && RecordStore.UniqueNames(files)
    requires r.uid == |files| + 1 && RecordStore.FindByPath(files, r.name).None?
    ensures RecordStore.UidsArePositions(files + [r]) && RecordStore.UniqueNames(files + [r])
  {
    assert forall i :: 0 <= i < |files| ==> files[i] in files && files[i].name != r.name;
  }

  class WatchedLibrary {
    var library: Library
    var useScanner: bool
    var scanComplete: bool
    var disposed: bool
    /** The path the filesystem watcher is installed on; None when there is none. */
    var watcher: Option<string>
    /** The scan mutex is held by a scan on another thread. */
    var scanBusy: bool
    var queue: seq<string>
    /** The single-shot queue timer is started. */
    var timerArmed: bool

    /** In watch mode a live library has a watcher on its current path, and no path is
        queued twice. */
    ghost predicate Valid()
      reads this
    {
      && (!disposed && !useScanner ==> watcher == Some(library.path))
      && NoDuplicates(queue)
    }

    constructor (lib: Library, pathExists: bool)
      ensures Valid()
      ensures library == lib && useScanner == (lib.scan || !pathExists)
      ensures watcher == (if useScanner then None else Some(lib.path))
      ensures queue == [] && timerArmed
      ensures !scanComplete && !disposed && !scanBusy
    {
      library := lib;
      var scanner := lib.scan;
      if !pathExists {
        scanner := true;
      }
      useScanner := scanner;
      watcher := if scanner then None else Some(lib.path);
      scanComplete, disposed, scanBusy := false, false, false;
      queue := [];
      timerArmed := true;
    }

    // ------------------------------------------------------------ the queue

    /** Appends at the tail and starts the queue timer. */
    method QueueItem(path: string)
      modifies this`queue, this`timerArmed
      ensures queue == old(queue) + [path]
      ensures timerArmed
    {
      queue := queue + [path];
      timerArmed := true;
    }

    method QueueContains(item: string) returns (found: bool)
      ensures found <==> item in queue
    {
      var i := 0;
      while i < |queue|
        invariant 0 <= i <= |queue|
        invariant forall j :: 0 <= j < i ==> queue[j] != item
      {
        if queue[i] == item {
          return true;
        }
        i := i + 1;
      }
      return false;
    }

    method QueueCount() returns (n: nat)
      ensures n == |queue|
    {
      n := |queue|;
    }

    method QueuedHasItems() returns (b: bool)
      ensures b <==> queue != []
    {
      b := |queue| > 0;
    }

    /** Removes from the head. */
    method TryDequeue() returns (path: Option<string>)
      modifies this`queue
      ensures old(queue) == [] ==> path == None && queue == []
      ensures old(queue) != [] ==> path == Some(old(queue)[0]) && queue == old(queue)[1..]
    {
      if queue == [] {
        return None;
      }
      path := Some(queue[0]);
      queue := queue[1..];
    }

    /** The guarded enqueue every caller of QueueItem performs: queue the path unless it is
        already queued. */
    method OfferPath(path: string)
      modifies this`queue, this`timerArmed
      ensures queue == Enqueued(old(queue), [path])
      ensures timerArmed == (old(timerArmed) || queue != old(queue))
    {
      assert [path][..0] == [];
      var queued := QueueContains(path);
      if !queued {
        QueueItem(path);
      }
    }

    // ------------------------------------------------------------ drain step

    /** The hidden test: the file's own attribute, then a walk up the parent directories
        that stops at the root and after 21 directories. */
    method FileIsHidden(p: Probe) returns (r: Option<bool>)
      ensures r == HiddenVerdict(p)
    {
      if p.hiddenAttribute.None? {
        return Some(false);
      }
      if p.hiddenAttribute.value {
        return Some(true);
      }
      var anc := p.ancestorsHidden;
      if |anc| == 0 {
        // the path has no containing directory: dir.Parent throws
        return None;
      }
      var dir := 0;
      var count := 0;
      while dir < |anc| - 1
        invariant 0 <= dir < |anc| && dir <= 20
        invariant count == dir
        invariant forall k :: 0 <= k < dir ==> !anc[k]
      {
        if anc[dir] {
          return Some(true);
        }
        dir := dir + 1;
        count := count + 1;
        if count > 20 {
          break;
        }
      }
      assert forall k :: 0 <= k < |anc| - 1 && k <= 20 ==> !anc[k];
      return Some(false);
    }

    /** Classifies a drained path against the store; a recreated known file is written back
        as Unprocessed. */
    method IsKnownFile(path: string, p: Probe, db: RecordStore.LibraryFileStore) returns (c: Classification)
      requires db.Valid()
      modifies db
      ensures db.Valid()
      ensures c == CheckKnown(library, old(db.files), path, p).result
      ensures db.files == ApplyReset(old(db.files), CheckKnown(library, old(db.files), path, p).reset)
    {
      var stored := RecordStore.FindByPath(db.files, path);
      if stored.Some? {
        var knownFile := stored.value;
        if !library.reprocessRecreatedFiles || p.creationTime <= knownFile.creationTime {
          return Classification(true, None, None);
        }
        knownFile := knownFile.(creationTime := p.creationTime, lastWriteTime := p.lastWriteTime,
                                status := Unprocessed, fingerprint := p.fingerprint.GetOr(""));
        RecordStore.FoundRecordIsAddressable(db.files, path);
        var updated := db.Update(knownFile);
        return Classification(true, None, None);
      }
      var fingerprint: Option<string> := None;
      if library.useFingerprinting && !library.folders {
        fingerprint := p.fingerprint;
        if fingerprint.None? || fingerprint.value == "" {
          var other := RecordStore.FindByFingerprint(db.files, fingerprint.GetOr(""));
          if other.Some? {
            return Classification(false, fingerprint,
              Some(ObjectReference(other.value.name, other.value.uid, LibraryFileTypeName)));
          }
        }
      }
      return Classification(false, fingerprint, None);
    }

    /** Dequeues one path and runs it through existence, hidden, filter and root checks,
        classification, the folder wait, the access check, and finally stores a new record. */
    method ProcessQueuedItem(db: RecordStore.LibraryFileStore, fs: string -> Probe, regex: Regex, now: DateTime)
      returns (outcome: DrainOutcome)
      requires Valid() && db.Valid()
      modifies this`queue, this`timerArmed, db
      ensures Valid() && db.Valid()
      ensures old(queue) == [] ==>
        outcome == QueueEmpty && queue == [] && db.files == old(db.files) && timerArmed == old(timerArmed)
      ensures old(queue) != [] ==>
        && outcome.Drained? && outcome.path == old(queue)[0]
        && var d := DrainPath(library, old(db.files), outcome.path, fs(outcome.path), regex, now);
        && outcome.step == d.step
        && db.files == d.files
        && queue == old(queue)[1..] + (if d.step == Requeued then [outcome.path] else [])
        && timerArmed == (old(timerArmed) || d.step == Requeued)
    {
      var next := TryDequeue();
      if next.None? {
        return QueueEmpty;
      }
      var fullpath := next.value;
      var step := DrainOne(fullpath, fs(fullpath), db, regex, now);
      RequeueKeepsNoDuplicates(old(queue));
      return Drained(fullpath, step);
    }

    /** The checks ProcessQueuedItem runs on one dequeued path, in their order; the result is
        how the path left the pipeline. */
    method DrainOne(fullpath: string, p: Probe, db: RecordStore.LibraryFileStore, regex: Regex, now: DateTime)
      returns (step: DrainStep)
      requires db.Valid()
      modifies this`queue, this`timerArmed, db
      ensures db.Valid()
      ensures var d := DrainPath(library, old(db.files), fullpath, p, regex, now);
        && step == d.step
        && db.files == d.files
        && queue == old(queue) + (if d.step == Requeued then [fullpath] else [])
        && timerArmed == (old(timerArmed) || d.step == Requeued)
    {
      var present := if library.folders then p.isDirectory else p.isFile;
      if !present {
        return Missing;
      }

      if library.excludeHidden {
        var hidden := FileIsHidden(p);
        if hidden.None? {
          return HiddenCheckFailed;
        }
        if hidden.value {
          return Hidden;
        }
      }

      if !IsMatch(library, fullpath, regex) || EndsWith(fullpath, "_") {
        return Filtered;
      }

      if !StartsWith(ToLower(fullpath), ToLower(library.path)) {
        return Foreign;
      }
      step := DrainAdmittedPath(fullpath, p, db, now);
    }

    /** The second half of DrainOne: the known-file check, the folder and access checks and
        the insertion of the new record. */
    method DrainAdmittedPath(fullpath: string, p: Probe, db: RecordStore.LibraryFileStore, now: DateTime)
      returns (step: DrainStep)
      requires db.Valid()
      modifies this`queue, this`timerArmed, db
      ensures db.Valid()
      ensures var d := DrainAdmitted(library, old(db.files), fullpath, p, now);
        && step == d.step
        && db.files == d.files
        && queue == old(queue) + (if d.step == Requeued then [fullpath] else [])
        && timerArmed == (old(timerArmed) || d.step == Requeued)
    {
      var c := IsKnownFile(fullpath, p, db);
      KnownIsNeverDuplicate(library, old(db.files), fullpath, p);
      if c.known && c.duplicate.None? {
        return Known;
      }

      if FolderStillBeingWritten(library, p, now) {
        QueueItem(fullpath);
        return Requeued;
      }

      if !library.skipFileAccessTests && !library.folders && !p.canAccess {
        return Inaccessible;
      }

      var relative := RelativePath(library.path, fullpath);
      if relative.None? {
        return RelativePathFailed;
      }

      var lf := NewRecord(library, fullpath, relative.value, p, c, now);
      if c.known {
        // The source updates the stored record here. IsKnownFile never reports a duplicate
        // for a known file, so a known file has already returned above.
        assert false;
      }
      var result := db.Add(lf);
      return Added(result);
    }

    /** One firing of the single-shot queue timer: drain one path, then restart the timer
        only while the library is live and the queue is not empty. */
    method OnQueueTimer(db: RecordStore.LibraryFileStore, fs: string -> Probe, regex: Regex, now: DateTime)
      returns (outcome: DrainOutcome)
      requires Valid() && db.Valid()
      modifies this`queue, this`timerArmed, db
      ensures Valid() && db.Valid()
      ensures old(queue) == [] ==> outcome == QueueEmpty && queue == [] && db.files == old(db.files)
      ensures old(queue) != [] ==>
        && outcome.Drained? && outcome.path == old(queue)[0]
        && var d := DrainPath(library, old(db.files), outcome.path, fs(outcome.path), regex, now);
        && outcome.step == d.step
        && db.files == d.files
        && queue == old(queue)[1..] + (if d.step == Requeued then [outcome.path] else [])
      ensures timerArmed <==> (outcome.Drained? && outcome.step == Requeued) || (!disposed && queue != [])
    {
      timerArmed := false;
      outcome := ProcessQueuedItem(db, fs, regex, now);
      var more := QueuedHasItems();
      if !disposed && more {
        timerArmed := true;
      }
    }

    // ------------------------------------------------------------ discovery

    /** A path reported by the watcher is queued when it matches and is not queued yet. */
    method FileChangeEvent(path: string, regex: Regex)
      modifies this`queue, this`timerArmed
      ensures queue == Enqueued(old(queue), MatchingPaths(library, [path], regex))
      ensures timerArmed == (old(timerArmed) || queue != old(queue))
    {
      assert [path][..0] == [];
      if !IsMatch(library, path, regex) {
        return;
      }
      OfferPath(path);
    }

    /** The loop of Watcher_Changed over the files below a changed directory. */
    method OfferEach(paths: seq<string>, regex: Regex)
      modifies this`queue, this`timerArmed
      ensures queue == Enqueued(old(queue), MatchingPaths(library, paths, regex))
    {
      var i := 0;
      while i < |paths|
        invariant 0 <= i <= |paths|
        invariant queue == Enqueued(old(queue), MatchingPaths(library, paths[..i], regex))
      {
        ghost var before := MatchingPaths(library, paths[..i], regex);
        FileChangeEvent(paths[i], regex);
        MatchingPathsStep(library, paths, i, regex);
        EnqueuedAppend(old(queue), before, MatchingPaths(library, [paths[i]], regex));
        i := i + 1;
      }
      assert paths[..i] == paths;
    }

    /** Watcher_Changed: in a file library a changed directory is expanded into all files
        below it. Otherwise the path is looked at as a file: nothing happens unless a file
        exists there (so a folder library ignores directory events), and a file whose size
        grew during the settle delay is ignored (a later event will fire). */
    method WatcherChanged(path: string, entry: ChangedEntry, regex: Regex)
      requires Valid()
      modifies this`queue, this`timerArmed
      ensures Valid()
      ensures !library.folders && entry.DirectoryAt? ==>
        queue == Enqueued(old(queue), MatchingPaths(library, entry.filesBelow, regex))
      ensures entry.FileAt? && entry.sizeBefore >= entry.sizeAfter ==>
        queue == Enqueued(old(queue), MatchingPaths(library, [path], regex))
      ensures entry.NothingAt? || (entry.FileAt? && entry.sizeBefore < entry.sizeAfter) ==>
        queue == old(queue)
      ensures library.folders && entry.DirectoryAt? ==> queue == old(queue)
    {
      if !library.folders && entry.DirectoryAt? {
        OfferEach(entry.filesBelow, regex);
        EnqueuedKeepsNoDuplicates(old(queue), MatchingPaths(library, entry.filesBelow, regex));
      } else {
        if !entry.FileAt? {
          return;
        }
        if entry.sizeBefore < entry.sizeAfter {
          return;
        }
        FileChangeEvent(path, regex);
        EnqueuedKeepsNoDuplicates(old(queue), MatchingPaths(library, [path], regex));
      }
    }

    /** Reconfiguration in place: a missing path forces scanner mode; scanner to watch mode
        installs a watcher, watch to scanner mode disposes it, a path change reinstalls it;
        an enabled library whose last scan predates 2020 is marked for a full scan. */
    method UpdateLibrary(lib: Library, pathExists: bool)
      requires Valid()
      modifies this`library, this`useScanner, this`watcher, this`scanComplete
      ensures Valid()
      ensures library == lib
      ensures !pathExists ==> useScanner && watcher == old(watcher)
      ensures pathExists && old(useScanner) && !lib.scan ==> !useScanner && watcher == Some(lib.path)
      ensures pathExists && !old(useScanner) && lib.scan ==> useScanner && watcher == None
      ensures pathExists && old(useScanner) && lib.scan ==> useScanner && watcher == old(watcher)
      ensures pathExists && !old(useScanner) && !lib.scan ==>
        && !useScanner
        && watcher == (if old(watcher).Some? && old(watcher).value != lib.path then Some(lib.path) else old(watcher))
      ensures scanComplete == (if lib.enabled && lib.lastScanned < Jan1st2020 then false else old(scanComplete))
    {
      library := lib;
      if !pathExists {
        useScanner := true;
      } else if useScanner && !lib.scan {
        useScanner := false;
        watcher := Some(lib.path);
      } else if !useScanner && lib.scan {
        useScanner := true;
        watcher := None;
      } else if !useScanner && watcher.Some? && watcher.value != lib.path {
        watcher := Some(lib.path);
      }
      if lib.enabled && lib.lastScanned < Jan1st2020 {
        scanComplete := false;
      }
    }

    method Dispose()
      modifies this`disposed, this`watcher, this`timerArmed
      ensures disposed && watcher == None && !timerArmed
    {
      disposed := true;
      watcher := None;
      timerArmed := false;
    }

    /** GetFiles: subdirectories first, recursively, then the directory's own files. */
    method GetFiles(dir: Dir) returns (files: seq<FileEntry>)
      ensures files == AllFiles(dir)
      decreases dir
    {
      files := [];
      if !dir.subdirsReadable {
        return;
      }
      var i := 0;
      while i < |dir.subdirs|
        invariant 0 <= i <= |dir.subdirs|
        invariant files == Concat(SubdirFiles(dir)[..i])
      {
        var sub := GetFiles(dir.subdirs[i]);
        assert SubdirFiles(dir)[..i + 1][..i] == SubdirFiles(dir)[..i];
        files := files + sub;
        i := i + 1;
      }
      assert SubdirFiles(dir)[..i] == SubdirFiles(dir);
      if dir.filesReadable {
        files := files + dir.files;
      }
    }

    /** The folder branch of Scan: every immediate subdirectory is offered, unfiltered. */
    method QueueSubdirectories(names: seq<string>) returns (count: nat)
      modifies this`queue, this`timerArmed
      ensures queue == Enqueued(old(queue), names)
      ensures count == |queue| - |old(queue)|
      ensures timerArmed == (old(timerArmed) || queue != old(queue))
    {
      count := 0;
      var j := 0;
      while j < |names|
        invariant 0 <= j <= |names|
        invariant queue == Enqueued(old(queue), names[..j])
        invariant |old(queue)| + count == |queue|
        invariant timerArmed == (old(timerArmed) || queue != old(queue))
      {
        EnqueuedExtends(old(queue), names[..j]);
        var queued := QueueContains(names[j]);
        if !queued {
          QueueItem(names[j]);
          count := count + 1;
        }
        EnqueuedAppend(old(queue), names[..j], [names[j]]);
        assert names[..j] + [names[j]] == names[..j + 1];
        EnqueuedExtends(old(queue), names[..j + 1]);
        j := j + 1;
      }
      assert names[..j] == names;
    }

    /** One iteration of the file branch of Scan: skip a non-matching or '_' path and an
        unchanged known file, offer anything else. */
    method OfferScanFile(file: FileEntry, known: map<string, DateTime>, regex: Regex) returns (added: nat)
      modifies this`queue, this`timerArmed
      ensures ScanEligible(library, file, known, regex) && file.fullName !in old(queue) ==>
        queue == old(queue) + [file.fullName] && added == 1 && timerArmed
      ensures !(ScanEligible(library, file, known, regex) && file.fullName !in old(queue)) ==>
        queue == old(queue) && added == 0 && timerArmed == old(timerArmed)
    {
      added := 0;
      if !IsMatch(library, file.fullName, regex) || EndsWith(file.fullName, "_") {
        return;
      }
      var key := ToLower(file.fullName);
      if key in known && (!library.reprocessRecreatedFiles || file.creationTime <= known[key]) {
        // known file that has not changed
        return;
      }
      var queued := QueueContains(file.fullName);
      if !queued {
        QueueItem(file.fullName);
        added := 1;
      }
    }

    /** The file branch of Scan: matching files that are not unchanged known files are
        offered in traversal order. */
    method QueueScanFiles(files: seq<FileEntry>, known: map<string, DateTime>, regex: Regex) returns (count: nat)
      modifies this`queue, this`timerArmed
      ensures queue == Enqueued(old(queue), ScanCandidates(library, files, known, regex))
      ensures count == |queue| - |old(queue)|
      ensures timerArmed == (old(timerArmed) || queue != old(queue))
    {
      count := 0;
      var i := 0;
      while i < |files|
        invariant 0 <= i <= |files|
        invariant queue == Enqueued(old(queue), ScanCandidates(library, files[..i], known, regex))
        invariant |old(queue)| + count == |queue|
        invariant timerArmed == (old(timerArmed) || queue != old(queue))
      {
        ghost var before := ScanCandidates(library, files[..i], known, regex);
        var added := OfferScanFile(files[i], known, regex);
        count := count + added;
        ScanCandidatesStep(library, files, i, known, regex);
        EnqueuedAppend(old(queue), before, ScanCandidates(library, [files[i]], known, regex));
        i := i + 1;
      }
      assert files[..i] == files;
    }

    /** A scan: the gates, then queueing every offered path that is not queued yet. */
    method Scan(fullScan: bool, now: DateTime, inSchedule: bool, pathExists: bool, tree: Dir,
                known: map<string, DateTime>, regex: Regex) returns (outcome: ScanOutcome)
      requires Valid()
      modifies this`library, this`queue, this`timerArmed
      ensures Valid()
      ensures old(scanBusy) ==> outcome == Busy && library == old(library) && queue == old(queue)
      ensures !old(scanBusy) ==>
        library == old(library).(scanInterval := NormalizedScanInterval(old(library).scanInterval))
      ensures !old(scanBusy) ==>
        var gate := GateScan(library, useScanner, scanComplete, fullScan, now, inSchedule, pathExists);
        && (!gate.Proceed? ==> outcome == Skipped(gate) && queue == old(queue))
        && (gate.Proceed? && library.folders && !tree.subdirsReadable ==> outcome == Failed && queue == old(queue))
        && (gate.Proceed? && !(library.folders && !tree.subdirsReadable) ==>
              && queue == Enqueued(old(queue), ScanOffer(library, tree, known, regex))
              && outcome.Scanned? && outcome.full == gate.full
              && outcome.queued == |queue| - |old(queue)|)
      ensures timerArmed == (old(timerArmed) || queue != old(queue))
    {
      if scanBusy {
        return Busy;
      }
      NormalizeInterval();
      outcome := ScanGated(fullScan, now, inSchedule, pathExists, tree, known, regex);
      EnqueuedKeepsNoDuplicates(old(queue), ScanOffer(library, tree, known, regex));
    }

    /** The first step of Scan: an interval below 10 seconds becomes 60. */
    method NormalizeInterval()
      modifies this`library
      ensures library == old(library).(scanInterval := NormalizedScanInterval(old(library).scanInterval))
    {
      if library.scanInterval < 10 {
        library := library.(scanInterval := 60);
      }
    }

    /** Scan once the interval is normalised: the gates, then the tree. */
    method ScanGated(fullScan: bool, now: DateTime, inSchedule: bool, pathExists: bool, tree: Dir,
                     known: map<string, DateTime>, regex: Regex) returns (outcome: ScanOutcome)
      modifies this`queue, this`timerArmed
      ensures
        var gate := GateScan(library, useScanner, scanComplete, fullScan, now, inSchedule, pathExists);
        && (!gate.Proceed? ==> outcome == Skipped(gate) && queue == old(queue))
        && (gate.Proceed? && library.folders && !tree.subdirsReadable ==> outcome == Failed && queue == old(queue))
        && (gate.Proceed? && !(library.folders && !tree.subdirsReadable) ==>
              && queue == Enqueued(old(queue), ScanOffer(library, tree, known, regex))
              && outcome.Scanned? && outcome.full == gate.full
              && outcome.queued == |queue| - |old(queue)|)
      ensures timerArmed == (old(timerArmed) || queue != old(queue))
    {
      var gate := CheckGates(fullScan, now, inSchedule, pathExists);
      if !gate.Proceed? {
        return Skipped(gate);
      }
      outcome := ScanTree(gate.full, tree, known, regex);
    }

    /** The early returns of Scan, in their order, once the interval is normalised. */
    method CheckGates(fullScan: bool, now: DateTime, inSchedule: bool, pathExists: bool) returns (gate: ScanGate)
      ensures gate == GateScan(library, useScanner, scanComplete, fullScan, now, inSchedule, pathExists)
    {
      if !library.enabled {
        return Disabled;
      }
      if !inSchedule {
        return OutsideSchedule;
      }
      var full := fullScan;
      if !full {
        full := library.lastScanned < now - TicksPerHour;
      }
      if !full && library.lastScanned > AddSeconds(now, -library.scanInterval) {
        return TooSoon;
      }
      if !useScanner && scanComplete && !full {
        return WatcherCovers;
      }
      if library.path == "" || !pathExists {
        return PathMissing;
      }
      return Proceed(full);
    }

    /** The body of a scan that passed its gates: a folder library queues its subdirectories,
        a file library its eligible files. */
    method ScanTree(full: bool, tree: Dir, known: map<string, DateTime>, regex: Regex) returns (outcome: ScanOutcome)
      modifies this`queue, this`timerArmed
      ensures |old(queue)| <= |queue|
      ensures library.folders && !tree.subdirsReadable ==>
        outcome == Failed && queue == old(queue) && timerArmed == old(timerArmed)
      ensures !(library.folders && !tree.subdirsReadable) ==>
        && queue == Enqueued(old(queue), ScanOffer(library, tree, known, regex))
        && outcome == Scanned(|queue| - |old(queue)|, full)
      ensures timerArmed == (old(timerArmed) || queue != old(queue))
    {
      var count: nat;
      if library.folders {
        if !tree.subdirsReadable {
          // GetDirectories threw: the catch of Scan ends the scan
          return Failed;
        }
        count := QueueSubdirectories(SubdirNames(tree));
      } else {
        var files := GetFiles(tree);
        count := QueueScanFiles(files, known, regex);
      }
      return Scanned(count, full);
    }
  }

  /** Offering one more candidate (or none) extends the guarded enqueue by one step. */
  lemma EnqueuedAppend(q: seq<string>, cs: seq<string>, more: seq<string>)
    requires |more| <= 1
    ensures more == [] ==> Enqueued(q, cs + more) == Enqueued(q, cs)
    ensures more != [] ==>
      Enqueued(q, cs + more) == if more[0] in Enqueued(q, cs) then Enqueued(q, cs) else Enqueued(q, cs) + [more[0]]
  {
    if more == [] {
      assert cs + more == cs;
    } else {
      assert (cs + more)[..|cs + more| - 1] == cs;
    }
  }

  /** Draining keeps the queue free of duplicates: the head leaves, and a requeued head
      goes to the back where it is the only copy. */
  lemma RequeueKeepsNoDuplicates(q: seq<string>)
    requires q != [] && NoDuplicates(q)
    ensures NoDuplicates(q[1..])
    ensures NoDuplicates(q[1..] + [q[0]])
  {
    assert forall i :: 0 <= i < |q| - 1 ==> q[1..][i] == q[i + 1];
  }
}
