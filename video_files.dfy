/** The video-file scan (Server/Controllers/VideoFileController.cs): every file below the
    configured source directory whose normalised extension is in the configured list,
    subdirectories first. The directory tree is a value; where enumeration throws, the tree
    says so (see LibraryRules.Dir). */
module VideoFiles {
  import opened Common
  import opened LibraryRules

  datatype VideoFile = VideoFile(name: string, shortName: string, path: string, extension: string)

  /** The list used when the settings carry none. */
  const DefaultExtensions: seq<string> := ["avi", "mp4", "mkv", "divx", "mov", "mpg", "mpeg"]

  predicate IsUpper(c: char) {
    'A' <= c <= 'Z'
  }

  /** The extension lower-cased, with one leading '.' dropped. */
  function NormalizeExtension(e: string): (r: string)
    ensures forall i :: 0 <= i < |r| ==> !IsUpper(r[i])
    ensures |r| == |e| || |r| == |e| - 1
    ensures StartsWith(ToLower(e), ".") ==> "." + r == ToLower(e)
    ensures !StartsWith(ToLower(e), ".") ==> r == ToLower(e)
  {
    var lower := ToLower(e);
    if StartsWith(lower, ".") then lower[1..] else lower
  }

  /** A leading dot makes no difference, and neither does the case of the letters. */
  lemma NormalizeExtensionExamples()
    ensures NormalizeExtension(".MKV") == "mkv"
    ensures NormalizeExtension("Mp4") == "mp4"
    ensures NormalizeExtension("..avi") == ".avi"
    ensures NormalizeExtension("") == ""
  {
    assert ToLower(".MKV") == ".mkv";
    assert ToLower("Mp4") == "mp4";
    assert "mp4"[..1][0] == 'm';
    assert ToLower("..avi") == "..avi";
  }

  /** Only one dot is dropped: an extension written with or without it normalises alike. */
  lemma DotIsOptional(e: string)
    requires !StartsWith(ToLower(e), ".")
    ensures NormalizeExtension("." + e) == NormalizeExtension(e)
  {
    assert ToLower("." + e) == "." + ToLower(e);
    assert ("." + ToLower(e))[1..] == ToLower(e);
  }

  /** The membership test is ordinal: a configured entry holding an upper-case letter never
      matches any file. */
  lemma UpperCaseEntryNeverMatches(entry: string, e: string, k: nat)
    requires k < |entry| && IsUpper(entry[k])
    ensures NormalizeExtension(e) != entry
  {
  }

  /** The entry for a matching file. */
  function VideoOf(f: FileEntry): VideoFile {
    VideoFile(f.fullName, f.name, f.directoryName, NormalizeExtension(f.extension))
  }

  /** The videos among `files`, in order. */
  function Videos(files: seq<FileEntry>, extensions: seq<string>): seq<VideoFile> {
    if files == [] then []
    else
      var last := files[|files| - 1];
      Videos(files[..|files| - 1], extensions)
        + (if NormalizeExtension(last.extension) in extensions then [VideoOf(last)] else [])
  }

  /** Exactly the files whose normalised extension is listed appear, each as its full name,
      file name, directory and normalised extension. */
  lemma {:induction false} VideosAreMatchingFiles(files: seq<FileEntry>, extensions: seq<string>, v: VideoFile)
    ensures v in Videos(files, extensions) <==>
      exists f :: f in files && NormalizeExtension(f.extension) in extensions && v == VideoOf(f)
    ensures v in Videos(files, extensions) ==> v.extension in extensions
  {
    if files != [] {
      var init := files[..|files| - 1];
      VideosAreMatchingFiles(init, extensions, v);
      assert files == init + [files[|files| - 1]];
    }
  }

  lemma {:induction false} VideosAppend(a: seq<FileEntry>, b: seq<FileEntry>, extensions: seq<string>)
    ensures Videos(a + b, extensions) == Videos(a, extensions) + Videos(b, extensions)
    decreases |b|
  {
    if b != [] {
      var init := b[..|b| - 1];
      assert (a + b)[..|a + b| - 1] == a + init;
      assert (a + b)[|a + b| - 1] == b[|b| - 1];
      VideosAppend(a, init, extensions);
    } else {
      assert a + b == a;
    }
  }

  /** The videos of the first `i` subdirectories. */
  function SubdirVideos(dir: Dir, i: nat, extensions: seq<string>): seq<VideoFile>
    requires i <= |dir.subdirs|
  {
    Videos(Concat(SubdirFiles(dir)[..i]), extensions)
  }

  lemma SubdirVideosStep(dir: Dir, i: nat, extensions: seq<string>)
    requires i < |dir.subdirs|
    ensures SubdirVideos(dir, i + 1, extensions)
         == SubdirVideos(dir, i, extensions) + Videos(AllFiles(dir.subdirs[i]), extensions)
  {
    var parts := SubdirFiles(dir);
    assert parts[i] == AllFiles(dir.subdirs[i]);
    ConcatPrefixStep(parts, i);
    VideosAppend(Concat(parts[..i]), parts[i], extensions);
  }

  lemma SubdirVideosAll(dir: Dir, extensions: seq<string>)
    ensures SubdirVideos(dir, |dir.subdirs|, extensions) == Videos(Concat(SubdirFiles(dir)), extensions)
  {
    assert SubdirFiles(dir)[..|dir.subdirs|] == SubdirFiles(dir);
  }

  /** Order: a directory's own videos come after all videos of its subdirectories. */
  lemma OwnVideosLast(d: Dir, extensions: seq<string>)
    requires d.subdirsReadable && d.filesReadable
    ensures Videos(AllFiles(d), extensions)
         == Videos(Concat(SubdirFiles(d)), extensions) + Videos(d.files, extensions)
  {
    VideosAppend(Concat(SubdirFiles(d)), d.files, extensions);
  }

  /** The videos of a level whose subdirectories could be listed. */
  lemma ReadableLevelVideos(d: Dir, extensions: seq<string>)
    requires d.subdirsReadable
    ensures Videos(AllFiles(d), extensions)
         == Videos(Concat(SubdirFiles(d)), extensions) + (if d.filesReadable then Videos(d.files, extensions) else [])
  {
    if d.filesReadable {
      OwnVideosLast(d, extensions);
    } else {
      assert AllFiles(d) == Concat(SubdirFiles(d));
    }
  }

  lemma LevelEffect(pre: seq<VideoFile>, d: Dir, extensions: seq<string>)
    requires d.subdirsReadable
    ensures d.filesReadable ==>
      pre + Videos(Concat(SubdirFiles(d)), extensions) + Videos(d.files, extensions) == pre + Videos(AllFiles(d), extensions)
    ensures !d.filesReadable ==>
      pre + Videos(Concat(SubdirFiles(d)), extensions) == pre + Videos(AllFiles(d), extensions)
  {
    ReadableLevelVideos(d, extensions);
    if d.filesReadable {
      AppendAssociates(pre, Videos(Concat(SubdirFiles(d)), extensions), Videos(d.files, extensions));
    } else {
      AppendAssociates(pre, Videos(Concat(SubdirFiles(d)), extensions), []);
    }
  }


  /** The list SearchDirectory appends to. */
  class VideoSearch {
    var files: seq<VideoFile>

    constructor ()
      ensures files == []
    {
      files := [];
    }

    /** Subdirectories first (each recursively), then the directory's own files; a directory
        whose listing throws contributes nothing further. */
    method SearchDirectory(dir: Dir, extensions: seq<string>)
      modifies this
      ensures files == old(files) + Videos(AllFiles(dir), extensions)
      decreases dir, 1
    {
      if !dir.subdirsReadable {
        return;
      }
      SearchSubdirectories(dir, extensions);
      if dir.filesReadable {
        AddMatching(dir.files, extensions);
      }
      LevelEffect(old(files), dir, extensions);
    }

    /** The first loop of SearchDirectory: each subdirectory in turn. */
    method SearchSubdirectories(dir: Dir, extensions: seq<string>)
      modifies this
      ensures files == old(files) + Videos(Concat(SubdirFiles(dir)), extensions)
      decreases dir, 0
    {
      var i := 0;
      while i < |dir.subdirs|
        invariant 0 <= i <= |dir.subdirs|
        invariant files == old(files) + SubdirVideos(dir, i, extensions)
      {
        SearchDirectory(dir.subdirs[i], extensions);
        SubdirVideosStep(dir, i, extensions);
        i := i + 1;
      }
      SubdirVideosAll(dir, extensions);
    }

    /** The second loop of SearchDirectory: the files whose normalised extension is listed. */
    method AddMatching(entries: seq<FileEntry>, extensions: seq<string>)
      modifies this
      ensures files == old(files) + Videos(entries, extensions)
    {
      var j := 0;
      while j < |entries|
        invariant 0 <= j <= |entries|
        invariant files == old(files) + Videos(entries[..j], extensions)
      {
        var file := entries[j];
        var extension := NormalizeExtension(file.extension);
        assert entries[..j + 1][..j] == entries[..j];
        if extension in extensions {
          files := files + [VideoFile(file.fullName, file.name, file.directoryName, extension)];
        }
        j := j + 1;
      }
      assert entries[..j] == entries;
    }
  }

  /** The scan endpoint. `source` is the configured source directory (None when the settings
      or their Source are null), `dirExists` whether it exists, `configured` the configured
      extension list. */
  method Scan(source: Option<string>, dirExists: bool, dir: Dir, configured: Option<seq<string>>)
    returns (r: seq<VideoFile>)
    ensures source.None? || source.value == "" || !dirExists ==> r == []
    ensures source.Some? && source.value != "" && dirExists ==>
      r == Videos(AllFiles(dir), configured.GetOr(DefaultExtensions))
  {
    if source.None? || source.value == "" {
      return [];
    }
    if !dirExists {
      return [];
    }
    var extensions := if configured.Some? then configured.value else DefaultExtensions;
    var search := new VideoSearch();
    search.SearchDirectory(dir, extensions);
    r := search.files;
  }

  /** With the default list, a file whose extension is ".MKV", ".mkv" or "mkv" is listed. */
  lemma DefaultListMatchesAnyCase(f: FileEntry)
    requires NormalizeExtension(f.extension) == "mkv"
    ensures VideoOf(f) in Videos([f], DefaultExtensions)
  {
    assert [f][..0] == [];
  }
}
