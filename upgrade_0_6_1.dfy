/** The 0.6.1 upgrade pass (Server/Upgrade/Upgrade_0_6_1.cs): every library file whose
    creation time predates 1900-01-01 gets its creation and last-write times set to now, so
    that it does not look recreated, and is written back. */
module Upgrade061 {
  import opened Common
  import opened Models

  /** A creation time the upgrade repairs. */
  predicate Stale(f: LibraryFile) {
    f.creationTime < Jan1st1900
  }

  /** One file after the pass. */
  function Repaired(f: LibraryFile, now: DateTime): (r: LibraryFile)
    ensures Stale(f) ==> r == f.(creationTime := now, lastWriteTime := now)
    ensures !Stale(f) ==> r == f
  {
    if Stale(f) then f.(creationTime := now, lastWriteTime := now) else f
  }

  /** All files after the pass, in place. */
  function RepairAll(files: seq<LibraryFile>, now: DateTime): (r: seq<LibraryFile>)
    ensures |r| == |files|
    ensures forall i :: 0 <= i < |files| ==> r[i] == Repaired(files[i], now)
  {
    seq(|files|, i requires 0 <= i < |files| => Repaired(files[i], now))
  }

  /** The records written back, in order: the repaired stale files. */
  function Written(files: seq<LibraryFile>, now: DateTime): seq<LibraryFile>
  {
    if files == [] then []
    else
      Written(files[..|files| - 1], now)
        + (if Stale(files[|files| - 1]) then [Repaired(files[|files| - 1], now)] else [])
  }

  method UpdateLibraryFileDates(files: array<LibraryFile>, now: DateTime) returns (written: seq<LibraryFile>)
    modifies files
    ensures files[..] == RepairAll(old(files[..]), now)
    ensures written == Written(old(files[..]), now)
  {
    written := [];
    var i := 0;
    while i < files.Length
      invariant 0 <= i <= files.Length
      invariant files[..i] == RepairAll(old(files[..i]), now)
      invariant files[i..] == old(files[i..])
      invariant written == Written(old(files[..i]), now)
    {
      var lf := files[i];
      ghost var before := old(files[..i + 1]);
      assert before[..i] == old(files[..i]);
      if lf.creationTime < Jan1st1900 {
        lf := lf.(creationTime := now, lastWriteTime := now);
        files[i] := lf;
        written := written + [lf];
      }
      assert files[i + 1..] == old(files[i + 1..]);
      i := i + 1;
    }
    assert files[..i] == files[..];
    assert old(files[..i]) == old(files[..]);
  }

  /** With a clock at or after 1900 no file is stale after the pass. */
  lemma NoStaleFileAfterRepair(files: seq<LibraryFile>, now: DateTime)
    requires now >= Jan1st1900
    ensures forall i :: 0 <= i < |files| ==> !Stale(RepairAll(files, now)[i])
  {
  }

  /** Files dated 1900 or later keep their value. */
  lemma FreshFilesUntouched(files: seq<LibraryFile>, now: DateTime, j: nat)
    requires j < |files| && !Stale(files[j])
    ensures RepairAll(files, now)[j] == files[j]
  {
  }

  /** Exactly the stale files are written, each with both times set to now. */
  lemma {:induction false} WrittenAreRepairedStale(files: seq<LibraryFile>, now: DateTime, x: LibraryFile)
    ensures x in Written(files, now) <==> exists g :: g in files && Stale(g) && Repaired(g, now) == x
  {
    if files != [] {
      var init := files[..|files| - 1];
      WrittenAreRepairedStale(init, now, x);
      assert files == init + [files[|files| - 1]];
    }
  }

  /** One record is written per stale file. */
  lemma {:induction false} WrittenCountsStale(files: seq<LibraryFile>, now: DateTime)
    ensures |Written(files, now)| == |set i | 0 <= i < |files| && Stale(files[i])|
  {
    if files != [] {
      var n := |files| - 1;
      var init := files[..n];
      WrittenCountsStale(init, now);
      var s := set i | 0 <= i < |init| && Stale(init[i]);
      var t := set i | 0 <= i < |files| && Stale(files[i]);
      assert s == set i | 0 <= i < n && Stale(files[i]);
      if Stale(files[n]) {
        assert t == s + {n};
      } else {
        assert t == s;
      }
    }
  }

  /** Running the pass twice (with a clock at or after 1900) changes nothing the second time
      and writes nothing. */
  lemma {:induction false} RepairIsIdempotent(files: seq<LibraryFile>, now: DateTime)
    requires now >= Jan1st1900
    ensures RepairAll(RepairAll(files, now), now) == RepairAll(files, now)
    ensures Written(RepairAll(files, now), now) == []
  {
    var once := RepairAll(files, now);
    NoStaleFileAfterRepair(files, now);
    NothingWrittenWithoutStale(once, now);
  }

  lemma {:induction false} NothingWrittenWithoutStale(files: seq<LibraryFile>, now: DateTime)
    requires forall i :: 0 <= i < |files| ==> !Stale(files[i])
    ensures Written(files, now) == []
  {
    if files != [] {
      NothingWrittenWithoutStale(files[..|files| - 1], now);
    }
  }
}
