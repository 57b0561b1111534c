/** The flow worker (Server/Workers/FlowWorker.cs): a single-flight claim on one file
    (Process) and the run that resolves the claimed library's flow, writes the file's record
    and hands the file to the executor (Execute). The flow lookup and the file's existence
    and times are parameters; the executor itself is not part of this model. */
module FlowWorkers {
  import opened Common

  /** The part of a library the worker reads: the uid of its flow (0 is Guid.Empty). */
  datatype FlowLibrary = FlowLibrary(name: string, flow: nat)

  /** The library-file record this worker writes; uid 0 means "not stored". */
  datatype FlowRecord = FlowRecord(uid: nat, name: string, flowName: string, dateCreated: DateTime, dateModified: DateTime)

  /** What a run of Execute ended with. */
  datatype ExecuteOutcome =
    | Idle                                  // nothing claimed
    | Faulted                               // the flow is missing: flow.Name throws after the reset
    | Dispatched(record: FlowRecord, flowName: string)

  /** DbHelper.Single by name: the first record with that name, or a fresh record (uid 0). */
  function SingleByName(records: seq<FlowRecord>, name: string): (r: FlowRecord)
    ensures r.uid != 0 ==> r in records && r.name == name
    ensures r.uid == 0 <==> forall x :: x in records ==> x.name != name || x.uid == 0
    ensures forall j :: 0 <= j < |records| && records[j].name == name && records[j].uid != 0 ==> r.uid != 0
  {
    if records == [] then FlowRecord(0, "", "", 0, 0)
    else if records[0].name == name && records[0].uid != 0 then records[0]
    else SingleByName(records[1..], name)
  }

  /** Record i carries uid i + 1. */
  predicate UidsArePositions(records: seq<FlowRecord>) {
    forall i :: 0 <= i < |records| ==> records[i].uid == i + 1
  }

  predicate UniqueNames(records: seq<FlowRecord>) {
    forall i, j :: 0 <= i < j < |records| ==> records[i].name != records[j].name
  }

  /** The store after Execute's write: a record with uid 0 is inserted under the next uid,
      any other overwrites the record at its uid. */
  function Upsert(records: seq<FlowRecord>, r: FlowRecord): seq<FlowRecord>
  {
    if r.uid == 0 then records + [r.(uid := |records| + 1)]
    else if r.uid <= |records| then records[r.uid - 1 := r]
    else records
  }

  /** The record Execute writes for a file: the stored one with flow name and dates
      overwritten, or a new one carrying the name. */
  function StampedRecord(records: seq<FlowRecord>, name: string, flowName: string,
                         created: DateTime, modified: DateTime): FlowRecord
  {
    var stored := SingleByName(records, name);
    if stored.uid == 0 then FlowRecord(0, name, flowName, created, modified)
    else stored.(flowName := flowName, dateCreated := created, dateModified := modified)
  }

  /** After the write the store holds one record for the file, carrying the new flow name
      and dates; it is new exactly when none was stored; every other record is unchanged. */
  lemma {:induction false} StampedWriteIsUpsert(records: seq<FlowRecord>, name: string, flowName: string,
                                                created: DateTime, modified: DateTime)
    requires UidsArePositions(records) && UniqueNames(records)
    ensures var after := Upsert(records, StampedRecord(records, name, flowName, created, modified));
      && UidsArePositions(after) && UniqueNames(after)
      && (|after| == |records| + 1 <==> forall x :: x in records ==> x.name != name)
      && (|after| == |records| || |after| == |records| + 1)
      && (forall j :: 0 <= j < |records| && records[j].name != name ==> after[j] == records[j])
      && var w := SingleByName(after, name);
         w.uid != 0 && w.name == name && w.flowName == flowName && w.dateCreated == created && w.dateModified == modified
  {
    var stored := SingleByName(records, name);
    if stored.uid == 0 {
      assert forall x :: x in records ==> x.name != name by {
        forall x | x in records ensures x.name != name {
          var j :| 0 <= j < |records| && records[j] == x;
          assert x.uid == j + 1;
        }
      }
      InsertFresh(records, FlowRecord(|records| + 1, name, flowName, created, modified));
    } else {
      var j :| 0 <= j < |records| && records[j] == stored;
      assert stored.uid == j + 1;
      OverwriteAt(records, j, stored.(flowName := flowName, dateCreated := created, dateModified := modified));
    }
  }

  /** Appending a record for a new name under the next uid. */
  lemma InsertFresh(records: seq<FlowRecord>, r: FlowRecord)
    requires UidsArePositions(records) && UniqueNames(records)
    requires r.uid == |records| + 1 && forall x :: x in records ==> x.name != r.name
    ensures UidsArePositions(records + [r]) && UniqueNames(records + [r])
    ensures SingleByName(records + [r], r.name) == r
  {
    assert forall i :: 0 <= i < |records| ==> records[i] in records;
    SingleOfAppended(records, r);
  }

  /** Overwriting the record at position j with one of the same name and uid. */
  lemma OverwriteAt(records: seq<FlowRecord>, j: nat, r: FlowRecord)
    requires UidsArePositions(records) && UniqueNames(records)
    requires j < |records| && r.uid == j + 1 && r.name == records[j].name
    ensures UidsArePositions(records[j := r]) && UniqueNames(records[j := r])
    ensures SingleByName(records[j := r], r.name) == r
  {
    SingleOfUnique(records[j := r], j);
  }

  /** In a store with unique names and positional uids, lookup finds the record at its
      position. */
  lemma {:induction false} SingleOfUnique(records: seq<FlowRecord>, j: nat)
    requires UidsArePositions(records) && UniqueNames(records) && j < |records|
    ensures SingleByName(records, records[j].name) == records[j]
  {
    if j > 0 {
      assert records[0].name != records[j].name;
      var rest := records[1..];
      assert forall i :: 0 <= i < |rest| ==> rest[i].uid == i + 2;
      SingleSkipsHead(records, records[j].name);
      assert rest[j - 1] == records[j];
      SingleOfShifted(rest, j - 1);
    }
  }

  /** The lookup in a tail whose uids are shifted by one. */
  lemma {:induction false} SingleOfShifted(records: seq<FlowRecord>, j: nat)
    requires forall i :: 0 <= i < |records| ==> records[i].uid >= 1
    requires UniqueNames(records) && j < |records|
    ensures SingleByName(records, records[j].name) == records[j]
  {
    if j > 0 {
      assert records[0].name != records[j].name;
      assert records[1..][j - 1] == records[j];
      SingleOfShifted(records[1..], j - 1);
    }
  }

  lemma SingleSkipsHead(records: seq<FlowRecord>, name: string)
    requires records != [] && records[0].name != name
    ensures SingleByName(records, name) == SingleByName(records[1..], name)
  {
  }

  /** Lookup of the name of a record appended to a store that did not hold that name. */
  lemma {:induction false} SingleOfAppended(records: seq<FlowRecord>, r: FlowRecord)
    requires r.uid != 0
    requires forall x :: x in records ==> x.name != r.name
    ensures SingleByName(records + [r], r.name) == r
  {
    if records != [] {
      assert (records + [r])[1..] == records[1..] + [r];
      SingleOfAppended(records[1..], r);
    } else {
      assert [r][1..] == [];
    }
  }

  class FlowRecordStore {
    var records: seq<FlowRecord>

    ghost predicate Valid()
      reads this
    {
      UidsArePositions(records) && UniqueNames(records)
    }

    constructor ()
      ensures Valid() && records == []
    {
      records := [];
    }

    /** DbHelper.Update: insert a fresh record, overwrite a stored one. */
    method Update(r: FlowRecord) returns (written: FlowRecord)
      modifies this
      ensures records == Upsert(old(records), r)
      ensures written == (if r.uid == 0 then r.(uid := |old(records)| + 1) else r)
    {
      if r.uid == 0 {
        written := r.(uid := |records| + 1);
        records := records + [written];
      } else {
        written := r;
        if r.uid <= |records| {
          records := records[r.uid - 1 := r];
        }
      }
    }
  }

  class FlowWorker {
    var processing: bool
    /** The claimed file; "" when nothing is claimed (null is modelled as ""). */
    var currentFile: string
    var library: Option<FlowLibrary>
    /** Worker.Trigger was called: a run of Execute is due. */
    var triggered: bool

    /** A claim holds a library with a flow; an unclaimed worker holds no file. */
    ghost predicate Valid()
      reads this
    {
      && (processing <==> library.Some?)
      && (library.Some? ==> library.value.flow != 0)
      && (currentFile != "" ==> processing)
    }

    constructor ()
      ensures Valid()
      ensures !processing && currentFile == "" && library == None && !triggered
    {
      processing := false;
      currentFile := "";
      library := None;
      triggered := false;
    }

    /** Claims a file for a library; refused while a claim is held or when the library is
        null or has no flow. */
    method Process(lib: Option<FlowLibrary>, file: string) returns (accepted: bool)
      requires Valid()
      modifies this
      ensures Valid()
      ensures accepted <==> !old(processing) && lib.Some? && lib.value.flow != 0
      ensures !accepted ==>
        processing == old(processing) && currentFile == old(currentFile) && library == old(library)
        && triggered == old(triggered)
      ensures accepted ==> processing && currentFile == file && library == lib && triggered
    {
      if processing || lib.None? || lib.value.flow == 0 {
        return false;
      }
      currentFile := file;
      library := lib;
      processing := true;
      triggered := true;
      return true;
    }

    /** Runs the claimed file. A missing file or flow clears the claim but the run goes on:
        with a missing flow the next use of the flow throws; with a missing file the record
        is still written and the file is still dispatched. Nothing here ends a claim after a
        dispatched run. */
    method Execute(db: FlowRecordStore, fileExists: bool, created: DateTime, modified: DateTime,
                   flows: map<nat, string>) returns (outcome: ExecuteOutcome)
      requires Valid() && db.Valid()
      modifies this, db
      ensures Valid() && db.Valid()
      ensures triggered == old(triggered)
      ensures old(currentFile) == "" <==> outcome == Idle
      ensures old(currentFile) == "" ==>
        processing == old(processing) && library == old(library) && currentFile == "" && db.records == old(db.records)
      ensures old(currentFile) != "" && (!fileExists || old(library).value.flow !in flows) ==>
        !processing && currentFile == "" && library == None
      ensures old(currentFile) != "" && fileExists && old(library).value.flow in flows ==>
        processing == old(processing) && currentFile == old(currentFile) && library == old(library)
      ensures old(currentFile) != "" && old(library).value.flow !in flows ==>
        outcome == Faulted && db.records == old(db.records)
      ensures old(currentFile) != "" && old(library).value.flow in flows ==>
        var flowName := flows[old(library).value.flow];
        var r := StampedRecord(old(db.records), old(currentFile), flowName, created, modified);
        && db.records == Upsert(old(db.records), r)
        && outcome == Dispatched(SingleByName(db.records, old(currentFile)), flowName)
    {
      if currentFile == "" {
        return Idle;
      }
      var file := currentFile;
      var flowUid := library.value.flow;
      var flow: Option<string> := if flowUid in flows then Some(flows[flowUid]) else None;
      if !fileExists || flow.None? {
        processing := false;
        currentFile := "";
        library := None;
      }

      var libraryFile := SingleByName(db.records, file);
      if flow.None? {
        // flow.Name on a null flow: the run ends with a NullReferenceException
        return Faulted;
      }
      StampedWriteIsUpsert(db.records, file, flow.value, created, modified);
      if libraryFile.uid == 0 {
        libraryFile := db.Update(FlowRecord(0, file, flow.value, created, modified));
      } else {
        libraryFile := libraryFile.(flowName := flow.value, dateCreated := created, dateModified := modified);
        var written := db.Update(libraryFile);
      }
      // the executor runs the flow on the file; FlowExecutor is not part of this model
      return Dispatched(libraryFile, flow.value);
    }
  }
}
