/**
 The ingest pass: tail each spool file from its stored offset, insert what it yields, then move the
 offset. A pass is a list of store steps; a crash or an I/O error is a pass that stops after some of
 them.
 */
module Ingest {
  import opened Prelude
  import opened Spool
  import opened RawStore

  /** The spool directory: each file's bytes, by the key its name parses to. */
  type Files = map<SpoolKey, File>

  datatype StoreStep =
    | InsertEvents(es: seq<Event>) | InsertOpaques(es: seq<Event>) | SetOffset(key: SpoolKey, offset: nat)

  ghost function Do(t: Tables, step: StoreStep): Tables {
    match step
    case InsertEvents(es) => t.(events := InsertAll(t.events, es))
    case InsertOpaques(es) => t.(opaques := InsertAll(t.opaques, es))
    case SetOffset(key, offset) => t.(offsets := t.offsets[key := offset])
  }

  ghost function DoAll(t: Tables, steps: seq<StoreStep>): Tables {
    if steps == [] then t else Do(DoAll(t, steps[..|steps| - 1]), steps[|steps| - 1])
  }

  ghost function Read(parse: Parser, t: Tables, key: SpoolKey, file: File): Batch {
    ReadFrom(parse, file, StartOf(file, t.Offset(key)))
  }

  ghost function NextOffset(t: Tables, key: SpoolKey, file: File): nat { Consumed(file, StartOf(file, t.Offset(key))) }

  /** What one file costs: two inserts, and an offset write if the offset moves. */
  ghost function FileSteps(parse: Parser, t: Tables, key: SpoolKey, file: File): seq<StoreStep> {
    var batch := Read(parse, t, key, file);
    [InsertEvents(batch.events), InsertOpaques(batch.opaques)] +
      if NextOffset(t, key, file) != t.Offset(key) then [SetOffset(key, NextOffset(t, key, file))] else []
  }

  ghost function PassSteps(parse: Parser, t: Tables, files: Files, order: seq<SpoolKey>): seq<StoreStep>
    requires forall key :: key in order ==> key in files
  {
    if order == [] then []
    else
      var n := |order| - 1;
      PassSteps(parse, t, files, order[..n]) +
        FileSteps(parse, Pass(parse, t, files, order[..n]), order[n], files[order[n]])
  }

  /** The tables after a whole pass. */
  ghost function Pass(parse: Parser, t: Tables, files: Files, order: seq<SpoolKey>): Tables
    requires forall key :: key in order ==> key in files
  {
    if order == [] then t
    else
      var n := |order| - 1;
      var before := Pass(parse, t, files, order[..n]);
      DoAll(before, FileSteps(parse, before, order[n], files[order[n]]))
  }

  ghost function PassReads(parse: Parser, t: Tables, files: Files, order: seq<SpoolKey>): Batch
    requires forall key :: key in order ==> key in files
  {
    if order == [] then NOTHING
    else
      var n := |order| - 1;
      PassReads(parse, t, files, order[..n]).Then(Read(parse, Pass(parse, t, files, order[..n]),
                                               order[n], files[order[n]]))
  }

  lemma {:induction false} DoAllAppend(t: Tables, a: seq<StoreStep>, b: seq<StoreStep>)
    ensures DoAll(t, a + b) == DoAll(DoAll(t, a), b)
  {
    if b == [] {
      assert a + b == a;
    } else {
      assert (a + b)[..|a + b| - 1] == a + b[..|b| - 1];
      DoAllAppend(t, a, b[..|b| - 1]);
    }
  }

  lemma {:induction false} PassIsItsSteps(parse: Parser, t: Tables, files: Files, order: seq<SpoolKey>)
    requires forall key :: key in order ==> key in files
    ensures Pass(parse, t, files, order) == DoAll(t, PassSteps(parse, t, files, order))
  {
    if order != [] {
      var n := |order| - 1;
      PassIsItsSteps(parse, t, files, order[..n]);
      DoAllAppend(t, PassSteps(parse, t, files, order[..n]),
                  FileSteps(parse, Pass(parse, t, files, order[..n]), order[n], files[order[n]]));
    }
  }

  // ---- the pass itself ----------------------------------------------------------------------------------

  datatype RejectRecord = RejectRecord(origin: SpoolKey, line: nat, byteOffset: nat, reason: string, raw: File)

  datatype FileState = FileState(key: SpoolKey, offset: nat)

  datatype Summary = Summary(ingested: nat, rejected: nat, opaqueCount: nat, events: seq<Event>,
                             rejects: seq<RejectRecord>, fileStates: seq<FileState>)

  ghost function RecordsOf(key: SpoolKey, rejected: seq<RejectedLine>): (r: seq<RejectRecord>)
    ensures |r| == |rejected|
  {
    Mapped(rejected, (r: RejectedLine) => RejectRecord(key, r.lineNumber, r.byteOffset, r.reason, r.line))
  }

  ghost function PassRejects(parse: Parser, t: Tables, files: Files, order: seq<SpoolKey>): seq<RejectRecord>
    requires forall key :: key in order ==> key in files
  {
    if order == [] then []
    else
      var n := |order| - 1;
      PassRejects(parse, t, files, order[..n]) +
        RecordsOf(order[n], Read(parse, Pass(parse, t, files, order[..n]), order[n], files[order[n]]).rejected)
  }

  ghost function PassStates(parse: Parser, t: Tables, files: Files, order: seq<SpoolKey>): seq<FileState>
    requires forall key :: key in order ==> key in files
  {
    if order == [] then []
    else
      var n := |order| - 1;
      PassStates(parse, t, files, order[..n]) +
        [FileState(order[n], NextOffset(Pass(parse, t, files, order[..n]), order[n], files[order[n]]))]
  }

  /** What a pass over `order` that started from `t` reports. */
  ghost predicate Reports(parse: Parser, t: Tables, files: Files, order: seq<SpoolKey>, s: Summary)
    requires forall key :: key in order ==> key in files
  {
    var after := Pass(parse, t, files, order);
    && s.ingested == |after.events| - |t.events|
    && s.opaqueCount == |after.opaques| - |t.opaques|
    && s.events == PassReads(parse, t, files, order).events
    && s.rejects == PassRejects(parse, t, files, order) && s.rejected == |s.rejects|
    && s.fileStates == PassStates(parse, t, files, order)
  }

  /** One file's share of a summary. */
  ghost predicate Adds(before: Summary, s: Summary, t: Tables, after: Tables,
                            batch: Batch, key: SpoolKey, offset: nat) {
    && s.ingested == before.ingested + |after.events| - |t.events|
    && s.opaqueCount == before.opaqueCount + |after.opaques| - |t.opaques|
    && s.events == before.events + batch.events
    && s.rejects == before.rejects + RecordsOf(key, batch.rejected)
    && s.rejected == before.rejected + |batch.rejected|
    && s.fileStates == before.fileStates + [FileState(key, offset)]
  }

  lemma FileDone(parse: Parser, t: Tables, key: SpoolKey, file: File)
    ensures var batch, next := Read(parse, t, key, file), NextOffset(t, key, file);
            var loaded := Tables(InsertAll(t.events, batch.events), InsertAll(t.opaques, batch.opaques), t.offsets);
            DoAll(t, FileSteps(parse, t, key, file)) ==
              if next != t.Offset(key) then loaded.(offsets := t.offsets[key := next]) else loaded
  {
    hide ReadFrom, Consumed, InsertAll;
    var batch, next := Read(parse, t, key, file), NextOffset(t, key, file);
    var inserts := [InsertEvents(batch.events), InsertOpaques(batch.opaques)];
    assert inserts[..1] == [InsertEvents(batch.events)] && inserts[..1][..0] == [];
    var loaded := Tables(InsertAll(t.events, batch.events), InsertAll(t.opaques, batch.opaques), t.offsets);
    assert DoAll(t, inserts[..1]) == t.(events := InsertAll(t.events, batch.events));
    assert DoAll(t, inserts) == loaded;
    assert (inserts + [SetOffset(key, next)])[..2] == inserts;
    assert inserts + [] == inserts;
  }

  lemma OneMoreFile(parse: Parser, t: Tables, files: Files, order: seq<SpoolKey>, i: nat, before: Summary, s: Summary)
    requires i < |order| && forall key :: key in order[..i + 1] ==> key in files
    requires var mid := Pass(parse, t, files, order[..i]);
             && Reports(parse, t, files, order[..i], before)
             && Adds(before, s, mid, Pass(parse, t, files, order[..i + 1]),
                     Read(parse, mid, order[i], files[order[i]]), order[i], NextOffset(mid, order[i], files[order[i]]))
    ensures Reports(parse, t, files, order[..i + 1], s)
  {
    hide Pass, Read, NextOffset, RecordsOf;
    Prefix(order, i);
  }

  /** Tails one file, stores what it yields, and moves its offset last. */
  method IngestFile(parse: Parser, store: Store, key: SpoolKey, file: File, before: Summary) returns (s: Summary)
    modifies store
    ensures store.Contents() == DoAll(old(store.Contents()), FileSteps(parse, old(store.Contents()), key, file))
    ensures Adds(before, s, old(store.Contents()), store.Contents(), Read(parse, old(store.Contents()), key, file), key,
                 NextOffset(old(store.Contents()), key, file))
  {
    hide ReadFrom, Consumed, InsertAll, DoAll, FileSteps, RecordsOf;
    ghost var t := store.Contents();
    FileDone(parse, t, key, file);
    var offset := store.GetOffset(key);
    var result := Tail(parse, file, offset);
    var inserted := store.InsertEvents(result.batch.events);
    var opaqueInserted := store.InsertOpaqueEvents(result.batch.opaques);
    var rejects := RejectRecords(key, result.batch.rejected);
    if result.newOffset != offset {
      store.SetOffset(key, result.newOffset);
    }
    InsertsGrow(t.events, result.batch.events);
    InsertsGrow(t.opaques, result.batch.opaques);
    s := Summary(before.ingested + inserted, before.rejected + |result.batch.rejected|,
                 before.opaqueCount + opaqueInserted,
                 before.events + result.batch.events, before.rejects + rejects,
                 before.fileStates + [FileState(key, result.newOffset)]);
  }

  lemma {:induction false} InsertsGrow(rows: Rows, es: seq<Event>)
    ensures |InsertAll(rows, es)| >= |rows|
  {
    if es != [] {
      InsertsGrow(rows, es[..|es| - 1]);
    }
  }

  method RejectRecords(key: SpoolKey, rejected: seq<RejectedLine>) returns (records: seq<RejectRecord>)
    ensures records == RecordsOf(key, rejected) && |records| == |rejected|
  {
    records := [];
    for i := 0 to |rejected|
      invariant records == RecordsOf(key, rejected[..i])
    {
      Prefix(rejected, i);
      var r := rejected[i];
      records := records + [RejectRecord(key, r.lineNumber, r.byteOffset, r.reason, r.line)];
    }
    assert rejected[..|rejected|] == rejected;
  }

  /** The keys of `order` up to the first whose file cannot be read. */
  ghost function Readable(files: Files, order: seq<SpoolKey>): (r: seq<SpoolKey>)
    ensures r <= order && forall key :: key in r ==> key in files
    ensures |r| < |order| ==> order[|r|] !in files
  {
    if order == [] then []
    else
      var before := Readable(files, order[..|order| - 1]);
      if |before| == |order| - 1 && order[|order| - 1] in files then order else before
  }

  /**
   Ingests the files of `order` in turn. A file that has gone missing stops the pass with the store as
   the files before it left it.
   */
  method IngestFiles(parse: Parser, store: Store, files: Files, order: seq<SpoolKey>) returns (r: Option<Summary>)
    modifies store
    ensures store.Contents() == Pass(parse, old(store.Contents()), files, Readable(files, order))
    ensures r.None? <==> exists key :: key in order && key !in files
    ensures r.Some? ==> Readable(files, order) == order && Reports(parse, old(store.Contents()), files, order, r.value)
  {
    var s := Summary(0, 0, 0, [], [], []);
    ghost var t := store.Contents();
    hide Reports, Adds, Readable, DoAll, FileSteps, Read, NextOffset;
    NothingReported(parse, t, files);
    assert order[..0] == [];
    for i := 0 to |order|
      invariant forall key :: key in order[..i] ==> key in files
      invariant store.Contents() == Pass(parse, t, files, order[..i])
      invariant Reports(parse, t, files, order[..i], s)
    {
      if order[i] !in files {
        ReadableStops(files, order, i);
        assert order[i] in order;
        return None;
      }
      Prefix(order, i);
      assert order[..i + 1] == order[..i] + [order[i]];
      ghost var before := s;
      s := IngestFile(parse, store, order[i], files[order[i]], s);
      OneMoreFile(parse, t, files, order, i, before, s);
    }
    assert order[..|order|] == order;
    ReadableAll(files, order);
    r := Some(s);
  }

  lemma NothingReported(parse: Parser, t: Tables, files: Files)
    ensures Reports(parse, t, files, [], Summary(0, 0, 0, [], [], []))
  {
  }

  lemma {:induction false} ReadableStops(files: Files, order: seq<SpoolKey>, i: nat)
    requires i < |order| && order[i] !in files && forall key :: key in order[..i] ==> key in files
    ensures Readable(files, order) == order[..i]
  {
    var n := |order| - 1;
    if i == n {
      ReadableAll(files, order[..n]);
    } else {
      assert order[..n][..i] == order[..i];
      ReadableStops(files, order[..n], i);
    }
  }

  lemma {:induction false} ReadableAll(files: Files, order: seq<SpoolKey>)
    requires forall key :: key in order ==> key in files
    ensures Readable(files, order) == order
  {
    if order != [] {
      ReadableAll(files, order[..|order| - 1]);
    }
  }
}
