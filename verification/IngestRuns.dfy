/**
 Every history of a spool and its store: files grow, passes run, stop anywhere and run again, and the
 store still ends up holding exactly what the spool says.
 */
module IngestRuns {
  import opened Prelude
  import opened Spool
  import opened RawStore
  import opened Ingest
  import opened IngestLaws

  datatype World = World(t: Tables, files: Files)

  /** A collector appends to a file, or a pass over `order` runs and stops after `k` store steps. */
  datatype Act = Grow(key: SpoolKey, more: File) | Attempt(order: seq<SpoolKey>, k: nat)

  function FileAt(files: Files, key: SpoolKey): File { if key in files then files[key] else [] }

  ghost function Next(parse: Parser, w: World, act: Act): World {
    match act
    case Grow(key, more) => World(w.t, w.files[key := FileAt(w.files, key) + more])
    case Attempt(order, k) =>
      var steps := PassSteps(parse, w.t, w.files, Readable(w.files, order));
      World(DoAll(w.t, steps[..Min(k, |steps|)]), w.files)
  }

  ghost function Run(parse: Parser, acts: seq<Act>): World {
    if acts == [] then World(EMPTY, map[]) else Next(parse, Run(parse, acts[..|acts| - 1]), acts[|acts| - 1])
  }

  /** An offset that splits a file between two lines. */
  predicate Boundary(file: File, offset: nat) { offset <= |file| && (offset > 0 ==> file[offset - 1] == NEWLINE) }

  /** At a boundary, reading the whole file is reading both parts. */
  lemma SplitsAtBoundary(parse: Parser, file: File, offset: nat)
    requires Boundary(file, offset)
    ensures ReadFrom(parse, file, 0) == ReadFrom(parse, file[..offset], 0).Then(ReadFrom(parse, file, offset))
    ensures Consumed(file, 0) == Consumed(file, offset)
  {
    var past := file[..offset];
    assert past + file[offset..] == file;
    AppendResumes(parse, past, file[offset..], 0);
    ConsumesAll(past);
  }

  lemma ConsumesAll(file: File)
    requires Boundary(file, |file|)
    ensures Consumed(file, 0) == |file|
  {
    if file != [] {
      assert file[|file| - 1] == NEWLINE;
    }
  }

  ghost predicate Holds(rows: Rows, es: seq<Event>) { forall e :: e in es ==> e.eventId in rows }

  /** Everything before the stored offset is in the store. */
  ghost predicate Caught(parse: Parser, t: Tables, key: SpoolKey, file: File) {
    && Boundary(file, t.Offset(key))
    && Holds(t.events, ReadFrom(parse, file[..t.Offset(key)], 0).events)
    && Holds(t.opaques, ReadFrom(parse, file[..t.Offset(key)], 0).opaques)
  }

  /** `e` is an event of some complete line of the spool. */
  ghost predicate InSpool(parse: Parser, files: Files, e: Event) {
    exists key :: key in files && e in ReadFrom(parse, files[key], 0).events
  }

  ghost predicate OpaqueInSpool(parse: Parser, files: Files, e: Event) {
    exists key :: key in files && e in ReadFrom(parse, files[key], 0).opaques
  }

  /** Every row is an event of the spool, under its own id. */
  ghost predicate Sourced(parse: Parser, t: Tables, files: Files) {
    && (forall id :: id in t.events ==> t.events[id].eventId == id && InSpool(parse, files, t.events[id]))
    && (forall id :: id in t.opaques ==> t.opaques[id].eventId == id && OpaqueInSpool(parse, files, t.opaques[id]))
  }

  ghost predicate Sound(parse: Parser, t: Tables, files: Files) {
    && (forall key :: Caught(parse, t, key, FileAt(files, key)))
    && Sourced(parse, t, files)
  }

  // ---- growth -----------------------------------------------------------------------------------------------

  lemma GrowKeepsCaught(parse: Parser, t: Tables, key: SpoolKey, file: File, more: File)
    requires Caught(parse, t, key, file)
    ensures Caught(parse, t, key, file + more)
  {
    hide ReadFrom, Holds;
    assert (file + more)[..t.Offset(key)] == file[..t.Offset(key)];
  }

  lemma GrowKeepsSound(parse: Parser, t: Tables, files: Files, key: SpoolKey, more: File)
    requires Sound(parse, t, files)
    ensures Sound(parse, t, files[key := FileAt(files, key) + more])
  {
    var files' := files[key := FileAt(files, key) + more];
    forall k ensures Caught(parse, t, k, FileAt(files', k)) {
      hide Sourced;
      assert Caught(parse, t, k, FileAt(files, k));
      if k == key {
        GrowKeepsCaught(parse, t, k, FileAt(files, k), more);
      }
    }
    hide Caught;
    forall id | id in t.events ensures InSpool(parse, files', t.events[id]) {
      SpoolGrows(parse, files, key, more, t.events[id]);
    }
    forall id | id in t.opaques ensures OpaqueInSpool(parse, files', t.opaques[id]) {
      SpoolGrows(parse, files, key, more, t.opaques[id]);
    }
  }

  lemma SpoolGrows(parse: Parser, files: Files, key: SpoolKey, more: File, e: Event)
    ensures var files' := files[key := FileAt(files, key) + more];
            && (InSpool(parse, files, e) ==> InSpool(parse, files', e))
            && (OpaqueInSpool(parse, files, e) ==> OpaqueInSpool(parse, files', e))
  {
    hide ReadFrom, Consumed;
    var files' := files[key := FileAt(files, key) + more];
    if k :| k in files && e in ReadFrom(parse, files[k], 0).events {
      AppendResumes(parse, FileAt(files, key), more, 0);
      assert e in ReadFrom(parse, files'[k], 0).events;
    }
    if k :| k in files && e in ReadFrom(parse, files[k], 0).opaques {
      AppendResumes(parse, FileAt(files, key), more, 0);
      assert e in ReadFrom(parse, files'[k], 0).opaques;
    }
  }

  // ---- store steps ------------------------------------------------------------------------------------------

  /** Any prefix of one file's steps keeps the store sound. */
  lemma FileKeepsSound(parse: Parser, t: Tables, files: Files, key: SpoolKey, j: nat)
    requires Sound(parse, t, files) && key in files && j <= |FileSteps(parse, t, key, files[key])|
    ensures Sound(parse, DoAll(t, FileSteps(parse, t, key, files[key])[..j]), files)
  {
    hide *;
    var t' := DoAll(t, FileSteps(parse, t, key, files[key])[..j]);
    PrefixIsPartly(parse, t, key, files[key], j);
    CaughtNow(parse, t, files, key);
    FileSourced(parse, t, t', files, key);
    FileCaught(parse, t, t', files, key);
    SoundParts(parse, t', files);
  }

  lemma PrefixIsPartly(parse: Parser, t: Tables, key: SpoolKey, file: File, j: nat)
    requires j <= |FileSteps(parse, t, key, file)|
    ensures Partly(parse, t, DoAll(t, FileSteps(parse, t, key, file)[..j]), key, file)
  {
    hide DoAll, FileSteps, Read, NextOffset, InsertAll;
    FilePrefix(parse, t, key, file, j);
  }

  lemma SoundParts(parse: Parser, t: Tables, files: Files)
    ensures Sound(parse, t, files) <==>
              (forall key :: Caught(parse, t, key, FileAt(files, key))) && Sourced(parse, t, files)
  {
  }

  lemma CaughtNow(parse: Parser, t: Tables, files: Files, key: SpoolKey)
    requires Sound(parse, t, files) && key in files
    ensures Caught(parse, t, key, files[key]) && StartOf(files[key], t.Offset(key)) == t.Offset(key)
    ensures Sourced(parse, t, files) && forall k :: Caught(parse, t, k, FileAt(files, k))
    ensures ReadFrom(parse, files[key], 0) ==
            ReadFrom(parse, files[key][..t.Offset(key)], 0).Then(Read(parse, t, key, files[key]))
  {
    assert Caught(parse, t, key, FileAt(files, key));
    SplitsAtBoundary(parse, files[key], t.Offset(key));
  }

  /** `t'` is `t` with some of what `key`'s file yields inserted, and its offset moved only after all of it. */
  ghost predicate Partly(parse: Parser, t: Tables, t': Tables, key: SpoolKey, file: File) {
    var batch, next := Read(parse, t, key, file), NextOffset(t, key, file);
    && (t'.events == t.events || t'.events == InsertAll(t.events, batch.events))
    && (t'.opaques == t.opaques || t'.opaques == InsertAll(t.opaques, batch.opaques))
    && (t'.offsets == t.offsets || (t'.offsets == t.offsets[key := next] &&
          t'.events == InsertAll(t.events, batch.events) && t'.opaques == InsertAll(t.opaques, batch.opaques)))
  }

  lemma RowsSourced(parse: Parser, t: Tables, files: Files, key: SpoolKey)
    requires Sourced(parse, t, files) && key in files
    requires forall e :: e in Read(parse, t, key, files[key]).events ==> e in ReadFrom(parse, files[key], 0).events
    requires forall e :: e in Read(parse, t, key, files[key]).opaques ==> e in ReadFrom(parse, files[key], 0).opaques
    ensures var batch := Read(parse, t, key, files[key]);
            Sourced(parse, Tables(InsertAll(t.events, batch.events), InsertAll(t.opaques, batch.opaques),
                                   t.offsets), files)
  {
    hide Read, ReadFrom, InsertAll;
    var batch := Read(parse, t, key, files[key]);
    InsertAllMeaning(t.events, batch.events);
    InsertAllMeaning(t.opaques, batch.opaques);
  }

  lemma FileSourced(parse: Parser, t: Tables, t': Tables, files: Files, key: SpoolKey)
    requires Sourced(parse, t, files) && key in files && Partly(parse, t, t', key, files[key])
    requires t.Offset(key) <= |files[key]|
    requires ReadFrom(parse, files[key], 0) ==
             ReadFrom(parse, files[key][..t.Offset(key)], 0).Then(Read(parse, t, key, files[key]))
    ensures Sourced(parse, t', files)
  {
    hide Read, ReadFrom, InsertAll, NextOffset, InSpool, OpaqueInSpool;
    RowsSourced(parse, t, files, key);
  }

  lemma HoldsMore(rows: Rows, es: seq<Event>, added: seq<Event>)
    requires Holds(rows, es)
    ensures Holds(InsertAll(rows, added), es) && Holds(InsertAll(rows, added), es + added)
  {
    InsertAllMeaning(rows, added);
    hide InsertAll;
  }

  lemma FileCaught(parse: Parser, t: Tables, t': Tables, files: Files, key: SpoolKey)
    requires key in files && Partly(parse, t, t', key, files[key])
    requires forall k :: Caught(parse, t, k, FileAt(files, k))
    ensures forall k :: Caught(parse, t', k, FileAt(files, k))
  {
    hide Read, NextOffset, InsertAll, Caught;
    forall k ensures Caught(parse, t', k, FileAt(files, k)) {
      assert Caught(parse, t, k, FileAt(files, k));
      var batch := Read(parse, t, key, files[key]);
      if t'.Offset(k) == t.Offset(k) {
        CaughtMore(parse, t, t', k, FileAt(files, k), batch);
      } else {
        CaughtAhead(parse, t, t', key, files[key]);
      }
    }
  }

  /** More rows, same offset. */
  lemma CaughtMore(parse: Parser, t: Tables, t': Tables, key: SpoolKey, file: File, batch: Batch)
    requires Caught(parse, t, key, file) && t'.Offset(key) == t.Offset(key)
    requires t'.events == t.events || t'.events == InsertAll(t.events, batch.events)
    requires t'.opaques == t.opaques || t'.opaques == InsertAll(t.opaques, batch.opaques)
    ensures Caught(parse, t', key, file)
  {
    hide ReadFrom, InsertAll, Holds;
    var past := ReadFrom(parse, file[..t.Offset(key)], 0);
    HoldsMore(t.events, past.events, batch.events);
    HoldsMore(t.opaques, past.opaques, batch.opaques);
  }

  /** The offset moved to the end of what was read, all of it inserted. */
  lemma CaughtAhead(parse: Parser, t: Tables, t': Tables, key: SpoolKey, file: File)
    requires Caught(parse, t, key, file) && t'.Offset(key) == NextOffset(t, key, file)
    requires t'.events == InsertAll(t.events, Read(parse, t, key, file).events)
    requires t'.opaques == InsertAll(t.opaques, Read(parse, t, key, file).opaques)
    ensures Caught(parse, t', key, file)
  {
    hide ReadFrom, InsertAll, Holds, Consumed;
    var offset, next, batch := t.Offset(key), NextOffset(t, key, file), Read(parse, t, key, file);
    var past := ReadFrom(parse, file[..offset], 0);
    EndsAtBoundary(file, offset);
    SplitsAtBoundary(parse, file, offset);
    SplitsAtBoundary(parse, file, next);
    NothingLeft(parse, file, offset);
    ThenAssociates(ReadFrom(parse, file[..next], 0), NOTHING, NOTHING);
    assert ReadFrom(parse, file[..next], 0) == past.Then(batch);
    HoldsMore(t.events, past.events, batch.events);
    HoldsMore(t.opaques, past.opaques, batch.opaques);
  }

  lemma EndsAtBoundary(file: File, from: nat)
    requires Boundary(file, from)
    ensures Boundary(file, Consumed(file, from))
  {
  }

  // ---- passes and runs ------------------------------------------------------------------------------------------

  /** Any prefix of a pass keeps the store sound. */
  lemma {:induction false} PassKeepsSound(parse: Parser, t: Tables, files: Files, order: seq<SpoolKey>, k: nat)
    requires Sound(parse, t, files) && (forall key :: key in order ==> key in files)
    requires k <= |PassSteps(parse, t, files, order)|
    ensures Sound(parse, DoAll(t, PassSteps(parse, t, files, order)[..k]), files)
  {
    hide Sound, FileSteps;
    var steps := PassSteps(parse, t, files, order);
    if order == [] {
      assert steps[..k] == [];
    } else {
      var n := |order| - 1;
      var before := Pass(parse, t, files, order[..n]);
      var earlier, last := PassSteps(parse, t, files, order[..n]), FileSteps(parse, before, order[n], files[order[n]]);
      assert steps == earlier + last;
      if k <= |earlier| {
        assert steps[..k] == earlier[..k];
        PassKeepsSound(parse, t, files, order[..n], k);
      } else {
        PassKeepsSound(parse, t, files, order[..n], |earlier|);
        assert earlier[..|earlier|] == earlier;
        PassIsItsSteps(parse, t, files, order[..n]);
        assert steps[..k] == earlier + last[..k - |earlier|];
        DoAllAppend(t, earlier, last[..k - |earlier|]);
        FileKeepsSound(parse, before, files, order[n], k - |earlier|);
      }
    }
  }

  lemma {:induction false} RunIsSound(parse: Parser, acts: seq<Act>)
    ensures Sound(parse, Run(parse, acts).t, Run(parse, acts).files)
  {
    if acts == [] {
      NothingYet(parse);
    } else {
      RunIsSound(parse, acts[..|acts| - 1]);
      hide Sound, PassSteps;
      var w := Run(parse, acts[..|acts| - 1]);
      match acts[|acts| - 1]
      case Grow(key, more) => GrowKeepsSound(parse, w.t, w.files, key, more);
      case Attempt(order, k) =>
        var steps := PassSteps(parse, w.t, w.files, Readable(w.files, order));
        PassKeepsSound(parse, w.t, w.files, Readable(w.files, order), Min(k, |steps|));
    }
  }

  lemma NothingYet(parse: Parser)
    ensures Sound(parse, EMPTY, map[])
  {
    var none: File := [];
    forall key ensures Caught(parse, EMPTY, key, none) {
      assert ReadFrom(parse, none, 0) == NOTHING;
      assert none[..0] == none;
    }
  }

  /** The store is exactly the spool: rows, ids and offsets. */
  ghost predicate Complete(parse: Parser, t: Tables, files: Files) {
    && Sourced(parse, t, files)
    && (forall e :: InSpool(parse, files, e) ==> e.eventId in t.events)
    && (forall e :: OpaqueInSpool(parse, files, e) ==> e.eventId in t.opaques)
    && (forall key :: t.Offset(key) == Consumed(FileAt(files, key), 0))
  }

  lemma SettledIsComplete(parse: Parser, t: Tables, files: Files)
    requires Sound(parse, t, files) && forall key :: key in files ==> Settled(parse, t, key, files[key])
    ensures Complete(parse, t, files)
  {
    forall key ensures t.Offset(key) == Consumed(FileAt(files, key), 0) {
      assert Caught(parse, t, key, FileAt(files, key));
      SplitsAtBoundary(parse, FileAt(files, key), t.Offset(key));
    }
    forall key | key in files
      ensures Holds(t.events, ReadFrom(parse, files[key], 0).events)
      ensures Holds(t.opaques, ReadFrom(parse, files[key], 0).opaques)
    {
      SettledHoldsAll(parse, t, key, files[key]);
    }
  }

  lemma SettledHoldsAll(parse: Parser, t: Tables, key: SpoolKey, file: File)
    requires Caught(parse, t, key, file) && Settled(parse, t, key, file)
    ensures Holds(t.events, ReadFrom(parse, file, 0).events) && Holds(t.opaques, ReadFrom(parse, file, 0).opaques)
  {
    hide ReadFrom, Consumed;
    SplitsAtBoundary(parse, file, t.Offset(key));
    ThenAssociates(ReadFrom(parse, file[..t.Offset(key)], 0), NOTHING, NOTHING);
  }

  /**
   Whatever happened before, one pass over every file that has anything left makes the store complete:
   an id is stored exactly when some complete line of the spool carries it, and each offset is just past
   its file's last newline.
   */
  lemma IngestConverges(parse: Parser, acts: seq<Act>, order: seq<SpoolKey>)
    requires forall key :: key in order ==> key in Run(parse, acts).files
    requires var w := Run(parse, acts);
             forall key :: key in w.files && key !in order ==> Settled(parse, w.t, key, w.files[key])
    ensures var w := Run(parse, acts); Complete(parse, Pass(parse, w.t, w.files, order), w.files)
  {
    hide Run, Pass, PassSteps, DoAll, Settled, Sound, Complete;
    var w := Run(parse, acts);
    var steps := PassSteps(parse, w.t, w.files, order);
    RunIsSound(parse, acts);
    PassKeepsSound(parse, w.t, w.files, order, |steps|);
    assert steps[..|steps|] == steps;
    PassIsItsSteps(parse, w.t, w.files, order);
    var t := Pass(parse, w.t, w.files, order);
    PassSettles(parse, w.t, w.files, order);
    forall key | key in w.files ensures Settled(parse, t, key, w.files[key]) {
      if key !in order {
        SettledStays(parse, w.t, w.files, order, key);
      }
    }
    SettledIsComplete(parse, t, w.files);
  }

  /** No two different events of the spool share an id. */
  ghost predicate IdsIdentify(parse: Parser, files: Files) {
    forall e, e' :: InSpool(parse, files, e) && InSpool(parse, files, e') && e.eventId == e'.eventId ==> e == e'
  }

  /** Two complete stores of one spool have the same ids and offsets, and the same rows if ids identify events. */
  lemma CompleteIsUnique(parse: Parser, a: Tables, b: Tables, files: Files)
    requires Complete(parse, a, files) && Complete(parse, b, files)
    ensures a.events.Keys == b.events.Keys && a.opaques.Keys == b.opaques.Keys
    ensures forall key :: a.Offset(key) == b.Offset(key)
    ensures IdsIdentify(parse, files) ==> a.events == b.events
  {
    hide InSpool, OpaqueInSpool;
    forall id ensures id in a.events <==> id in b.events {
    }
    forall id ensures id in a.opaques <==> id in b.opaques {
    }
  }
}
