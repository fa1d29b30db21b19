/**
 Why ingest may be interrupted and repeated at will: a retried pass ends where an uninterrupted one
 would have, and any history of appends, crashes and passes ends with the store holding exactly the
 events of the spool's complete lines.
 */
module IngestLaws {
  import opened Prelude
  import opened Spool
  import opened RawStore
  import opened Ingest

  /** There is nothing left to read in `file`. */
  ghost predicate Settled(parse: Parser, t: Tables, key: SpoolKey, file: File) {
    var offset := t.Offset(key);
    offset <= |file| && ReadFrom(parse, file, offset) == NOTHING && Consumed(file, offset) == offset
  }

  ghost predicate AllSettled(parse: Parser, t: Tables, files: Files, order: seq<SpoolKey>)
    requires forall key :: key in order ==> key in files
  {
    forall key :: key in order ==> Settled(parse, t, key, files[key])
  }

  lemma FileSettles(parse: Parser, t: Tables, key: SpoolKey, file: File)
    ensures Settled(parse, DoAll(t, FileSteps(parse, t, key, file)), key, file)
  {
    FileDone(parse, t, key, file);
    NothingLeft(parse, file, StartOf(file, t.Offset(key)));
    hide DoAll, FileSteps, ReadFrom, Consumed, InsertAll;
  }

  lemma SettledIsDone(parse: Parser, t: Tables, key: SpoolKey, file: File)
    requires Settled(parse, t, key, file)
    ensures DoAll(t, FileSteps(parse, t, key, file)) == t && Read(parse, t, key, file) == NOTHING
    ensures NextOffset(t, key, file) == t.Offset(key)
  {
    FileDone(parse, t, key, file);
    hide DoAll, FileSteps, ReadFrom, Consumed;
  }

  /** The states a crash inside one file can leave. */
  lemma FilePrefix(parse: Parser, t: Tables, key: SpoolKey, file: File, j: nat)
    requires j <= |FileSteps(parse, t, key, file)|
    ensures var batch, next := Read(parse, t, key, file), NextOffset(t, key, file);
            var t' := DoAll(t, FileSteps(parse, t, key, file)[..j]);
            && t'.events == (if j >= 1 then InsertAll(t.events, batch.events) else t.events)
            && t'.opaques == (if j >= 2 then InsertAll(t.opaques, batch.opaques) else t.opaques)
            && t'.offsets == (if j >= 3 then t.offsets[key := next] else t.offsets)
            && (j >= 3 ==> next != t.Offset(key))
  {
    hide ReadFrom, Consumed, InsertAll, Read, NextOffset;
    var steps := FileSteps(parse, t, key, file);
    if j > 0 {
      FilePrefix(parse, t, key, file, j - 1);
      assert steps[..j][..j - 1] == steps[..j - 1];
    }
  }

  /** Retrying a file after a crash inside it ends as if there had been no crash. */
  lemma FileRetry(parse: Parser, t: Tables, key: SpoolKey, file: File, j: nat)
    requires j <= |FileSteps(parse, t, key, file)|
    ensures var t' := DoAll(t, FileSteps(parse, t, key, file)[..j]);
            DoAll(t', FileSteps(parse, t', key, file)) == DoAll(t, FileSteps(parse, t, key, file))
  {
    var steps := FileSteps(parse, t, key, file);
    var t' := DoAll(t, steps[..j]);
    if j == |steps| {
      assert steps[..j] == steps;
      FileSettles(parse, t, key, file);
      SettledIsDone(parse, t', key, file);
    } else {
      FilePrefix(parse, t, key, file, j);
      var batch := Read(parse, t, key, file);
      hide DoAll, InsertAll, ReadFrom, Consumed;
      FileDone(parse, t, key, file);
      FileDone(parse, t', key, file);
      assert t'.Offset(key) == t.Offset(key);
      InsertTwice(t.events, batch.events);
      InsertTwice(t.opaques, batch.opaques);
    }
  }

  lemma OtherOffsetsStay(parse: Parser, t: Tables, key: SpoolKey, file: File, j: nat, other: SpoolKey)
    requires j <= |FileSteps(parse, t, key, file)| && other != key
    ensures DoAll(t, FileSteps(parse, t, key, file)[..j]).Offset(other) == t.Offset(other)
  {
    FilePrefix(parse, t, key, file, j);
  }

  lemma WholeFile(parse: Parser, t: Tables, key: SpoolKey, file: File)
    ensures FileSteps(parse, t, key, file)[..|FileSteps(parse, t, key, file)|] == FileSteps(parse, t, key, file)
  {
  }

  lemma OneMoreSettles(parse: Parser, t: Tables, files: Files, order: seq<SpoolKey>, last: SpoolKey)
    requires last in files && (forall key :: key in order ==> key in files) && AllSettled(parse, t, files, order)
    ensures AllSettled(parse, DoAll(t, FileSteps(parse, t, last, files[last])), files, order + [last])
  {
    FileSettles(parse, t, last, files[last]);
    WholeFile(parse, t, last, files[last]);
    hide DoAll, FileSteps, ReadFrom, Consumed;
    var after := DoAll(t, FileSteps(parse, t, last, files[last]));
    forall key | key in order + [last] ensures Settled(parse, after, key, files[key]) {
      if key != last {
        assert key in order;
        OtherOffsetsStay(parse, t, last, files[last], |FileSteps(parse, t, last, files[last])|, key);
      }
    }
  }

  lemma {:induction false} PassSettles(parse: Parser, t: Tables, files: Files, order: seq<SpoolKey>)
    requires forall key :: key in order ==> key in files
    ensures AllSettled(parse, Pass(parse, t, files, order), files, order)
  {
    hide DoAll, FileSteps, Settled;
    if order != [] {
      var n := |order| - 1;
      assert order == order[..n] + [order[n]];
      PassSettles(parse, t, files, order[..n]);
      hide AllSettled;
      OneMoreSettles(parse, Pass(parse, t, files, order[..n]), files, order[..n], order[n]);
    }
  }

  /** The offset a pass reports for a file is the one it leaves stored. */
  lemma {:induction false} StatesAreStored(parse: Parser, t: Tables, files: Files, order: seq<SpoolKey>, i: nat)
    requires NoDuplicates(order) && i < |order| && forall key :: key in order ==> key in files
    ensures |PassStates(parse, t, files, order)| == |order|
    ensures PassStates(parse, t, files, order)[i] == FileState(order[i], Pass(parse, t, files, order).Offset(order[i]))
  {
    var n := |order| - 1;
    var before := Pass(parse, t, files, order[..n]);
    StatesCount(parse, t, files, order[..n]);
    LastOffset(parse, before, order[n], files[order[n]]);
    hide DoAll, FileSteps, NextOffset;
    if i < n {
      StatesAreStored(parse, t, files, order[..n], i);
      OffsetStays(parse, before, order[n], files[order[n]], order[i]);
    }
  }

  lemma LastOffset(parse: Parser, t: Tables, key: SpoolKey, file: File)
    ensures DoAll(t, FileSteps(parse, t, key, file)).Offset(key) == NextOffset(t, key, file)
  {
    FileDone(parse, t, key, file);
    hide DoAll, FileSteps, NextOffset, InsertAll;
  }

  lemma OffsetStays(parse: Parser, t: Tables, key: SpoolKey, file: File, other: SpoolKey)
    requires other != key
    ensures DoAll(t, FileSteps(parse, t, key, file)).Offset(other) == t.Offset(other)
  {
    FileDone(parse, t, key, file);
    hide DoAll, FileSteps, NextOffset, InsertAll;
  }

  lemma {:induction false} StatesCount(parse: Parser, t: Tables, files: Files, order: seq<SpoolKey>)
    requires forall key :: key in order ==> key in files
    ensures |PassStates(parse, t, files, order)| == |order|
  {
    if order != [] {
      StatesCount(parse, t, files, order[..|order| - 1]);
      hide NextOffset, Pass;
    }
  }

  /** The line a reject record holds, found again in its file by its offset, and numbered by the lines before. */
  ghost predicate Found(parse: Parser, files: Files, r: RejectRecord) {
    && r.origin in files && r.byteOffset + |r.raw| <= |files[r.origin]|
    && r.raw == files[r.origin][r.byteOffset..r.byteOffset + |r.raw|] && parse(r.raw) == Refused(r.reason)
    && r.line == 1 + Newlines(files[r.origin][..r.byteOffset])
  }

  /** Every reject a pass reports can be found again in the file it names. */
  lemma {:induction false} RejectsAreFound(parse: Parser, t: Tables, files: Files, order: seq<SpoolKey>,
                                           r: RejectRecord)
    requires forall key :: key in order ==> key in files
    requires r in PassRejects(parse, t, files, order)
    ensures Found(parse, files, r)
  {
    hide Found, ReadFrom, StartOf, Pass;
    var n := |order| - 1;
    if r in PassRejects(parse, t, files, order[..n]) {
      RejectsAreFound(parse, t, files, order[..n], r);
    } else {
      FileRejectFound(parse, Pass(parse, t, files, order[..n]), files, order[n], r);
    }
  }

  lemma FileRejectFound(parse: Parser, t: Tables, files: Files, key: SpoolKey, r: RejectRecord)
    requires key in files && r in RecordsOf(key, Read(parse, t, key, files[key]).rejected)
    ensures Found(parse, files, r)
  {
    var rejected := Read(parse, t, key, files[key]).rejected;
    var i :| 0 <= i < |rejected| && RecordsOf(key, rejected)[i] == r;
    RejectsLocate(parse, files[key], StartOf(files[key], t.Offset(key)), rejected[i]);
    hide ReadFrom, Newlines;
  }

  /** A pass over files with nothing left changes nothing and reports nothing. */
  lemma {:induction false} PassOverSettled(parse: Parser, t: Tables, files: Files, order: seq<SpoolKey>)
    requires forall key :: key in order ==> key in files
    requires AllSettled(parse, t, files, order)
    ensures Pass(parse, t, files, order) == t && PassReads(parse, t, files, order) == NOTHING
    ensures PassRejects(parse, t, files, order) == []
  {
    if order != [] {
      var n := |order| - 1;
      hide DoAll, FileSteps, ReadFrom, Consumed, Settled;
      assert forall key :: key in order[..n] ==> key in order;
      PassOverSettled(parse, t, files, order[..n]);
      SettledIsDone(parse, t, order[n], files[order[n]]);
    }
  }

  /** Two passes in a row: the second inserts nothing and rejects nothing. */
  lemma SecondPassIsIdle(parse: Parser, t: Tables, files: Files, order: seq<SpoolKey>, s: Summary)
    requires forall key :: key in order ==> key in files
    requires Reports(parse, Pass(parse, t, files, order), files, order, s)
    ensures Pass(parse, Pass(parse, t, files, order), files, order) == Pass(parse, t, files, order)
    ensures s.ingested == 0 && s.opaqueCount == 0 && s.rejected == 0 && s.events == [] && s.rejects == []
  {
    hide Pass, PassReads, PassRejects, AllSettled;
    PassSettles(parse, t, files, order);
    PassOverSettled(parse, Pass(parse, t, files, order), files, order);
  }

  /** A pass cut short after any of its store steps, then run again, leaves the same rows and offsets. */
  lemma {:induction false} CrashLeavesNoTrace(parse: Parser, t: Tables, files: Files, order: seq<SpoolKey>, k: nat)
    requires NoDuplicates(order) && forall key :: key in order ==> key in files
    requires k <= |PassSteps(parse, t, files, order)|
    ensures Pass(parse, DoAll(t, PassSteps(parse, t, files, order)[..k]), files, order) == Pass(parse, t, files, order)
  {
    var steps := PassSteps(parse, t, files, order);
    if order == [] {
      assert steps[..k] == [];
    } else {
      var n := |order| - 1;
      var key, before := order[n], Pass(parse, t, files, order[..n]);
      var earlier, last := PassSteps(parse, t, files, order[..n]), FileSteps(parse, before, key, files[key]);
      assert steps == earlier + last;
      var t' := DoAll(t, steps[..k]);
      if k <= |earlier| {
        assert steps[..k] == earlier[..k];
        CrashLeavesNoTrace(parse, t, files, order[..n], k);
      } else {
        var j := k - |earlier|;
        assert steps[..k] == earlier + last[..j];
        DoAllAppend(t, earlier, last[..j]);
        PassIsItsSteps(parse, t, files, order[..n]);
        assert t' == DoAll(before, last[..j]);
        hide Pass, PassSteps, FileSteps, DoAll;
        CrashInLast(parse, t, files, order, j);
      }
    }
  }

  /** The same for a crash during the last file's steps. */
  lemma CrashInLast(parse: Parser, t: Tables, files: Files, order: seq<SpoolKey>, j: nat)
    requires order != [] && NoDuplicates(order) && forall key :: key in order ==> key in files
    requires var n := |order| - 1; j <= |FileSteps(parse, Pass(parse, t, files, order[..n]), order[n], files[order[n]])|
    ensures var n := |order| - 1;
            var before := Pass(parse, t, files, order[..n]);
            Pass(parse, DoAll(before, FileSteps(parse, before, order[n], files[order[n]])[..j]), files, order)
            == Pass(parse, t, files, order)
  {
    var n := |order| - 1;
    var key, before := order[n], Pass(parse, t, files, order[..n]);
    PassSettles(parse, t, files, order[..n]);
    StillSettled(parse, before, files, order, j);
    PassOverSettled(parse, DoAll(before, FileSteps(parse, before, key, files[key])[..j]), files, order[..n]);
    FileRetry(parse, before, key, files[key], j);
    hide FileSteps, DoAll;
  }

  lemma StillSettled(parse: Parser, before: Tables, files: Files, order: seq<SpoolKey>, j: nat)
    requires order != [] && NoDuplicates(order) && forall key :: key in order ==> key in files
    requires var key := order[|order| - 1]; j <= |FileSteps(parse, before, key, files[key])|
    requires AllSettled(parse, before, files, order[..|order| - 1])
    ensures var key := order[|order| - 1];
            AllSettled(parse, DoAll(before, FileSteps(parse, before, key, files[key])[..j]),
                       files, order[..|order| - 1])
  {
    var n := |order| - 1;
    hide DoAll, FileSteps, ReadFrom, Consumed;
    forall key | key in order[..n]
      ensures Settled(parse, DoAll(before, FileSteps(parse, before, order[n], files[order[n]])[..j]), key, files[key])
    {
      OtherOffsetsStay(parse, before, order[n], files[order[n]], j, key);
    }
  }

  // ---- targeted passes -----------------------------------------------------------------------------------

  /** A pass may leave out any file that has nothing left: the notified files are enough. */
  lemma {:induction false} UnchangedFilesMayBeSkipped(parse: Parser, t: Tables, files: Files, order: seq<SpoolKey>,
                                                   paths: set<SpoolKey>)
    requires forall key :: key in order ==> key in files
    requires forall key :: key in order && key !in paths ==> Settled(parse, t, key, files[key])
    ensures var some := Filter(order, (key: SpoolKey) => key in paths);
            && (forall key :: key in some ==> key in files)
            && Pass(parse, t, files, some) == Pass(parse, t, files, order)
  {
    if order != [] {
      var n := |order| - 1;
      var key, dirty := order[n], (key: SpoolKey) => key in paths;
      hide DoAll, FileSteps, ReadFrom, Consumed, Settled;
      assert forall k :: k in order[..n] ==> k in order;
      UnchangedFilesMayBeSkipped(parse, t, files, order[..n], paths);
      var before, some := Pass(parse, t, files, order[..n]), Filter(order[..n], dirty);
      if key in paths {
        assert (some + [key])[..|some|] == some;
        assert Filter(order, dirty) == some + [key];
      } else {
        assert Filter(order, dirty) == some;
        SettledStays(parse, t, files, order[..n], key);
        SettledIsDone(parse, before, key, files[key]);
      }
    }
  }

  lemma {:induction false} SettledStays(parse: Parser, t: Tables, files: Files, order: seq<SpoolKey>, key: SpoolKey)
    requires forall k :: k in order ==> k in files
    requires key in files && Settled(parse, t, key, files[key])
    ensures Settled(parse, Pass(parse, t, files, order), key, files[key])
  {
    if order != [] {
      var n := |order| - 1;
      hide DoAll, FileSteps, ReadFrom, Consumed;
      assert forall k :: k in order[..n] ==> k in order;
      SettledStays(parse, t, files, order[..n], key);
      var before, last := Pass(parse, t, files, order[..n]), order[n];
      if last == key {
        SettledIsDone(parse, before, key, files[key]);
      } else {
        WholeFile(parse, before, last, files[last]);
        OtherOffsetsStay(parse, before, last, files[last], |FileSteps(parse, before, last, files[last])|, key);
      }
    }
  }
}
