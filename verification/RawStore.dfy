/**
 The raw tables: events and opaque events keyed by event id, first writer wins, and the offset up to
 which each spool file has been read. A write call is one transaction.
 */
module RawStore {
  import opened Prelude
  import opened Spool

  type Rows = map<string, Event>

  /** The tables as one value. */
  datatype Tables = Tables(events: Rows, opaques: Rows, offsets: map<SpoolKey, nat>)
  {
    function Offset(key: SpoolKey): nat { if key in offsets then offsets[key] else 0 }
  }

  const EMPTY := Tables(map[], map[], map[])

  /** Inserting in order, ignoring any event whose id already has a row. */
  ghost function InsertAll(rows: Rows, es: seq<Event>): Rows {
    if es == [] then rows
    else
      var before, e := InsertAll(rows, es[..|es| - 1]), es[|es| - 1];
      if e.eventId in before then before else before[e.eventId := e]
  }

  /** Every id is there afterwards, no row changes, and a new row is one of the events inserted. */
  lemma {:induction false} InsertAllMeaning(rows: Rows, es: seq<Event>)
    ensures forall id :: id in rows ==> id in InsertAll(rows, es) && InsertAll(rows, es)[id] == rows[id]
    ensures forall e :: e in es ==> e.eventId in InsertAll(rows, es)
    ensures forall id :: id in InsertAll(rows, es) && id !in rows ==>
              InsertAll(rows, es)[id] in es && InsertAll(rows, es)[id].eventId == id
  {
    if es != [] {
      InsertAllMeaning(rows, es[..|es| - 1]);
      assert es == es[..|es| - 1] + [es[|es| - 1]];
    }
  }

  /** Of two new events with one id the first is the one stored. */
  lemma {:induction false} FirstWriterWins(rows: Rows, es: seq<Event>, i: nat)
    requires i < |es| && es[i].eventId !in rows && forall j :: 0 <= j < i ==> es[j].eventId != es[i].eventId
    ensures es[i].eventId in InsertAll(rows, es) && InsertAll(rows, es)[es[i].eventId] == es[i]
  {
    var n := |es| - 1;
    if i < n {
      FirstWriterWins(rows, es[..n], i);
    } else {
      InsertAllMeaning(rows, es[..n]);
    }
  }

  lemma {:induction false} InsertAgain(rows: Rows, es: seq<Event>)
    requires forall e :: e in es ==> e.eventId in rows
    ensures InsertAll(rows, es) == rows
  {
    if es != [] {
      InsertAgain(rows, es[..|es| - 1]);
    }
  }

  /** Delivering a batch twice is delivering it once. */
  lemma InsertTwice(rows: Rows, es: seq<Event>)
    ensures InsertAll(InsertAll(rows, es), es) == InsertAll(rows, es)
  {
    InsertAllMeaning(rows, es);
    InsertAgain(InsertAll(rows, es), es);
  }

  class Store {
    var rawEvents: Rows
    var opaqueEvents: Rows
    var ingestOffsets: map<SpoolKey, nat>

    ghost function Contents(): Tables
      reads this
    {
      Tables(rawEvents, opaqueEvents, ingestOffsets)
    }

    constructor ()
      ensures Contents() == EMPTY
    {
      rawEvents, opaqueEvents, ingestOffsets := map[], map[], map[];
    }

    /** One transaction; the count is of rows that are new. */
    static method Inserted(rows: Rows, es: seq<Event>) returns (after: Rows, inserted: nat)
      ensures after == InsertAll(rows, es) && inserted == |after| - |rows|
    {
      after, inserted := rows, 0;
      for i := 0 to |es|
        invariant after == InsertAll(rows, es[..i]) && inserted == |after| - |rows|
      {
        Prefix(es, i);
        if es[i].eventId !in after {
          after, inserted := after[es[i].eventId := es[i]], inserted + 1;
        }
      }
      assert es[..|es|] == es;
    }

    method InsertEvents(es: seq<Event>) returns (inserted: nat)
      modifies this
      ensures Contents() == old(Contents()).(events := InsertAll(old(rawEvents), es))
      ensures inserted == |rawEvents| - |old(rawEvents)|
    {
      if es == [] {
        return 0;
      }
      rawEvents, inserted := Inserted(rawEvents, es);
    }

    method InsertOpaqueEvents(es: seq<Event>) returns (inserted: nat)
      modifies this
      ensures Contents() == old(Contents()).(opaques := InsertAll(old(opaqueEvents), es))
      ensures inserted == |opaqueEvents| - |old(opaqueEvents)|
    {
      if es == [] {
        return 0;
      }
      opaqueEvents, inserted := Inserted(opaqueEvents, es);
    }

    method GetOffset(key: SpoolKey) returns (offset: nat)
      ensures offset == Contents().Offset(key)
    {
      offset := if key in ingestOffsets then ingestOffsets[key] else 0;
    }

    /** Reads back until set again, and leaves every other key's offset as it was. */
    method SetOffset(key: SpoolKey, offset: nat)
      modifies this
      ensures Contents() == old(Contents()).(offsets := old(ingestOffsets)[key := offset])
      ensures Contents().Offset(key) == offset
      ensures forall other :: other != key ==> Contents().Offset(other) == old(Contents()).Offset(other)
    {
      ingestOffsets := ingestOffsets[key := offset];
    }
  }
}
