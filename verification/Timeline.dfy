/**
 Sticky track assignment for the timeline's span lane. A span keeps the track it was first given for
 as long as the store retains it; a new span takes the lowest track that looks free.

 `None` as a track's end stands for minus infinity: nothing has used the track yet.
 */
module Timeline {
  import opened Prelude
  import ES = EventStore

  const MAX_TRACKS: nat := 7
  const WINDOW_MS := 180000

  type Span = ES.SpanRecord

  function EffectiveEnd(s: Span, now: int, orphaned: seq<string>): int {
    if s.spanId in orphaned then now else if s.tEndMs.Some? then s.tEndMs.value else now
  }

  predicate Free(end: Option<int>, start: int) { end == None || end.value <= start }

  // ---- the packing as a value -----------------------------------------------------------------------

  datatype Packing = Packing(ends: seq<Option<int>>, trackOf: map<string, nat>)
  {
    ghost predicate Valid() { forall id :: id in trackOf ==> trackOf[id] < |ends| }

    /** The lowest track free at `start`, or the number of tracks when none is. */
    ghost function FirstFree(start: int, i: nat): (t: nat)
      requires i <= |ends|
      ensures i <= t <= |ends| && (t < |ends| ==> Free(ends[t], start))
      ensures forall k :: i <= k < t ==> !Free(ends[k], start)
      decreases |ends| - i
    {
      if i == |ends| || Free(ends[i], start) then i else FirstFree(start, i + 1)
    }

    ghost function Assign(id: string, start: int, end: int): (p: Packing)
      requires Valid()
      ensures p.Valid() && |p.ends| == |ends| && trackOf.Keys <= p.trackOf.Keys <= trackOf.Keys + {id}
      ensures forall i :: i in trackOf ==> p.trackOf[i] == trackOf[i]
    {
      if id in trackOf then Packing(ends[trackOf[id] := Some(end)], trackOf)
      else
        var t := FirstFree(start, 0);
        if t < |ends| then Packing(ends[t := Some(end)], trackOf[id := t]) else this
    }

    ghost function AssignAll(recs: seq<Span>, now: int, orphaned: seq<string>): (p: Packing)
      requires Valid()
      ensures p.Valid() && |p.ends| == |ends| && trackOf.Keys <= p.trackOf.Keys
      ensures forall i :: i in trackOf ==> p.trackOf[i] == trackOf[i]
    {
      if recs == [] then this
      else
        var n := |recs| - 1;
        AssignAll(recs[..n], now, orphaned)
          .Assign(recs[n].spanId, recs[n].tStartMs, EffectiveEnd(recs[n], now, orphaned))
    }

    ghost function Prune(retained: set<string>): (p: Packing)
      requires Valid()
      ensures p.Valid() && |p.ends| == |ends| && p.trackOf.Keys == trackOf.Keys * retained
      ensures forall i :: i in p.trackOf ==> p.trackOf[i] == trackOf[i]
    {
      Packing(ends, map id | id in trackOf && id in retained :: trackOf[id])
    }

    /** One recomputation: prune, refresh the spans already on a track, then place the new ones. */
    ghost function Tick(now: int, overlapping: seq<Span>, spans: map<string, Span>, orphaned: seq<string>): (p: Packing)
      requires Valid()
      ensures p.Valid() && |p.ends| == |ends|
      ensures forall i :: i in trackOf && i in spans ==> i in p.trackOf && p.trackOf[i] == trackOf[i]
    {
      var pruned := Prune(spans.Keys);
      var sorted := SortByStart(Trackable(overlapping, spans, orphaned));
      pruned.AssignAll(Filter(sorted, pruned.Tracked()), now, orphaned)
            .AssignAll(Filter(sorted, pruned.Untracked()), now, orphaned)
    }

    function Tracked(): Span -> bool { (s: Span) => s.spanId in trackOf }

    function Untracked(): Span -> bool { (s: Span) => s.spanId !in trackOf }
  }

  /** The overlapping spans, then any orphaned span the window itself no longer shows. */
  function Trackable(overlapping: seq<Span>, spans: map<string, Span>, orphaned: seq<string>): seq<Span> {
    if orphaned == [] then overlapping
    else
      var before, id := Trackable(overlapping, spans, orphaned[..|orphaned| - 1]), orphaned[|orphaned| - 1];
      if id in spans && (forall i :: 0 <= i < |before| ==> before[i].spanId != id) then before + [spans[id]] else before
  }

  predicate SortedByStart(s: seq<Span>) { forall i, j :: 0 <= i < j < |s| ==> s[i].tStartMs <= s[j].tStartMs }

  function InsertByStart(x: Span, s: seq<Span>): (r: seq<Span>)
    ensures multiset(r) == multiset(s) + multiset{x}
    ensures SortedByStart(s) ==> SortedByStart(r)
  {
    if s == [] then [x]
    else if s[|s| - 1].tStartMs <= x.tStartMs then s + [x]
    else
      var n := |s| - 1;
      assert s == s[..n] + [s[n]];
      var rest := InsertByStart(x, s[..n]);
      InsertKeepsLast(s, x, rest);
      rest + [s[n]]
  }

  lemma InsertKeepsLast(s: seq<Span>, x: Span, rest: seq<Span>)
    requires s != [] && x.tStartMs < s[|s| - 1].tStartMs
    requires multiset(rest) == multiset(s[..|s| - 1]) + multiset{x}
    ensures SortedByStart(s) ==> forall i :: 0 <= i < |rest| ==> rest[i].tStartMs <= s[|s| - 1].tStartMs
  {
    if SortedByStart(s) {
      forall i | 0 <= i < |rest| ensures rest[i].tStartMs <= s[|s| - 1].tStartMs {
        assert rest[i] in multiset(rest);
        assert rest[i] == x || rest[i] in s[..|s| - 1];
      }
    }
  }

  /** A stable sort: equal starts keep their order. */
  function SortByStart(s: seq<Span>): (r: seq<Span>)
    ensures multiset(r) == multiset(s) && SortedByStart(r)
  {
    if s == [] then []
    else
      assert s == s[..|s| - 1] + [s[|s| - 1]];
      InsertByStart(s[|s| - 1], SortByStart(s[..|s| - 1]))
  }

  // ---- the module's own state -------------------------------------------------------------------------

  class TrackPacker {
    const trackEndMs: array<Option<int>>
    var trackOfSpan: map<string, nat>

    ghost predicate Valid()
      reads this, trackEndMs
    {
      trackEndMs.Length == MAX_TRACKS && Now().Valid()
    }

    ghost function Now(): Packing
      reads this, trackEndMs
    {
      Packing(trackEndMs[..], trackOfSpan)
    }

    constructor ()
      ensures Valid() && trackOfSpan == map[] && fresh(trackEndMs)
      ensures forall i :: 0 <= i < MAX_TRACKS ==> trackEndMs[i] == None
    {
      trackEndMs := new Option<int>[MAX_TRACKS](_ => None);
      trackOfSpan := map[];
    }

    /** A span already on a track refreshes that track's end; a new one takes the lowest free track. */
    method AssignTrack(id: string, start: int, end: int) returns (track: Option<nat>)
      requires Valid()
      modifies this, trackEndMs
      ensures Valid() && Now() == old(Now()).Assign(id, start, end)
      ensures track == if id in trackOfSpan then Some(trackOfSpan[id]) else None
    {
      if id in trackOfSpan {
        trackEndMs[trackOfSpan[id]] := Some(end);
        return Some(trackOfSpan[id]);
      }
      for i := 0 to MAX_TRACKS
        invariant Valid() && Now() == old(Now())
        invariant Now().FirstFree(start, 0) == Now().FirstFree(start, i)
      {
        if Free(trackEndMs[i], start) {
          trackEndMs[i] := Some(end);
          trackOfSpan := trackOfSpan[id := i];
          return Some(i);
        }
      }
      track := None;
    }

    method AssignEach(recs: seq<Span>, now: int, orphaned: seq<string>)
      requires Valid()
      modifies this, trackEndMs
      ensures Valid() && Now() == old(Now()).AssignAll(recs, now, orphaned)
    {
      for i := 0 to |recs|
        invariant Valid() && Now() == old(Now()).AssignAll(recs[..i], now, orphaned)
      {
        Prefix(recs, i);
        var track := AssignTrack(recs[i].spanId, recs[i].tStartMs, EffectiveEnd(recs[i], now, orphaned));
      }
      assert recs[..|recs|] == recs;
    }

    /** The track part of one timeline recomputation. */
    method Tick(now: int, overlapping: seq<Span>, spans: map<string, Span>, orphaned: seq<string>)
      requires Valid()
      modifies this, trackEndMs
      ensures Valid() && Now() == old(Now()).Tick(now, overlapping, spans, orphaned)
    {
      var keys := trackOfSpan.Keys;
      ghost var gone: set<string> := {};
      while keys != {}
        invariant keys <= old(trackOfSpan).Keys && trackEndMs[..] == old(trackEndMs[..])
        invariant trackOfSpan == map id | id in old(trackOfSpan) && (id in spans || id in keys) :: old(trackOfSpan)[id]
        decreases keys
      {
        var id :| id in keys;
        keys := keys - {id};
        if id !in spans {
          trackOfSpan := trackOfSpan - {id};
        }
      }
      assert Now() == old(Now()).Prune(spans.Keys);
      ghost var pruned := Now();
      var sorted := SortByStart(Trackable(overlapping, spans, orphaned));
      var already := Filter(sorted, Packing([], trackOfSpan).Tracked());
      var newly := Filter(sorted, Packing([], trackOfSpan).Untracked());
      AssignEach(already, now, orphaned);
      AssignEach(newly, now, orphaned);
    }
  }
}
