/**
 Exactly when track packing goes wrong: which spans come to overlap on one track, which tracks are
 recorded as free too early, and which schedules of recomputations rule both out.
 */
module TimelineOverlaps {
  import opened Prelude
  import opened Timeline
  import opened TimelineRuns
  import ES = EventStore

  // ---- what the packing before a recomputation decides ------------------------------------------------------

  /** The shown spans without a track yet, in the order they are placed. */
  ghost function Newly(p: Packing, m: Moment): seq<Span>
    requires p.Valid()
  {
    Filter(SortByStart(m.overlapping), p.Prune(m.spans.Keys).Untracked())
  }

  ghost function Refreshed(p: Packing, m: Moment): (q: Packing)
    requires p.Valid()
    ensures q.Valid() && |q.ends| == |p.ends| && q.trackOf == p.Prune(m.spans.Keys).trackOf
  {
    var q := p.Prune(m.spans.Keys);
    KeepsTracks(q, SortByStart(m.overlapping), m.now);
    q.AssignAll(Filter(SortByStart(m.overlapping), q.Tracked()), m.now, [])
  }

  lemma KeepsTracks(q: Packing, sorted: seq<Span>, now: int)
    requires q.Valid()
    ensures q.AssignAll(Filter(sorted, q.Tracked()), now, []).trackOf == q.trackOf
  {
    forall i | 0 <= i < |Filter(sorted, q.Tracked())| ensures Filter(sorted, q.Tracked())[i].spanId in q.trackOf {
      assert Filter(sorted, q.Tracked())[i] in Filter(sorted, q.Tracked());
    }
    RefreshEnds(q, Filter(sorted, q.Tracked()), now);
  }

  /** When its turn comes, the `k`th new span finds `t` to be the lowest free track: the guard of the assignment. */
  ghost predicate Takes(p: Packing, m: Moment, k: int, t: int)
    requires p.Valid()
  {
    && 0 <= k < |Newly(p, m)| && 0 <= t < |p.ends|
    && Refreshed(p, m).AssignAll(Newly(p, m)[..k], m.now, []).FirstFree(Newly(p, m)[k].tStartMs, 0) == t
  }

  /** Of distinct new spans, `id` gets track `t` exactly when `t` is the lowest free track at its turn. */
  lemma {:induction false} PlacedIff(q: Packing, recs: seq<Span>, now: int, id: string, t: int)
    requires q.Valid() && id !in q.trackOf && 0 <= t < |q.ends|
    requires forall i, j :: 0 <= i < j < |recs| ==> recs[i].spanId != recs[j].spanId
    ensures HoldsTrack(q.AssignAll(recs, now, []), id, t) <==> exists k :: AtTurn(q, recs, now, k, id, t)
  {
    AssignStep(q, recs, now);
    if recs != [] {
      var n := |recs| - 1;
      PlacedIff(q, recs[..n], now, id, t);
      TurnsBefore(q, recs, now, id, t);
      var r' := q.AssignAll(recs[..n], now, []);
      hide Packing.AssignAll, Packing.FirstFree;
      if recs[n].spanId == id {
        OnlyAssigned(q, recs[..n], now, id);
      }
      AssignsOne(r', recs[n].spanId, recs[n].tStartMs, End(recs[n], now), id, t);
      hide Packing.Assign;
      if recs[n].spanId == id {
        assert forall k :: AtTurn(q, recs, now, k, id, t) ==> k == n;
        assert AtTurn(q, recs, now, n, id, t) <==> r'.FirstFree(recs[n].tStartMs, 0) == t;
      } else {
        assert forall k :: AtTurn(q, recs, now, k, id, t) <==> AtTurn(q, recs[..n], now, k, id, t);
      }
    }
  }

  lemma AssignsOne(q: Packing, placed: string, start: int, end: int, id: string, t: int)
    requires q.Valid() && 0 <= t < |q.ends| && (placed == id ==> id !in q.trackOf)
    ensures HoldsTrack(q.Assign(placed, start, end), id, t) <==>
              if placed == id then q.FirstFree(start, 0) == t else HoldsTrack(q, id, t)
  {
    hide Packing.FirstFree;
  }

  ghost predicate AtTurn(q: Packing, recs: seq<Span>, now: int, k: int, id: string, t: int)
    requires q.Valid()
  {
    0 <= k < |recs| && recs[k].spanId == id && q.AssignAll(recs[..k], now, []).FirstFree(recs[k].tStartMs, 0) == t
  }

  lemma TurnsBefore(q: Packing, recs: seq<Span>, now: int, id: string, t: int)
    requires q.Valid() && recs != []
    ensures forall k :: k != |recs| - 1 ==>
              (AtTurn(q, recs, now, k, id, t) <==> AtTurn(q, recs[..|recs| - 1], now, k, id, t))
  {
    hide Packing.AssignAll, Packing.FirstFree;
    var n := |recs| - 1;
    assert forall k :: 0 <= k < n ==> recs[..n][..k] == recs[..k] && recs[..n][k] == recs[k];
  }

  lemma NewlyAre(p: Packing, m: Moment)
    requires p.Valid() && Shown(m)
    ensures forall i, j :: 0 <= i < j < |Newly(p, m)| ==> Newly(p, m)[i].spanId != Newly(p, m)[j].spanId
    ensures Listed(m, Newly(p, m)) && forall i :: 0 <= i < |Newly(p, m)| ==> Newly(p, m)[i].spanId !in p.trackOf
  {
    SortedShown(m);
    var sorted, q := SortByStart(m.overlapping), p.Prune(m.spans.Keys);
    FilterKeeps(sorted, q.Untracked());
    FilteredAre(q, m, sorted);
    DistinctIds(m, Newly(p, m));
  }

  ghost function Ticked(p: Packing, m: Moment): (r: Packing)
    requires p.Valid()
    ensures r.Valid() && |r.ends| == |p.ends|
  {
    p.Tick(m.now, m.overlapping, m.spans, [])
  }

  /** A span new to `m` ends up on `t` exactly when it takes `t` at its turn, and then the window shows it. */
  lemma NewOnTrack(p: Packing, m: Moment, id: string, t: int)
    requires p.Valid() && Shown(m) && id !in p.trackOf && 0 <= t < |p.ends|
    ensures HoldsTrack(Ticked(p, m), id, t) <==> exists k :: Takes(p, m, k, t) && Newly(p, m)[k].spanId == id
    ensures id in Ticked(p, m).trackOf ==> id in m.spans && Visible(m, m.spans[id])
  {
    NewlyAre(p, m);
    var q, newly := Refreshed(p, m), Newly(p, m);
    assert Ticked(p, m) == q.AssignAll(newly, m.now, []);
    hide Refreshed, Newly, Ticked, Packing.AssignAll, Packing.FirstFree;
    PlacedIff(q, newly, m.now, id, t);
    assert forall k :: Takes(p, m, k, t) && newly[k].spanId == id <==> AtTurn(q, newly, m.now, k, id, t);
    if id in Ticked(p, m).trackOf && forall i :: 0 <= i < |newly| ==> newly[i].spanId != id {
      OnlyAssigned(q, newly, m.now, id);
    }
  }

  // ---- what later recomputations cannot undo ------------------------------------------------------------------

  /** Every track is recorded as busy past the start of each span on it. */
  ghost predicate Begun(p: Packing, m: Moment)
    requires p.Valid() && p.trackOf.Keys <= m.spans.Keys
  {
    forall id :: id in p.trackOf ==> Past(p.ends[p.trackOf[id]], m.spans[id].tStartMs)
  }

  predicate Past(end: Option<int>, start: int) { end.Some? && start < end.value }

  /** No span on an open span's track starts after it. */
  ghost predicate OpenLast(p: Packing, m: Moment)
    requires p.trackOf.Keys <= m.spans.Keys
  {
    forall a, c :: HoldsTogether(p, a, c) && m.spans[c].tEndMs.None? ==> m.spans[a].tStartMs <= m.spans[c].tStartMs
  }

  predicate Closed(m: Moment, late: set<string>)
    requires late <= m.spans.Keys
  {
    forall id :: id in late ==> m.spans[id].tEndMs.Some? && m.spans[id].tEndMs.value <= m.now - WINDOW_MS
  }

  lemma {:induction false} PlaceOneOrdered(q: Packing, late: set<string>, m: Moment, s: Span)
    requires q.Valid() && Shown(m) && late <= q.trackOf.Keys <= m.spans.Keys && Listed(m, [s]) && s.spanId !in q.trackOf
    requires Covered(q, m, q.trackOf.Keys - late) && Closed(m, late) && Begun(q, m) && OpenLast(q, m)
    ensures var r := q.Assign(s.spanId, s.tStartMs, End(s, m.now));
            r.trackOf.Keys <= m.spans.Keys && Begun(r, m) && OpenLast(r, m)
  {
    assert [s][0] == s;
    var r := q.Assign(s.spanId, s.tStartMs, End(s, m.now));
    assert s.tStartMs < End(s, m.now);
    assert forall c :: c in q.trackOf && m.spans[c].tEndMs.None? ==> c in q.trackOf.Keys - late;
    hide Packing.FirstFree, Shown;
    forall a, c | HoldsTogether(r, a, c) && m.spans[c].tEndMs.None?
      ensures m.spans[a].tStartMs <= m.spans[c].tStartMs
    {
      if a != s.spanId && c != s.spanId {
        assert HoldsTogether(q, a, c);
      } else if a == s.spanId {
        assert false;
      } else {
        assert Past(q.ends[q.trackOf[a]], m.spans[a].tStartMs);
      }
    }
  }

  lemma {:induction false} PlaceOrdered(q: Packing, late: set<string>, m: Moment, recs: seq<Span>)
    requires q.Valid() && Shown(m) && late <= q.trackOf.Keys <= m.spans.Keys && Listed(m, recs) && NoDuplicates(recs)
    requires forall i :: 0 <= i < |recs| ==> recs[i].spanId !in q.trackOf
    requires Started(q, m) && Disjoint(q, m, q.trackOf.Keys - late) && Covered(q, m, q.trackOf.Keys - late)
    requires Closed(m, late) && Begun(q, m) && OpenLast(q, m)
    ensures var r := q.AssignAll(recs, m.now, []); r.trackOf.Keys <= m.spans.Keys && Begun(r, m) && OpenLast(r, m)
  {
    hide *;
    AssignStep(q, recs, m.now);
    if recs != [] {
      var n := |recs| - 1;
      PrefixListed(m, recs);
      OnlyAssigned(q, recs[..n], m.now, recs[n].spanId);
      assert forall i :: 0 <= i < n ==> recs[..n][i] == recs[i];
      PlaceNew(q, late, m, recs[..n]);
      PlaceOrdered(q, late, m, recs[..n]);
      PlaceOneOrdered(q.AssignAll(recs[..n], m.now, []), late, m, recs[n]);
    }
  }

  /** The first pass: tracks it does not touch keep their ends, the others end inside the window. */
  lemma RefreshBegun(q: Packing, late: set<string>, m: Moment, recs: seq<Span>)
    requires q.Valid() && Shown(m) && late <= q.trackOf.Keys <= m.spans.Keys && Listed(m, recs) && Started(q, m)
    requires forall i :: 0 <= i < |recs| ==> recs[i].spanId in q.trackOf
    requires Closed(m, late) && Begun(q, m)
    requires var r := q.AssignAll(recs, m.now, []); r.trackOf == q.trackOf && Covered(r, m, q.trackOf.Keys - late)
    ensures Begun(q.AssignAll(recs, m.now, []), m)
  {
    RefreshEnds(q, recs, m.now);
    var r := q.AssignAll(recs, m.now, []);
    hide Packing.AssignAll;
    forall id | id in q.trackOf ensures Past(r.ends[q.trackOf[id]], m.spans[id].tStartMs) {
      var t := q.trackOf[id];
      if id !in late {
        assert Reaches(r.ends[t], m.spans[id], m.now);
      } else if r.ends[t] != q.ends[t] {
        var i :| LastOn(q, recs, i, t) && r.ends[t] == Some(End(recs[i], m.now));
        assert Visible(m, recs[i]);
      } else {
        assert Past(q.ends[t], m.spans[id].tStartMs);
      }
    }
  }

  /** One recomputation keeps both orders. */
  lemma TickOrdered(p: Packing, missed: set<string>, before: Moment, m: Moment)
    requires Sound(p, missed, before) && Shown(m) && Follows(before, m) && Begun(p, before) && OpenLast(p, before)
    ensures Ticked(p, m).trackOf.Keys <= m.spans.Keys && Begun(Ticked(p, m), m) && OpenLast(Ticked(p, m), m)
  {
    CarryOver(p, missed, before, m);
    PrunedOrdered(p, before, m);
    PassesOrdered(p.Prune(m.spans.Keys), MissedBy(p, missed, before, m), m);
  }

  lemma PassesOrdered(q: Packing, late: set<string>, m: Moment)
    requires q.Valid() && Shown(m) && late <= q.trackOf.Keys <= m.spans.Keys
    requires Disjoint(q, m, q.trackOf.Keys - late) && Started(q, m) && Closed(m, late) && Begun(q, m) && OpenLast(q, m)
    requires forall id :: id in q.trackOf && id !in late && !Visible(m, m.spans[id]) ==>
               End(m.spans[id], m.now) <= m.now - WINDOW_MS && Reaches(q.ends[q.trackOf[id]], m.spans[id], m.now)
    ensures Passes(q, m).trackOf.Keys <= m.spans.Keys && Begun(Passes(q, m), m) && OpenLast(Passes(q, m), m)
  {
    var sorted := SortByStart(m.overlapping);
    var already, newly := Filter(sorted, q.Tracked()), Filter(sorted, q.Untracked());
    SortedShown(m);
    FilterKeeps(sorted, q.Tracked());
    FilterKeeps(sorted, q.Untracked());
    FilteredAre(q, m, sorted);
    AfterRefresh(q, late, m, already);
    RefreshBegun(q, late, m, already);
    var r := q.AssignAll(already, m.now, []);
    SameTracks(q, r, m);
    assert Passes(q, m) == r.AssignAll(newly, m.now, []);
    hide *;
    PlaceOrdered(r, late, m, newly);
  }

  lemma SameTracks(q: Packing, r: Packing, m: Moment)
    requires r.trackOf == q.trackOf && q.trackOf.Keys <= m.spans.Keys && Started(q, m) && OpenLast(q, m)
    ensures Started(r, m) && OpenLast(r, m)
  {
    forall a, c | HoldsTogether(r, a, c) && m.spans[c].tEndMs.None?
      ensures m.spans[a].tStartMs <= m.spans[c].tStartMs
    {
      assert HoldsTogether(q, a, c);
    }
  }

  lemma PrunedOrdered(p: Packing, before: Moment, m: Moment)
    requires p.Valid() && p.trackOf.Keys <= before.spans.Keys && Follows(before, m)
    requires Begun(p, before) && OpenLast(p, before)
    ensures var q := p.Prune(m.spans.Keys); q.trackOf.Keys <= m.spans.Keys && Begun(q, m) && OpenLast(q, m)
  {
    var q := p.Prune(m.spans.Keys);
    forall a, c | HoldsTogether(q, a, c) && m.spans[c].tEndMs.None?
      ensures m.spans[a].tStartMs <= m.spans[c].tStartMs
    {
      assert HoldsTogether(p, a, c);
    }
  }

  lemma {:induction false} RunOrdered(ms: seq<Moment>)
    requires Feed(ms) && ms != []
    ensures var m := ms[|ms| - 1]; Run(ms).trackOf.Keys <= m.spans.Keys && Begun(Run(ms), m) && OpenLast(Run(ms), m)
  {
    var n := |ms| - 1;
    if n == 0 {
      var none := Moment(ms[0].now, [], map[]);
      assert Run(ms[..0]) == Fresh();
      TickOrdered(Fresh(), {}, none, ms[0]);
    } else {
      RunOrdered(ms[..n]);
      RunSound(ms[..n]);
      TickOrdered(Run(ms[..n]), Missed(ms[..n]), ms[n - 1], ms[n]);
    }
  }

  // ---- overlaps -----------------------------------------------------------------------------------------------

  /** A retained pair overlaps after a recomputation exactly when it did before: no overlap heals, none appears. */
  lemma PairKeeps(p: Packing, missed: set<string>, before: Moment, m: Moment, a: string, b: string)
    requires Sound(p, missed, before) && OpenLast(p, before) && Shown(m) && Follows(before, m)
    requires HoldsTogether(p, a, b) && a in m.spans && b in m.spans
    ensures Apart(m.spans[a], m.spans[b], m.now) <==> Apart(before.spans[a], before.spans[b], before.now)
  {
    assert HoldsTogether(p, b, a);
    if Apart(before.spans[a], before.spans[b], before.now) {
      StillApart(before, m, a, b);
    }
  }

  /** A newcomer overlaps a span on its track exactly when that span closed unseen, after the newcomer's start. */
  lemma NewPair(p: Packing, missed: set<string>, before: Moment, m: Moment, a: string, b: string)
    requires Sound(p, missed, before) && Shown(m) && Follows(before, m)
    requires HoldsTogether(Ticked(p, m), a, b) && b !in p.trackOf
    ensures a in m.spans && b in m.spans
    ensures !Apart(m.spans[a], m.spans[b], m.now) <==>
              a in MissedBy(p, missed, before, m) && m.spans[b].tStartMs < End(m.spans[a], m.now)
  {
    var late, r := MissedBy(p, missed, before, m), Ticked(p, m);
    TickSound(p, missed, before, m);
    NewOnTrack(p, m, b, r.trackOf[b]);
    hide Ticked, Packing.Tick, Covered, Missed;
    if a !in late {
      assert a in r.trackOf.Keys - late && b in r.trackOf.Keys - late;
      assert Disjoint(r, m, r.trackOf.Keys - late);
    }
  }

  /**
   At the last recomputation or an earlier one, `b` took the track of `a`, which had closed unseen, though
   it starts before `a` ends; both have been retained since. Read off the packing before each recomputation.
   */
  ghost predicate Clashed(ms: seq<Moment>, a: string, b: string) {
    |ms| > 1 &&
    var n := |ms| - 1;
    a in ms[n].spans && b in ms[n].spans && (Clashed(ms[..n], a, b) || ClashesAt(ms, a, b))
  }

  ghost predicate ClashesAt(ms: seq<Moment>, a: string, b: string)
    requires |ms| > 1
  {
    var n := |ms| - 1;
    Unseated(Run(ms[..n]), MissedBy(Run(ms[..n]), Missed(ms[..n]), ms[n - 1], ms[n]), ms[n], a, b)
  }

  /** The newcomer `b` takes the track of `a`, one of the spans that closed unseen, before `a` has ended. */
  ghost predicate Unseated(p: Packing, late: set<string>, m: Moment, a: string, b: string)
    requires p.Valid()
  {
    && a in late && a in p.trackOf && a in m.spans && b !in p.trackOf && b in m.spans
    && m.spans[b].tStartMs < End(m.spans[a], m.now)
    && exists k :: Takes(p, m, k, p.trackOf[a]) && Newly(p, m)[k].spanId == b
  }

  lemma LastFeed(ms: seq<Moment>)
    requires Feed(ms) && |ms| > 1
    ensures var n := |ms| - 1; Feed(ms[..n]) && Shown(ms[n]) && Follows(ms[n - 1], ms[n])
    ensures var n := |ms| - 1; Run(ms) == Ticked(Run(ms[..n]), ms[n])
  {
    hide Shown, Follows, Packing.Tick;
    LastStep(ms);
  }

  lemma StaysOn(p: Packing, m: Moment, id: string)
    requires p.Valid() && id in p.trackOf && id in m.spans
    ensures id in Ticked(p, m).trackOf && Ticked(p, m).trackOf[id] == p.trackOf[id]
  {
    hide SortByStart, Filter, Packing.AssignAll;
  }

  /** A clashing pair shares its track for as long as both are retained. */
  lemma {:induction false} ClashedHeld(ms: seq<Moment>, a: string, b: string)
    requires Feed(ms) && Clashed(ms, a, b)
    ensures HoldsTogether(Run(ms), a, b)
  {
    var n := |ms| - 1;
    var p, m := Run(ms[..n]), ms[n];
    LastFeed(ms);
    hide Run, Feed, Ticked, Takes, Newly, MissedBy;
    if Clashed(ms[..n], a, b) {
      ClashedHeld(ms[..n], a, b);
      StaysOn(p, m, a);
      StaysOn(p, m, b);
    } else {
      StaysOn(p, m, a);
      NewOnTrack(p, m, b, p.trackOf[a]);
    }
  }

  /** In every run, two spans on one track overlap if and only if one of them clashed with the other. */
  lemma {:induction false} OverlapIff(ms: seq<Moment>, a: string, b: string)
    requires Feed(ms) && ms != [] && HoldsTogether(Run(ms), a, b)
    ensures var m := ms[|ms| - 1];
            && a in m.spans && b in m.spans
            && (!Apart(m.spans[a], m.spans[b], m.now) <==> Clashed(ms, a, b) || Clashed(ms, b, a))
  {
    var n := |ms| - 1;
    if n == 0 {
      OneTickApart(ms, a, b);
    } else {
      OverlapStep(ms, a, b);
      LastFeed(ms);
      hide Run, Feed, Ticked, ClashesAt, Apart;
      if HoldsTogether(Run(ms[..n]), a, b) {
        OverlapIff(ms[..n], a, b);
      } else if Clashed(ms[..n], a, b) {
        ClashedHeld(ms[..n], a, b);
        assert false;
      } else if Clashed(ms[..n], b, a) {
        ClashedHeld(ms[..n], b, a);
        assert false;
      }
    }
  }

  lemma OneTickApart(ms: seq<Moment>, a: string, b: string)
    requires Feed(ms) && |ms| == 1 && HoldsTogether(Run(ms), a, b)
    ensures a in ms[0].spans && b in ms[0].spans && Apart(ms[0].spans[a], ms[0].spans[b], ms[0].now)
  {
    hide Run, Feed;
    TracksNeverOverlap(ms, a, b);
  }

  /** What one recomputation adds to the overlaps of a run. */
  lemma OverlapStep(ms: seq<Moment>, a: string, b: string)
    requires Feed(ms) && |ms| > 1 && HoldsTogether(Run(ms), a, b)
    ensures var n := |ms| - 1;
            var p, before, m := Run(ms[..n]), ms[n - 1], ms[n];
            && a in m.spans && b in m.spans
            && (HoldsTogether(p, a, b) ==>
                  && a in before.spans && b in before.spans && !ClashesAt(ms, a, b) && !ClashesAt(ms, b, a)
                  && (Apart(m.spans[a], m.spans[b], m.now) <==> Apart(before.spans[a], before.spans[b], before.now)))
            && (!HoldsTogether(p, a, b) ==>
                  (!Apart(m.spans[a], m.spans[b], m.now) <==> ClashesAt(ms, a, b) || ClashesAt(ms, b, a)))
  {
    var n := |ms| - 1;
    var p, missed, before, m := Run(ms[..n]), Missed(ms[..n]), ms[n - 1], ms[n];
    LastFeed(ms);
    assert ms[..n][n - 1] == before;
    hide Run, Missed, Feed, Sound, Ticked, Takes, Newly;
    RunSound(ms[..n]);
    RunOrdered(ms[..n]);
    SoundKeys(p, missed, before, m);
    StepDecides(p, missed, before, m, a, b);
  }

  lemma StepDecides(p: Packing, missed: set<string>, before: Moment, m: Moment, a: string, b: string)
    requires Sound(p, missed, before) && Shown(m) && Follows(before, m)
    requires p.trackOf.Keys <= before.spans.Keys && Ticked(p, m).trackOf.Keys <= m.spans.Keys && OpenLast(p, before)
    requires p.Valid() && HoldsTogether(Ticked(p, m), a, b)
    ensures var late := MissedBy(p, missed, before, m);
            && (HoldsTogether(p, a, b) ==>
                  (Apart(m.spans[a], m.spans[b], m.now) <==> Apart(before.spans[a], before.spans[b], before.now)))
            && (!HoldsTogether(p, a, b) ==>
                  (!Apart(m.spans[a], m.spans[b], m.now) <==>
                     Unseated(p, late, m, a, b) || Unseated(p, late, m, b, a)))
            && (HoldsTogether(p, a, b) ==> !Unseated(p, late, m, a, b) && !Unseated(p, late, m, b, a))
  {
    hide Sound, Ticked, OpenLast, Shown, Follows, Takes, Newly, Apart;
    SwapApart(m, a, b);
    if b !in p.trackOf {
      Newcomer(p, missed, before, m, a, b);
    } else if a !in p.trackOf {
      Newcomer(p, missed, before, m, b, a);
    } else {
      StaysOn(p, m, a);
      StaysOn(p, m, b);
      PairKeeps(p, missed, before, m, a, b);
    }
  }

  lemma SoundKeys(p: Packing, missed: set<string>, before: Moment, m: Moment)
    requires Sound(p, missed, before) && Shown(m) && Follows(before, m)
    ensures p.trackOf.Keys <= before.spans.Keys && Ticked(p, m).trackOf.Keys <= m.spans.Keys
  {
    TickSound(p, missed, before, m);
    hide Packing.Tick;
  }

  lemma Newcomer(p: Packing, missed: set<string>, before: Moment, m: Moment, a: string, b: string)
    requires Sound(p, missed, before) && Shown(m) && Follows(before, m)
    requires HoldsTogether(Ticked(p, m), a, b) && b !in p.trackOf
    ensures a in m.spans && b in m.spans
    ensures !Apart(m.spans[a], m.spans[b], m.now) <==>
              && a in MissedBy(p, missed, before, m) && m.spans[b].tStartMs < End(m.spans[a], m.now)
              && exists k :: Takes(p, m, k, p.trackOf[a]) && Newly(p, m)[k].spanId == b
    ensures b !in MissedBy(p, missed, before, m)
  {
    NewPair(p, missed, before, m, a, b);
    hide Sound, Ticked, Takes, Newly;
    if a in MissedBy(p, missed, before, m) {
      StaysOn(p, m, a);
      NewOnTrack(p, m, b, p.trackOf[a]);
    }
  }

  ghost predicate AllApart(p: Packing, m: Moment)
    requires p.trackOf.Keys <= m.spans.Keys
  {
    forall a, b :: HoldsTogether(p, a, b) ==> Apart(m.spans[a], m.spans[b], m.now)
  }

  ghost predicate ClashFree(ms: seq<Moment>) { forall a, b :: !Clashed(ms, a, b) }

  /** All tracks are free of overlaps exactly when no pair ever clashed and stayed. */
  lemma AllApartIff(ms: seq<Moment>)
    requires Feed(ms) && ms != []
    ensures Run(ms).trackOf.Keys <= ms[|ms| - 1].spans.Keys
    ensures AllApart(Run(ms), ms[|ms| - 1]) <==> ClashFree(ms)
  {
    RunSound(ms);
    Keyed(Run(ms), Missed(ms), ms[|ms| - 1]);
    hide Run, Feed, Sound, Missed, ClashesAt, Apart;
    AllPairs(Run(ms), ms[|ms| - 1]);
    if ClashFree(ms) {
      forall a, b | HoldsTogether(Run(ms), a, b) ensures PairApart(ms[|ms| - 1], a, b) {
        ClashDecides(ms, a, b);
      }
    }
    if AllApart(Run(ms), ms[|ms| - 1]) {
      forall a, b ensures !Clashed(ms, a, b) {
        ClashDecides(ms, a, b);
      }
    }
  }

  predicate PairApart(m: Moment, a: string, b: string) {
    a in m.spans && b in m.spans && Apart(m.spans[a], m.spans[b], m.now)
  }

  lemma AllPairs(p: Packing, m: Moment)
    requires p.trackOf.Keys <= m.spans.Keys
    ensures AllApart(p, m) <==> forall a, b :: HoldsTogether(p, a, b) ==> PairApart(m, a, b)
  {
    hide Apart;
  }

  lemma ClashDecides(ms: seq<Moment>, a: string, b: string)
    requires Feed(ms) && ms != []
    ensures HoldsTogether(Run(ms), a, b) ==>
              (PairApart(ms[|ms| - 1], a, b) <==> !Clashed(ms, a, b) && !Clashed(ms, b, a))
    ensures Clashed(ms, a, b) ==> HoldsTogether(Run(ms), a, b)
  {
    hide Run, Feed, Clashed, Apart, HoldsTogether;
    if HoldsTogether(Run(ms), a, b) {
      OverlapIff(ms, a, b);
    }
    if Clashed(ms, a, b) {
      ClashedHeld(ms, a, b);
    }
  }

  // ---- one more recomputation -----------------------------------------------------------------------------------

  /** The pairs retained by `m` that share a track before it. */
  ghost predicate StillApartBefore(p: Packing, before: Moment, m: Moment)
    requires p.trackOf.Keys <= before.spans.Keys
  {
    forall a, b :: HoldsTogether(p, a, b) && a in m.spans && b in m.spans ==>
      Apart(before.spans[a], before.spans[b], before.now)
  }

  /** No newcomer takes the track of a span that closed unseen before that span's end. */
  ghost predicate NoneTakenEarly(p: Packing, late: set<string>, m: Moment)
    requires p.Valid() && late <= p.trackOf.Keys && late <= m.spans.Keys
  {
    forall a, k :: a in late && Takes(p, m, k, p.trackOf[a]) ==> End(m.spans[a], m.now) <= Newly(p, m)[k].tStartMs
  }

  /** A recomputation leaves all pairs apart exactly when it found them apart and places nobody too early: both
      can be told from the packing before it. */
  lemma StaysApartIff(p: Packing, missed: set<string>, before: Moment, m: Moment)
    requires Sound(p, missed, before) && OpenLast(p, before) && Shown(m) && Follows(before, m)
    ensures var late := MissedBy(p, missed, before, m);
            && late <= p.trackOf.Keys && late <= m.spans.Keys && Ticked(p, m).trackOf.Keys <= m.spans.Keys
            && (AllApart(Ticked(p, m), m) <==> StillApartBefore(p, before, m) && NoneTakenEarly(p, late, m))
  {
    var late, r := MissedBy(p, missed, before, m), Ticked(p, m);
    Keyed(p, missed, before);
    SoundKeys(p, missed, before, m);
    if AllApart(r, m) {
      AllApartBefore(p, missed, before, m);
      NoneEarly(p, missed, before, m);
    }
    if StillApartBefore(p, before, m) && NoneTakenEarly(p, late, m) {
      forall a, b | HoldsTogether(r, a, b) ensures Apart(m.spans[a], m.spans[b], m.now) {
        PairAfter(p, missed, before, m, a, b);
      }
    }
  }

  lemma AllApartBefore(p: Packing, missed: set<string>, before: Moment, m: Moment)
    requires Sound(p, missed, before) && OpenLast(p, before) && Shown(m) && Follows(before, m)
    requires Ticked(p, m).trackOf.Keys <= m.spans.Keys && AllApart(Ticked(p, m), m)
    ensures StillApartBefore(p, before, m)
  {
    hide Sound, Ticked, Apart, OpenLast;
    Keyed(p, missed, before);
    forall a, b | HoldsTogether(p, a, b) && a in m.spans && b in m.spans
      ensures Apart(before.spans[a], before.spans[b], before.now)
    {
      StaysOn(p, m, a);
      StaysOn(p, m, b);
      PairKeeps(p, missed, before, m, a, b);
    }
  }

  lemma NoneEarly(p: Packing, missed: set<string>, before: Moment, m: Moment)
    requires Sound(p, missed, before) && Shown(m) && Follows(before, m)
    requires Ticked(p, m).trackOf.Keys <= m.spans.Keys && AllApart(Ticked(p, m), m)
    ensures NoneTakenEarly(p, MissedBy(p, missed, before, m), m)
  {
    var late := MissedBy(p, missed, before, m);
    Keyed(p, missed, before);
    NewlyAre(p, m);
    hide Sound, Ticked, Apart, Takes, Newly;
    forall a, k | a in late && Takes(p, m, k, p.trackOf[a])
      ensures End(m.spans[a], m.now) <= Newly(p, m)[k].tStartMs
    {
      TakenEarly(p, missed, before, m, a, k);
    }
  }

  lemma TakenEarly(p: Packing, missed: set<string>, before: Moment, m: Moment, a: string, k: int)
    requires Sound(p, missed, before) && Shown(m) && Follows(before, m)
    requires Ticked(p, m).trackOf.Keys <= m.spans.Keys && AllApart(Ticked(p, m), m)
    requires a in MissedBy(p, missed, before, m) && Takes(p, m, k, p.trackOf[a])
    ensures End(m.spans[a], m.now) <= Newly(p, m)[k].tStartMs
  {
    NewlyAre(p, m);
    var b := Newly(p, m)[k].spanId;
    assert m.spans[b] == Newly(p, m)[k];
    hide Sound, Ticked, Apart, Takes, Newly;
    NewOnTrack(p, m, b, p.trackOf[a]);
    StaysOn(p, m, a);
    assert HoldsTogether(Ticked(p, m), a, b);
    NewPair(p, missed, before, m, a, b);
  }

  lemma PairAfter(p: Packing, missed: set<string>, before: Moment, m: Moment, a: string, b: string)
    requires Sound(p, missed, before) && OpenLast(p, before) && Shown(m) && Follows(before, m)
    requires p.trackOf.Keys <= before.spans.Keys && StillApartBefore(p, before, m)
    requires NoneTakenEarly(p, MissedBy(p, missed, before, m), m)
    requires HoldsTogether(Ticked(p, m), a, b) && a in m.spans && b in m.spans
    ensures Apart(m.spans[a], m.spans[b], m.now)
  {
    hide Sound, Ticked, OpenLast, NoneTakenEarly, StillApartBefore, Shown, Follows, Apart;
    if b !in p.trackOf {
      NewcomerApart(p, missed, before, m, a, b);
    } else if a !in p.trackOf {
      NewcomerApart(p, missed, before, m, b, a);
    } else {
      RetainedApart(p, missed, before, m, a, b);
    }
    SwapApart(m, a, b);
  }

  lemma SwapApart(m: Moment, a: string, b: string)
    requires a in m.spans && b in m.spans
    ensures Apart(m.spans[a], m.spans[b], m.now) <==> Apart(m.spans[b], m.spans[a], m.now)
  {
  }

  lemma RetainedApart(p: Packing, missed: set<string>, before: Moment, m: Moment, a: string, b: string)
    requires Sound(p, missed, before) && OpenLast(p, before) && Shown(m) && Follows(before, m)
    requires p.trackOf.Keys <= before.spans.Keys && StillApartBefore(p, before, m)
    requires HoldsTogether(Ticked(p, m), a, b) && a in m.spans && b in m.spans && a in p.trackOf && b in p.trackOf
    ensures Apart(m.spans[a], m.spans[b], m.now)
  {
    Keyed(p, missed, before);
    hide Sound, Ticked, OpenLast, Shown, Follows, Apart;
    StaysOn(p, m, a);
    StaysOn(p, m, b);
    assert HoldsTogether(p, a, b);
    PairKeeps(p, missed, before, m, a, b);
  }

  lemma NewcomerApart(p: Packing, missed: set<string>, before: Moment, m: Moment, a: string, b: string)
    requires Sound(p, missed, before) && Shown(m) && Follows(before, m)
    requires NoneTakenEarly(p, MissedBy(p, missed, before, m), m)
    requires HoldsTogether(Ticked(p, m), a, b) && b !in p.trackOf
    ensures a in m.spans && b in m.spans && Apart(m.spans[a], m.spans[b], m.now)
  {
    NewlyAre(p, m);
    hide Sound, Ticked, Apart, Takes, Newly;
    Newcomer(p, missed, before, m, a, b);
  }

  // ---- recorded ends ----------------------------------------------------------------------------------------------

  ghost predicate AllCovered(p: Packing, m: Moment)
    requires p.Valid() && p.trackOf.Keys <= m.spans.Keys
  {
    Covered(p, m, p.trackOf.Keys)
  }

  /** Some span the window shows is on track `t`. */
  ghost predicate TrackInUse(p: Packing, m: Moment, t: int) {
    exists s :: s in m.overlapping && HoldsTrack(p, s.spanId, t)
  }

  /** Told before the recomputation: `id`'s track is recorded as busy until its end, shows a span that is on it
      already, or is taken by a newcomer. */
  ghost predicate StaysCovered(p: Packing, m: Moment, id: string)
    requires p.Valid() && id in p.trackOf && id in m.spans
  {
    var t := p.trackOf[id];
    Reaches(p.ends[t], m.spans[id], m.now) || TrackInUse(p, m, t) || exists k :: Takes(p, m, k, t)
  }

  lemma MissedCovered(p: Packing, m: Moment, late: set<string>, id: string)
    requires Sound(p, late, m) && Shown(m) && id in late && TrackInUse(p, m, p.trackOf[id])
    ensures Reaches(p.ends[p.trackOf[id]], m.spans[id], m.now)
  {
    var s :| s in m.overlapping && HoldsTrack(p, s.spanId, p.trackOf[id]);
    assert m.spans[s.spanId] == s && Visible(m, s) && s.spanId !in late;
    assert Reaches(p.ends[p.trackOf[s.spanId]], s, m.now);
  }

  /** A track that none of the assigned spans ends up on keeps its recorded end. */
  lemma {:induction false} Untouched(q: Packing, recs: seq<Span>, now: int, t: nat)
    requires q.Valid() && t < |q.ends|
    requires forall i :: 0 <= i < |recs| ==> !HoldsTrack(q.AssignAll(recs, now, []), recs[i].spanId, t)
    ensures q.AssignAll(recs, now, []).ends[t] == q.ends[t]
  {
    if recs != [] {
      var n := |recs| - 1;
      var r', r := q.AssignAll(recs[..n], now, []), q.AssignAll(recs, now, []);
      assert r == r'.Assign(recs[n].spanId, recs[n].tStartMs, End(recs[n], now));
      forall i | 0 <= i < n ensures !HoldsTrack(r', recs[..n][i].spanId, t) {
        assert recs[..n][i] == recs[i] && !HoldsTrack(r, recs[i].spanId, t);
      }
      Untouched(q, recs[..n], now, t);
      assert !HoldsTrack(r, recs[n].spanId, t);
    }
  }

  /** A track no shown span is on keeps its recorded end through a recomputation. */
  lemma TickUntouched(p: Packing, m: Moment, t: nat)
    requires p.Valid() && Shown(m) && t < |p.ends|
    requires forall s :: s in m.overlapping ==> !HoldsTrack(p.Tick(m.now, m.overlapping, m.spans, []), s.spanId, t)
    ensures p.Tick(m.now, m.overlapping, m.spans, []).ends[t] == p.ends[t]
  {
    var q, sorted := p.Prune(m.spans.Keys), SortByStart(m.overlapping);
    SortedShown(m);
    var already, newly := Filter(sorted, q.Tracked()), Filter(sorted, q.Untracked());
    var r := q.AssignAll(already, m.now, []);
    forall i | 0 <= i < |newly| ensures !HoldsTrack(r.AssignAll(newly, m.now, []), newly[i].spanId, t) {
      assert newly[i] in newly;
    }
    Untouched(r, newly, m.now, t);
    forall i | 0 <= i < |already| ensures !HoldsTrack(r, already[i].spanId, t) {
      assert already[i] in already;
      assert !HoldsTrack(r.AssignAll(newly, m.now, []), already[i].spanId, t);
    }
    Untouched(q, already, m.now, t);
  }

  /** A track shows a span after a recomputation exactly when it did before or a newcomer takes it. */
  lemma InUseIff(p: Packing, m: Moment, t: int)
    requires p.Valid() && Shown(m) && 0 <= t < |p.ends|
    ensures TrackInUse(Ticked(p, m), m, t) <==> TrackInUse(p, m, t) || exists k :: Takes(p, m, k, t)
  {
    var r := Ticked(p, m);
    NewlyAre(p, m);
    NewlyShown(p, m);
    hide Ticked, Takes, Newly;
    if s :| s in m.overlapping && HoldsTrack(p, s.spanId, t) {
      StaysOn(p, m, s.spanId);
      assert HoldsTrack(r, s.spanId, t);
    }
    if k :| Takes(p, m, k, t) {
      TakesIndex(p, m, k, t);
      NewOnTrack(p, m, Newly(p, m)[k].spanId, t);
      assert Newly(p, m)[k] in m.overlapping;
    }
    if s :| s in m.overlapping && HoldsTrack(r, s.spanId, t) {
      if s.spanId in p.trackOf {
        StaysOn(p, m, s.spanId);
      } else {
        NewOnTrack(p, m, s.spanId, t);
      }
    }
  }

  lemma TakesIndex(p: Packing, m: Moment, k: int, t: int)
    requires p.Valid() && Takes(p, m, k, t)
    ensures 0 <= k < |Newly(p, m)|
  {
  }

  lemma NewlyShown(p: Packing, m: Moment)
    requires p.Valid() && Shown(m)
    ensures forall i :: 0 <= i < |Newly(p, m)| ==> Newly(p, m)[i] in m.overlapping
  {
    SortedShown(m);
    var sorted, newly := SortByStart(m.overlapping), Newly(p, m);
    forall i | 0 <= i < |newly| ensures newly[i] in m.overlapping {
      assert newly[i] in newly && newly[i] in sorted;
    }
  }

  lemma MissedIff(p: Packing, missed: set<string>, before: Moment, m: Moment, id: string)
    requires Sound(p, missed, before) && Shown(m) && Follows(before, m) && id in MissedBy(p, missed, before, m)
    ensures p.Valid() && id in p.trackOf && id in Ticked(p, m).trackOf
    ensures Reaches(Ticked(p, m).ends[Ticked(p, m).trackOf[id]], m.spans[id], m.now) <==> StaysCovered(p, m, id)
  {
    Keyed(p, missed, before);
    TickSound(p, missed, before, m);
    var r, t := Ticked(p, m), p.trackOf[id];
    assert r == p.Tick(m.now, m.overlapping, m.spans, []);
    hide Ticked, Packing.Tick, Sound, Takes;
    StaysOn(p, m, id);
    InUseIff(p, m, t);
    if TrackInUse(r, m, t) {
      MissedCovered(r, m, MissedBy(p, missed, before, m), id);
    } else {
      TickUntouched(p, m, t);
    }
  }

  /** Every track stays recorded as busy until its spans end exactly when each span that ever closed unseen
      `StaysCovered`; this holds at every recomputation, however many closes were missed before it. */
  lemma CoveredIff(p: Packing, missed: set<string>, before: Moment, m: Moment)
    requires Sound(p, missed, before) && Shown(m) && Follows(before, m)
    ensures p.Valid() && MissedBy(p, missed, before, m) <= p.trackOf.Keys && Ticked(p, m).trackOf.Keys <= m.spans.Keys
    ensures AllCovered(Ticked(p, m), m) <==>
              forall id :: id in MissedBy(p, missed, before, m) ==> StaysCovered(p, m, id)
  {
    var late, r := MissedBy(p, missed, before, m), Ticked(p, m);
    Keyed(p, missed, before);
    TickSound(p, missed, before, m);
    assert r == p.Tick(m.now, m.overlapping, m.spans, []);
    Keyed(r, late, m);
    assert Covered(r, m, r.trackOf.Keys - late);
    hide Sound, Ticked, Packing.Tick, Reaches, StaysCovered;
    forall id | id in late
      ensures id in r.trackOf && (Reaches(r.ends[r.trackOf[id]], m.spans[id], m.now) <==> StaysCovered(p, m, id))
    {
      MissedIff(p, missed, before, m, id);
    }
  }

  /** The track of an open span is recorded as busy until `now`, no longer. */
  ghost predicate OpenEndsNow(p: Packing, m: Moment)
    requires p.Valid() && p.trackOf.Keys <= m.spans.Keys
  {
    forall id :: id in p.trackOf && m.spans[id].tEndMs.None? ==> p.ends[p.trackOf[id]] == Some(m.now)
  }

  lemma RefreshOpen(q: Packing, late: set<string>, m: Moment, recs: seq<Span>)
    requires q.Valid() && Shown(m) && late <= q.trackOf.Keys <= m.spans.Keys && Listed(m, recs) && SortedByStart(recs)
    requires forall i :: 0 <= i < |recs| ==> recs[i].spanId in q.trackOf
    requires forall id :: id in q.trackOf && Visible(m, m.spans[id]) ==> m.spans[id] in recs && id !in late
    requires Started(q, m)
    requires Disjoint(q, m, q.trackOf.Keys - late)
    ensures var r := q.AssignAll(recs, m.now, []); r.trackOf == q.trackOf && OpenEndsNow(r, m)
  {
    RefreshEnds(q, recs, m.now);
    forall id | id in q.trackOf && m.spans[id].tEndMs.None?
      ensures q.AssignAll(recs, m.now, []).ends[q.trackOf[id]] == Some(m.now)
    {
      RefreshOpenAt(q, late, m, recs, q.AssignAll(recs, m.now, []), id);
    }
  }

  lemma RefreshOpenAt(q: Packing, late: set<string>, m: Moment, recs: seq<Span>, r: Packing, id: string)
    requires q.Valid() && Shown(m) && late <= q.trackOf.Keys <= m.spans.Keys && Listed(m, recs) && SortedByStart(recs)
    requires forall c :: c in q.trackOf && Visible(m, m.spans[c]) ==> m.spans[c] in recs && c !in late
    requires Disjoint(q, m, q.trackOf.Keys - late)
    requires id in q.trackOf && m.spans[id].tEndMs.None? && m.spans[id].tStartMs < m.now && |r.ends| == |q.ends|
    requires var t := q.trackOf[id];
             || (r.ends[t] == q.ends[t] &&
                   forall i :: 0 <= i < |recs| ==> recs[i].spanId in q.trackOf && q.trackOf[recs[i].spanId] != t)
             || exists i :: LastOn(q, recs, i, t) && r.ends[t] == Some(End(recs[i], m.now))
    ensures r.ends[q.trackOf[id]] == Some(m.now)
  {
    var t := q.trackOf[id];
    assert Visible(m, m.spans[id]);
    var k :| 0 <= k < |recs| && recs[k] == m.spans[id];
    assert recs[k].spanId == id;
    hide Disjoint, SortedByStart, Shown;
    var i :| LastOn(q, recs, i, t) && r.ends[t] == Some(End(recs[i], m.now));
    OpenIsLast(q, late, m, recs, i, id);
  }

  /** Nothing shares a track with an open span and starts later. */
  lemma OpenIsLast(q: Packing, late: set<string>, m: Moment, recs: seq<Span>, i: int, id: string)
    requires q.Valid() && Shown(m) && late <= q.trackOf.Keys <= m.spans.Keys && Listed(m, recs) && SortedByStart(recs)
    requires forall c :: c in q.trackOf && Visible(m, m.spans[c]) ==> m.spans[c] in recs && c !in late
    requires Disjoint(q, m, q.trackOf.Keys - late)
    requires id in q.trackOf && m.spans[id].tEndMs.None? && m.spans[id].tStartMs < m.now
             && LastOn(q, recs, i, q.trackOf[id])
    ensures recs[i].spanId == id
  {
    var s, c := m.spans[id], recs[i];
    assert Visible(m, s) && Visible(m, c) && m.spans[c.spanId] == c;
    var k :| 0 <= k < |recs| && recs[k] == s;
    assert recs[k].spanId == id;
    if c.spanId != id {
      assert false;
    }
  }

  lemma PlaceOneOpen(q: Packing, m: Moment, s: Span)
    requires q.Valid() && q.trackOf.Keys <= m.spans.Keys && Listed(m, [s])
             && s.spanId !in q.trackOf && OpenEndsNow(q, m)
    ensures var r := q.Assign(s.spanId, s.tStartMs, End(s, m.now)); r.trackOf.Keys <= m.spans.Keys && OpenEndsNow(r, m)
  {
    assert [s][0] == s;
  }

  lemma {:induction false} PlaceOpen(q: Packing, m: Moment, recs: seq<Span>)
    requires q.Valid() && q.trackOf.Keys <= m.spans.Keys && Listed(m, recs) && NoDuplicates(recs) && OpenEndsNow(q, m)
    requires forall i :: 0 <= i < |recs| ==> recs[i].spanId !in q.trackOf
    ensures var r := q.AssignAll(recs, m.now, []);
            && r.trackOf.Keys <= m.spans.Keys && OpenEndsNow(r, m)
  {
    if recs != [] {
      var n := |recs| - 1;
      var r', r := q.AssignAll(recs[..n], m.now, []), q.AssignAll(recs, m.now, []);
      hide *;
      AssignStep(q, recs, m.now);
      PrefixListed(m, recs);
      OnlyAssigned(q, recs[..n], m.now, recs[n].spanId);
      assert forall i :: 0 <= i < n ==> recs[..n][i] == recs[i];
      assert Listed(m, recs[..n]) && NoDuplicates(recs[..n]);
      PlaceOpen(q, m, recs[..n]);
      PlaceOneOpen(r', m, recs[n]);
    } else {
      AssignStep(q, recs, m.now);
    }
  }

  lemma TickOpen(p: Packing, missed: set<string>, before: Moment, m: Moment)
    requires Sound(p, missed, before) && Shown(m) && Follows(before, m)
    ensures var r := p.Tick(m.now, m.overlapping, m.spans, []); r.trackOf.Keys <= m.spans.Keys && OpenEndsNow(r, m)
  {
    CarryOver(p, missed, before, m);
    var q, sorted := p.Prune(m.spans.Keys), SortByStart(m.overlapping);
    SortedShown(m);
    var already, newly := Filter(sorted, q.Tracked()), Filter(sorted, q.Untracked());
    FilterKeeps(sorted, q.Tracked());
    FilterKeeps(sorted, q.Untracked());
    FilteredAre(q, m, sorted);
    RefreshOpen(q, MissedBy(p, missed, before, m), m, already);
    PlaceOpen(q.AssignAll(already, m.now, []), m, newly);
  }

  lemma {:induction false} RunOpen(ms: seq<Moment>)
    requires Feed(ms) && ms != []
    ensures Run(ms).trackOf.Keys <= ms[|ms| - 1].spans.Keys && OpenEndsNow(Run(ms), ms[|ms| - 1])
  {
    var n := |ms| - 1;
    if n == 0 {
      var none := Moment(ms[0].now, [], map[]);
      assert Run(ms[..0]) == Fresh();
      TickOpen(Fresh(), {}, none, ms[0]);
    } else {
      RunSound(ms[..n]);
      TickOpen(Run(ms[..n]), Missed(ms[..n]), ms[n - 1], ms[n]);
    }
  }

  /** Until a first close has been missed, a newcomer is all that can keep the missed span's track busy. */
  lemma FirstMissTaken(p: Packing, before: Moment, m: Moment, id: string)
    requires Sound(p, {}, before) && OpenEndsNow(p, before) && Shown(m) && Follows(before, m)
    requires id in MissedBy(p, {}, before, m)
    ensures StaysCovered(p, m, id) <==> exists k :: Takes(p, m, k, p.trackOf[id])
  {
    hide Takes;
    var t := p.trackOf[id];
    if s :| s in m.overlapping && HoldsTrack(p, s.spanId, t) {
      assert false;
    }
  }

  /** In a run that has missed no close so far, every track stays recorded as busy long enough exactly when each
      span that closes unseen now has its track taken by a newcomer. */
  lemma FirstMissIff(ms: seq<Moment>, m: Moment)
    requires Feed(ms + [m]) && ms != [] && Missed(ms) == {}
    ensures var p, late := Run(ms), Missed(ms + [m]);
            && late <= p.trackOf.Keys && Run(ms + [m]).trackOf.Keys <= m.spans.Keys
            && (AllCovered(Run(ms + [m]), m) <==> forall id :: id in late ==> exists k :: Takes(p, m, k, p.trackOf[id]))
  {
    var p, before := Run(ms), ms[|ms| - 1];
    OneMore(ms, m);
    RunSound(ms);
    RunOpen(ms);
    assert Run(ms + [m]) == Ticked(p, m);
    hide Run, Missed, Feed, Ticked, Packing.Tick, Sound, Takes, StaysCovered;
    CoveredIff(p, {}, before, m);
    forall id | id in MissedBy(p, {}, before, m)
      ensures StaysCovered(p, m, id) <==> exists k :: Takes(p, m, k, p.trackOf[id])
    {
      FirstMissTaken(p, before, m, id);
    }
  }

  // ---- schedules --------------------------------------------------------------------------------------------------

  function Times(ms: seq<Moment>): seq<int> { seq(|ms|, i requires 0 <= i < |ms| => ms[i].now) }

  /** No two recomputations are further apart than the window is long. */
  predicate NoPause(times: seq<int>) { forall i :: 0 < i < |times| ==> times[i] - times[i - 1] <= WINDOW_MS }

  /** Without a pause every close is seen. */
  lemma {:induction false} NoPauseNoMiss(ms: seq<Moment>)
    requires Feed(ms) && NoPause(Times(ms))
    ensures Missed(ms) == {}
  {
    if |ms| > 1 {
      var n := |ms| - 1;
      LastFeed(ms);
      LastStep(ms);
      ShorterTimes(ms);
      hide Run, Packing.Tick, MissedBy, Missed, Feed, NoPause;
      NoPauseNoMiss(ms[..n]);
      NoMissNow(Run(ms[..n]), ms[n - 1], ms[n]);
    }
  }

  lemma ShorterTimes(ms: seq<Moment>)
    requires |ms| > 1 && NoPause(Times(ms))
    ensures var n := |ms| - 1; NoPause(Times(ms[..n])) && ms[n].now - ms[n - 1].now <= WINDOW_MS
  {
    var n := |ms| - 1;
    assert Times(ms)[n] - Times(ms)[n - 1] <= WINDOW_MS;
    assert Times(ms[..n]) == Times(ms)[..n];
  }

  lemma NoMissNow(p: Packing, before: Moment, m: Moment)
    requires Shown(m) && Follows(before, m) && m.now - before.now <= WINDOW_MS
    ensures MissedBy(p, {}, before, m) == {}
  {
  }

  // A pause between the times `t` and `r`: "a" closes just after `t`, "b" starts just before that.
  function OpenA(t: int): Span { ES.SpanRecord("a", t - 1, None, "", 0, 0, None) }

  function ClosedA(t: int): Span { ES.SpanRecord("a", t - 1, Some(t + 1), "", 0, 0, Some(0)) }

  function ClosedB(t: int, r: int): Span { ES.SpanRecord("b", t, Some(r), "", 0, 0, Some(1)) }

  function Quiet(now: int): Moment { Moment(now, [], map[]) }

  function Opened(t: int): Moment { Moment(t, [OpenA(t)], map["a" := OpenA(t)]) }

  function Resumed(t: int, r: int, now: int): Moment {
    Moment(now, if now - WINDOW_MS < r then [ClosedB(t, r)] else [], map["a" := ClosedA(t), "b" := ClosedB(t, r)])
  }

  /** Nothing until the pause, which starts at `times[i - 1]` and ends at `times[i]`. */
  function PauseRun(times: seq<int>, i: nat): (ms: seq<Moment>)
    requires 0 < i < |times|
    ensures |ms| == |times|
  {
    seq(|times|, j requires 0 <= j < |times| =>
      if j < i - 1 then Quiet(times[j]) else if j == i - 1 then Opened(times[j])
      else Resumed(times[i - 1], times[i], times[j]))
  }

  predicate Nondecreasing(times: seq<int>) { forall i, j :: 0 <= i <= j < |times| ==> times[i] <= times[j] }

  lemma QuietShown(t: int, r: int, now: int)
    requires t + WINDOW_MS < r
    ensures Shown(Quiet(t)) && Shown(Opened(t)) && (r <= now ==> Shown(Resumed(t, r, now)))
  {
    assert Visible(Opened(t), OpenA(t));
  }

  lemma PauseIsFeed(times: seq<int>, i: nat)
    requires 0 < i < |times| && Nondecreasing(times) && times[i] - times[i - 1] > WINDOW_MS
    ensures Feed(PauseRun(times, i)) && Times(PauseRun(times, i)) == times
  {
    var ms := PauseRun(times, i);
    forall j | 0 <= j < |ms| ensures Shown(ms[j]) && ms[j].now == times[j] {
      QuietShown(times[i - 1], times[i], times[j]);
      QuietShown(times[j], times[j] + WINDOW_MS + 1, 0);
      assert times[j] <= times[i - 1] || times[i] <= times[j];
    }
    hide Shown;
    forall j | 0 < j < |ms| ensures Follows(ms[j - 1], ms[j]) {
      assert times[j - 1] <= times[j];
    }
  }

  lemma SortOne(s: Span)
    ensures SortByStart([s]) == [s]
  {
    assert [s][..0] == [];
    assert SortByStart([]) == [];
  }

  /** A recomputation that shows a single span, not yet on a track. */
  lemma {:induction false} TickOne(p: Packing, now: int, s: Span, spans: map<string, Span>)
    requires p.Valid() && s.spanId !in p.trackOf
    ensures p.Tick(now, [s], spans, []) == p.Prune(spans.Keys).Assign(s.spanId, s.tStartMs, End(s, now))
  {
    SortOne(s);
    var q := p.Prune(spans.Keys);
    FilterOne(q, s);
    hide Filter, SortByStart, Packing.Assign, Packing.AssignAll;
    assert [s][..0] == [];
    AssignStep(q, [s], now);
    AssignStep(q, [], now);
  }

  lemma FilterOne(q: Packing, s: Span)
    requires s.spanId !in q.trackOf
    ensures Filter([s], q.Tracked()) == [] && Filter([s], q.Untracked()) == [s]
  {
    assert [s][..0] == [];
    assert Filter([], q.Tracked()) == [] && Filter([], q.Untracked()) == [];
  }

  lemma {:induction false} QuietRun(times: seq<int>, i: nat, j: nat)
    requires 0 < i < |times| && j < i
    ensures Run(PauseRun(times, i)[..j]) == Fresh()
  {
    if j > 0 {
      var ms := PauseRun(times, i);
      assert ms[j - 1] == Quiet(times[j - 1]);
      hide Run, PauseRun, Ticked, Quiet;
      QuietRun(times, i, j - 1);
      RunStep(ms, j - 1);
      QuietTick(times[j - 1]);
    }
  }

  lemma QuietTick(now: int)
    ensures Ticked(Fresh(), Quiet(now)) == Fresh()
  {
    var spans: map<string, Span> := map[];
    var q := Fresh().Prune(spans.Keys);
    assert q == Fresh();
    assert SortByStart([]) == [] && Filter([], q.Tracked()) == [] && Filter([], q.Untracked()) == [];
  }

  lemma OpenedTick(t: int)
    ensures var p := Ticked(Fresh(), Opened(t)); |p.ends| > 0 && p.ends[0] == Some(t) && p.trackOf == map["a" := 0]
  {
    var spans := Opened(t).spans;
    assert spans.Keys == {"a"};
    TickOne(Fresh(), t, OpenA(t), spans);
    hide Packing.Tick;
    assert Fresh().Prune({"a"}) == Fresh();
    assert Fresh().FirstFree(t - 1, 0) == 0;
  }

  lemma ResumedTick(p: Packing, t: int, r: int)
    requires p.Valid() && |p.ends| > 0 && p.ends[0] == Some(t) && p.trackOf == map["a" := 0]
    ensures Ticked(p, Resumed(t, r, r)).trackOf == map["a" := 0, "b" := 0]
  {
    var spans := Resumed(t, r, r).spans;
    assert spans.Keys == {"a", "b"};
    TickOne(p, r, ClosedB(t, r), spans);
    hide Packing.Tick, Packing.Assign;
    var q := p.Prune({"a", "b"});
    assert q.trackOf == p.trackOf && q.ends == p.ends;
    PlacesB(q, t, r);
  }

  lemma PlacesB(q: Packing, t: int, r: int)
    requires q.Valid() && |q.ends| > 0 && q.ends[0] == Some(t) && q.trackOf == map["a" := 0]
    ensures q.Assign("b", t, r).trackOf == map["a" := 0, "b" := 0]
  {
    assert q.FirstFree(t, 0) == 0;
  }

  lemma RunStep(ms: seq<Moment>, j: nat)
    requires j < |ms|
    ensures Run(ms[..j + 1]) == Ticked(Run(ms[..j]), ms[j])
  {
    Prefix(ms, j);
    hide Packing.Tick;
  }

  lemma RunAtPause(times: seq<int>, i: nat)
    requires 0 < i < |times|
    ensures Run(PauseRun(times, i)[..i + 1]).trackOf == map["a" := 0, "b" := 0]
  {
    var ms := PauseRun(times, i);
    QuietRun(times, i, i - 1);
    assert ms[i - 1] == Opened(times[i - 1]) && ms[i] == Resumed(times[i - 1], times[i], times[i]);
    hide *;
    TwoTicks(ms, i, times[i - 1], times[i]);
  }

  lemma TwoTicks(ms: seq<Moment>, i: nat, t: int, r: int)
    requires 0 < i < |ms| && Run(ms[..i - 1]) == Fresh() && ms[i - 1] == Opened(t) && ms[i] == Resumed(t, r, r)
    ensures Run(ms[..i + 1]).trackOf == map["a" := 0, "b" := 0]
  {
    hide *;
    var j := i - 1;
    RunStep(ms, j);
    OpenedTick(t);
    RunStep(ms, i);
    ResumedTick(Run(ms[..i]), t, r);
  }

  /** Any schedule with a pause has a feed that ends with two retained spans overlapping on track 0. */
  lemma PauseOverlaps(times: seq<int>, i: nat)
    requires 0 < i < |times| && Nondecreasing(times) && times[i] - times[i - 1] > WINDOW_MS
    ensures var ms := PauseRun(times, i);
            && Feed(ms) && Times(ms) == times
            && HoldsTogether(Run(ms), "a", "b") && Overlapping(ms[|ms| - 1], "a", "b")
  {
    hide *;
    var ms := PauseRun(times, i);
    PauseIsFeed(times, i);
    RunAtPause(times, i);
    LastOverlaps(times, i);
    RetainedAfter(times, i);
    var now, later := ms[..i + 1], ms[i + 1..];
    assert ms == now + later;
    TrackIsSticky(now, later, "a");
    TrackIsSticky(now, later, "b");
    Together(Run(ms));
  }

  lemma Together(p: Packing)
    requires "a" in p.trackOf && "b" in p.trackOf && p.trackOf["a"] == p.trackOf["b"]
    ensures HoldsTogether(p, "a", "b")
  {
  }

  lemma RetainedAfter(times: seq<int>, i: nat)
    requires 0 < i < |times|
    ensures var later := PauseRun(times, i)[i + 1..];
            forall j :: 0 <= j < |later| ==> "a" in later[j].spans && "b" in later[j].spans
  {
  }

  lemma LastOverlaps(times: seq<int>, i: nat)
    requires 0 < i < |times| && times[i] - times[i - 1] > WINDOW_MS
    ensures Overlapping(PauseRun(times, i)[|times| - 1], "a", "b")
  {
  }

  predicate Overlapping(m: Moment, a: string, b: string) {
    a in m.spans && b in m.spans && !Apart(m.spans[a], m.spans[b], m.now)
  }

  /** Every feed on schedule `times` ends with all pairs apart. */
  ghost predicate Safe(times: seq<int>) {
    forall ms :: Feed(ms) && Times(ms) == times ==> FeedApart(ms)
  }

  ghost predicate FeedApart(ms: seq<Moment>) {
    forall a, b :: HoldsTogether(Run(ms), a, b) ==> ms != [] && PairApart(ms[|ms| - 1], a, b)
  }

  /** The condition on the schedule alone: no two spans on a track can ever overlap if and only if no pause
      between recomputations is longer than the window. */
  lemma SafeIffNoPause(times: seq<int>)
    requires Nondecreasing(times)
    ensures Safe(times) <==> NoPause(times)
  {
    if NoPause(times) {
      forall ms | Feed(ms) && Times(ms) == times ensures FeedApart(ms) {
        NoPauseApart(ms);
      }
    } else {
      var i :| 0 < i < |times| && times[i] - times[i - 1] > WINDOW_MS;
      PauseUnsafe(times, i);
    }
  }

  lemma PauseUnsafe(times: seq<int>, i: nat)
    requires 0 < i < |times| && Nondecreasing(times) && times[i] - times[i - 1] > WINDOW_MS
    ensures !Safe(times)
  {
    PauseOverlaps(times, i);
    var ms := PauseRun(times, i);
    hide Run, Feed, PauseRun, Apart;
    assert !PairApart(ms[|ms| - 1], "a", "b");
    hide *;
    UnsafeFeed(times, ms, "a", "b");
  }

  lemma UnsafeFeed(times: seq<int>, ms: seq<Moment>, a: string, b: string)
    requires Feed(ms) && Times(ms) == times && ms != []
    requires HoldsTogether(Run(ms), a, b) && !PairApart(ms[|ms| - 1], a, b)
    ensures !Safe(times)
  {
    hide Run, Feed, Times, PairApart, HoldsTogether;
    assert !FeedApart(ms);
  }

  lemma NoPauseApart(ms: seq<Moment>)
    requires Feed(ms) && NoPause(Times(ms))
    ensures FeedApart(ms)
  {
    NoPauseNoMiss(ms);
    if ms == [] {
      assert Run(ms) == Fresh();
    } else {
      hide Run, Feed, Missed, Apart;
      forall a, b | HoldsTogether(Run(ms), a, b) ensures PairApart(ms[|ms| - 1], a, b) {
        TracksNeverOverlap(ms, a, b);
      }
    }
  }

  /** A view that was recomputed at one second and resumed at five minutes. */
  lemma PausedCloseOverlaps()
    ensures var ms := PauseRun([1000, 300000], 1);
            Feed(ms) && HoldsTogether(Run(ms), "a", "b") && Overlapping(ms[1], "a", "b")
  {
    PauseOverlaps([1000, 300000], 1);
  }
}
