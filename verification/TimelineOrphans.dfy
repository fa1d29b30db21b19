/**
 Orphaned spans in the timeline: which spans a recomputation refreshes, until when each keeps its track busy,
 and why nothing new is packed over an orphan's tail.
 */
module TimelineOrphans {
  import opened Prelude
  import opened Timeline
  import opened TimelineRuns

  /** Each record is kept under its own id. */
  predicate Keyed(spans: map<string, Span>) { forall id :: id in spans ==> spans[id].spanId == id }

  /** The spans a recomputation looks at: those that overlap the window, and every retained orphan that does not. */
  lemma {:induction false} TrackableIff(overlapping: seq<Span>, spans: map<string, Span>, orphaned: seq<string>,
                                        s: Span)
    requires Keyed(spans)
    ensures s in Trackable(overlapping, spans, orphaned) <==>
              || s in overlapping
              || (s.spanId in orphaned && s.spanId in spans && spans[s.spanId] == s
                  && forall o :: o in overlapping ==> o.spanId != s.spanId)
  {
    if orphaned != [] {
      var n := |orphaned| - 1;
      var id, before := orphaned[n], Trackable(overlapping, spans, orphaned[..n]);
      assert orphaned == orphaned[..n] + [id];
      TrackableIff(overlapping, spans, orphaned[..n], s);
      if id in spans {
        TrackableIff(overlapping, spans, orphaned[..n], spans[id]);
        if i :| 0 <= i < |before| && before[i].spanId == id {
          TrackableIff(overlapping, spans, orphaned[..n], before[i]);
        }
        forall o | o in overlapping ensures o in before {
          TrackableIff(overlapping, spans, orphaned[..n], o);
        }
      }
    }
  }

  predicate OnTrack(q: Packing, s: Span, t: nat) { s.spanId in q.trackOf && q.trackOf[s.spanId] == t }

  /** What the first pass leaves: every span that holds a track refreshed, none placed. */
  ghost function FirstPass(p: Packing, now: int, overlapping: seq<Span>, spans: map<string, Span>,
                           orphaned: seq<string>): (r: Packing)
    requires p.Valid()
    ensures r.Valid() && |r.ends| == |p.ends|
  {
    var q := p.Prune(spans.Keys);
    q.AssignAll(Filter(SortByStart(Trackable(overlapping, spans, orphaned)), q.Tracked()), now, orphaned)
  }

  /** `s` is the last to start of the trackable spans on track `t`. */
  predicate StartsLast(q: Packing, trackable: seq<Span>, s: Span, t: nat) {
    s in trackable && OnTrack(q, s, t) && forall u :: u in trackable && OnTrack(q, u, t) ==> u.tStartMs <= s.tStartMs
  }

  /** After the first pass a track is busy until its last-starting trackable span lets go of it: now, for an
      orphan. A track no trackable span is on keeps its end. */
  lemma FirstPassEnds(p: Packing, now: int, overlapping: seq<Span>, spans: map<string, Span>, orphaned: seq<string>,
                      t: nat)
    requires p.Valid() && t < |p.ends|
    ensures var q, trackable := p.Prune(spans.Keys), Trackable(overlapping, spans, orphaned);
            var r := FirstPass(p, now, overlapping, spans, orphaned);
            && r.trackOf == q.trackOf
            && ((r.ends[t] == p.ends[t] && forall s :: s in trackable ==> !OnTrack(q, s, t))
                || exists s :: StartsLast(q, trackable, s, t) && r.ends[t] == Some(BusyUntil(s, now, orphaned)))
  {
    var q, trackable := p.Prune(spans.Keys), Trackable(overlapping, spans, orphaned);
    var already, r := Filter(SortByStart(trackable), q.Tracked()), FirstPass(p, now, overlapping, spans, orphaned);
    assert r == q.AssignAll(already, now, orphaned) && q.ends == p.ends;
    hide *;
    PickedTracked(q, trackable);
    RefreshedEnds(q, already, trackable, r, now, orphaned, t);
  }

  lemma PickedTracked(q: Packing, trackable: seq<Span>)
    ensures var already := Filter(SortByStart(trackable), q.Tracked());
            && SortedByStart(already)
            && (forall i :: 0 <= i < |already| ==> already[i].spanId in q.trackOf)
            && forall s :: s in already <==> s in trackable && s.spanId in q.trackOf
  {
    hide Filter, SortByStart;
    Picked(trackable, q.Tracked());
  }

  lemma PickedUntracked(q: Packing, trackable: seq<Span>)
    ensures var newly := Filter(SortByStart(trackable), q.Untracked());
            && SortedByStart(newly)
            && forall i :: 0 <= i < |newly| ==> newly[i].spanId !in q.trackOf && newly[i] in trackable
  {
    hide Filter, SortByStart;
    Picked(trackable, q.Untracked());
  }

  lemma RefreshedEnds(q: Packing, already: seq<Span>, trackable: seq<Span>, r: Packing, now: int, orphaned: seq<string>,
                      t: nat)
    requires q.Valid() && t < |q.ends| && SortedByStart(already) && r == q.AssignAll(already, now, orphaned)
    requires forall i :: 0 <= i < |already| ==> already[i].spanId in q.trackOf
    requires forall s :: s in already <==> s in trackable && s.spanId in q.trackOf
    ensures r.trackOf == q.trackOf
    ensures (r.ends[t] == q.ends[t] && forall s :: s in trackable ==> !OnTrack(q, s, t))
            || exists s :: StartsLast(q, trackable, s, t) && r.ends[t] == Some(BusyUntil(s, now, orphaned))
  {
    hide Packing.AssignAll, BusyUntil, StartsLast, OnTrack, SortedByStart;
    RefreshEndsWith(q, already, now, orphaned);
    LastIsLatest(q, already, trackable, t);
    if i :| LastOn(q, already, i, t) && r.ends[t] == Some(BusyUntil(already[i], now, orphaned)) {
      assert StartsLast(q, trackable, already[i], t);
    } else {
      NobodyOn(q, already, trackable, t);
    }
  }

  /** The spans a pass takes, in start order. */
  lemma Picked(trackable: seq<Span>, keep: Span -> bool)
    ensures var picked := Filter(SortByStart(trackable), keep);
            && SortedByStart(picked)
            && (forall s :: s in picked <==> s in trackable && keep(s))
            && forall i :: 0 <= i < |picked| ==> keep(picked[i]) && picked[i] in trackable
  {
    var sorted := SortByStart(trackable);
    FilterKeepsOrder(sorted, keep);
    forall s ensures s in sorted <==> s in trackable {
      assert s in sorted <==> s in multiset(sorted);
      assert s in trackable <==> s in multiset(trackable);
    }
    var picked := Filter(sorted, keep);
    forall i | 0 <= i < |picked| ensures keep(picked[i]) && picked[i] in trackable {
      assert picked[i] in picked;
    }
  }

  lemma NobodyOn(q: Packing, already: seq<Span>, trackable: seq<Span>, t: nat)
    requires forall s :: s in already <==> s in trackable && s.spanId in q.trackOf
    requires forall i :: 0 <= i < |already| ==> already[i].spanId in q.trackOf && q.trackOf[already[i].spanId] != t
    ensures forall s :: s in trackable ==> !OnTrack(q, s, t)
  {
    forall s | s in trackable ensures !OnTrack(q, s, t) {
      if s in already {
        var k :| 0 <= k < |already| && already[k] == s;
      }
    }
  }

  lemma LastIsLatest(q: Packing, already: seq<Span>, trackable: seq<Span>, t: nat)
    requires SortedByStart(already) && forall s :: s in already <==> s in trackable && s.spanId in q.trackOf
    ensures forall i :: LastOn(q, already, i, t) ==> StartsLast(q, trackable, already[i], t)
  {
    forall i | LastOn(q, already, i, t) ensures StartsLast(q, trackable, already[i], t) {
      assert already[i] in already;
      forall u | u in trackable && OnTrack(q, u, t) ensures u.tStartMs <= already[i].tStartMs {
        assert u in already;
        var k :| 0 <= k < |already| && already[k] == u;
        assert k <= i;
      }
    }
  }

  /** Placing new spans in start order puts nothing that starts before `e` on a track busy until `e`. */
  lemma {:induction false} NothingBefore(q: Packing, recs: seq<Span>, now: int, orphaned: seq<string>, t: nat, e: int)
    requires q.Valid() && t < |q.ends| && q.ends[t] == Some(e) && SortedByStart(recs)
    requires forall i :: 0 <= i < |recs| ==> recs[i].spanId !in q.trackOf
    ensures var r := q.AssignAll(recs, now, orphaned);
            && (forall id :: id in r.trackOf && id !in q.trackOf && r.trackOf[id] == t ==> StartsFrom(recs, id, e))
            && (r.ends[t] == Some(e) || exists k :: 0 <= k < |recs| && e <= recs[k].tStartMs)
  {
    if recs != [] {
      var n := |recs| - 1;
      NothingBefore(q, recs[..n], now, orphaned, t, e);
      assert forall k :: 0 <= k < n ==> recs[..n][k] == recs[k];
      var r', r := q.AssignAll(recs[..n], now, orphaned), q.AssignAll(recs, now, orphaned);
      var s := recs[n];
      assert r == r'.Assign(s.spanId, s.tStartMs, EffectiveEnd(s, now, orphaned));
      hide Packing.AssignAll, EffectiveEnd;
      forall id | StartsFrom(recs[..n], id, e) ensures StartsFrom(recs, id, e) {
        var k :| 0 <= k < n && recs[..n][k].spanId == id && e <= recs[..n][k].tStartMs;
        assert recs[k].spanId == id;
      }
      if OnTrack(r, s, t) {
        assert e <= s.tStartMs by {
          if k :| 0 <= k < n && e <= recs[..n][k].tStartMs {
            assert recs[k].tStartMs <= s.tStartMs;
          } else {
            assert r'.ends[t] == Some(e) && forall id :: !StartsFrom(recs[..n], id, e);
          }
        }
        assert StartsFrom(recs, s.spanId, e);
      }
    }
  }

  /** One of `recs` is `id`'s, and starts no earlier than `e`. */
  predicate StartsFrom(recs: seq<Span>, id: string, e: int) {
    exists k :: 0 <= k < |recs| && recs[k].spanId == id && e <= recs[k].tStartMs
  }

  /**
   While the spans that start last on a track are orphaned or still open, the recomputation records the track as
   busy until now, and puts no new span on it that starts before now.
   */
  lemma OrphanTailIsFree(p: Packing, now: int, overlapping: seq<Span>, spans: map<string, Span>, orphaned: seq<string>,
                         t: nat)
    requires p.Valid() && t < |p.ends|
    requires var q, trackable := p.Prune(spans.Keys), Trackable(overlapping, spans, orphaned);
             && (exists s :: s in trackable && OnTrack(q, s, t))
             && forall s :: StartsLast(q, trackable, s, t) ==> s.spanId in orphaned || s.tEndMs == None
    ensures FirstPass(p, now, overlapping, spans, orphaned).ends[t] == Some(now)
    ensures var after, trackable := p.Tick(now, overlapping, spans, orphaned), Trackable(overlapping, spans, orphaned);
            forall id :: id in after.trackOf && id !in p.Prune(spans.Keys).trackOf && after.trackOf[id] == t ==>
              StartsFrom(trackable, id, now)
  {
    var q, trackable := p.Prune(spans.Keys), Trackable(overlapping, spans, orphaned);
    var r, newly := FirstPass(p, now, overlapping, spans, orphaned), Filter(SortByStart(trackable), q.Untracked());
    FirstPassEnds(p, now, overlapping, spans, orphaned, t);
    assert p.Tick(now, overlapping, spans, orphaned) == r.AssignAll(newly, now, orphaned);
    BusyNow(q, trackable, now, orphaned, t);
    hide *;
    PickedUntracked(q, trackable);
    NothingBefore(r, newly, now, orphaned, t, now);
    PickedStarts(newly, trackable, now);
  }

  lemma BusyNow(q: Packing, trackable: seq<Span>, now: int, orphaned: seq<string>, t: nat)
    requires forall s :: StartsLast(q, trackable, s, t) ==> s.spanId in orphaned || s.tEndMs == None
    ensures forall s :: StartsLast(q, trackable, s, t) ==> BusyUntil(s, now, orphaned) == now
  {
    hide StartsLast;
  }

  lemma PickedStarts(newly: seq<Span>, trackable: seq<Span>, now: int)
    requires forall i :: 0 <= i < |newly| ==> newly[i] in trackable
    ensures forall id :: StartsFrom(newly, id, now) ==> StartsFrom(trackable, id, now)
  {
    forall id | StartsFrom(newly, id, now) ensures StartsFrom(trackable, id, now) {
      var k :| 0 <= k < |newly| && newly[k].spanId == id && now <= newly[k].tStartMs;
      var j :| 0 <= j < |trackable| && trackable[j] == newly[k];
    }
  }

  /** A retained orphan that holds a track is refreshed even when the window no longer shows it. */
  lemma OrphanRefreshed(p: Packing, now: int, overlapping: seq<Span>, spans: map<string, Span>, orphaned: seq<string>,
                        id: string)
    requires p.Valid() && Keyed(spans) && id in orphaned && id in spans && id in p.trackOf
    requires forall o :: o in overlapping ==> o.spanId != id
    ensures spans[id] in Trackable(overlapping, spans, orphaned)
    ensures exists s :: StartsLast(p.Prune(spans.Keys), Trackable(overlapping, spans, orphaned), s, p.trackOf[id])
                        && FirstPass(p, now, overlapping, spans, orphaned).ends[p.trackOf[id]]
                           == Some(BusyUntil(s, now, orphaned))
  {
    TrackableIff(overlapping, spans, orphaned, spans[id]);
    FirstPassEnds(p, now, overlapping, spans, orphaned, p.trackOf[id]);
    hide Trackable, FirstPass, BusyUntil;
    assert OnTrack(p.Prune(spans.Keys), spans[id], p.trackOf[id]);
  }
}
