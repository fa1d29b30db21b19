/**
 What track packing guarantees over a whole run of timeline recomputations, none of them with an
 orphaned span: spans sharing a track stay apart for as long as the store retains them, unless one of
 them closed out of sight of every recomputation.
 */
module TimelineRuns {
  import opened Prelude
  import opened Timeline
  import ES = EventStore

  /** What one recomputation is given: the time, the spans overlapping the window, all retained spans. */
  datatype Moment = Moment(now: int, overlapping: seq<Span>, spans: map<string, Span>)

  /** The end a span is packed with: an open span runs to `now`. */
  function End(s: Span, now: int): int { if s.tEndMs.Some? then s.tEndMs.value else now }

  predicate Visible(m: Moment, s: Span) { ES.Overlaps(s, m.now - WINDOW_MS, m.now) }

  /** The store's side of one recomputation: the window query is exact, closed spans have a length. */
  ghost predicate Shown(m: Moment) {
    && (forall id :: id in m.spans ==> m.spans[id].spanId == id)
    && (forall id :: id in m.spans && m.spans[id].tEndMs.Some? ==> m.spans[id].tStartMs < m.spans[id].tEndMs.value)
    && (forall r :: r in m.overlapping ==> r.spanId in m.spans && m.spans[r.spanId] == r && Visible(m, r))
    && (forall id :: id in m.spans && Visible(m, m.spans[id]) ==> m.spans[id] in m.overlapping)
    && NoDuplicates(m.overlapping)
  }

  /** Time does not go back; a span retained throughout keeps its start, and its end once it has one. */
  ghost predicate Follows(before: Moment, m: Moment) {
    && before.now <= m.now
    && forall id :: id in before.spans && id in m.spans ==>
         && m.spans[id].tStartMs == before.spans[id].tStartMs
         && (before.spans[id].tEndMs.Some? ==> m.spans[id].tEndMs == before.spans[id].tEndMs)
  }

  ghost predicate Feed(ms: seq<Moment>) {
    && (forall i :: 0 <= i < |ms| ==> Shown(ms[i]))
    && (forall i :: 0 < i < |ms| ==> Follows(ms[i - 1], ms[i]))
  }

  ghost function Fresh(): (p: Packing)
    ensures p.Valid()
  {
    Packing(seq(MAX_TRACKS, i => None), map[])
  }

  /** The packing after a run. */
  ghost function Run(ms: seq<Moment>): (p: Packing)
    ensures p.Valid()
  {
    if ms == [] then Fresh()
    else
      var m := ms[|ms| - 1];
      Run(ms[..|ms| - 1]).Tick(m.now, m.overlapping, m.spans, [])
  }

  /** `id` was open at `before` and closed since, after it, yet already out of the window at `m`. */
  ghost predicate ClosedUnseen(before: Moment, m: Moment, id: string) {
    && id in before.spans && id in m.spans && before.spans[id].tEndMs.None? && m.spans[id].tEndMs.Some?
    && before.now < m.spans[id].tEndMs.value <= m.now - WINDOW_MS
  }

  /** The spans still holding a track that closed without any recomputation seeing their end. */
  ghost function Missed(ms: seq<Moment>): set<string> {
    if |ms| < 2 then {} else MissedBy(Run(ms[..|ms| - 1]), Missed(ms[..|ms| - 1]), ms[|ms| - 2], ms[|ms| - 1])
  }

  ghost function MissedBy(p: Packing, missed: set<string>, before: Moment, m: Moment): set<string> {
    set id | id in p.trackOf && id in m.spans && (id in missed || ClosedUnseen(before, m, id))
  }

  predicate Apart(a: Span, b: Span, now: int) { End(a, now) <= b.tStartMs || End(b, now) <= a.tStartMs }

  /** Spans of `ids` that share a track do not overlap. */
  ghost predicate Disjoint(p: Packing, m: Moment, ids: set<string>)
    requires ids <= p.trackOf.Keys && ids <= m.spans.Keys
  {
    forall a, b :: a in ids && b in ids && a != b && p.trackOf[a] == p.trackOf[b]
      ==> Apart(m.spans[a], m.spans[b], m.now)
  }

  predicate Started(p: Packing, m: Moment)
    requires p.trackOf.Keys <= m.spans.Keys
  {
    forall id :: id in p.trackOf ==> m.spans[id].tStartMs < m.now
  }

  /** The recorded end of a track is no earlier than the end of `s`. */
  ghost predicate Reaches(end: Option<int>, s: Span, now: int) { end.Some? && End(s, now) <= end.value }

  ghost predicate Covered(p: Packing, m: Moment, ids: set<string>)
    requires p.Valid() && ids <= p.trackOf.Keys && ids <= m.spans.Keys
  {
    forall id :: id in ids ==> Reaches(p.ends[p.trackOf[id]], m.spans[id], m.now)
  }

  /** What holds between recomputations. */
  ghost predicate Sound(p: Packing, missed: set<string>, m: Moment) {
    && p.Valid() && missed <= p.trackOf.Keys <= m.spans.Keys
    && Started(p, m)
    && (forall id :: id in missed ==> m.spans[id].tEndMs.Some? && m.spans[id].tEndMs.value <= m.now - WINDOW_MS)
    && Disjoint(p, m, p.trackOf.Keys - missed)
    && Covered(p, m, p.trackOf.Keys - missed)
  }

  // ---- one recomputation --------------------------------------------------------------------------------

  lemma StillApart(before: Moment, m: Moment, a: string, b: string)
    requires Follows(before, m) && {a, b} <= before.spans.Keys && {a, b} <= m.spans.Keys
    requires before.spans[a].tStartMs < before.now && before.spans[b].tStartMs < before.now
    requires Apart(before.spans[a], before.spans[b], before.now)
    ensures Apart(m.spans[a], m.spans[b], m.now)
  {
  }

  /** Before anything is refreshed: the settled spans are apart, and those out of sight are covered. */
  lemma CarryOver(p: Packing, missed: set<string>, before: Moment, m: Moment)
    requires Sound(p, missed, before) && Shown(m) && Follows(before, m)
    ensures var q, late := p.Prune(m.spans.Keys), MissedBy(p, missed, before, m);
            && late <= q.trackOf.Keys <= m.spans.Keys
            && Disjoint(q, m, q.trackOf.Keys - late)
            && Started(q, m)
            && (forall id :: id in late ==> m.spans[id].tEndMs.Some? && m.spans[id].tEndMs.value <= m.now - WINDOW_MS)
            && forall id :: id in q.trackOf && id !in late && !Visible(m, m.spans[id]) ==>
                 End(m.spans[id], m.now) <= m.now - WINDOW_MS && Reaches(q.ends[q.trackOf[id]], m.spans[id], m.now)
  {
    var q, late := p.Prune(m.spans.Keys), MissedBy(p, missed, before, m);
    forall a, b | a in q.trackOf && b in q.trackOf && a !in late && b !in late && a != b && q.trackOf[a] == q.trackOf[b]
      ensures Apart(m.spans[a], m.spans[b], m.now)
    {
      StillApart(before, m, a, b);
    }
  }

  lemma AssignStep(q: Packing, recs: seq<Span>, now: int)
    requires q.Valid()
    ensures q.AssignAll([], now, []) == q
    ensures recs != [] ==>
              var n := |recs| - 1;
              q.AssignAll(recs, now, []) ==
                q.AssignAll(recs[..n], now, []).Assign(recs[n].spanId, recs[n].tStartMs, End(recs[n], now))
  {
    hide Packing.Assign;
  }

  /** Until when a span keeps its track busy: an orphan or an open span until now, any other until its end. */
  function BusyUntil(s: Span, now: int, orphaned: seq<string>): int {
    if s.spanId in orphaned || s.tEndMs == None then now else s.tEndMs.value
  }

  /** Refreshing spans that all hold tracks: each track ends where its last refreshed span does. */
  lemma {:induction false} RefreshEndsWith(q: Packing, recs: seq<Span>, now: int, orphaned: seq<string>)
    requires q.Valid() && forall i :: 0 <= i < |recs| ==> recs[i].spanId in q.trackOf
    ensures var r := q.AssignAll(recs, now, orphaned);
            && r.trackOf == q.trackOf
            && forall t :: 0 <= t < |q.ends| ==>
                 || (r.ends[t] == q.ends[t] && forall i :: 0 <= i < |recs| ==> q.trackOf[recs[i].spanId] != t)
                 || exists i :: LastOn(q, recs, i, t) && r.ends[t] == Some(BusyUntil(recs[i], now, orphaned))
  {
    if recs != [] {
      var n := |recs| - 1;
      RefreshEndsWith(q, recs[..n], now, orphaned);
      var r', r := q.AssignAll(recs[..n], now, orphaned), q.AssignAll(recs, now, orphaned);
      assert r == r'.Assign(recs[n].spanId, recs[n].tStartMs, BusyUntil(recs[n], now, orphaned));
      hide Packing.AssignAll;
      forall t | 0 <= t < |q.ends|
        ensures || (r.ends[t] == q.ends[t] && forall i :: 0 <= i < |recs| ==> q.trackOf[recs[i].spanId] != t)
                || exists i :: LastOn(q, recs, i, t) && r.ends[t] == Some(BusyUntil(recs[i], now, orphaned))
      {
        if t == q.trackOf[recs[n].spanId] {
          assert LastOn(q, recs, n, t);
        } else {
          assert r.ends[t] == r'.ends[t];
          if i :| LastOn(q, recs[..n], i, t) && r'.ends[t] == Some(BusyUntil(recs[..n][i], now, orphaned)) {
            LastStays(q, recs, i, t);
          } else {
            assert forall i :: 0 <= i < n ==> recs[..n][i] == recs[i];
          }
        }
      }
    }
  }

  lemma RefreshEnds(q: Packing, recs: seq<Span>, now: int)
    requires q.Valid() && forall i :: 0 <= i < |recs| ==> recs[i].spanId in q.trackOf
    ensures var r := q.AssignAll(recs, now, []);
            && r.trackOf == q.trackOf
            && forall t :: 0 <= t < |q.ends| ==>
                 || (r.ends[t] == q.ends[t] && forall i :: 0 <= i < |recs| ==> q.trackOf[recs[i].spanId] != t)
                 || exists i :: LastOn(q, recs, i, t) && r.ends[t] == Some(End(recs[i], now))
  {
    RefreshEndsWith(q, recs, now, []);
    assert forall s: Span :: BusyUntil(s, now, []) == End(s, now);
    hide Packing.AssignAll, LastOn, BusyUntil, End;
  }

  lemma LastStays(q: Packing, recs: seq<Span>, i: int, t: int)
    requires recs != [] && LastOn(q, recs[..|recs| - 1], i, t)
    requires recs[|recs| - 1].spanId in q.trackOf && q.trackOf[recs[|recs| - 1].spanId] != t
    ensures LastOn(q, recs, i, t) && recs[..|recs| - 1][i] == recs[i]
  {
    assert forall j :: 0 <= j < |recs| - 1 ==> recs[..|recs| - 1][j] == recs[j];
  }

  ghost predicate LastOn(q: Packing, recs: seq<Span>, i: int, t: int) {
    && 0 <= i < |recs| && recs[i].spanId in q.trackOf && q.trackOf[recs[i].spanId] == t
    && forall j :: i < j < |recs| ==> recs[j].spanId in q.trackOf && q.trackOf[recs[j].spanId] != t
  }

  /** `recs` are retained spans the window shows. */
  ghost predicate Listed(m: Moment, recs: seq<Span>) {
    forall i :: 0 <= i < |recs| ==>
      recs[i].spanId in m.spans && m.spans[recs[i].spanId] == recs[i] && Visible(m, recs[i])
  }

  /** The first pass leaves every settled span covered: the last span refreshed on a track ends last. */
  lemma AfterRefresh(q: Packing, late: set<string>, m: Moment, recs: seq<Span>)
    requires q.Valid() && Shown(m) && late <= q.trackOf.Keys <= m.spans.Keys && Listed(m, recs) && SortedByStart(recs)
    requires forall i :: 0 <= i < |recs| ==> recs[i].spanId in q.trackOf
    requires forall id :: id in q.trackOf && Visible(m, m.spans[id]) ==> m.spans[id] in recs && id !in late
    requires Disjoint(q, m, q.trackOf.Keys - late)
    requires forall id :: id in q.trackOf && id !in late && !Visible(m, m.spans[id]) ==>
               End(m.spans[id], m.now) <= m.now - WINDOW_MS && Reaches(q.ends[q.trackOf[id]], m.spans[id], m.now)
    ensures var r := q.AssignAll(recs, m.now, []);
            r.trackOf == q.trackOf && Disjoint(r, m, q.trackOf.Keys - late) && Covered(r, m, q.trackOf.Keys - late)
  {
    RefreshEnds(q, recs, m.now);
    var r := q.AssignAll(recs, m.now, []);
    forall id | id in q.trackOf && id !in late ensures Reaches(r.ends[q.trackOf[id]], m.spans[id], m.now) {
      var t := q.trackOf[id];
      if r.ends[t] == q.ends[t] && forall i :: 0 <= i < |recs| ==> q.trackOf[recs[i].spanId] != t {
        assert !Visible(m, m.spans[id]);
      } else {
        var i :| LastOn(q, recs, i, t) && r.ends[t] == Some(End(recs[i], m.now));
        LastReaches(q, late, m, recs, i, id);
      }
    }
  }

  lemma LastReaches(q: Packing, late: set<string>, m: Moment, recs: seq<Span>, i: int, id: string)
    requires q.Valid() && Shown(m) && late <= q.trackOf.Keys <= m.spans.Keys && Listed(m, recs) && SortedByStart(recs)
    requires forall c :: c in q.trackOf && Visible(m, m.spans[c]) ==> m.spans[c] in recs && c !in late
    requires Disjoint(q, m, q.trackOf.Keys - late)
    requires id in q.trackOf && id !in late && LastOn(q, recs, i, q.trackOf[id])
    requires !Visible(m, m.spans[id]) ==> End(m.spans[id], m.now) <= m.now - WINDOW_MS
    ensures End(m.spans[id], m.now) <= End(recs[i], m.now)
  {
    var c := recs[i];
    assert Visible(m, c) && c.spanId !in late && m.spans[c.spanId] == c;
    if Visible(m, m.spans[id]) && id != c.spanId {
      var k :| 0 <= k < |recs| && recs[k] == m.spans[id];
      assert recs[k].spanId == id;
      assert k < i;
      assert Apart(m.spans[id], c, m.now);
    }
  }

  lemma DistinctIds(m: Moment, recs: seq<Span>)
    requires Listed(m, recs) && NoDuplicates(recs)
    ensures forall i, j :: 0 <= i < j < |recs| ==> recs[i].spanId != recs[j].spanId
  {
  }

  lemma Placed(q: Packing, id: string, start: int, end: int)
    requires q.Valid() && id !in q.trackOf
    ensures var r := q.Assign(id, start, end);
            r == q || (id in r.trackOf && Free(q.ends[r.trackOf[id]], start)
                       && r == Packing(q.ends[r.trackOf[id] := Some(end)], q.trackOf[id := r.trackOf[id]]))
  {
  }

  /** Every settled span on the track ends before the new one starts. */
  lemma PlacedApart(q: Packing, late: set<string>, m: Moment, s: Span, a: string)
    requires q.Valid() && late <= q.trackOf.Keys <= m.spans.Keys && a in q.trackOf.Keys - late
    requires Covered(q, m, q.trackOf.Keys - late) && Free(q.ends[q.trackOf[a]], s.tStartMs)
    ensures Apart(m.spans[a], s, m.now)
  {
  }

  lemma ApartEitherWay(m: Moment)
    ensures forall a, b :: a in m.spans && b in m.spans && Apart(m.spans[a], m.spans[b], m.now)
              ==> Apart(m.spans[b], m.spans[a], m.now)
  {
  }

  lemma PlacedDisjoint(q: Packing, late: set<string>, m: Moment, s: Span, t: nat)
    requires q.Valid() && late <= q.trackOf.Keys <= m.spans.Keys && s.spanId !in q.trackOf
    requires s.spanId in m.spans && m.spans[s.spanId] == s && t < |q.ends| && Free(q.ends[t], s.tStartMs)
    requires Disjoint(q, m, q.trackOf.Keys - late) && Covered(q, m, q.trackOf.Keys - late)
    ensures var r := Packing(q.ends[t := Some(End(s, m.now))], q.trackOf[s.spanId := t]);
            Disjoint(r, m, r.trackOf.Keys - late)
  {
    forall a | a in q.trackOf.Keys - late && q.trackOf[a] == t ensures Apart(m.spans[a], s, m.now) {
      PlacedApart(q, late, m, s, a);
    }
    hide Covered, Apart;
    ApartEitherWay(m);
  }

  lemma PlacedCovered(q: Packing, late: set<string>, m: Moment, s: Span, t: nat)
    requires q.Valid() && late <= q.trackOf.Keys <= m.spans.Keys && s.spanId !in q.trackOf
    requires s.spanId in m.spans && m.spans[s.spanId] == s && t < |q.ends| && Free(q.ends[t], s.tStartMs)
    requires s.tStartMs < m.now && s.tStartMs <= End(s, m.now) && Started(q, m) && Covered(q, m, q.trackOf.Keys - late)
    ensures var r := Packing(q.ends[t := Some(End(s, m.now))], q.trackOf[s.spanId := t]);
            r.Valid() && Started(r, m) && Covered(r, m, r.trackOf.Keys - late)
  {
  }

  /** A new span takes a track whose recorded end is not after its start, so it overlaps nothing there. */
  lemma PlaceOne(q: Packing, late: set<string>, m: Moment, s: Span)
    requires q.Valid() && Shown(m) && late <= q.trackOf.Keys <= m.spans.Keys && Listed(m, [s]) && s.spanId !in q.trackOf
    requires Started(q, m) && Disjoint(q, m, q.trackOf.Keys - late) && Covered(q, m, q.trackOf.Keys - late)
    ensures var r := q.Assign(s.spanId, s.tStartMs, End(s, m.now));
            && q.trackOf.Keys <= r.trackOf.Keys <= m.spans.Keys
            && Started(r, m) && Disjoint(r, m, r.trackOf.Keys - late) && Covered(r, m, r.trackOf.Keys - late)
  {
    assert [s][0] == s;
    Placed(q, s.spanId, s.tStartMs, End(s, m.now));
    var r := q.Assign(s.spanId, s.tStartMs, End(s, m.now));
    if r != q {
      PlacedDisjoint(q, late, m, s, r.trackOf[s.spanId]);
      PlacedCovered(q, late, m, s, r.trackOf[s.spanId]);
    }
    hide Disjoint, Covered, Packing.Assign;
  }

  lemma {:induction false} PlaceNew(q: Packing, late: set<string>, m: Moment, recs: seq<Span>)
    requires q.Valid() && Shown(m) && late <= q.trackOf.Keys <= m.spans.Keys && Listed(m, recs) && NoDuplicates(recs)
    requires forall i :: 0 <= i < |recs| ==> recs[i].spanId !in q.trackOf
    requires Started(q, m) && Disjoint(q, m, q.trackOf.Keys - late) && Covered(q, m, q.trackOf.Keys - late)
    ensures var r := q.AssignAll(recs, m.now, []);
            && q.trackOf.Keys <= r.trackOf.Keys <= m.spans.Keys
            && Started(r, m) && Disjoint(r, m, r.trackOf.Keys - late) && Covered(r, m, r.trackOf.Keys - late)
  {
    if recs != [] {
      var n := |recs| - 1;
      var r', r := q.AssignAll(recs[..n], m.now, []), q.AssignAll(recs, m.now, []);
      hide *;
      AssignStep(q, recs, m.now);
      PrefixListed(m, recs);
      OnlyAssigned(q, recs[..n], m.now, recs[n].spanId);
      assert forall i :: 0 <= i < n ==> recs[..n][i] == recs[i];
      PlaceNew(q, late, m, recs[..n]);
      PlaceOne(r', late, m, recs[n]);
    } else {
      AssignStep(q, recs, m.now);
    }
  }

  lemma {:induction false} OnlyAssigned(q: Packing, recs: seq<Span>, now: int, id: string)
    requires q.Valid() && id !in q.trackOf && forall i :: 0 <= i < |recs| ==> recs[i].spanId != id
    ensures id !in q.AssignAll(recs, now, []).trackOf
  {
    if recs != [] {
      OnlyAssigned(q, recs[..|recs| - 1], now, id);
      AssignStep(q, recs, now);
      hide Packing.AssignAll;
    }
  }

  lemma PrefixListed(m: Moment, recs: seq<Span>)
    requires Listed(m, recs) && NoDuplicates(recs) && recs != []
    ensures var n := |recs| - 1;
            && Listed(m, recs[..n]) && NoDuplicates(recs[..n]) && Listed(m, [recs[n]])
            && forall i :: 0 <= i < n ==> recs[i].spanId != recs[n].spanId
  {
    DistinctIds(m, recs);
  }

  lemma FilterKeeps(recs: seq<Span>, keep: Span -> bool)
    requires SortedByStart(recs) && NoDuplicates(recs)
    ensures SortedByStart(Filter(recs, keep)) && NoDuplicates(Filter(recs, keep))
  {
    hide *;
    FilterKeepsOrder(recs, keep);
    FilterKeepsDistinct(recs, keep);
  }

  lemma {:induction false} FilterKeepsOrder(recs: seq<Span>, keep: Span -> bool)
    requires SortedByStart(recs)
    ensures SortedByStart(Filter(recs, keep))
  {
    if recs != [] {
      var n := |recs| - 1;
      FilterKeepsOrder(recs[..n], keep);
      var kept := Filter(recs[..n], keep);
      assert Filter(recs, keep) == if keep(recs[n]) then kept + [recs[n]] else kept;
      forall i | 0 <= i < |kept| ensures kept[i].tStartMs <= recs[n].tStartMs {
        assert kept[i] in recs[..n];
      }
      hide Filter;
    }
  }

  lemma {:induction false} FilterKeepsDistinct(recs: seq<Span>, keep: Span -> bool)
    requires NoDuplicates(recs)
    ensures NoDuplicates(Filter(recs, keep))
  {
    if recs != [] {
      var n := |recs| - 1;
      FilterKeepsDistinct(recs[..n], keep);
      var kept := Filter(recs[..n], keep);
      assert Filter(recs, keep) == if keep(recs[n]) then kept + [recs[n]] else kept;
      forall i | 0 <= i < |kept| ensures kept[i] != recs[n] {
        assert kept[i] in recs[..n];
      }
      hide Filter;
    }
  }

  lemma {:induction false} DistinctCounts(recs: seq<Span>)
    ensures NoDuplicates(recs) <==> forall r :: multiset(recs)[r] <= 1
  {
    if recs == [] {
      assert multiset(recs) == multiset{};
    } else {
      var n := |recs| - 1;
      DistinctCounts(recs[..n]);
      assert recs == recs[..n] + [recs[n]];
      assert multiset(recs) == multiset(recs[..n]) + multiset{recs[n]};
      var last := recs[n];
      assert multiset(recs)[last] == multiset(recs[..n])[last] + 1;
      assert last in multiset(recs[..n]) <==> last in recs[..n];
      if NoDuplicates(recs) {
        assert last !in recs[..n];
      } else if forall r :: multiset(recs)[r] <= 1 {
        assert multiset(recs)[last] <= 1;
        assert last !in recs[..n];
        assert forall r :: multiset(recs[..n])[r] <= multiset(recs)[r];
      }
    }
  }

  /** Sorting neither loses nor repeats a span. */
  lemma SortedShown(m: Moment)
    requires Shown(m)
    ensures var sorted := SortByStart(m.overlapping);
            SortedByStart(sorted) && NoDuplicates(sorted) && Listed(m, sorted)
            && forall r :: r in sorted <==> r in m.overlapping
  {
    var sorted := SortByStart(m.overlapping);
    DistinctCounts(sorted);
    DistinctCounts(m.overlapping);
    assert forall r :: r in sorted <==> r in multiset(sorted);
    assert forall r :: r in m.overlapping <==> r in multiset(m.overlapping);
  }

  /** One recomputation keeps everything that held before it. */
  lemma TickSound(p: Packing, missed: set<string>, before: Moment, m: Moment)
    requires Sound(p, missed, before) && Shown(m) && Follows(before, m)
    ensures Sound(p.Tick(m.now, m.overlapping, m.spans, []), MissedBy(p, missed, before, m), m)
  {
    CarryOver(p, missed, before, m);
    TickPacks(p.Prune(m.spans.Keys), MissedBy(p, missed, before, m), m);
  }

  /** The two passes over the pruned packing. */
  lemma TickPacks(q: Packing, late: set<string>, m: Moment)
    requires q.Valid() && Shown(m) && late <= q.trackOf.Keys <= m.spans.Keys
    requires Disjoint(q, m, q.trackOf.Keys - late)
    requires Started(q, m)
    requires forall id :: id in late ==> m.spans[id].tEndMs.Some? && m.spans[id].tEndMs.value <= m.now - WINDOW_MS
    requires forall id :: id in q.trackOf && id !in late && !Visible(m, m.spans[id]) ==>
               End(m.spans[id], m.now) <= m.now - WINDOW_MS && Reaches(q.ends[q.trackOf[id]], m.spans[id], m.now)
    ensures Sound(Passes(q, m), late, m)
  {
    SortedShown(m);
    var sorted := SortByStart(m.overlapping);
    var already, newly := Filter(sorted, q.Tracked()), Filter(sorted, q.Untracked());
    FilterKeeps(sorted, q.Tracked());
    FilterKeeps(sorted, q.Untracked());
    FilteredAre(q, m, sorted);
    AfterRefresh(q, late, m, already);
    PlaceNew(q.AssignAll(already, m.now, []), late, m, newly);
  }

  ghost function Passes(q: Packing, m: Moment): (p: Packing)
    requires q.Valid()
    ensures p.Valid()
  {
    var sorted := SortByStart(m.overlapping);
    q.AssignAll(Filter(sorted, q.Tracked()), m.now, []).AssignAll(Filter(sorted, q.Untracked()), m.now, [])
  }

  lemma FilteredAre(q: Packing, m: Moment, sorted: seq<Span>)
    requires Listed(m, sorted)
    ensures Listed(m, Filter(sorted, q.Tracked())) && Listed(m, Filter(sorted, q.Untracked()))
    ensures forall i :: 0 <= i < |Filter(sorted, q.Tracked())| ==> Filter(sorted, q.Tracked())[i].spanId in q.trackOf
    ensures forall i :: 0 <= i < |Filter(sorted, q.Untracked())|
              ==> Filter(sorted, q.Untracked())[i].spanId !in q.trackOf
    ensures forall s :: s in sorted && s.spanId in q.trackOf ==> s in Filter(sorted, q.Tracked())
  {
    var already, newly := Filter(sorted, q.Tracked()), Filter(sorted, q.Untracked());
    forall i | 0 <= i < |already| ensures already[i] in sorted && already[i].spanId in q.trackOf {
      assert already[i] in already;
    }
    forall i | 0 <= i < |newly| ensures newly[i] in sorted && newly[i].spanId !in q.trackOf {
      assert newly[i] in newly;
    }
  }

  // ---- every run -----------------------------------------------------------------------------------------

  lemma {:induction false} RunSound(ms: seq<Moment>)
    requires Feed(ms) && ms != []
    ensures Sound(Run(ms), Missed(ms), ms[|ms| - 1])
  {
    var n := |ms| - 1;
    if n == 0 {
      var m := ms[0];
      var none := Moment(m.now, [], map[]);
      assert Run(ms[..0]) == Fresh();
      TickSound(Fresh(), {}, none, m);
      assert MissedBy(Fresh(), {}, none, m) == {};
    } else {
      RunSound(ms[..n]);
      TickSound(Run(ms[..n]), Missed(ms[..n]), ms[n - 1], ms[n]);
    }
  }

  /**
   Spans on one track never overlap, and the track's recorded end is never before theirs, for every
   retained span whose end some recomputation saw; the spans the window shows are always among them.
   */
  lemma TracksNeverOverlap(ms: seq<Moment>, a: string, b: string)
    requires Feed(ms) && ms != []
    ensures var m, p := ms[|ms| - 1], Run(ms);
            HoldsTogether(p, a, b) && a !in Missed(ms) && b !in Missed(ms) ==>
              && a in m.spans && b in m.spans
              && Apart(m.spans[a], m.spans[b], m.now)
              && Reaches(p.ends[p.trackOf[a]], m.spans[a], m.now)
  {
    RunSound(ms);
    hide Run, Missed, Feed, Apart, Reaches;
    var m, p, settled := ms[|ms| - 1], Run(ms), Run(ms).trackOf.Keys - Missed(ms);
    assert Disjoint(p, m, settled) && Covered(p, m, settled);
    if HoldsTogether(p, a, b) && a !in Missed(ms) && b !in Missed(ms) {
      assert a in settled && b in settled;
    }
  }

  predicate HoldsTrack(p: Packing, id: string, t: int) { id in p.trackOf && p.trackOf[id] == t }

  /** Two different spans hold one track. */
  predicate HoldsTogether(p: Packing, a: string, b: string) {
    a != b && a in p.trackOf && b in p.trackOf && p.trackOf[a] == p.trackOf[b]
  }

  lemma VisibleNeverMissed(ms: seq<Moment>, id: string)
    requires Feed(ms) && ms != [] && id in ms[|ms| - 1].spans && Visible(ms[|ms| - 1], ms[|ms| - 1].spans[id])
    ensures id !in Missed(ms)
  {
    RunSound(ms);
  }

  /** A span keeps its track for as long as the store retains it. */
  lemma {:induction false} TrackIsSticky(ms: seq<Moment>, more: seq<Moment>, id: string)
    requires id in Run(ms).trackOf && forall i :: 0 <= i < |more| ==> id in more[i].spans
    ensures id in Run(ms + more).trackOf && Run(ms + more).trackOf[id] == Run(ms).trackOf[id]
  {
    hide Packing.Tick;
    if more == [] {
      assert ms + more == ms;
    } else {
      var n := |more| - 1;
      assert (ms + more)[..|ms| + n] == ms + more[..n];
      TrackIsSticky(ms, more[..n], id);
    }
  }

  lemma OneMore(ms: seq<Moment>, m: Moment)
    requires Feed(ms + [m]) && ms != []
    ensures Feed(ms) && Shown(m) && Follows(ms[|ms| - 1], m)
    ensures Run(ms + [m]) == Run(ms).Tick(m.now, m.overlapping, m.spans, [])
    ensures Missed(ms + [m]) == MissedBy(Run(ms), Missed(ms), ms[|ms| - 1], m)
  {
    var all, n := ms + [m], |ms|;
    hide *;
    assert all[..n] == ms && all[n] == m && all[n - 1] == ms[n - 1];
    ShorterFeed(ms, m);
    LastStep(all);
  }

  lemma LastStep(ms: seq<Moment>)
    requires |ms| > 1
    ensures var n := |ms| - 1;
            && Run(ms) == Run(ms[..n]).Tick(ms[n].now, ms[n].overlapping, ms[n].spans, [])
            && Missed(ms) == MissedBy(Run(ms[..n]), Missed(ms[..n]), ms[n - 1], ms[n])
  {
    hide Packing.Tick, MissedBy;
  }

  lemma ShorterFeed(ms: seq<Moment>, m: Moment)
    requires Feed(ms + [m]) && ms != []
    ensures Feed(ms) && Shown(m) && Follows(ms[|ms| - 1], m)
  {
    hide Shown, Follows;
    var all, n := ms + [m], |ms|;
    assert forall i :: 0 <= i < n ==> all[i] == ms[i];
    assert all[n] == m;
  }

  lemma Keyed(p: Packing, late: set<string>, m: Moment)
    requires Sound(p, late, m)
    ensures p.Valid() && late <= p.trackOf.Keys <= m.spans.Keys
  {
  }
}
