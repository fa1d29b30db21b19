/**
 The rules of the apportionment told from its inputs: which components, spans and process windows count,
 which spans claim a pid, what each is paid, and which policy divides a sample.
 */
module AttributionRules {
  import opened Prelude
  import opened Attribution

  // ---- what a sample reports ------------------------------------------------------------------------------

  function TotalOf(): Component -> real { (c: Component) => if c.kind == Total then c.energyJ else 0.0 }

  function PartOf(): Component -> real { (c: Component) => c.energyJ }

  lemma {:induction false} ComponentSums(cs: seq<Component>)
    ensures ComponentSum(cs, Some(Total)) == SumOver(cs, TotalOf()) && ComponentSum(cs, None) == SumOver(cs, PartOf())
  {
    if cs != [] {
      ComponentSums(cs[..|cs| - 1]);
    }
  }

  /** A sample with a total reports its totals alone; one without reports all its parts. */
  lemma TotalAlone(s: EnergySample)
    ensures SampleEnergy(s) ==
              if exists c :: c in s.components && c.kind == Total
              then SumOver(s.components, TotalOf()) else SumOver(s.components, PartOf())
  {
    ComponentSums(s.components);
    hide ComponentSum, SumOver;
    if c :| c in s.components && c.kind == Total {
      var i :| 0 <= i < |s.components| && s.components[i] == c;
      assert s.components[i].kind == Total;
    }
  }

  // ---- which spans and windows count --------------------------------------------------------------------------

  /** The overlap of two intervals is the number of instants they share. */
  lemma OverlapIsCount(a0: int, a1: int, b0: int, b1: int)
    ensures OverlapMs(a0, a1, b0, b1) == |Instants(a0, a1) * Instants(b0, b1)|
  {
    assert Instants(a0, a1) * Instants(b0, b1) == Instants(Max(a0, b0), Min(a1, b1));
  }

  /** A sample's active spans are the local ones with a duration that are open during it. */
  lemma ActiveIff(tree: SessionTree, t0: int, t1: int, span: Span)
    ensures span in Active(tree, t0, t1) <==>
              span in tree.spans && span.locus != Remote && span.tStart < span.tEnd
              && span.tStart < t1 && t0 < span.tEnd
  {
    hide Filter;
  }

  /** The process windows that cover a sample are those that share an instant with it. */
  lemma CoveringIff(ws: seq<Window>, t0: int, t1: int, w: Window)
    requires t0 < t1 && w.tStart < w.tEnd
    ensures w in Covering(ws, t0, t1) <==> w in ws && w.tStart < t1 && t0 < w.tEnd
  {
    hide Filter;
  }

  /** The usable process windows are the samples whose bounds parsed and have a length, as they are. */
  lemma {:induction false} UsableIff(procs: seq<ProcessSample>, w: Window)
    ensures w in UsableWindows(procs) <==>
              exists i :: 0 <= i < |procs| && w.tStart < w.tEnd
                          && procs[i] == ProcessSample(Some(w.tStart), Some(w.tEnd), w.processes)
    ensures |UsableWindows(procs)| + Skipped(procs) == |procs|
  {
    if procs != [] {
      var n := |procs| - 1;
      UsableIff(procs[..n], w);
      assert forall i :: 0 <= i < n ==> procs[..n][i] == procs[i];
    }
  }

  /** A span counts as seen when some parsed sample of positive length overlaps it. */
  lemma {:induction false} SeenIff(spans: seq<Span>, samples: seq<EnergySample>, id: SpanId)
    ensures id in SeenIds(spans, samples) <==>
              exists s, span :: s in samples && span in spans && span.spanId == id && Overlaid(s, span)
  {
    if samples != [] {
      var n := |samples| - 1;
      SeenIff(spans, samples[..n], id);
      NewlyIff(spans, samples[n], id);
      assert samples == samples[..n] + [samples[n]];
      hide NewlySeen, Overlaid;
    }
  }

  /** The sample's bounds parsed, and it shares an instant with the span or the span lies strictly inside it. */
  predicate Overlaid(s: EnergySample, span: Span) {
    s.tStart.Some? && s.tEnd.Some? && s.tStart.value < s.tEnd.value
    && span.tStart < s.tEnd.value && s.tStart.value < span.tEnd
  }

  lemma NewlyIff(spans: seq<Span>, s: EnergySample, id: SpanId)
    ensures id in NewlySeen(spans, s) <==> exists span :: span in spans && span.spanId == id && Overlaid(s, span)
  {
    if s.Parsed() && s.tStart.value < s.tEnd.value {
      var over := Overlapping(spans, s.tStart.value, s.tEnd.value);
      forall span ensures span in over <==> span in spans && Overlaid(s, span) {}
      hide Filter, Overlapping, Overlaid;
      if span :| span in spans && span.spanId == id && Overlaid(s, span) {
        var i :| 0 <= i < |over| && over[i] == span;
      }
    }
  }

  /** The distinct spans counted as unmeasured are the remote ones some sample overlaps, and those counted as
      degenerate the local ones without a duration, apart from the bootstrap span. */
  lemma CountedIff(spans: seq<Span>, samples: seq<EnergySample>, id: SpanId)
    ensures id in SeenIds(Remotes(spans), samples) <==>
              exists s, span :: s in samples && span in spans && span.spanId == id && Overlaid(s, span)
                                && span.locus == Remote
    ensures id in SeenIds(Degenerates(spans), samples) <==>
              exists s, span :: s in samples && span in spans && span.spanId == id && Overlaid(s, span)
                                && span.locus != Remote && span.tEnd <= span.tStart && span.toolName != "__session__"
  {
    SeenIff(Remotes(spans), samples, id);
    SeenIff(Degenerates(spans), samples, id);
    assert forall span :: span in Remotes(spans) <==> span in spans && span.locus == Remote;
    assert forall span :: span in Degenerates(spans) <==>
      span in spans && span.locus != Remote && span.tEnd <= span.tStart && span.toolName != "__session__";
    hide Filter, Remotes, Degenerates, SeenIds, Overlaid;
  }

  // ---- which spans claim a pid ------------------------------------------------------------------------------

  /** The rule of ownership: a span that lists pids owns those; one that lists none inherits the root tree. */
  function Owns(pid: int, rootPids: seq<int>): Span -> bool {
    (s: Span) => if s.pids == [] then pid in rootPids else pid in s.pids
  }

  function OwnsAs(pid: int, rootPids: seq<int>, id: SpanId): Span -> bool {
    (s: Span) => s.spanId == id && if s.pids == [] then pid in rootPids else pid in s.pids
  }

  /** A pid's claimants are the active spans that own it, each entered once under its id. */
  lemma {:induction false} ClaimRule(active: seq<Span>, pid: int, rootPids: seq<int>, id: SpanId)
    ensures |ClaimantIds(active, pid, rootPids)| == CountOver(active, Owns(pid, rootPids))
    ensures multiset(ClaimantIds(active, pid, rootPids))[id] == CountOver(active, OwnsAs(pid, rootPids, id))
  {
    if active != [] {
      ClaimRule(active[1..], pid, rootPids, id);
      assert active == [active[0]] + active[1..];
      CountFront(active[0], active[1..], Owns(pid, rootPids));
      CountFront(active[0], active[1..], OwnsAs(pid, rootPids, id));
    }
  }

  /**
   One pid's cpu time inside the energy window, told from the spans: it is divided equally between the active
   spans that own the pid, with one part for the orphans when the pid was orphan-tagged or nobody owns it.
   */
  lemma PidSplit(c: Claims, fraction: real, pid: int, entry: PidEntry, id: SpanId)
    ensures var owners := CountOver(c.active, Owns(pid, c.rootPids));
            var mine := CountOver(c.active, OwnsAs(pid, c.rootPids, id));
            var toOrphan, cpu := entry.orphan || owners == 0, entry.cpuMs as real * fraction;
            var parts := owners + if toOrphan then 1 else 0;
            && Scale(parts as real, c.SpanShare(fraction, id)(pid, entry)) == Scale(mine as real, cpu)
            && Scale(parts as real, c.OrphanShare(fraction)(pid, entry)) == (if toOrphan then cpu else 0.0)
            && c.RootShare(fraction)(pid, entry) == (if pid in c.rootPids then cpu else 0.0)
            && WholeDelta(fraction)(pid, entry) == cpu
  {
    hide *;
    ClaimRule(c.active, pid, c.rootPids, id);
    SpanPart(c, fraction, pid, entry, id);
    OrphanPart(c, fraction, pid, entry);
    RootPart(c, fraction, pid, entry);
    ClaimCounts(c, pid, entry, id);
  }

  lemma ClaimCounts(c: Claims, pid: int, entry: PidEntry, id: SpanId)
    ensures c.Claimants(pid) == |ClaimantIds(c.active, pid, c.rootPids)|
    ensures c.Of(id, pid) == multiset(ClaimantIds(c.active, pid, c.rootPids))[id]
    ensures c.ToOrphan(pid, entry) <==> entry.orphan || c.Claimants(pid) == 0
  {
  }

  lemma SpanPart(c: Claims, fraction: real, pid: int, entry: PidEntry, id: SpanId)
    ensures var parts := c.Claimants(pid) + if c.ToOrphan(pid, entry) then 1 else 0;
            Scale(parts as real, c.SpanShare(fraction, id)(pid, entry))
            == Scale(c.Of(id, pid) as real, entry.cpuMs as real * fraction)
  {
    hide ClaimantIds;
    var parts := c.Claimants(pid) + if c.ToOrphan(pid, entry) then 1 else 0;
    var share := c.Share(fraction, pid, entry);
    PartsWhole(entry.cpuMs, fraction, parts);
    TimesIsProduct(c.Of(id, pid), share);
    Regroup(parts as real, c.Of(id, pid) as real, share);
    hide Times, EqualShare, Scale, Claims.Of, Claims.Claimants, Claims.ToOrphan;
  }

  lemma OrphanPart(c: Claims, fraction: real, pid: int, entry: PidEntry)
    ensures var parts := c.Claimants(pid) + if c.ToOrphan(pid, entry) then 1 else 0;
            Scale(parts as real, c.OrphanShare(fraction)(pid, entry))
            == if c.ToOrphan(pid, entry) then entry.cpuMs as real * fraction else 0.0
  {
    hide ClaimantIds;
    var parts := c.Claimants(pid) + if c.ToOrphan(pid, entry) then 1 else 0;
    PartsWhole(entry.cpuMs, fraction, parts);
    ScaleAdd(parts as real, 0.0, 0.0);
    hide EqualShare, Scale, Claims.Claimants, Claims.ToOrphan;
  }

  lemma RootPart(c: Claims, fraction: real, pid: int, entry: PidEntry)
    ensures c.RootShare(fraction)(pid, entry) == (if pid in c.rootPids then entry.cpuMs as real * fraction else 0.0)
    ensures WholeDelta(fraction)(pid, entry) == entry.cpuMs as real * fraction
  {
  }

  lemma PartsWhole(cpuMs: nat, fraction: real, parts: nat)
    requires parts > 0
    ensures Scale(parts as real, EqualShare(cpuMs, fraction, parts)) == Portion(cpuMs, fraction)
  {
    var cpu, share := Portion(cpuMs, fraction), EqualShare(cpuMs, fraction, parts);
    hide Portion;
    assert share == cpu / parts as real;
  }

  lemma Regroup(a: real, b: real, x: real)
    ensures Scale(a, b * x) == Scale(b, Scale(a, x))
  {
    assert a * (b * x) == b * (a * x);
  }

  // ---- inheriting the root tree -----------------------------------------------------------------------------

  function Pidless(): Span -> bool { (s: Span) => s.pids == [] }

  function PidlessAs(id: SpanId): Span -> bool { (s: Span) => s.spanId == id && s.pids == [] }

  lemma {:induction false} CountAlike<T(!new)>(xs: seq<T>, p: T -> bool, q: T -> bool)
    requires forall x :: x in xs ==> p(x) == q(x)
    ensures CountOver(xs, p) == CountOver(xs, q)
  {
    if xs != [] {
      assert forall x :: x in xs[..|xs| - 1] ==> x in xs;
      CountAlike(xs[..|xs| - 1], p, q);
    }
  }

  /** The pid belongs to the root tree, and no active span lists it. */
  predicate RootOnly(c: Claims, pid: int) { pid in c.rootPids && forall s :: s in c.active ==> pid !in s.pids }

  /**
   A root pid that no active span lists is split between exactly the active spans that list none; it goes wholly
   to the orphans when there is no such span.
   */
  lemma RootTreeInherited(c: Claims, fraction: real, pid: int, entry: PidEntry, id: SpanId)
    requires RootOnly(c, pid)
    ensures var heirs, mine := CountOver(c.active, Pidless()), CountOver(c.active, PidlessAs(id));
            && (heirs > 0 && !entry.orphan ==>
                  c.OrphanShare(fraction)(pid, entry) == 0.0
                  && Scale(heirs as real, c.SpanShare(fraction, id)(pid, entry))
                     == Scale(mine as real, WholeDelta(fraction)(pid, entry)))
            && (heirs == 0 ==> c.OrphanShare(fraction)(pid, entry) == WholeDelta(fraction)(pid, entry))
  {
    CountAlike(c.active, Owns(pid, c.rootPids), Pidless());
    CountAlike(c.active, OwnsAs(pid, c.rootPids, id), PidlessAs(id));
    hide CountOver, Claims.OrphanShare, Claims.SpanShare, WholeDelta, Claims.RootShare;
    PidSplit(c, fraction, pid, entry, id);
    ScaleOne(c.OrphanShare(fraction)(pid, entry));
    ScaleNone(CountOver(c.active, Pidless()), c.OrphanShare(fraction)(pid, entry));
    hide Scale;
  }

  lemma ScaleOne(x: real)
    ensures Scale(1 as real, x) == x
  {
  }

  lemma ScaleNone(n: nat, x: real)
    ensures n > 0 && Scale(n as real, x) == 0.0 ==> x == 0.0
  {
  }

  lemma {:induction false} TallyScaled<K(!new), V(!new)>(m: map<K, V>, f: (K, V) -> real, g: (K, V) -> real,
                                                         a: real, b: real)
    requires forall k :: k in m ==> Scale(a, f(k, m[k])) == Scale(b, g(k, m[k]))
    ensures Scale(a, Tally(m, f)) == Scale(b, Tally(m, g))
    decreases |m|
  {
    hide Scale, MapSum;
    if m == map[] {
      EmptyTally(m, f);
      EmptyTally(m, g);
      ScaleAdd(a, 0.0, 0.0);
      ScaleAdd(b, 0.0, 0.0);
    } else {
      var k :| k in m;
      var rest := m - {k};
      assert rest.Keys == m.Keys - {k} && m == rest[k := m[k]];
      TallyScaled(rest, f, g, a, b);
      TallyAdd(rest, k, m[k], f);
      TallyAdd(rest, k, m[k], g);
      hide Tally;
      ScaleAdd(a, Tally(rest, f), f(k, m[k]));
      ScaleAdd(b, Tally(rest, g), g(k, m[k]));
    }
  }

  lemma EmptyTally<K, V>(m: map<K, V>, f: (K, V) -> real)
    requires m == map[]
    ensures Tally(m, f) == 0.0
  {
  }

  /** Every pid the windows observed is a root pid nobody lists, and none was orphan-tagged. */
  ghost predicate OnlyRoots(c: Claims, ws: seq<Window>) {
    forall i, j :: 0 <= i < |ws| && 0 <= j < |ws[i].processes| ==>
      RootOnly(c, ws[i].processes[j].pid) && !ws[i].processes[j].orphanTagged
  }

  lemma WindowInherited(w: Window, c: Claims, t0: int, t1: int, id: SpanId)
    requires w.tStart < w.tEnd
    requires forall j :: 0 <= j < |w.processes| ==> RootOnly(c, w.processes[j].pid) && !w.processes[j].orphanTagged
    ensures var heirs, mine := CountOver(c.active, Pidless()), CountOver(c.active, PidlessAs(id));
            var table, f := PidTable(w.processes), Fraction(w, t0, t1);
            && (heirs > 0 ==> Tally(table, c.OrphanShare(f)) == 0.0
                              && Scale(heirs as real, Tally(table, c.SpanShare(f, id)))
                                 == Scale(mine as real, Tally(table, WholeDelta(f))))
            && (heirs == 0 ==> Tally(table, c.OrphanShare(f)) == Tally(table, WholeDelta(f)))
  {
    hide Tally, CountOver, Scale, Claims.OrphanShare, Claims.SpanShare, WholeDelta, Fraction, RootOnly, PidTable;
    var heirs, mine := CountOver(c.active, Pidless()), CountOver(c.active, PidlessAs(id));
    var table, f := PidTable(w.processes), Fraction(w, t0, t1);
    forall pid | pid in table ensures RootOnly(c, pid) && !table[pid].orphan {
      PidTableMeaning(w.processes, pid);
    }
    forall pid | pid in table
      ensures heirs > 0 ==>
                c.OrphanShare(f)(pid, table[pid]) == 0.0
                && Scale(heirs as real, c.SpanShare(f, id)(pid, table[pid]))
                   == Scale(mine as real, WholeDelta(f)(pid, table[pid]))
      ensures heirs == 0 ==> c.OrphanShare(f)(pid, table[pid]) == WholeDelta(f)(pid, table[pid])
    {
      RootTreeInherited(c, f, pid, table[pid], id);
    }
    if heirs > 0 {
      TallyZero(table, c.OrphanShare(f));
      TallyScaled(table, c.SpanShare(f, id), WholeDelta(f), heirs as real, mine as real);
    } else {
      TallyAlike(table, c.OrphanShare(f), WholeDelta(f));
    }
  }

  lemma TallyAlike<K(!new), V(!new)>(m: map<K, V>, f: (K, V) -> real, g: (K, V) -> real)
    requires forall k :: k in m ==> f(k, m[k]) == g(k, m[k])
    ensures Tally(m, f) == Tally(m, g)
  {
    assert (map k | k in m :: f(k, m[k])) == (map k | k in m :: g(k, m[k]));
  }

  lemma TallyZero<K(!new), V(!new)>(m: map<K, V>, f: (K, V) -> real)
    requires forall k :: k in m ==> f(k, m[k]) == 0.0
    ensures Tally(m, f) == 0.0
  {
    TallyScaled(m, f, f, 1.0, 0.0);
  }

  /**
   When the process windows see nothing but the root tree, and no active span lists any of it, the spans that
   list none share all the cpu time equally, and nothing is orphaned; without such a span all of it is.
   */
  lemma {:induction false} InheritedWeights(ws: seq<Window>, c: Claims, t0: int, t1: int, id: SpanId)
    requires PositiveLength(ws) && OnlyRoots(c, ws)
    ensures var heirs, mine := CountOver(c.active, Pidless()), CountOver(c.active, PidlessAs(id));
            && (heirs > 0 ==> OrphanWeight(ws, c, t0, t1) == 0.0
                              && Scale(heirs as real, SpanWeight(ws, c, t0, t1, id))
                                 == Scale(mine as real, ObservedWeight(ws, t0, t1)))
            && (heirs == 0 ==> OrphanWeight(ws, c, t0, t1) == ObservedWeight(ws, t0, t1))
  {
    hide Tally, CountOver, Scale, Claims.OrphanShare, Claims.SpanShare, WholeDelta, Fraction, RootOnly, PidTable;
    var heirs, mine := CountOver(c.active, Pidless()), CountOver(c.active, PidlessAs(id));
    if ws == [] {
      ScaleAdd(heirs as real, 0.0, 0.0);
      ScaleAdd(mine as real, 0.0, 0.0);
    } else {
      var n := |ws| - 1;
      assert forall i :: 0 <= i < n ==> ws[..n][i] == ws[i];
      InheritedWeights(ws[..n], c, t0, t1, id);
      WindowInherited(ws[n], c, t0, t1, id);
      var table, f := PidTable(ws[n].processes), Fraction(ws[n], t0, t1);
      ScaleAdd(heirs as real, SpanWeight(ws[..n], c, t0, t1, id), Tally(table, c.SpanShare(f, id)));
      ScaleAdd(mine as real, ObservedWeight(ws[..n], t0, t1), Tally(table, WholeDelta(f)));
    }
  }

  /** So a sample whose windows see nothing else orphans nothing while some active span lists no pid, and pays
      each such span the same part of all it pays. */
  lemma InheritedPay(session: Session, s: EnergySample, id: SpanId)
    requires session.Valid() && session.Judge(s) == ByCpuTime
    requires OnlyRoots(Claims(Active(session.tree, s.tStart.value, s.tEnd.value), session.tree.rootPids),
                       Covering(session.windows, s.tStart.value, s.tEnd.value))
    ensures var active := Active(session.tree, s.tStart.value, s.tEnd.value);
            var heirs, mine := CountOver(active, Pidless()), CountOver(active, PidlessAs(id));
            && (heirs > 0 ==> session.Orphaned(s) == 0.0
                              && Scale(heirs as real, session.Paid(s, id))
                                 == Scale(mine as real, SampleEnergy(s) - session.Baseline(s)))
            && (heirs == 0 ==> session.Orphaned(s) == SampleEnergy(s) - session.Baseline(s))
  {
    var t0, t1 := s.tStart.value, s.tEnd.value;
    var c, ws := Claims(Active(session.tree, t0, t1), session.tree.rootPids), Covering(session.windows, t0, t1);
    var heirs, mine := CountOver(c.active, Pidless()), CountOver(c.active, PidlessAs(id));
    InheritedWeights(ws, c, t0, t1, id);
    var rate := session.CpuRate(s);
    RateTerms(session, s, id);
    hide *;
    assert SampleEnergy(s) - session.Baseline(s) == Scale(rate, ObservedWeight(ws, t0, t1));
    SharedOut(rate, heirs, mine, SpanWeight(ws, c, t0, t1, id), OrphanWeight(ws, c, t0, t1),
              ObservedWeight(ws, t0, t1));
  }

  lemma SharedOut(rate: real, heirs: nat, mine: nat, weight: real, orphan: real, observed: real)
    requires if heirs > 0 then orphan == 0.0 && Scale(heirs as real, weight) == Scale(mine as real, observed)
             else orphan == observed
    ensures if heirs > 0
            then Scale(rate, orphan) == 0.0
                 && Scale(heirs as real, Scale(rate, weight)) == Scale(mine as real, Scale(rate, observed))
            else Scale(rate, orphan) == Scale(rate, observed)
  {
    hide Scale;
    ScaleAdd(rate, 0.0, 0.0);
    ScaleSwap(heirs as real, rate, weight);
    ScaleSwap(mine as real, rate, observed);
  }

  lemma RateTerms(session: Session, s: EnergySample, id: SpanId)
    requires session.Valid() && session.Judge(s) == ByCpuTime
    ensures s.Parsed() && s.tStart.value < s.tEnd.value
    ensures var t0, t1 := s.tStart.value, s.tEnd.value;
            var c, ws := Claims(Active(session.tree, t0, t1), session.tree.rootPids), Covering(session.windows, t0, t1);
            && session.Paid(s, id) == Scale(session.CpuRate(s), SpanWeight(ws, c, t0, t1, id))
            && session.Orphaned(s) == Scale(session.CpuRate(s), OrphanWeight(ws, c, t0, t1))
            && session.Baseline(s) == SampleEnergy(s) - Scale(session.CpuRate(s), ObservedWeight(ws, t0, t1))
  {
    hide SampleEnergy, SpanWeight, OrphanWeight, ObservedWeight, Scale, Active, Session.CpuRate;
  }

  lemma ScaleSwap(a: real, b: real, x: real)
    ensures Scale(a, Scale(b, x)) == Scale(b, Scale(a, x))
  {
    Regroup(a, b, x);
  }

  // ---- which policy divides a sample -----------------------------------------------------------------------

  /** With nothing active all the cpu time observed is orphaned. */
  lemma {:induction false} NobodyActive(ws: seq<Window>, rootPids: seq<int>, t0: int, t1: int)
    requires PositiveLength(ws)
    ensures OrphanWeight(ws, Claims([], rootPids), t0, t1) == ObservedWeight(ws, t0, t1)
  {
    if ws != [] {
      var n := |ws| - 1;
      var c, f, table := Claims([], rootPids), Fraction(ws[n], t0, t1), PidTable(ws[n].processes);
      NobodyActive(ws[..n], rootPids, t0, t1);
      forall pid | pid in table ensures c.OrphanShare(f)(pid, table[pid]) == WholeDelta(f)(pid, table[pid]) {
        SharesAddUp(c, f, pid, table[pid]);
      }
      hide Claims.OrphanShare, WholeDelta, PidTable, Fraction, Tally;
      TallyAlike(table, c.OrphanShare(f), WholeDelta(f));
    }
  }

  predicate InWindow(s: EnergySample, w: Window)
    requires s.Parsed()
  {
    w.tStart < s.tEnd.value && s.tStart.value < w.tEnd
  }

  predicate Open(s: EnergySample, span: Span)
    requires s.Parsed()
  {
    span.locus != Remote && span.tStart < span.tEnd && span.tStart < s.tEnd.value && s.tStart.value < span.tEnd
  }

  /**
   Which policy divides a sample of positive length: wall clock when no process window overlaps it and some span
   is open; cpu time when one does, unless no span is open and no cpu time was observed; else none.
   */
  lemma JudgeIff(session: Session, s: EnergySample)
    requires session.Valid() && s.Parsed() && s.tStart.value < s.tEnd.value
    ensures var measured := exists w :: w in session.windows && InWindow(s, w);
            var open := exists span :: span in session.tree.spans && Open(s, span);
            session.Judge(s) ==
              if measured then if open || session.Observed(s) > 0.0 then ByCpuTime else Unplaced
              else if open then ByWallClock else Unplaced
  {
    var t0, t1 := s.tStart.value, s.tEnd.value;
    var active, covering := Active(session.tree, t0, t1), Covering(session.windows, t0, t1);
    NobodyActive(covering, session.tree.rootPids, t0, t1);
    hide OrphanWeight, ObservedWeight;
    forall span ensures span in active <==> span in session.tree.spans && Open(s, span) {
      ActiveIff(session.tree, t0, t1, span);
    }
    forall w | w in session.windows ensures w in covering <==> InWindow(s, w) {
      var i :| 0 <= i < |session.windows| && session.windows[i] == w;
      CoveringIff(session.windows, t0, t1, w);
    }
    hide Active, InWindow, Open;
    assert active != [] ==> active[0] in active;
    assert covering != [] ==> covering[0] in session.windows by {
      assert covering != [] ==> covering[0] in covering;
    }
    assert (exists span :: span in session.tree.spans && Open(s, span)) <==> active != [];
    assert (exists w :: w in session.windows && InWindow(s, w)) <==> covering != [];
    hide Covering;
  }

  /** A sample counts as unobserved when process windows overlap it and none of them lists a process. */
  lemma UnobservedIff(session: Session, s: EnergySample)
    requires session.Valid()
    ensures session.Unobserved(s) <==>
              && s.Parsed() && s.tStart.value < s.tEnd.value
              && (exists w :: w in session.windows && InWindow(s, w))
              && forall w :: w in session.windows && InWindow(s, w) ==> w.processes == []
  {
    if s.Parsed() && s.tStart.value < s.tEnd.value {
      var covering := Covering(session.windows, s.tStart.value, s.tEnd.value);
      forall w ensures w in covering <==> w in session.windows && InWindow(s, w) {
        if w in session.windows {
          var i :| 0 <= i < |session.windows| && session.windows[i] == w;
          CoveringIff(session.windows, s.tStart.value, s.tEnd.value, w);
        } else {
          hide InWindow;
        }
      }
      hide Covering, InWindow;
      assert covering != [] ==> covering[0] in covering;
      assert forall i :: 0 <= i < |covering| ==> covering[i] in covering;
    }
  }

  // ---- what it pays --------------------------------------------------------------------------------------------

  /** The energy of one core kept busy for `cpuMs` of `windowMs`, or all of it. */
  ghost function Busy(energy: real, cpuMs: real, windowMs: real): real
    requires windowMs > 0.0
  {
    energy * MinR(cpuMs / windowMs, 1.0)
  }

  ghost function PartOfTotal(x: real, weight: real, total: real): real
    requires total > 0.0
  {
    x * (weight / total)
  }

  /** By cpu time: the busy part of the sample, at most all of it, is divided in proportion to the weights. */
  lemma CpuPay(session: Session, s: EnergySample, id: SpanId)
    requires session.Valid() && session.Judge(s) == ByCpuTime && session.Observed(s) > 0.0
    ensures var observed, windowMs := session.Observed(s), (s.tEnd.value - s.tStart.value) as real;
            var busy := Busy(SampleEnergy(s), observed, windowMs);
            && session.Paid(s, id) == PartOfTotal(busy, session.CpuMs(s, id), observed)
            && session.Baseline(s) == SampleEnergy(s) - busy
  {
    var observed, windowMs := session.Observed(s), (s.tEnd.value - s.tStart.value) as real;
    CpuTerms(session, s, id);
    hide *;
    Capped(SampleEnergy(s), observed, windowMs, session.CpuMs(s, id), session.CpuRate(s));
    Capped(SampleEnergy(s), observed, windowMs, observed, session.CpuRate(s));
    Whole(Busy(SampleEnergy(s), observed, windowMs), observed);
  }

  lemma CpuTerms(session: Session, s: EnergySample, id: SpanId)
    requires session.Valid() && session.Judge(s) == ByCpuTime && session.Observed(s) > 0.0
    ensures s.Parsed() && s.tStart.value < s.tEnd.value
    ensures session.CpuRate(s) == SampleEnergy(s) / MaxR(session.Observed(s), (s.tEnd.value - s.tStart.value) as real)
    ensures session.Paid(s, id) == Scale(session.CpuRate(s), session.CpuMs(s, id))
    ensures session.Baseline(s) == SampleEnergy(s) - Scale(session.CpuRate(s), session.Observed(s))
  {
    hide SampleEnergy, SpanWeight, ObservedWeight, Scale, MaxR;
  }

  lemma Capped(energy: real, observed: real, windowMs: real, weight: real, rate: real)
    requires observed > 0.0 && windowMs > 0.0 && rate == energy / MaxR(observed, windowMs)
    ensures Scale(rate, weight) == PartOfTotal(Busy(energy, observed, windowMs), weight, observed)
  {
    CappedShare(energy, observed, windowMs, weight);
  }

  lemma Whole(x: real, y: real)
    requires y > 0.0
    ensures PartOfTotal(x, y, y) == x
  {
    assert y / y == 1.0;
  }

  /** By wall clock: in proportion to the time each span was open, scaled down when those times overlap. */
  lemma WallPay(session: Session, s: EnergySample, id: SpanId)
    requires session.Valid() && session.Judge(s) == ByWallClock
    ensures var t0, t1 := s.tStart.value, s.tEnd.value;
            var active := Active(session.tree, t0, t1);
            session.Paid(s, id)
            == Scale(SampleEnergy(s) / MaxR(1.0, SumOver(active, WallOf(t0, t1, None))),
                     SumOver(active, WallOf(t0, t1, Some(id))))
  {
    var t0, t1 := s.tStart.value, s.tEnd.value;
    var active := Active(session.tree, t0, t1);
    forall span: Span
      ensures ShareOf(t0, t1)(span) == WallOf(t0, t1, None)(span)
      ensures IdShareOf(t0, t1, id)(span) == WallOf(t0, t1, Some(id))(span)
    {
      OverlapIsCount(span.tStart, span.tEnd, t0, t1);
      hide OverlapMs, Instants;
    }
    SumAlike(active, ShareOf(t0, t1), WallOf(t0, t1, None));
    SumAlike(active, IdShareOf(t0, t1, id), WallOf(t0, t1, Some(id)));
    WallTerms(session, s, id);
    hide *;
  }

  lemma WallTerms(session: Session, s: EnergySample, id: SpanId)
    requires session.Valid() && session.Judge(s) == ByWallClock
    ensures s.Parsed() && s.tStart.value < s.tEnd.value
    ensures var t0, t1 := s.tStart.value, s.tEnd.value;
            var active := Active(session.tree, t0, t1);
            && session.WallRate(s) == SampleEnergy(s) / MaxR(1.0, SumOver(active, ShareOf(t0, t1)))
            && session.Paid(s, id) == Scale(session.WallRate(s), SumOver(active, IdShareOf(t0, t1, id)))
  {
    hide SampleEnergy, SumOver, Active, Scale;
  }

  /** The part of `[t0, t1)` a span was open for, if it carries the id asked for. */
  ghost function WallOf(t0: int, t1: int, id: Option<SpanId>): Span -> real {
    (s: Span) => if t0 < t1 && (id == None || id == Some(s.spanId))
                 then |Instants(s.tStart, s.tEnd) * Instants(t0, t1)| as real / (t1 - t0) as real else 0.0
  }

  lemma {:induction false} SumAlike<T(!new)>(xs: seq<T>, f: T -> real, g: T -> real)
    requires forall x :: f(x) == g(x)
    ensures SumOver(xs, f) == SumOver(xs, g)
  {
    if xs != [] {
      SumAlike(xs[..|xs| - 1], f, g);
    }
  }

  // ---- what a trace shows ------------------------------------------------------------------------------------------

  /** The part of `[t0, t1)` a span was open for. */
  ghost function OpenPart(span: Span, t0: int, t1: int): real
    requires t0 < t1
  {
    |Instants(span.tStart, span.tEnd) * Instants(t0, t1)| as real / (t1 - t0) as real
  }

  /** A trace's rows: first the remote spans open during the sample, with nothing, then the active spans, each with
      the time it was open, its cpu weight, what it was paid and its wall-clock part of the energy. */
  lemma RowsTell(session: Session, s: EnergySample, index: nat, i: nat)
    requires session.Valid() && s.Parsed() && s.tStart.value < s.tEnd.value
    requires i < |session.TraceOf(index, s).rows|
    ensures var t0, t1 := s.tStart.value, s.tEnd.value;
            var remote, active := Overlapping(Remotes(session.tree.spans), t0, t1), Active(session.tree, t0, t1);
            var row := session.TraceOf(index, s).rows[i];
            && |session.TraceOf(index, s).rows| == |remote| + |active|
            && (i < |remote| ==>
                  row == AllocRow(remote[i].spanId, OpenMs(remote[i], t0, t1), 0.0, 0.0, 0.0, true))
            && (i >= |remote| ==>
                  var span := active[i - |remote|];
                  row == AllocRow(span.spanId, OpenMs(span, t0, t1), session.CpuMs(s, span.spanId),
                                  session.Paid(s, span.spanId), Scale(SampleEnergy(s), OpenPart(span, t0, t1)), false))
  {
    var t0, t1 := s.tStart.value, s.tEnd.value;
    forall span: Span ensures OverlapMs(span.tStart, span.tEnd, t0, t1) as real == OpenMs(span, t0, t1) {
      OverlapIsCount(span.tStart, span.tEnd, t0, t1);
      hide OverlapMs, Instants;
    }
    hide OverlapMs, Instants, Session.Paid, Session.CpuMs, Session.Judge, Session.Orphaned, Session.Baseline,
         Session.RootCpu, Active, Overlapping, Remotes, SampleEnergy, Scale, WallShares;
  }

  ghost function OpenMs(span: Span, t0: int, t1: int): real {
    |Instants(span.tStart, span.tEnd) * Instants(t0, t1)| as real
  }

  /** The rest of a trace: the sample's number and energy, the window's length, the policy that divided it, what
      was orphaned and left, the wall-clock parts in all, and the root tree's cpu time. */
  lemma TraceTells(session: Session, s: EnergySample, index: nat)
    requires session.Valid() && s.Parsed()
    ensures var trace := session.TraceOf(index, s);
            && trace.sampleIndex == index && trace.totalJ == SampleEnergy(s)
            && (trace.policy == Some(L2CpuTime) <==> session.Judge(s) == ByCpuTime)
            && (trace.policy == Some(L1WallClock) <==> session.Judge(s) == ByWallClock)
            && (s.tEnd.value <= s.tStart.value ==>
                  trace.rows == [] && trace.orphanedJ == 0.0 && trace.baselineJ == SampleEnergy(s)
                  && trace.denominatorCpuMs == trace.l1ShadowSumShare == trace.rootCpuDeltaMs == 0.0)
            && (s.tStart.value < s.tEnd.value ==>
                  trace.orphanedJ == session.Orphaned(s) && trace.baselineJ == session.Baseline(s)
                  && trace.denominatorCpuMs == (s.tEnd.value - s.tStart.value) as real
                  && trace.rootCpuDeltaMs == session.RootCpu(s)
                  && trace.l1ShadowSumShare == SumOver(Active(session.tree, s.tStart.value, s.tEnd.value),
                                                       WallOf(s.tStart.value, s.tEnd.value, None)))
  {
    if s.tStart.value < s.tEnd.value {
      var t0, t1 := s.tStart.value, s.tEnd.value;
      forall span: Span ensures ShareOf(t0, t1)(span) == WallOf(t0, t1, None)(span) {
        OverlapIsCount(span.tStart, span.tEnd, t0, t1);
        hide OverlapMs, Instants;
      }
      SumAlike(Active(session.tree, t0, t1), ShareOf(t0, t1), WallOf(t0, t1, None));
    }
    hide Session.Paid, Session.CpuMs, Session.Orphaned, Session.Baseline, Session.RootCpu, Active, SampleEnergy,
         SumOver, Mapped, Overlapping, Remotes, OrphanWeight;
  }
}
