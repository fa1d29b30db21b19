/**
 The sampler's rules told from its inputs: what a live pid reports, which watches a window keeps, what an energy
 sample says of the tracker's reading, and what each control op does.
 */
module SamplerRules {
  import opened Prelude
  import S = Sampler
  import opened SamplerLoop

  // ---- one watch ------------------------------------------------------------------------------------------

  predicate Alive(w: Watch, inspect: S.Inspector, n: nat) { inspect(w.key, n).Seen? && inspect(w.key, n).alive }

  /** What a live pid reports: the milliseconds since its last reading, never below zero, its memory, and the span
      that orphaned it. */
  predicate Tells(e: S.Entry, w: Watch, n: nat, cpuSeconds: real, rssBytes: nat)
    requires n < |w.pids|
  {
    var pid := w.pids[n];
    var used := if pid in w.lastCpu then cpuSeconds - w.lastCpu[pid] else 0.0;
    && e.pid == pid && e.rssBytes == rssBytes
    && -0.5 <= e.cpuMs as real - 1000.0 * (if used > 0.0 then used else 0.0) <= 0.5
    && e.orphanOf == if w.orphanSince == None then None else Some(w.key.spanId)
  }

  ghost predicate TellsOf(e: S.Entry, w: Watch, inspect: S.Inspector, n: nat)
    requires n < |w.pids|
  {
    Alive(w, inspect, n) && Tells(e, w, n, inspect(w.key, n).cpuSeconds, inspect(w.key, n).rssBytes)
  }

  lemma OneSampled(w: Watch, s: S.Sample, n: nat, seen: S.Inspection)
    requires n < |w.pids| && seen.Seen? && seen.alive
    requires w.pids[n] in s.lastCpu <==> w.pids[n] in w.lastCpu
    requires w.pids[n] in s.lastCpu ==> s.lastCpu[w.pids[n]] == w.lastCpu[w.pids[n]]
    ensures var t := S.SampleOne(w, s, w.pids[n], seen);
            |t.entries| == |s.entries| + 1 && t.entries[..|s.entries|] == s.entries
            && Tells(t.entries[|s.entries|], w, n, seen.cpuSeconds, seen.rssBytes)
  {
  }

  /** A pid not yet sampled keeps its last reading. */
  lemma {:induction false} Untouched(w: Watch, inspect: S.Inspector, n: nat, pid: int)
    requires n <= |w.pids| && pid !in w.pids[..n]
    ensures var s := S.Sampled(w, inspect, n);
            (pid in s.lastCpu <==> pid in w.lastCpu) && (pid in s.lastCpu ==> s.lastCpu[pid] == w.lastCpu[pid])
  {
    if n > 0 {
      assert w.pids[..n] == w.pids[..n - 1] + [w.pids[n - 1]];
      Untouched(w, inspect, n - 1, pid);
    }
  }

  /** A live pid leaves its reading behind; a dead one, or one that could not be inspected, its last. */
  lemma {:induction false} ReadingOf(w: Watch, inspect: S.Inspector, n: nat, k: nat)
    requires k < n <= |w.pids| && NoDuplicates(w.pids)
    ensures var s, pid := S.Sampled(w, inspect, n), w.pids[k];
            if Alive(w, inspect, k) then pid in s.lastCpu && s.lastCpu[pid] == inspect(w.key, k).cpuSeconds
            else (pid in s.lastCpu <==> pid in w.lastCpu) && (pid in s.lastCpu ==> s.lastCpu[pid] == w.lastCpu[pid])
  {
    if k < n - 1 {
      ReadingOf(w, inspect, n - 1, k);
    } else {
      Untouched(w, inspect, k, w.pids[k]);
    }
  }

  /** Each live pid has its entry. */
  lemma {:induction false} EntryOf(w: Watch, inspect: S.Inspector, n: nat, k: nat)
    requires k < n <= |w.pids| && NoDuplicates(w.pids) && Alive(w, inspect, k)
    ensures exists e :: e in S.Sampled(w, inspect, n).entries && TellsOf(e, w, inspect, k)
  {
    var s, t := S.Sampled(w, inspect, n - 1), S.Sampled(w, inspect, n);
    if k < n - 1 {
      EntryOf(w, inspect, n - 1, k);
      var e :| e in s.entries && TellsOf(e, w, inspect, k);
      hide S.DeltaMs, TellsOf;
      assert e in t.entries;
    } else {
      Untouched(w, inspect, k, w.pids[k]);
      OneSampled(w, s, k, inspect(w.key, k));
      hide S.SampleOne, Tells;
      assert TellsOf(t.entries[|s.entries|], w, inspect, k);
    }
  }

  /** Each entry is a live pid's. */
  lemma {:induction false} EntriesOnly(w: Watch, inspect: S.Inspector, n: nat, e: S.Entry)
    requires n <= |w.pids| && NoDuplicates(w.pids) && e in S.Sampled(w, inspect, n).entries
    ensures exists k :: 0 <= k < n && TellsOf(e, w, inspect, k)
  {
    var s, t := S.Sampled(w, inspect, n - 1), S.Sampled(w, inspect, n);
    if e in s.entries {
      EntriesOnly(w, inspect, n - 1, e);
    } else {
      Untouched(w, inspect, n - 1, w.pids[n - 1]);
      OneSampled(w, s, n - 1, inspect(w.key, n - 1));
      assert t.entries == s.entries + [t.entries[|s.entries|]];
      hide S.SampleOne, Tells;
      assert TellsOf(e, w, inspect, n - 1);
    }
  }

  /** Each live pid has one entry, and the others none. */
  lemma {:induction false} EntriesOnce(w: Watch, inspect: S.Inspector, n: nat, k: nat)
    requires n <= |w.pids| && k < |w.pids| && NoDuplicates(w.pids)
    ensures S.Reports(S.Sampled(w, inspect, n).entries, w.pids[k]) == if k < n && Alive(w, inspect, k) then 1 else 0
  {
    if n > 0 {
      EntriesOnce(w, inspect, n - 1, k);
      var s, t := S.Sampled(w, inspect, n - 1), S.Sampled(w, inspect, n);
      if Alive(w, inspect, n - 1) {
        assert t.entries == s.entries + [t.entries[|s.entries|]] && t.entries[|s.entries|].pid == w.pids[n - 1];
        hide S.Sampled, S.Reports;
        S.ReportOne(s.entries, t.entries[|s.entries|], w.pids[k]);
      } else {
        assert t.entries == s.entries;
        hide S.Sampled, S.Reports;
      }
    }
  }

  lemma {:induction false} AnyAlive(w: Watch, inspect: S.Inspector, n: nat)
    requires n <= |w.pids|
    ensures S.Sampled(w, inspect, n).anyAlive <==> exists j :: 0 <= j < n && Alive(w, inspect, j)
  {
    if n > 0 {
      AnyAlive(w, inspect, n - 1);
      var s, t := S.Sampled(w, inspect, n - 1), S.Sampled(w, inspect, n);
      assert t.anyAlive <==> s.anyAlive || Alive(w, inspect, n - 1);
      hide S.Sampled, Alive;
    }
  }

  // ---- which watches a window keeps ---------------------------------------------------------------------------

  /** A watch outlives a window while it is not orphaned, or was orphaned less than sixty seconds ago and some
      process of its is alive. */
  lemma SurvivesIff(w: Watch, now: real, inspect: S.Inspector)
    ensures Survives(w, now, inspect) <==>
              w.orphanSince.Some? ==>
                now - w.orphanSince.value < 60.0 && exists n :: 0 <= n < |w.pids| && Alive(w, inspect, n)
  {
    AnyAlive(w, inspect, |w.pids|);
    hide S.Sampled;
  }

  /** A watch that outlives a window keeps everything but its readings. */
  lemma ResampledKeeps(w: Watch, inspect: S.Inspector)
    ensures var after := Resampled(w, inspect);
            after.key == w.key && after.pids == w.pids && after.orphanSince == w.orphanSince
  {
  }

  // ---- what an energy sample says -----------------------------------------------------------------------------

  /** The part of a tracker's reading a component of this kind reports, in joules: never below zero. */
  ghost function ReadingOfKind(r: S.Reading, kind: string): real {
    var kwh := if kind == "cpu" then r.cpu else if kind == "dram" then r.ram
               else if kind == "gpu" then r.gpu else r.total;
    if kwh > 0.0 then 3600000.0 * kwh else 0.0
  }

  /** The components of a reading: cpu, dram and total always, gpu when one is known or used energy; each with its
      own field and method, the total with the cpu's. */
  lemma ComponentsShow(r: S.Reading, methods: S.Methods)
    ensures var cs := S.Components(r, methods);
            && (|cs| == 4 || |cs| == 3) && (|cs| == 4 <==> "gpu" in methods || r.gpu > 0.0)
            && cs[0].kind == "cpu" && cs[1].kind == "dram" && cs[|cs| - 1].kind == "total"
            && (|cs| == 4 ==> cs[2].kind == "gpu")
            && forall i :: 0 <= i < |cs| ==>
                 && cs[i].energyJ == ReadingOfKind(r, cs[i].kind)
                 && var named := if cs[i].kind == "total" then "cpu" else cs[i].kind;
                    cs[i].tag == if named in methods then methods[named] else "other"
  {
  }

  /** A session's share is its part of all the cpu time, or an equal part when there was none. */
  lemma ShareIs(cpu: map<string, nat>, sessions: seq<string>, sid: string)
    requires sessions != []
    ensures var total := SumOver(sessions, (x: string) => S.CpuAt(cpu, x) as real);
            if total > 0.0 then Scale(total, S.ShareOf(cpu, sessions, sid)) == S.CpuAt(cpu, sid) as real
            else Scale(|sessions| as real, S.ShareOf(cpu, sessions, sid)) == 1.0
  {
    S.CpuTotalIsSum(cpu, sessions);
    var total := S.CpuTotal(cpu, sessions);
    hide S.CpuTotal, SumOver;
    if total > 0 {
      Undivided(total, S.CpuAt(cpu, sid) as real);
    } else {
      Undivided(|sessions|, 1.0);
    }
  }

  lemma Undivided(n: nat, x: real)
    requires n > 0
    ensures Scale(n as real, Scale(1.0 / n as real, x)) == x
  {
    var r := 1.0 / n as real;
    assert n as real * r == 1.0;
    assert n as real * (r * x) == (n as real * r) * x;
  }

  /** Each session's energy event covers the window and carries its share of every component. */
  lemma EnergyShows(sessions: seq<string>, components: seq<S.Component>, tStart: real, tEnd: real,
                    cpu: map<string, nat>, k: nat)
    requires k < |sessions|
    ensures var events := S.EnergyEvents(sessions, components, tStart, tEnd, cpu);
            |events| == |sessions| && events[k].EnergySample? && events[k].sessionId == sessions[k]
            && events[k].tStart == tStart && events[k].tEnd == tEnd && |events[k].components| == |components|
            && forall i :: 0 <= i < |components| ==>
                 var c, slice := components[i], events[k].components[i];
                 && slice.kind == c.kind && slice.tag == c.tag
                 && slice.energyJ == Scale(c.energyJ, S.ShareOf(cpu, sessions, sessions[k]))
  {
    hide S.ShareOf, Scale;
  }

  // ---- what control ops do ----------------------------------------------------------------------------------------

  /** The session an op names: its own, or the main one when it names none; unusable unless it is some text. */
  function Named(s: Sampling, f: S.Field): string {
    if f.Absent? then s.mainSession else if f.Text? then f.text else ""
  }

  /** There are baselines when every pid can be read. */
  lemma {:induction false} BaselinesAre(pids: seq<int>, read: nat -> Option<real>)
    ensures Baseline(pids, read).Some? <==> forall n :: 0 <= n < |pids| ==> read(n).Some?
  {
    if pids != [] {
      BaselinesAre(pids[..|pids| - 1], read);
    }
  }

  /** The baseline of a pid is its reading; the last, if it is listed twice. */
  lemma {:induction false} BaselineOf(pids: seq<int>, read: nat -> Option<real>, n: nat)
    requires n < |pids| && pids[n] !in pids[n + 1..] && Baseline(pids, read).Some?
    ensures pids[n] in Baseline(pids, read).value && read(n) == Some(Baseline(pids, read).value[pids[n]])
  {
    var m := |pids| - 1;
    if n < m {
      assert pids[n + 1..] == pids[..m][n + 1..] + [pids[m]];
      BaselineOf(pids[..m], read, n);
    }
  }

  /** A watch op takes effect when it names a session and a span, lists pids, has or gets a spool, and every pid can
      be read; the watch it adds is for that span, unorphaned, from those readings. */
  lemma AskedIff(s: Sampling, op: S.Op)
    requires op.WatchOp?
    ensures Asked(s, op).Some? <==>
              && Named(s, op.session) != "" && op.span.Text? && op.span.text != "" && op.pids.Some?
              && (Named(s, op.session) in s.outputs || op.opens)
              && forall n :: 0 <= n < |op.pids.value| ==> op.baseline(n).Some?
    ensures Asked(s, op).Some? ==>
              && Asked(s, op).value.key == S.Key(Named(s, op.session), op.span.text)
              && Asked(s, op).value.pids == op.pids.value && Asked(s, op).value.orphanSince == None
              && Some(Asked(s, op).value.lastCpu) == Baseline(op.pids.value, op.baseline)
    ensures s.Applied(op).outputs ==
              if Named(s, op.session) != "" && op.span.Text? && op.span.text != "" && op.pids.Some? && op.opens
                 && Named(s, op.session) !in s.outputs
              then s.outputs + [Named(s, op.session)] else s.outputs
  {
    if op.pids.Some? {
      BaselinesAre(op.pids.value, op.baseline);
    }
    hide Baseline, PutWatch;
  }

  /** An unwatch op orphans the one watch it names, from the moment given, and touches nothing else. */
  lemma UnwatchOrphans(s: Sampling, session: S.Field, span: S.Field, at: real)
    ensures var t := s.Applied(S.UnwatchOp(session, span, at));
            && t.(watches := s.watches) == s && |t.watches| == |s.watches|
            && forall i :: 0 <= i < |s.watches| ==>
                 t.watches[i] == if (session.Absent? || session.Text?) && span.Text?
                                    && s.watches[i].key == S.Key(Named(s, session), span.text)
                                 then s.watches[i].(orphanSince := Some(at)) else s.watches[i]
  {
  }

  /** Removing a session closes its spool and drops its watches, and no others. */
  lemma RemoveDrops(s: Sampling, session: S.Field)
    ensures var t := s.Applied(S.RemoveSessionOp(session));
            var gone := if session.Text? then session.text else "";
            && (forall w :: w in t.watches <==> w in s.watches && (gone == "" || w.key.sessionId != gone))
            && (forall o :: o in t.outputs <==> o in s.outputs && (gone == "" || o != gone))
            && t.(watches := s.watches, outputs := s.outputs) == s
  {
  }

  // ---- windows ----------------------------------------------------------------------------------------------------

  /** A boundary opens the next window: numbered one more, starting when the clock says, and measured only if there
      is a tracker that could be started. A tracker is kept after a reading, replaced after a window without one. */
  lemma TickOpens(s: Sampling, b: Boundary)
    ensures var t := s.Ticked(b);
            && t.index == s.index + 1 && t.window.Some? && t.window.value.index == s.index + 1
            && t.window.value.tStart == b.tOpen && (t.window.value.measured <==> t.tracker.Some? && b.startOk)
            && t.outputs == s.outputs
            && t.tracker == if s.window.Some? && !(s.window.value.measured && s.tracker.Some? && b.reading.Some?)
                            then b.rebuilt else s.tracker
  {
    hide S.Collected, S.EnergyEvents, S.ProcessEvents, S.Components;
  }

  predicate Queues(arrivals: seq<Arrival>) {
    forall i :: 0 <= i < |arrivals| ==> arrivals[i].Arrives? && !arrivals[i].op.Shutdown? && !arrivals[i].op.Ping?
  }

  function OpsOf(arrivals: seq<Arrival>): seq<S.Op> {
    Mapped(arrivals, (a: Arrival) => if a.Arrives? then a.op else S.Unrecognised)
  }

  lemma {:induction false} OpsWait(l: Loop, ops: seq<Arrival>)
    requires !l.stopped && Queues(ops)
    ensures l.After(ops) == l.(pending := l.pending + OpsOf(ops))
  {
    hide Sampling.Ticked, Sampling.AppliedAll;
    if ops != [] {
      OpsWait(l, ops[..|ops| - 1]);
    }
  }

  /** The ops that arrive during a window are applied in order, right after it has closed and the next has opened. */
  lemma OpsApplyAtTheTick(l: Loop, ops: seq<Arrival>, b: Boundary)
    requires !l.stopped && Queues(ops)
    ensures var after := l.After(ops + [Due(b)]);
            after.sampler == l.sampler.Ticked(b).AppliedAll(l.pending + OpsOf(ops)) && after.pending == []
  {
    OpsWait(l, ops);
    assert (ops + [Due(b)])[..|ops|] == ops;
    hide Sampling.Ticked, Sampling.AppliedAll;
  }

  /** The pings among the arrivals. */
  function PingIds(arrivals: seq<Arrival>): seq<string> {
    Mapped(Filter(arrivals, (a: Arrival) => a.Arrives? && a.op.Ping?),
           (a: Arrival) => if a.Arrives? && a.op.Ping? then a.op.id else "")
  }

  /** Until the shutdown every ping is answered, once and in order. */
  lemma {:induction false} PingsAnswered(l: Loop, arrivals: seq<Arrival>)
    requires !l.stopped && forall i :: 0 <= i < |arrivals| ==> arrivals[i] != Arrives(S.Shutdown)
    ensures !l.After(arrivals).stopped && l.After(arrivals).answered == l.answered + PingIds(arrivals)
  {
    hide Sampling.Ticked, Sampling.AppliedAll;
    if arrivals != [] {
      PingsAnswered(l, arrivals[..|arrivals| - 1]);
    }
  }
}
