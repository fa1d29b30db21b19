/**
 What a run of the sampler writes about one pid: window after window, the milliseconds its process samples
 report add up to the CPU time its watch has seen.
 */
module SamplerRuns {
  import opened Prelude
  import S = Sampler
  import opened SamplerLoop

  // ---- what events report ---------------------------------------------------------------------------------

  function EntriesIn(e: Event, sid: string): seq<S.Entry> {
    if e.ProcessSample? && e.sessionId == sid then e.processes else []
  }

  /** The entries of one session's process samples, in the order they were written. */
  ghost function EntriesOf(events: seq<Event>, sid: string): seq<S.Entry> {
    if events == [] then []
    else EntriesOf(events[..|events| - 1], sid) + EntriesIn(events[|events| - 1], sid)
  }

  lemma {:induction false} EntriesAppend(a: seq<Event>, b: seq<Event>, sid: string)
    ensures EntriesOf(a + b, sid) == EntriesOf(a, sid) + EntriesOf(b, sid)
  {
    hide EntriesIn;
    if b == [] {
      assert a + b == a;
    } else {
      var n := |b| - 1;
      EntriesAppend(a, b[..n], sid);
      assert (a + b)[..|a| + n] == a + b[..n] && (a + b)[|a| + n] == b[n];
      Regroup(EntriesOf(a, sid), EntriesOf(b[..n], sid), EntriesIn(b[n], sid));
    }
  }

  lemma Regroup<T>(a: seq<T>, b: seq<T>, c: seq<T>)
    ensures a + b + c == a + (b + c)
  {
  }

  lemma {:induction false} NoEntries(events: seq<Event>, sid: string)
    requires forall i :: 0 <= i < |events| ==> events[i].EnergySample?
    ensures EntriesOf(events, sid) == []
  {
    if events != [] {
      NoEntries(events[..|events| - 1], sid);
    }
  }

  lemma {:induction false} EntriesWritten(sessions: seq<string>, tStart: real, tEnd: real,
                                          processes: map<string, seq<S.Entry>>, sid: string)
    requires NoDuplicates(sessions)
    ensures EntriesOf(S.ProcessEvents(sessions, tStart, tEnd, processes), sid)
         == if sid in sessions then S.EntriesAt(processes, sid) else []
  {
    if sessions != [] {
      var n := |sessions| - 1;
      EntriesWritten(sessions[..n], tStart, tEnd, processes, sid);
      var events := S.ProcessEvents(sessions, tStart, tEnd, processes);
      assert events[..n] == S.ProcessEvents(sessions[..n], tStart, tEnd, processes);
      assert sessions == sessions[..n] + [sessions[n]];
    }
  }

  /** A closing window writes each session the entries it collected for it. */
  lemma WindowWrites(s: Sampling, b: Boundary, sid: string)
    requires s.Valid() && s.window.Some? && sid in s.outputs
    ensures EntriesOf(Written(s, b), sid)
         == S.EntriesAt(S.Collected(s.outputs, s.watches, b.now, b.inspect).processes, sid)
  {
    hide S.Collected, S.Components, S.EnergyEvents, S.ProcessEvents, S.EntriesAt, EntriesOf, EntriesIn;
    var c, tStart := S.Collected(s.outputs, s.watches, b.now, b.inspect), s.window.value.tStart;
    var energy := if s.Measured(b)
                  then S.EnergyEvents(s.outputs, S.Components(b.reading.value, s.tracker.value), tStart, b.tEnd, c.cpu)
                  else [];
    if s.Measured(b) {
      EnergyShapes(s.outputs, S.Components(b.reading.value, s.tracker.value), tStart, b.tEnd, c.cpu);
    }
    NoEntries(energy, sid);
    EntriesWritten(s.outputs, tStart, b.tEnd, c.processes, sid);
    EntriesAppend(energy, S.ProcessEvents(s.outputs, tStart, b.tEnd, c.processes), sid);
  }

  // ---- one window -------------------------------------------------------------------------------------------

  /** No other watch of the session holds the pid. */
  ghost predicate Alone(watches: seq<Watch>, key: Key, pid: int) {
    forall w :: w in watches && w.key.sessionId == key.sessionId && pid in w.pids ==> w.key == key
  }

  lemma {:induction false} OthersSilent(w: Watch, inspect: S.Inspector, pid: int, n: nat)
    requires n <= |w.pids| && pid !in w.pids
    ensures S.ReportedMs(S.Sampled(w, inspect, n).entries, pid) == 0
              && S.Reports(S.Sampled(w, inspect, n).entries, pid) == 0
  {
    if n > 0 {
      OthersSilent(w, inspect, pid, n - 1);
      var s, s' := S.Sampled(w, inspect, n - 1), S.Sampled(w, inspect, n);
      if s' != s {
        S.ReportOne(s.entries, s'.entries[|s.entries|], pid);
      }
    }
  }

  /** What the window collected for `sid` reports of the pid. */
  ghost function MsOf(c: S.Collection, sid: string, pid: int): nat { S.ReportedMs(S.EntriesAt(c.processes, sid), pid) }

  ghost function ReportsOf(c: S.Collection, sid: string, pid: int): nat {
    S.Reports(S.EntriesAt(c.processes, sid), pid)
  }

  lemma CollectsMore(outputs: seq<string>, watches: seq<Watch>, now: real, inspect: S.Inspector, sid: string, pid: int)
    requires watches != []
    ensures var w := watches[|watches| - 1];
            var before := S.Collected(outputs, watches[..|watches| - 1], now, inspect);
            var after, s := S.Collected(outputs, watches, now, inspect), S.Sampled(w, inspect, |w.pids|);
            var adds := !S.Expired(w, now) && w.key.sessionId == sid;
            && MsOf(after, sid, pid) == MsOf(before, sid, pid) + (if adds then S.ReportedMs(s.entries, pid) else 0)
            && ReportsOf(after, sid, pid) == ReportsOf(before, sid, pid)
                                              + (if adds then S.Reports(s.entries, pid) else 0)
  {
    hide S.Sampled, S.ReportedMs, S.Reports;
    var w := watches[|watches| - 1];
    var before := S.Collected(outputs, watches[..|watches| - 1], now, inspect);
    S.ReportMany(S.EntriesAt(before.processes, sid), S.Sampled(w, inspect, |w.pids|).entries, pid);
  }

  lemma {:induction false} NobodyReports(outputs: seq<string>, watches: seq<Watch>, now: real, inspect: S.Inspector,
                                         sid: string, pid: int)
    requires forall w :: w in watches && w.key.sessionId == sid ==> pid !in w.pids
    ensures var c := S.Collected(outputs, watches, now, inspect); MsOf(c, sid, pid) == 0 && ReportsOf(c, sid, pid) == 0
  {
    if watches == [] {
      assert S.ReportedMs([], pid) == 0 && S.Reports([], pid) == 0;
    } else {
      var n := |watches| - 1;
      var w := watches[n];
      NobodyReports(outputs, watches[..n], now, inspect, sid, pid);
      CollectsMore(outputs, watches, now, inspect, sid, pid);
      hide S.Collected, S.Sampled, S.ReportedMs, S.Reports, MsOf, ReportsOf;
      if w.key.sessionId == sid {
        OthersSilent(w, inspect, pid, |w.pids|);
      }
    }
  }

  /** The session's entries report at least what one of its watches does, and exactly that when it is alone. */
  lemma {:induction false} OneReports(outputs: seq<string>, watches: seq<Watch>, now: real, inspect: S.Inspector,
                                      k: nat, pid: int)
    requires k < |watches| && OneWatchPerKey(watches) && !S.Expired(watches[k], now)
    ensures var v := watches[k];
            var c, s := S.Collected(outputs, watches, now, inspect), S.Sampled(v, inspect, |v.pids|);
            var ms, reports := MsOf(c, v.key.sessionId, pid), ReportsOf(c, v.key.sessionId, pid);
            && ms >= S.ReportedMs(s.entries, pid) && reports >= S.Reports(s.entries, pid)
            && (Alone(watches, v.key, pid) ==>
                  ms == S.ReportedMs(s.entries, pid) && reports == S.Reports(s.entries, pid))
  {
    var n, v := |watches| - 1, watches[k];
    CollectsMore(outputs, watches, now, inspect, v.key.sessionId, pid);
    hide S.Collected, S.Sampled, S.ReportedMs, S.Reports, MsOf, ReportsOf;
    if k < n {
      OneReports(outputs, watches[..n], now, inspect, k, pid);
      if Alone(watches, v.key, pid) {
        assert Alone(watches[..n], v.key, pid);
        if watches[n].key.sessionId == v.key.sessionId {
          assert watches[n] in watches && watches[n].key != v.key;
          OthersSilent(watches[n], inspect, pid, |watches[n].pids|);
        }
      }
    } else if Alone(watches, v.key, pid) {
      NobodyBefore(watches, pid);
      NobodyReports(outputs, watches[..n], now, inspect, v.key.sessionId, pid);
    }
  }

  lemma NobodyBefore(watches: seq<Watch>, pid: int)
    requires watches != [] && OneWatchPerKey(watches) && Alone(watches, watches[|watches| - 1].key, pid)
    ensures var n := |watches| - 1;
            forall w :: w in watches[..n] && w.key.sessionId == watches[n].key.sessionId ==> pid !in w.pids
  {
    var n := |watches| - 1;
    forall w | w in watches[..n] && w.key.sessionId == watches[n].key.sessionId ensures pid !in w.pids {
      var i :| 0 <= i < n && watches[i] == w;
    }
  }

  // ---- one watch over time --------------------------------------------------------------------------------

  /**
   `w` is `v` later on, and between them `entries` report of the pid what its readings moved by, within half a
   millisecond a report; never less, and when `exact` never more either.
   */
  ghost predicate Follows(v: Watch, w: Watch, pid: int, entries: seq<S.Entry>, exact: bool) {
    && v.key == w.key && v.pids == w.pids && pid in v.lastCpu && pid in w.lastCpu
    && S.AtLeast(S.ReportedMs(entries, pid), S.Reports(entries, pid), v.lastCpu[pid], w.lastCpu[pid])
    && (exact ==> S.Tracks(S.ReportedMs(entries, pid), S.Reports(entries, pid), v.lastCpu[pid], w.lastCpu[pid]))
  }

  lemma FollowsOn(u: Watch, v: Watch, w: Watch, pid: int, first: seq<S.Entry>, later: seq<S.Entry>,
                  exact: bool, more: bool, all: bool)
    requires Follows(u, v, pid, first, exact) && Follows(v, w, pid, later, more) && (all ==> exact && more)
    ensures Follows(u, w, pid, first + later, all)
  {
    S.ReportMany(first, later, pid);
    hide S.ReportedMs, S.Reports;
  }

  lemma FollowsItself(v: Watch, w: Watch, pid: int)
    requires v.key == w.key && v.pids == w.pids && v.lastCpu == w.lastCpu && pid in w.lastCpu
    ensures Follows(v, w, pid, [], true)
  {
  }

  /** The op asks for a watch of this very span. */
  predicate Asks(mainSession: string, op: S.Op, key: Key) {
    op.WatchOp? && UsableId(if op.session.Absent? then S.Text(mainSession) else op.session) == Some(key.sessionId)
    && UsableId(op.span) == Some(key.spanId)
  }

  /** An op that does not ask for this span's watch leaves it alone, but for its orphan mark. */
  lemma OpBack(s: Sampling, op: S.Op, w: Watch) returns (v: Watch)
    requires s.Valid() && w in s.Applied(op).watches && !Asks(s.mainSession, op, w.key)
    ensures v in s.watches && v.key == w.key && v.pids == w.pids && v.lastCpu == w.lastCpu
  {
    v := w;
    match op
    case WatchOp(session, span, pids, opens, baseline) => WatchTakesEffect(s, op, w);
    case UnwatchOp(session, span, at) =>
      var sid := s.SessionOf(session);
      if sid.Text? && span.Text? {
        var after := Orphan(s.watches, S.Key(sid.text, span.text), at);
        var i :| 0 <= i < |after| && after[i] == w;
        v := s.watches[i];
      }
    case _ =>
  }

  lemma {:induction false} SameMain(s: Sampling, ops: seq<S.Op>)
    ensures s.AppliedAll(ops).mainSession == s.mainSession
  {
    if ops != [] {
      SameMain(s, ops[..|ops| - 1]);
      hide Filter, PutWatch, Orphan, Baseline;
    }
  }

  ghost predicate NoneAsks(mainSession: string, ops: seq<S.Op>, key: Key) {
    forall i :: 0 <= i < |ops| ==> !Asks(mainSession, ops[i], key)
  }

  lemma {:induction false} OpsBack(s: Sampling, ops: seq<S.Op>, w: Watch) returns (v: Watch)
    requires s.Valid() && w in s.AppliedAll(ops).watches && NoneAsks(s.mainSession, ops, w.key)
    ensures v in s.watches && v.key == w.key && v.pids == w.pids && v.lastCpu == w.lastCpu
  {
    hide Sampling.Applied, Sampling.Valid, Asks;
    if ops == [] {
      v := w;
    } else {
      var n := |ops| - 1;
      AppliedAllKeepsValid(s, ops[..n]);
      SameMain(s, ops[..n]);
      var u := OpBack(s.AppliedAll(ops[..n]), ops[n], w);
      v := OpsBack(s, ops[..n], u);
    }
  }

  /** What reached the spool between `s` and `t` for one session. */
  ghost function WrittenSince(s: Sampling, t: Sampling, sid: string): seq<S.Entry>
    requires s.spool <= t.spool
  {
    EntriesOf(t.spool[|s.spool|..], sid)
  }

  lemma WrittenOn(s: Sampling, t: Sampling, u: Sampling, sid: string)
    requires s.spool <= t.spool <= u.spool
    ensures WrittenSince(s, u, sid) == WrittenSince(s, t, sid) + WrittenSince(t, u, sid)
  {
    assert u.spool[|s.spool|..] == t.spool[|s.spool|..] + u.spool[|t.spool|..];
    EntriesAppend(t.spool[|s.spool|..], u.spool[|t.spool|..], sid);
  }

  /** A window closing now finds the pid's readings no lower than before, and no other watch reporting it. */
  ghost predicate SteadyAt(s: Sampling, b: Boundary, key: Key, pid: int) {
    s.window.Some? ==>
    && Alone(s.watches, key, pid)
    && forall v :: v in s.watches && v.key == key && S.Baselined(v) ==> S.Rising(v, b.inspect, pid)
  }

  /** A window reports of a pid what the readings of the watch it keeps have moved by. */
  lemma WindowBack(s: Sampling, b: Boundary, w: Watch, pid: int) returns (v: Watch)
    requires s.Valid() && w in s.Ticked(b).watches && pid in w.pids
    ensures v in s.watches && s.spool <= s.Ticked(b).spool
    ensures Follows(v, w, pid, WrittenSince(s, s.Ticked(b), w.key.sessionId), SteadyAt(s, b, w.key, pid))
  {
    var t := s.Ticked(b);
    if s.window == None {
      v := w;
      assert t.spool[|s.spool|..] == [];
      FollowsItself(v, w, pid);
    } else {
      v := KeptBack(s, b, w);
      WrittenOnce(s, b, false);
      WindowWrites(s, b, w.key.sessionId);
      assert t.spool[|s.spool|..] == Written(s, b) by {
        hide *;
      }
      WatchTelescopes(s, b, v, pid);
    }
  }

  lemma KeptBack(s: Sampling, b: Boundary, w: Watch) returns (v: Watch)
    requires s.Valid() && s.window.Some? && w in s.Ticked(b).watches
    ensures v in s.watches && Survives(v, b.now, b.inspect) && w == Resampled(v, b.inspect) && S.Baselined(v)
    ensures w.key.sessionId in s.outputs
  {
    hide S.Collected, S.Sampled, Survives, S.Baselined;
    KeptIff(s.outputs, s.watches, b.now, b.inspect, w);
    v :| v in s.watches && Survives(v, b.now, b.inspect) && w == Resampled(v, b.inspect);
  }

  lemma WatchTelescopes(s: Sampling, b: Boundary, v: Watch, pid: int)
    requires s.Valid() && s.window.Some? && v in s.watches && Survives(v, b.now, b.inspect)
             && S.Baselined(v) && pid in v.pids
    ensures Follows(v, Resampled(v, b.inspect), pid,
                    S.EntriesAt(S.Collected(s.outputs, s.watches, b.now, b.inspect).processes, v.key.sessionId),
                    SteadyAt(s, b, v.key, pid))
  {
    hide S.Collected, S.Sampled, S.Rising, S.ReportedMs, S.Reports;
    var k :| 0 <= k < |s.watches| && s.watches[k] == v;
    OneReports(s.outputs, s.watches, b.now, b.inspect, k, pid);
    S.WindowTelescopes(v, b.inspect, pid, |v.pids|);
  }

  // ---- over a run -----------------------------------------------------------------------------------------------

  /** No op that is waiting or still to come asks for this span's watch. */
  ghost predicate NotAskedAgain(l: Loop, arrivals: seq<Arrival>, key: Key) {
    && NoneAsks(l.sampler.mainSession, l.pending, key)
    && forall i :: 0 <= i < |arrivals| && arrivals[i].Arrives? ==> !Asks(l.sampler.mainSession, arrivals[i].op, key)
  }

  ghost predicate SteadyStep(l: Loop, a: Arrival, key: Key, pid: int) {
    a.Due? && !l.stopped ==> SteadyAt(l.sampler, a.b, key, pid)
  }

  /** At every window of the run that closes, the pid is steady. */
  ghost predicate SteadyThroughout(l: Loop, arrivals: seq<Arrival>, key: Key, pid: int) {
    forall i :: 0 <= i < |arrivals| ==> SteadyStep(l.After(arrivals[..i]), arrivals[i], key, pid)
  }

  lemma {:induction false} QueueAsksNone(l: Loop, arrivals: seq<Arrival>, key: Key)
    requires NotAskedAgain(l, arrivals, key)
    ensures NoneAsks(l.sampler.mainSession, l.After(arrivals).pending, key)
    ensures l.After(arrivals).sampler.mainSession == l.sampler.mainSession
  {
    hide Sampling.Closed, Sampling.AppliedAll, Asks;
    if arrivals != [] {
      var n := |arrivals| - 1;
      QueueAsksNone(l, arrivals[..n], key);
      var before := l.After(arrivals[..n]);
      if arrivals[n].Due? {
        SameMain(before.sampler.Ticked(arrivals[n].b), before.pending);
        TickedMain(before.sampler, arrivals[n].b);
      }
    }
  }

  lemma TickedMain(s: Sampling, b: Boundary)
    ensures s.Ticked(b).mainSession == s.mainSession
  {
  }

  lemma SteadyBefore(l: Loop, arrivals: seq<Arrival>, key: Key, pid: int)
    requires arrivals != [] && SteadyThroughout(l, arrivals, key, pid)
    ensures var n := |arrivals| - 1;
            && SteadyThroughout(l, arrivals[..n], key, pid)
            && SteadyStep(l.After(arrivals[..n]), arrivals[n], key, pid)
  {
    hide SteadyStep;
    var n := |arrivals| - 1;
    forall i | 0 <= i < n ensures SteadyStep(l.After(arrivals[..n][..i]), arrivals[..n][i], key, pid)
    {
      assert arrivals[..n][..i] == arrivals[..i];
    }
  }

  /** One arrival: nothing is written about the pid but what its watch's readings moved by. */
  lemma StepBack(l: Loop, a: Arrival, w: Watch, pid: int) returns (v: Watch)
    requires l.sampler.Valid() && w in l.Next(a).sampler.watches && pid in w.pids
    requires NoneAsks(l.sampler.mainSession, l.pending, w.key)
    ensures v in l.sampler.watches && l.sampler.spool <= l.Next(a).sampler.spool
    ensures Follows(v, w, pid, WrittenSince(l.sampler, l.Next(a).sampler, w.key.sessionId),
                    SteadyStep(l, a, w.key, pid))
    ensures v.key == w.key && v.pids == w.pids
  {
    hide Sampling.Ticked, Sampling.AppliedAll, SteadyAt, Asks;
    var s := l.sampler;
    if a.Due? && !l.stopped {
      var t := s.Ticked(a.b);
      TickedKeepsValid(s, a.b);
      TickedMain(s, a.b);
      var u := OpsBack(t, l.pending, w);
      OpsEmitNothing(t, l.pending);
      v := WindowBack(s, a.b, u, pid);
      hide WrittenSince;
    } else {
      v := w;
      NothingYet(s, w, pid, SteadyStep(l, a, w.key, pid));
    }
  }

  lemma NothingYet(s: Sampling, w: Watch, pid: int, exact: bool)
    requires s.Valid() && w in s.watches && pid in w.pids
    ensures Follows(w, w, pid, WrittenSince(s, s, w.key.sessionId), exact)
  {
    assert s.spool[|s.spool|..] == [] && S.Baselined(w);
    FollowsItself(w, w, pid);
  }

  /**
   Over any run that keeps a watch, what its session's process samples report of a pid is the CPU time between
   the first reading and the last: never more than half a millisecond a report below it, and as little above it
   when no reading falls and no other watch of the session holds the pid.
   */
  lemma {:induction false} RunTelescopes(l: Loop, arrivals: seq<Arrival>, w: Watch, pid: int) returns (v: Watch)
    requires l.sampler.Valid() && NotAskedAgain(l, arrivals, w.key)
    requires w in l.After(arrivals).sampler.watches && pid in w.pids
    ensures v in l.sampler.watches && l.sampler.spool <= l.After(arrivals).sampler.spool
    ensures Follows(v, w, pid, WrittenSince(l.sampler, l.After(arrivals).sampler, w.key.sessionId),
                    SteadyThroughout(l, arrivals, w.key, pid))
  {
    hide Loop.Next, SteadyStep, SteadyThroughout, Follows, WrittenSince, Sampling.Valid, NoneAsks;
    if arrivals == [] {
      v := w;
      NothingYet(l.sampler, w, pid, SteadyThroughout(l, arrivals, w.key, pid));
    } else {
      var n := |arrivals| - 1;
      var before := l.After(arrivals[..n]);
      RunStaysValid(l, arrivals[..n]);
      QueueAsksNone(l, arrivals[..n], w.key);
      var u := StepBack(before, arrivals[n], w, pid);
      v := RunTelescopes(l, arrivals[..n], u, pid);
      WrittenOn(l.sampler, before.sampler, l.After(arrivals).sampler, w.key.sessionId);
      if SteadyThroughout(l, arrivals, w.key, pid) {
        SteadyBefore(l, arrivals, w.key, pid);
      }
      FollowsOn(v, u, w, pid, WrittenSince(l.sampler, before.sampler, w.key.sessionId),
                WrittenSince(before.sampler, l.After(arrivals).sampler, w.key.sessionId),
                SteadyThroughout(l, arrivals[..n], w.key, pid),
                SteadyStep(before, arrivals[n], w.key, pid),
                SteadyThroughout(l, arrivals, w.key, pid));
    }
  }
}
