/**
 * The polling monitor: the user filter over the enumerated processes, and
 * one tick of the loop that compares the new snapshot with the stored one
 * and reports newly started blacklisted processes.
 */
module Monitor {
  import opened Wrappers
  import opened Rules

  /** What a tick hands to the notification: the process id and the matched rule. */
  datatype Detection = Detection(pid: int, rule: Rule)

  /** The processes of `procs` owned by `user`, in enumeration order. */
  function OwnedBy(procs: seq<Process>, user: string): seq<Process>
  {
    if procs == [] then []
    else OwnedBy(procs[..|procs| - 1], user)
         + (if procs[|procs| - 1].user == Some(user) then [procs[|procs| - 1]] else [])
  }

  /**
   * `get_processes`: walks the enumerated processes and keeps, in order,
   * those whose owner equals `user`.
   */
  method GetProcesses(enumerated: seq<Process>, user: string) returns (processes: seq<Process>)
    ensures processes == OwnedBy(enumerated, user)
    ensures forall p :: p in processes <==> p in enumerated && p.user == Some(user)
  {
    processes := [];
    for i := 0 to |enumerated|
      invariant processes == OwnedBy(enumerated[..i], user)
    {
      assert enumerated[..i + 1][..i] == enumerated[..i];
      if enumerated[i].user == Some(user) {
        processes := processes + [enumerated[i]];
      }
    }
    assert enumerated[..|enumerated|] == enumerated;
    OwnedByMembership(enumerated, user);
  }

  /** A process is kept exactly when it was enumerated and `user` owns it. */
  lemma {:induction false} OwnedByMembership(procs: seq<Process>, user: string)
    ensures forall p :: p in OwnedBy(procs, user) <==> p in procs && p.user == Some(user)
  {
    if procs != [] {
      var init := procs[..|procs| - 1];
      OwnedByMembership(init, user);
      assert procs == init + [procs[|procs| - 1]];
    }
  }

  /** The filter keeps enumeration order: filtering a concatenation concatenates the results. */
  lemma {:induction false} OwnedByConcat(a: seq<Process>, b: seq<Process>, user: string)
    ensures OwnedBy(a + b, user) == OwnedBy(a, user) + OwnedBy(b, user)
    decreases |b|
  {
    if b == [] {
      assert a + b == a;
    } else {
      var init, last := b[..|b| - 1], b[|b| - 1];
      OwnedByConcat(a, init, user);
      assert (a + b)[..|a + b| - 1] == a + init;
      assert (a + b)[|a + b| - 1] == last;
      calc {
        OwnedBy(a + b, user);
        OwnedBy(a + init, user) + (if last.user == Some(user) then [last] else []);
        OwnedBy(a, user) + OwnedBy(init, user) + (if last.user == Some(user) then [last] else []);
        OwnedBy(a, user) + OwnedBy(b, user);
      }
    }
  }

  /** Filtering keeps pids distinct: the result is drawn from the enumeration, in order. */
  lemma {:induction false} OwnedByUniquePids(procs: seq<Process>, user: string)
    requires UniquePids(procs)
    ensures UniquePids(OwnedBy(procs, user))
  {
    if procs != [] {
      var init, last := procs[..|procs| - 1], procs[|procs| - 1];
      assert UniquePids(init) by {
        forall i, j | 0 <= i < j < |init|
          ensures init[i].pid != init[j].pid
        {
          assert init[i] == procs[i] && init[j] == procs[j];
        }
      }
      OwnedByUniquePids(init, user);
      OwnedByMembership(init, user);
      var kept := OwnedBy(init, user);
      forall k | 0 <= k < |kept|
        ensures kept[k].pid != last.pid
      {
        assert kept[k] in init;
        var i :| 0 <= i < |init| && init[i] == kept[k];
        assert procs[i] == kept[k];
      }
    }
  }

  /** The process ids of a snapshot. */
  function Pids(procs: seq<Process>): set<int>
  {
    set p | p in procs :: p.pid
  }

  /** No two entries of the snapshot share a process id, as the operating system guarantees. */
  predicate UniquePids(procs: seq<Process>)
  {
    forall i, j :: 0 <= i < j < |procs| ==> procs[i].pid != procs[j].pid
  }

  /**
   * The processes a tick examines: those of `current` whose pid is not in
   * the stored snapshot, where an empty stored snapshot is first replaced
   * by the current one.
   */
  function NewProcesses(last: set<int>, current: seq<Process>): set<Process>
  {
    var baseline := if |last| == 0 then Pids(current) else last;
    set p | p in current && p.pid !in baseline
  }

  /** The detections listed in `detections`, as a set. */
  function Elements(detections: seq<Detection>): (r: set<Detection>)
    ensures r == {} <==> detections == []
  {
    var r := set d | d in detections;
    assert detections != [] ==> detections[0] in r;
    r
  }

  /** The detections for the processes of `procs` that the matcher accepts. */
  function Reports(rules: seq<Rule>, procs: set<Process>): set<Detection>
  {
    set p | p in procs && Match(p, rules).Some? :: Detection(p.pid, Match(p, rules).value)
  }

  /** The detections a tick reports. */
  function Detections(rules: seq<Rule>, last: set<int>, current: seq<Process>): set<Detection>
  {
    Reports(rules, NewProcesses(last, current))
  }

  /** Visiting one more process adds its detection, if the matcher accepts it. */
  lemma ReportsAddOne(rules: seq<Rule>, done: set<Process>, p: Process)
    ensures Reports(rules, done + {p}) ==
            Reports(rules, done) + (if Match(p, rules).Some? then {Detection(p.pid, Match(p, rules).value)} else {})
  {
  }

  /**
   * A tick reports exactly the processes of the current snapshot that are
   * not in a non-empty stored snapshot and that the matcher accepts, each
   * under the rule the matcher picks.
   */
  lemma DetectionsCharacterized(rules: seq<Rule>, last: set<int>, current: seq<Process>, d: Detection)
    ensures d in Detections(rules, last, current) <==>
            |last| != 0 && exists p :: p in current && p.pid == d.pid && p.pid !in last
                                     && Match(p, rules) == Some(d.rule)
  {
  }

  /** When nothing is stored, the tick only records a baseline and reports nothing. */
  lemma BaselineReportsNothing(rules: seq<Rule>, current: seq<Process>)
    ensures Detections(rules, {}, current) == {}
  {
  }

  /** A tick over the snapshot the previous tick stored reports nothing. */
  lemma UnchangedSnapshotReportsNothing(rules: seq<Rule>, current: seq<Process>)
    ensures Detections(rules, Pids(current), current) == {}
  {
  }

  /**
   * A new process whose name can no longer be read is skipped: the tick
   * reports exactly what it would report without it, so the other new
   * processes are still examined.
   */
  lemma VanishedProcessSkipped(rules: seq<Rule>, last: set<int>, current: seq<Process>, p: Process)
    requires p in NewProcesses(last, current) && p.name.None?
    ensures Detections(rules, last, current) == Reports(rules, NewProcesses(last, current) - {p})
  {
  }

  /**
   * Geometry Dash already running at start-up is the baseline; a later tick
   * with the same process reports nothing; a second Geometry Dash process
   * is reported once, under the Geometry Dash rule.
   */
  lemma GeometryDashScenario(p10: Process, p11: Process)
    requires p10.pid == 10 && p10.name == Some("GeometryDash.exe")
    requires p11.pid == 11 && p11.name == Some("GeometryDash.exe")
    ensures Detections(Blacklist, {}, [p10]) == {}
    ensures Pids([p10]) == {10} && Detections(Blacklist, {10}, [p10]) == {}
    ensures Detections(Blacklist, {10}, [p10, p11]) == {Detection(11, Blacklist[1])}
  {
  }

  /**
   * The stored snapshot. Each tick compares the current processes with it,
   * reports the new blacklisted ones, and replaces it with the current
   * process ids.
   */
  class Snapshot {
    const rules: seq<Rule>
    var last: set<int>

    constructor (rules: seq<Rule>)
      ensures this.rules == rules && last == {}
    {
      this.rules := rules;
      last := {};
    }

    /**
     * One tick over the current snapshot. The detections are listed in the
     * order the new processes are visited, which is unspecified.
     */
    method Tick(current: seq<Process>) returns (detections: seq<Detection>)
      modifies this
      ensures last == Pids(current)
      ensures Elements(detections) == Detections(rules, old(last), current)
      ensures UniquePids(current) ==>
                forall i, j :: 0 <= i < j < |detections| ==> detections[i].pid != detections[j].pid
    {
      if |last| == 0 {
        last := Pids(current);
      }
      var newProcesses := set p | p in current && p.pid !in last;
      assert newProcesses == NewProcesses(old(last), current);
      if UniquePids(current) {
        forall p, q | p in newProcesses && q in newProcesses && p.pid == q.pid
          ensures p == q
        {
          SamePidSameProcess(current, p, q);
        }
      }
      detections := ReportNew(rules, newProcesses);
      last := Pids(current);
    }

    /** `monitor`: filters the enumerated processes to `user`, then ticks. */
    method Poll(enumerated: seq<Process>, user: string) returns (detections: seq<Detection>)
      modifies this
      ensures last == Pids(OwnedBy(enumerated, user))
      ensures Elements(detections) == Detections(rules, old(last), OwnedBy(enumerated, user))
      ensures UniquePids(enumerated) ==>
                forall i, j :: 0 <= i < j < |detections| ==> detections[i].pid != detections[j].pid
    {
      var processes := GetProcesses(enumerated, user);
      if UniquePids(enumerated) {
        OwnedByUniquePids(enumerated, user);
      }
      detections := Tick(processes);
    }
  }

  /** Distinct processes of `procs` have distinct pids. */
  predicate PidKeyed(procs: set<Process>)
  {
    forall p, q :: p in procs && q in procs && p.pid == q.pid ==> p == q
  }

  /**
   * The loop over the new processes: each one the matcher accepts is
   * reported once, under its matched rule; the others are passed over.
   */
  method ReportNew(rules: seq<Rule>, newProcesses: set<Process>) returns (detections: seq<Detection>)
    ensures Elements(detections) == Reports(rules, newProcesses)
    ensures PidKeyed(newProcesses) ==>
              forall i, j :: 0 <= i < j < |detections| ==> detections[i].pid != detections[j].pid
  {
    var todo := newProcesses;
    ghost var done: set<Process> := {};
    detections := [];
    while todo != {}
      invariant todo <= newProcesses && done == newProcesses - todo
      invariant Elements(detections) == Reports(rules, done)
      invariant PidKeyed(newProcesses) ==>
                  forall i, j :: 0 <= i < j < |detections| ==> detections[i].pid != detections[j].pid
      decreases |todo|
    {
      var p :| p in todo;
      var blacklisted := Match(p, rules);
      ghost var before := detections;
      if blacklisted.Some? {
        detections := detections + [Detection(p.pid, blacklisted.value)];
      }
      VisitPreserves(rules, newProcesses, done, p, before, detections);
      todo := todo - {p};
      done := done + {p};
    }
  }

  /** Visiting `p` keeps both loop invariants of `ReportNew`. */
  lemma VisitPreserves(rules: seq<Rule>, procs: set<Process>, done: set<Process>, p: Process,
                       before: seq<Detection>, after: seq<Detection>)
    requires p in procs && p !in done && done <= procs
    requires Elements(before) == Reports(rules, done)
    requires PidKeyed(procs) ==> forall i, j :: 0 <= i < j < |before| ==> before[i].pid != before[j].pid
    requires after == if Match(p, rules).Some? then before + [Detection(p.pid, Match(p, rules).value)] else before
    ensures Elements(after) == Reports(rules, done + {p})
    ensures PidKeyed(procs) ==> forall i, j :: 0 <= i < j < |after| ==> after[i].pid != after[j].pid
  {
    ReportsAddOne(rules, done, p);
    if Match(p, rules).Some? {
      AppendDetection(before, Detection(p.pid, Match(p, rules).value));
      if PidKeyed(procs) {
        PidNotYetReported(rules, procs, done, p, before);
      }
    }
  }

  lemma AppendDetection(detections: seq<Detection>, d: Detection)
    ensures Elements(detections + [d]) == Elements(detections) + {d}
  {
  }

  /** Under unique pids, a process not yet visited has no detection yet. */
  lemma PidNotYetReported(rules: seq<Rule>, procs: set<Process>, done: set<Process>, p: Process, detections: seq<Detection>)
    requires PidKeyed(procs) && p in procs && p !in done && done <= procs
    requires Elements(detections) == Reports(rules, done)
    ensures forall d :: d in detections ==> d.pid != p.pid
  {
    forall d | d in detections
      ensures d.pid != p.pid
    {
      assert d in Reports(rules, done);
      var q :| q in done && Match(q, rules).Some? && d == Detection(q.pid, Match(q, rules).value);
      assert q != p;
    }
  }

  /** Two ticks over the same processes: the second reports nothing. */
  method RepeatedTickReportsNothing(monitor: Snapshot, current: seq<Process>) returns (second: seq<Detection>)
    modifies monitor
    ensures second == []
  {
    var first := monitor.Tick(current);
    second := monitor.Tick(current);
    UnchangedSnapshotReportsNothing(monitor.rules, current);
  }

  lemma SamePidSameProcess(procs: seq<Process>, p: Process, q: Process)
    requires UniquePids(procs) && p in procs && q in procs && p.pid == q.pid
    ensures p == q
  {
  }
}
