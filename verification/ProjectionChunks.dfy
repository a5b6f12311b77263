/** Chunked projection refines one pass: bounded calls compose, and any schedule of calls on a
    growing log drains to what one unlimited pass over the final log gives. */
module ProjectionChunks {
  import opened Common
  import opened EventFraming
  import opened Projection

  /** Nothing completed is ever lost while the projectors run. */
  lemma {:induction false} ProjectKeepsCompleted(source: SourceFact, ps: seq<Projector>, i: nat, s: Status)
    requires i <= |ps|
    ensures s.completed <= Project(source, ps, i, s).0.completed
    ensures Project(source, ps, i, s).0.cursor == s.cursor
    decreases |ps| - i
  {
    if i == |ps| {
    } else {
      var p := ps[i];
      if IsCompleted(s, source.identity, p.name) {
        ProjectKeepsCompleted(source, ps, i + 1, s);
      } else if p.attempt(source).Produced? {
        ProjectKeepsCompleted(source, ps, i + 1, Push(s, Entry(source.identity, p.name, p.attempt(source).outcome)));
      }
    }
  }

  lemma CompletedStays(s: Status, t: Status, id: SourceIdentity, name: string)
    requires s.completed <= t.completed && IsCompleted(s, id, name)
    ensures IsCompleted(t, id, name)
  {
    var i :| 0 <= i < |s.completed| && s.completed[i].source == id && s.completed[i].projector == name;
    assert t.completed[i] == s.completed[i];
  }

  /** Retrying a failed record with the same projectors skips what is done and fails the same way. */
  lemma {:induction false} ProjectFailsAgain(source: SourceFact, ps: seq<Projector>, i: nat, s: Status)
    requires i <= |ps| && !Project(source, ps, i, s).1
    ensures Project(source, ps, i, Project(source, ps, i, s).0) == Project(source, ps, i, s)
    decreases |ps| - i
  {
    var p := ps[i];
    var t := Project(source, ps, i, s).0;
    if IsCompleted(s, source.identity, p.name) {
      ProjectFailsAgain(source, ps, i + 1, s);
      ProjectKeepsCompleted(source, ps, i + 1, s);
      CompletedStays(s, t, source.identity, p.name);
    } else if p.attempt(source).Produced? {
      var pushed := Push(s, Entry(source.identity, p.name, p.attempt(source).outcome));
      assert pushed.completed[|s.completed|] == Entry(source.identity, p.name, p.attempt(source).outcome);
      ProjectFailsAgain(source, ps, i + 1, pushed);
      ProjectKeepsCompleted(source, ps, i + 1, pushed);
      CompletedStays(pushed, t, source.identity, p.name);
    } else {
      assert t.completed == s.completed;
    }
  }

  lemma {:induction false} NoBudget(parse: Bytes -> Option<Payload>, log: seq<EventRecord>, i: nat, s: Status,
                                    ps: seq<Projector>)
    requires i <= |log|
    ensures Pass(parse, log, i, s, 0, ps) == s
    decreases |log| - i
  {
    if i == |log| {
    } else {
      NoBudget(parse, log, i + 1, s, ps);
    }
  }

  /** A record that was passed stays passed. */
  lemma {:induction false} CursorAdvances(parse: Bytes -> Option<Payload>, log: seq<EventRecord>, i: nat, s: Status,
                                          budget: nat,
                                          ps: seq<Projector>, r: EventRecord)
    requires i <= |log| && !PastCursor(s, r)
    ensures !PastCursor(Pass(parse, log, i, s, budget, ps), r)
    decreases |log| - i
  {
    if i == |log| {
    } else {
      if !PastCursor(s, log[i]) || budget == 0 {
        CursorAdvances(parse, log, i + 1, s, budget, ps, r);
      } else {
        var (after, ok) := Process(parse, log[i], ps, s);
        var source := FromRecord(parse, log[i]);
        if source.Some? { ProjectKeepsCompleted(source.value, ps, 0, s); }
        if ok { CursorAdvances(parse, log, i + 1, after, budget - 1, ps, r); }
      }
    }
  }

  /** No call moves the cursor back. */
  lemma CursorNeverMovesBack(parse: Bytes -> Option<Payload>, log: seq<EventRecord>, s: Status, budget: nat,
                             ps: seq<Projector>)
    requires s.cursor.Some?
    ensures var after := Pass(parse, log, 0, s, budget, ps); after.cursor.Some? && after.cursor.value >= s.cursor.value
  {
    CursorAdvances(parse, log, 0, s, budget, ps, EventRecord(s.cursor.value, [], [], [], [], [], 0));
  }

  /** Two calls with limits `a` and `b` do what one call with limit `a + b` does, from any
      status and on any log, also when a projector fails. */
  lemma {:induction false} SplitBudget(parse: Bytes -> Option<Payload>, log: seq<EventRecord>, i: nat, s: Status,
                                       a: nat, b: nat, ps: seq<Projector>)
    requires i <= |log|
    ensures Pass(parse, log, i, Pass(parse, log, i, s, a, ps), b, ps) == Pass(parse, log, i, s, a + b, ps)
    decreases |log| - i
  {
    if i == |log| {
    } else {
      var first := Pass(parse, log, i, s, a, ps);
      if a == 0 {
        NoBudget(parse, log, i, s, ps);
      } else if !PastCursor(s, log[i]) {
        SplitBudget(parse, log, i + 1, s, a, b, ps);
        CursorAdvances(parse, log, i + 1, s, a, ps, log[i]);
      } else {
        var (after, ok) := Process(parse, log[i], ps, s);
        if ok {
          SplitBudget(parse, log, i + 1, after, a - 1, b, ps);
          CursorAdvances(parse, log, i + 1, after, a - 1, ps, log[i]);
        } else {
          var source := FromRecord(parse, log[i]).value;
          ProjectFailsAgain(source, ps, 0, s);
          ProjectKeepsCompleted(source, ps, 0, s);
          assert Process(parse, log[i], ps, first) == (first, false);
          NoBudget(parse, log, i, first, ps);
        }
      }
    }
  }

  /** How many records a pass processes before it stops. */
  function Spent(parse: Bytes -> Option<Payload>, log: seq<EventRecord>, i: nat, s: Status, budget: nat,
                 ps: seq<Projector>): (n: nat)
    requires i <= |log|
    ensures n <= budget && n <= |log| - i
    decreases |log| - i
  {
    if i == |log| then 0
    else if !PastCursor(s, log[i]) || budget == 0 then Spent(parse, log, i + 1, s, budget, ps)
    else
      var (after, ok) := Process(parse, log[i], ps, s);
      if ok then 1 + Spent(parse, log, i + 1, after, budget - 1, ps) else 1
  }

  /** A pass over a shorter log is a pass over the longer one with the budget it used. */
  lemma {:induction false} PassOnLongerLog(parse: Bytes -> Option<Payload>, log: seq<EventRecord>,
                                           longer: seq<EventRecord>,
                                           i: nat, s: Status, budget: nat, ps: seq<Projector>)
    requires i <= |log| && log <= longer
    ensures Pass(parse, log, i, s, budget, ps) == Pass(parse, longer, i, s, Spent(parse, log, i, s, budget, ps), ps)
    decreases |log| - i
  {
    var n := Spent(parse, log, i, s, budget, ps);
    if i == |log| {
      NoBudget(parse, longer, i, s, ps);
    } else {
      assert log[i] == longer[i];
      if !PastCursor(s, log[i]) || budget == 0 {
        PassOnLongerLog(parse, log, longer, i + 1, s, budget, ps);
      } else {
        var (after, ok) := Process(parse, log[i], ps, s);
        if ok { PassOnLongerLog(parse, log, longer, i + 1, after, budget - 1, ps); }
      }
    }
  }

  /** A budget of the log's length is as good as no limit. */
  lemma {:induction false} EnoughBudget(parse: Bytes -> Option<Payload>, log: seq<EventRecord>, i: nat, s: Status,
                                        a: nat, b: nat, ps: seq<Projector>)
    requires i <= |log| && |log| - i <= a && |log| - i <= b
    ensures Pass(parse, log, i, s, a, ps) == Pass(parse, log, i, s, b, ps)
    decreases |log| - i
  {
    if i == |log| {
    } else {
      if !PastCursor(s, log[i]) {
        EnoughBudget(parse, log, i + 1, s, a, b, ps);
      } else {
        var (after, ok) := Process(parse, log[i], ps, s);
        if ok { EnoughBudget(parse, log, i + 1, after, a - 1, b - 1, ps); }
      }
    }
  }

  ghost predicate SameProjectors(calls: seq<Call>, ps: seq<Projector>) {
    forall i :: 0 <= i < |calls| ==> calls[i].projectors == ps
  }

  /** Any run on a growing log is one call on its last log, with some limit. */
  lemma {:induction false} RunIsOneCall(parse: Bytes -> Option<Payload>, calls: seq<Call>, s: Status,
                                        ps: seq<Projector>,
                                        last: seq<EventRecord>) returns (limit: nat)
    requires Growing(calls) && SameProjectors(calls, ps)
    requires forall i :: 0 <= i < |calls| ==> calls[i].records <= last
    ensures RunCalls(parse, calls, s) == Pass(parse, last, 0, s, limit, ps)
  {
    if calls == [] {
      NoBudget(parse, last, 0, s, ps);
      limit := 0;
    } else {
      var n := |calls| - 1;
      var before := RunIsOneCall(parse, calls[..n], s, ps, last);
      var middle := RunCalls(parse, calls[..n], s);
      var spent := Spent(parse, calls[n].records, 0, middle, calls[n].limit, ps);
      PassOnLongerLog(parse, calls[n].records, last, 0, middle, calls[n].limit, ps);
      SplitBudget(parse, last, 0, s, before, spent, ps);
      limit := before + spent;
    }
  }

  /** Nothing is left to do: one more record's worth of work changes nothing. */
  predicate Drained(parse: Bytes -> Option<Payload>, log: seq<EventRecord>, s: Status, ps: seq<Projector>) {
    Pass(parse, log, 0, s, 1, ps) == s
  }

  lemma {:induction false} DrainedForGood(parse: Bytes -> Option<Payload>, log: seq<EventRecord>, s: Status, n: nat,
                                          ps: seq<Projector>)
    requires Drained(parse, log, s, ps)
    ensures Pass(parse, log, 0, s, n, ps) == s
  {
    if n == 0 {
      NoBudget(parse, log, 0, s, ps);
    } else {
      SplitBudget(parse, log, 0, s, 1, n - 1, ps);
      DrainedForGood(parse, log, s, n - 1, ps);
    }
  }

  /** However a growing log is cut into calls, with whatever limits, the status is that of a single
      unlimited pass over the final log exactly when nothing is left to do. */
  lemma DrainIsOnePass(parse: Bytes -> Option<Payload>, calls: seq<Call>, s: Status, ps: seq<Projector>)
    requires calls != [] && Growing(calls) && SameProjectors(calls, ps)
    ensures var last := calls[|calls| - 1].records;
            Drained(parse, last, RunCalls(parse, calls, s), ps) <==>
              RunCalls(parse, calls, s) == Pass(parse, last, 0, s, |last|, ps)
  {
    var last, t := calls[|calls| - 1].records, RunCalls(parse, calls, s);
    var limit := RunIsOneCall(parse, calls, s, ps, last);
    if Drained(parse, last, t, ps) {
      DrainedForGood(parse, last, t, |last|, ps);
      SplitBudget(parse, last, 0, s, limit, |last|, ps);
      EnoughBudget(parse, last, 0, s, limit + |last|, |last|, ps);
    }
    if t == Pass(parse, last, 0, s, |last|, ps) {
      SplitBudget(parse, last, 0, s, |last|, 1, ps);
      EnoughBudget(parse, last, 0, s, |last| + 1, |last|, ps);
    }
  }

  function TotalLimit(calls: seq<Call>): nat {
    if calls == [] then 0 else TotalLimit(calls[..|calls| - 1]) + calls[|calls| - 1].limit
  }

  ghost predicate AllOn(calls: seq<Call>, log: seq<EventRecord>, ps: seq<Projector>) {
    forall i :: 0 <= i < |calls| ==> calls[i].records == log && calls[i].projectors == ps
  }

  lemma {:induction false} LimitsAddUp(parse: Bytes -> Option<Payload>, calls: seq<Call>, s: Status,
                                       log: seq<EventRecord>, ps: seq<Projector>)
    requires AllOn(calls, log, ps)
    ensures RunCalls(parse, calls, s) == Pass(parse, log, 0, s, TotalLimit(calls), ps)
  {
    if calls == [] {
      NoBudget(parse, log, 0, s, ps);
    } else {
      var n := |calls| - 1;
      LimitsAddUp(parse, calls[..n], s, log, ps);
      SplitBudget(parse, log, 0, s, TotalLimit(calls[..n]), calls[n].limit, ps);
    }
  }

  /** Calls on one log drain it once their limits together reach its length, however small each is. */
  lemma EnoughCallsDrain(parse: Bytes -> Option<Payload>, calls: seq<Call>, s: Status, log: seq<EventRecord>,
                         ps: seq<Projector>)
    requires AllOn(calls, log, ps) && TotalLimit(calls) >= |log|
    ensures RunCalls(parse, calls, s) == Pass(parse, log, 0, s, |log|, ps) &&
            Drained(parse, log, RunCalls(parse, calls, s), ps)
  {
    LimitsAddUp(parse, calls, s, log, ps);
    EnoughBudget(parse, log, 0, s, TotalLimit(calls), |log|, ps);
    SplitBudget(parse, log, 0, s, |log|, 1, ps);
    EnoughBudget(parse, log, 0, s, |log| + 1, |log|, ps);
  }
}
