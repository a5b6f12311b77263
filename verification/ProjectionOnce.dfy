/** Exactly once under any failures: whatever fails in whichever call, the completed list is at
    every moment a prefix of one fixed order of (source, projector) pairs. */
module ProjectionOnce {
  import opened Common
  import opened EventFraming
  import opened Projection
  import opened ProjectionChunks

  type Key = (SourceIdentity, string)

  function KeyOf(e: Entry): Key { (e.source, e.projector) }

  /** Projector names in order, each once: a second projector of the same name never runs. */
  function Distinct(names: seq<string>): seq<string> {
    if names == [] then []
    else
      var d := Distinct(names[..|names| - 1]);
      if names[|names| - 1] in d then d else d + [names[|names| - 1]]
  }

  lemma {:induction false} DistinctFacts(names: seq<string>)
    ensures NoRepeats(Distinct(names))
    ensures forall i :: 0 <= i < |Distinct(names)| ==> Distinct(names)[i] in names
    ensures forall i :: 0 <= i < |names| ==> names[i] in Distinct(names)
  {
    if names == [] {
    } else {
      var n := |names| - 1;
      DistinctFacts(names[..n]);
      assert names == names[..n] + [names[n]];
    }
  }

  function NamesOf(ps: seq<Projector>): seq<string> {
    seq(|ps|, i requires 0 <= i < |ps| => ps[i].name)
  }

  function Pairs(id: SourceIdentity, names: seq<string>): seq<Key> {
    seq(|names|, i requires 0 <= i < |names| => (id, names[i]))
  }

  function RecordKeys(parse: Bytes -> Option<Payload>, names: seq<string>, r: EventRecord): seq<Key> {
    var source := FromRecord(parse, r);
    if source.None? then [] else Pairs(source.value.identity, Distinct(names))
  }

  /** The one order in which pairs are ever completed: by record, then by projector. */
  function AllKeys(parse: Bytes -> Option<Payload>, names: seq<string>, log: seq<EventRecord>): seq<Key> {
    if log == [] then []
    else AllKeys(parse, names, log[..|log| - 1]) + RecordKeys(parse, names, log[|log| - 1])
  }

  ghost predicate Increasing(log: seq<EventRecord>) {
    forall i, j :: 0 <= i < j < |log| ==> log[i].seqNo < log[j].seqNo
  }

  /** The cursor stands after the first `d` records. */
  predicate CursorAt(log: seq<EventRecord>, s: Status, d: nat)
    requires d <= |log|
  {
    s.cursor == if d == 0 then None else Some(log[d - 1].seqNo)
  }

  /** The completed entries follow the order `next`, which runs up to and including the first
      record past the cursor; its first `done` pairs belong to records before that one. */
  predicate Progress(done: nat, next: seq<Key>, s: Status) {
    && done <= |s.completed| <= |next|
    && (forall i :: 0 <= i < |s.completed| ==> KeyOf(s.completed[i]) == next[i])
    && s.applied == s.completed && s.completedCount == |s.completed|
    && (s.retry.Some? ==>
        |s.completed| < |next| && next[|s.completed|] == (s.retry.value.source, s.retry.value.projector))
  }

  function UpTo(log: seq<EventRecord>, n: nat): seq<EventRecord> {
    if n <= |log| then log[..n] else log
  }

  predicate StatusAt(parse: Bytes -> Option<Payload>, names: seq<string>, log: seq<EventRecord>, s: Status, d: nat)
    requires d <= |log|
  {
    CursorAt(log, s, d) &&
    Progress(|AllKeys(parse, names, UpTo(log, d))|, AllKeys(parse, names, UpTo(log, d + 1)), s)
  }

  lemma {:induction false} DistinctPrefix(names: seq<string>, i: nat)
    requires i < |names|
    ensures Distinct(names[..i]) <= Distinct(names)
    ensures names[i] !in names[..i] ==>
              |Distinct(names[..i])| < |Distinct(names)| && Distinct(names)[|Distinct(names[..i])|] == names[i]
    decreases |names|
  {
    var n := |names| - 1;
    DistinctFacts(names[..i]);
    if i == n {
    } else {
      DistinctPrefix(names[..n], i);
      assert names[..n][..i] == names[..i];
    }
  }

  lemma DoneCoversMet(names: seq<string>, i: nat, m: nat)
    requires i < |names| && m <= |Distinct(names)|
    requires forall j :: 0 <= j < i ==> names[j] in Distinct(names)[..m]
    ensures |Distinct(names[..i])| <= m
  {
    var d, met := Distinct(names), Distinct(names[..i]);
    DistinctPrefix(names, i);
    DistinctFacts(names[..i]);
    DistinctFacts(names);
    forall k | 0 <= k < |met| ensures met[k] in d[..m] {
      var j :| 0 <= j < i && names[..i][j] == met[k];
      assert names[j] in d[..m];
    }
    if m < |met| { NotInPrefix(d, m); }
  }

  lemma NotInPrefix(d: seq<string>, m: nat)
    requires NoRepeats(d) && m < |d|
    ensures d[m] !in d[..m]
  {
  }

  /** Names met so far are done, so a name that is not done is the next one in order. */
  lemma NextName(names: seq<string>, i: nat, m: nat)
    requires i < |names| && m <= |Distinct(names)| && names[i] !in Distinct(names)[..m]
    requires forall j :: 0 <= j < i ==> names[j] in Distinct(names)[..m]
    ensures m < |Distinct(names)| && Distinct(names)[m] == names[i]
  {
    var d := Distinct(names);
    var q := |Distinct(names[..i])|;
    assert names[i] !in names[..i];
    DistinctPrefix(names, i);
    DistinctFacts(names[..i]);
    DistinctFacts(names);
    assert q <= m by { DoneCoversMet(names, i, m); }
    assert m <= q by { assert forall k :: 0 <= k < m ==> d[k] in d[..m]; }
  }

  /** After the last name everything is done. */
  lemma AllMet(names: seq<string>, m: nat)
    requires m <= |Distinct(names)| && forall j :: 0 <= j < |names| ==> names[j] in Distinct(names)[..m]
    ensures m == |Distinct(names)|
  {
    var d := Distinct(names);
    DistinctFacts(names);
    assert forall k :: 0 <= k < |d| ==> d[k] in d[..m];
  }

  /** From index `b` on, `next` lists one source's pairs, and no pair of that source before. */
  predicate PairsFrom(next: seq<Key>, b: nat, id: SourceIdentity, d: seq<string>) {
    && |next| == b + |d|
    && (forall k :: 0 <= k < b ==> next[k].0 != id)
    && (forall k :: b <= k < |next| ==> next[k] == (id, d[k - b]))
  }

  lemma CompletedIff(next: seq<Key>, b: nat, id: SourceIdentity, d: seq<string>, s: Status, name: string)
    requires PairsFrom(next, b, id, d) && Progress(b, next, s)
    ensures IsCompleted(s, id, name) <==> name in d[..|s.completed| - b]
  {
    var m := |s.completed| - b;
    if name in d[..m] {
      var k :| 0 <= k < m && d[k] == name;
      assert KeyOf(s.completed[b + k]) == next[b + k];
    }
    if IsCompleted(s, id, name) {
      var k :| 0 <= k < |s.completed| && s.completed[k].source == id && s.completed[k].projector == name;
      assert KeyOf(s.completed[k]) == next[k];
      assert d[..m][k - b] == name;
    }
  }

  /** Running the projectors over one record moves the completed list along the fixed order. */
  lemma {:induction false} ProjectAdvances(source: SourceFact, ps: seq<Projector>, i: nat, s: Status,
                                           next: seq<Key>, b: nat, names: seq<string>)
    requires i <= |ps| && names == NamesOf(ps) && PairsFrom(next, b, source.identity, Distinct(names)) &&
             Progress(b, next, s)
    requires forall j :: 0 <= j < i ==> names[j] in Distinct(names)[..|s.completed| - b]
    ensures var (t, ok) := Project(source, ps, i, s);
            Progress(b, next, t) && t.cursor == s.cursor && (ok ==> |t.completed| == |next|)
    decreases |ps| - i
  {
    var d := Distinct(names);
    var m := |s.completed| - b;
    if i == |ps| {
      AllMet(names, m);
    } else {
      CompletedIff(next, b, source.identity, d, s, ps[i].name);
      if names[i] in d[..m] {
        ProjectAdvances(source, ps, i + 1, s, next, b, names);
      } else {
        NextName(names, i, m);
        if ps[i].attempt(source).Produced? {
          var t := Push(s, Entry(source.identity, ps[i].name, ps[i].attempt(source).outcome));
          assert d[..m + 1] == d[..m] + [names[i]];
          ProjectAdvances(source, ps, i + 1, t, next, b, names);
        }
      }
    }
  }

  /** Every pair belongs to a record of the log, so pairs of earlier records have another source. */
  lemma {:induction false} KeysHaveRecords(parse: Bytes -> Option<Payload>, names: seq<string>, log: seq<EventRecord>,
                                           key: Key)
    requires key in AllKeys(parse, names, log)
    ensures exists i :: 0 <= i < |log| && FromRecord(parse, log[i]).Some? &&
              FromRecord(parse, log[i]).value.identity == key.0 && key.0.eventSeq == log[i].seqNo && key.1 in names
  {
    var n := |log| - 1;
    if key in AllKeys(parse, names, log[..n]) {
      KeysHaveRecords(parse, names, log[..n], key);
      var i :| 0 <= i < n && FromRecord(parse, log[..n][i]).Some? &&
               FromRecord(parse, log[..n][i]).value.identity == key.0 && key.0.eventSeq == log[..n][i].seqNo &&
                 key.1 in names;
      assert log[..n][i] == log[i];
    } else {
      assert key in RecordKeys(parse, names, log[n]);
      DistinctFacts(names);
    }
  }

  lemma UpToSnoc(parse: Bytes -> Option<Payload>, names: seq<string>, log: seq<EventRecord>, d: nat)
    requires d < |log|
    ensures AllKeys(parse, names, UpTo(log, d + 1)) ==
            AllKeys(parse, names, UpTo(log, d)) + RecordKeys(parse, names, log[d])
    ensures AllKeys(parse, names, UpTo(log, d + 1)) <= AllKeys(parse, names, UpTo(log, d + 2))
  {
    assert log[..d + 1][..d] == log[..d];
    if d + 1 < |log| { assert log[..d + 2][..d + 1] == log[..d + 1]; }
  }

  /** The order up to a valid record ends with that record's pairs. */
  lemma OrderEndsWithRecord(parse: Bytes -> Option<Payload>, names: seq<string>, log: seq<EventRecord>, d: nat)
    requires d < |log| && Increasing(log) && FromRecord(parse, log[d]).Some?
    ensures PairsFrom(AllKeys(parse, names, UpTo(log, d + 1)), |AllKeys(parse, names, UpTo(log, d))|,
                      FromRecord(parse, log[d]).value.identity, Distinct(names))
  {
    var base, pairs := AllKeys(parse, names, log[..d]), RecordKeys(parse, names, log[d]);
    UpToSnoc(parse, names, log, d);
    forall k | 0 <= k < |base| ensures base[k].0 != FromRecord(parse, log[d]).value.identity {
      KeysHaveRecords(parse, names, log[..d], base[k]);
    }
    SplitOrder(base, pairs, FromRecord(parse, log[d]).value.identity, Distinct(names));
  }

  lemma SplitOrder(base: seq<Key>, pairs: seq<Key>, id: SourceIdentity, d: seq<string>)
    requires pairs == Pairs(id, d) && forall k :: 0 <= k < |base| ==> base[k].0 != id
    ensures PairsFrom(base + pairs, |base|, id, d)
  {
  }

  lemma ProjectOnTrack(parse: Bytes -> Option<Payload>, log: seq<EventRecord>, s: Status, d: nat, ps: seq<Projector>)
    requires d < |log| && Increasing(log) && FromRecord(parse, log[d]).Some?
    requires Progress(|AllKeys(parse, NamesOf(ps), UpTo(log, d))|, AllKeys(parse, NamesOf(ps), UpTo(log, d + 1)), s)
    ensures var (t, ok) := Project(FromRecord(parse, log[d]).value, ps, 0, s);
            var next := AllKeys(parse, NamesOf(ps), UpTo(log, d + 1));
            && Progress(|AllKeys(parse, NamesOf(ps), UpTo(log, d))|, next, t)
            && t.cursor == s.cursor && (ok ==> |t.completed| == |next|)
  {
    var names := NamesOf(ps);
    OrderEndsWithRecord(parse, names, log, d);
    ProjectAdvances(FromRecord(parse, log[d]).value, ps, 0, s, AllKeys(parse, names, UpTo(log, d + 1)),
                    |AllKeys(parse, names, UpTo(log, d))|, names);
  }

  /** All of `next` is done, so the order may be read further. */
  lemma Finish(done: nat, next: seq<Key>, later: seq<Key>, s: Status)
    requires Progress(done, next, s) && |s.completed| == |next| && next <= later
    ensures forall c :: Progress(|next|, later, s.(cursor := c))
  {
  }

  /** Processing the first record past the cursor: either it is finished and the cursor moves
      over it, or it is left partly done with a retry for exactly the next pair. */
  lemma ProcessAdvances(parse: Bytes -> Option<Payload>, log: seq<EventRecord>, s: Status, d: nat, ps: seq<Projector>)
    requires d < |log| && Increasing(log) && StatusAt(parse, NamesOf(ps), log, s, d)
    ensures var (t, ok) := Process(parse, log[d], ps, s);
            StatusAt(parse, NamesOf(ps), log, t, if ok then d + 1 else d)
  {
    var names := NamesOf(ps);
    var done, next := |AllKeys(parse, names, UpTo(log, d))|, AllKeys(parse, names, UpTo(log, d + 1));
    UpToSnoc(parse, names, log, d);
    var later := AllKeys(parse, names, UpTo(log, d + 2));
    if FromRecord(parse, log[d]).None? {
      Finish(done, next, later, s);
    } else {
      ProjectOnTrack(parse, log, s, d, ps);
      var (t, ok) := Project(FromRecord(parse, log[d]).value, ps, 0, s);
      if ok { Finish(done, next, later, t); }
    }
  }

  /** Records up to the cursor are passed over. */
  lemma PastCursorIff(log: seq<EventRecord>, s: Status, d: nat, i: nat)
    requires i < |log| && d <= |log| && Increasing(log) && CursorAt(log, s, d)
    ensures PastCursor(s, log[i]) <==> d <= i
  {
  }

  /** A pass skips to the first record past the cursor. */
  lemma {:induction false} PassSkips(parse: Bytes -> Option<Payload>, log: seq<EventRecord>, i: nat, s: Status,
                                     budget: nat,
                                     ps: seq<Projector>, d: nat)
    requires i <= d <= |log| && Increasing(log) && CursorAt(log, s, d)
    ensures Pass(parse, log, i, s, budget, ps) == Pass(parse, log, d, s, budget, ps)
    decreases d - i
  {
    if i == d {
    } else {
      PastCursorIff(log, s, d, i);
      PassSkips(parse, log, i + 1, s, budget, ps, d);
    }
  }

  /** A pass from the cursor on keeps the status on track. */
  lemma {:induction false} PassAdvances(parse: Bytes -> Option<Payload>, log: seq<EventRecord>, s: Status, budget: nat,
                                        ps: seq<Projector>, d: nat) returns (d': nat)
    requires d <= |log| && Increasing(log) && StatusAt(parse, NamesOf(ps), log, s, d)
    ensures d <= d' <= |log| && StatusAt(parse, NamesOf(ps), log, Pass(parse, log, d, s, budget, ps), d')
    decreases |log| - d
  {
    d' := d;
    if budget == 0 {
      NoBudget(parse, log, d, s, ps);
    } else if d < |log| {
      PastCursorIff(log, s, d, d);
      ProcessAdvances(parse, log, s, d, ps);
      var (after, ok) := Process(parse, log[d], ps, s);
      PassProcesses(parse, log, s, budget, ps, d, after, ok);
      if ok { d' := PassAdvances(parse, log, after, budget - 1, ps, d + 1); }
    }
  }

  lemma PassProcesses(parse: Bytes -> Option<Payload>, log: seq<EventRecord>, s: Status, budget: nat,
                      ps: seq<Projector>, d: nat,
                      after: Status, ok: bool)
    requires d < |log| && budget > 0 && PastCursor(s, log[d]) && (after, ok) == Process(parse, log[d], ps, s)
    ensures Pass(parse, log, d, s, budget, ps) == if ok then Pass(parse, log, d + 1, after, budget - 1, ps) else after
  {
  }

  /** A status stays on track when the log grows. */
  lemma GrowthKeeps(parse: Bytes -> Option<Payload>, names: seq<string>, log: seq<EventRecord>,
                    longer: seq<EventRecord>, s: Status, d: nat)
    requires d <= |log| && log <= longer && StatusAt(parse, names, log, s, d)
    ensures StatusAt(parse, names, longer, s, d)
  {
    assert UpTo(longer, d) == UpTo(log, d);
    if d < |log| {
      assert UpTo(longer, d + 1) == UpTo(log, d + 1);
    } else {
      assert UpTo(log, d + 1) == UpTo(log, d);
      if d < |longer| { UpToSnoc(parse, names, longer, d); } else { assert UpTo(longer, d + 1) == UpTo(longer, d); }
    }
  }

  ghost predicate ValidRun(calls: seq<Call>, names: seq<string>) {
    && Growing(calls)
    && forall i :: 0 <= i < |calls| ==> Increasing(calls[i].records) && NamesOf(calls[i].projectors) == names
  }

  /** Every run of calls from no prior status stays on track, whatever the projectors do. */
  lemma {:induction false} RunAdvances(parse: Bytes -> Option<Payload>, calls: seq<Call>,
                                       names: seq<string>) returns (d: nat)
    requires ValidRun(calls, names) && calls != []
    ensures var log := calls[|calls| - 1].records;
            d <= |log| && StatusAt(parse, names, log, RunCalls(parse, calls, FRESH), d)
  {
    var n := |calls| - 1;
    var log := calls[n].records;
    var before := RunCalls(parse, calls[..n], FRESH);
    d := 0;
    if n > 0 {
      d := RunAdvances(parse, calls[..n], names);
      GrowthKeeps(parse, names, calls[n - 1].records, log, before, d);
    } else if log != [] {
      UpToSnoc(parse, names, log, 0);
    }
    PassSkips(parse, log, 0, before, calls[n].limit, calls[n].projectors, d);
    d := PassAdvances(parse, log, before, calls[n].limit, calls[n].projectors, d);
  }

  lemma {:induction false} AllKeysDistinct(parse: Bytes -> Option<Payload>, names: seq<string>, log: seq<EventRecord>)
    requires Increasing(log)
    ensures NoRepeats(AllKeys(parse, names, log))
  {
    if log == [] {
    } else {
      var n := |log| - 1;
      AllKeysDistinct(parse, names, log[..n]);
      DistinctFacts(names);
      forall k | k in AllKeys(parse, names, log[..n]) ensures k.0.eventSeq < log[n].seqNo {
        KeysHaveRecords(parse, names, log[..n], k);
      }
    }
  }

  lemma {:induction false} AllKeysCover(parse: Bytes -> Option<Payload>, names: seq<string>, log: seq<EventRecord>,
                                        i: nat, name: string)
    requires i < |log| && FromRecord(parse, log[i]).Some? && name in names
    ensures (FromRecord(parse, log[i]).value.identity, name) in AllKeys(parse, names, log)
  {
    var n := |log| - 1;
    if i < n {
      AllKeysCover(parse, names, log[..n], i, name);
    } else {
      var d := Distinct(names);
      DistinctFacts(names);
      var k :| 0 <= k < |d| && d[k] == name;
      assert Pairs(FromRecord(parse, log[i]).value.identity, d)[k] in RecordKeys(parse, names, log[n]);
    }
  }

  /** What a status on track means to a reader of it. */
  ghost predicate ExactlyOnce(parse: Bytes -> Option<Payload>, names: seq<string>, log: seq<EventRecord>, s: Status) {
    // no pair is completed twice
    && (forall i, j :: 0 <= i < j < |s.completed| ==>
          KeyOf(s.completed[i]) != KeyOf(s.completed[j]))
    // every valid record at or below the cursor has all its projectors done
    && (forall i, name :: 0 <= i < |log| && !PastCursor(s, log[i]) && FromRecord(parse, log[i]).Some? ==>
          name in names ==> IsCompleted(s, FromRecord(parse, log[i]).value.identity, name))
    // nothing is done beyond the first record past the cursor
    && (forall e :: 0 <= e < |s.completed| ==>
          exists i :: 0 <= i < |log| && FromRecord(parse, log[i]).Some? &&
            FromRecord(parse, log[i]).value.identity == s.completed[e].source && s.completed[e].projector in names &&
            (forall j :: 0 <= j < i ==> !PastCursor(s, log[j])))
    // a pending retry lies past the cursor and is not completed
    && (s.retry.Some? ==>
          (s.cursor.None? || s.retry.value.source.eventSeq > s.cursor.value) &&
          !IsCompleted(s, s.retry.value.source, s.retry.value.projector))
    // the views agree with the list
    && s.applied == s.completed && s.completedCount == |s.completed|
  }

  lemma OnTrackHasNoRepeats(parse: Bytes -> Option<Payload>, names: seq<string>, log: seq<EventRecord>, s: Status,
                            d: nat)
    requires d <= |log| && Increasing(log) && StatusAt(parse, names, log, s, d)
    ensures forall i, j :: 0 <= i < j < |s.completed| ==> KeyOf(s.completed[i]) != KeyOf(s.completed[j])
    ensures s.retry.Some? ==> !IsCompleted(s, s.retry.value.source, s.retry.value.projector)
  {
    assert Increasing(UpTo(log, d + 1));
    AllKeysDistinct(parse, names, UpTo(log, d + 1));
    assert forall i :: 0 <= i < |s.completed| ==> KeyOf(s.completed[i]) == AllKeys(parse, names, UpTo(log, d + 1))[i];
  }

  /** All pairs of records before the cursor are completed. */
  lemma DoneBeforeCursor(parse: Bytes -> Option<Payload>, names: seq<string>, log: seq<EventRecord>, s: Status,
                         d: nat, i: nat, name: string)
    requires i < d <= |log| && StatusAt(parse, names, log, s, d) && FromRecord(parse, log[i]).Some? && name in names
    ensures IsCompleted(s, FromRecord(parse, log[i]).value.identity, name)
  {
    AllKeysCover(parse, names, log[..d], i, name);
    var done := AllKeys(parse, names, log[..d]);
    var k :| 0 <= k < |done| && done[k] == (FromRecord(parse, log[i]).value.identity, name);
    if d < |log| { UpToSnoc(parse, names, log, d); } else { assert UpTo(log, d + 1) == log[..d]; }
    assert KeyOf(s.completed[k]) == done[k];
  }

  lemma RetryIsPastCursor(parse: Bytes -> Option<Payload>, names: seq<string>, log: seq<EventRecord>, s: Status, d: nat)
    requires d <= |log| && Increasing(log) && StatusAt(parse, names, log, s, d) && s.retry.Some?
    ensures d < |log| && s.retry.value.source.eventSeq == log[d].seqNo
  {
    var done, next := AllKeys(parse, names, UpTo(log, d)), AllKeys(parse, names, UpTo(log, d + 1));
    assert UpTo(log, |log| + 1) == UpTo(log, |log|);
    UpToSnoc(parse, names, log, d);
    assert next[|s.completed|] == RecordKeys(parse, names, log[d])[|s.completed| - |done|];
  }

  lemma OnTrackIsExactlyOnce(parse: Bytes -> Option<Payload>, names: seq<string>, log: seq<EventRecord>, s: Status,
                             d: nat)
    requires d <= |log| && Increasing(log) && StatusAt(parse, names, log, s, d)
    ensures ExactlyOnce(parse, names, log, s)
  {
    OnTrackHasNoRepeats(parse, names, log, s, d);
    forall i, name | 0 <= i < |log| && !PastCursor(s, log[i]) && FromRecord(parse, log[i]).Some? && name in names
      ensures IsCompleted(s, FromRecord(parse, log[i]).value.identity, name)
    {
      PastCursorIff(log, s, d, i);
      DoneBeforeCursor(parse, names, log, s, d, i, name);
    }
    forall e | 0 <= e < |s.completed|
      ensures exists i :: 0 <= i < |log| && FromRecord(parse, log[i]).Some? &&
                FromRecord(parse, log[i]).value.identity == s.completed[e].source &&
                  s.completed[e].projector in names &&
                (forall j :: 0 <= j < i ==> !PastCursor(s, log[j]))
    {
      var upTo := UpTo(log, d + 1);
      assert KeyOf(s.completed[e]) == AllKeys(parse, names, upTo)[e];
      KeysHaveRecords(parse, names, upTo, KeyOf(s.completed[e]));
      var i :| 0 <= i < |upTo| && FromRecord(parse, upTo[i]).Some? &&
               FromRecord(parse, upTo[i]).value.identity == s.completed[e].source && s.completed[e].projector in names;
      assert upTo[i] == log[i];
      forall j | 0 <= j < i ensures !PastCursor(s, log[j]) { PastCursorIff(log, s, d, j); }
    }
    if s.retry.Some? {
      RetryIsPastCursor(parse, names, log, s, d);
      PastCursorIff(log, s, d, d);
    }
  }

  /** Exactly once: over any run of `declare` calls on a growing log, with the same projector
      names and arbitrary results of every projector in every call. */
  lemma RunsAreExactlyOnce(parse: Bytes -> Option<Payload>, calls: seq<Call>, names: seq<string>)
    requires ValidRun(calls, names) && calls != []
    ensures ExactlyOnce(parse, names, calls[|calls| - 1].records, RunCalls(parse, calls, FRESH))
  {
    var d := RunAdvances(parse, calls, names);
    OnTrackIsExactlyOnce(parse, names, calls[|calls| - 1].records, RunCalls(parse, calls, FRESH), d);
  }
}
