// Replaying a world on its recorded model calls, and comparing the decisions of both worlds.
module Playback {
  import opened Prelude

  datatype Key = Key(actor: string, tick: nat, purpose: string)
  datatype Outcome = Acted | Hesitated | Fallback
  datatype Call = Call(purpose: string, outcome: Outcome, output: Option<string>)

  // One recorded decision; `dropped` says its output was not retained.
  datatype Row = Row(key: Key, outcome: Outcome, dropped: bool, output: Option<string>)

  // Calls that acted without their output retained cannot be replayed.
  predicate Playable(r: Row) { !(r.dropped && r.outcome == Acted) }

  function CallOf(r: Row): Call { Call(r.key.purpose, r.outcome, r.output) }

  // The recorded calls of one key, in order.
  function Queue(rows: seq<Row>, key: Key): seq<Call> {
    if rows == [] then []
    else
      var r := rows[|rows| - 1];
      Queue(rows[..|rows| - 1], key) + if r.key == key && Playable(r) then [CallOf(r)] else []
  }

  function Keys(rows: seq<Row>): seq<Key> {
    if rows == [] then []
    else Keys(rows[..|rows| - 1]) + if Playable(rows[|rows| - 1]) then [rows[|rows| - 1].key] else []
  }

  // What a series of calls gets: the n-th call of a key gets its n-th record, until one is missing.
  function Answers(rows: seq<Row>, calls: seq<Key>): Option<seq<Call>> {
    if calls == [] then Some([])
    else
      var before, key := Answers(rows, calls[..|calls| - 1]), calls[|calls| - 1];
      var n := Count(calls[..|calls| - 1], key);
      if before.None? || n >= |Queue(rows, key)| then None else Some(before.value + [Queue(rows, key)[n]])
  }

  // The answers that the calls of one key got, in order.
  function AnswersOf(calls: seq<Key>, answers: seq<Call>, key: Key): seq<Call>
    requires |calls| == |answers|
  {
    if calls == [] then []
    else
      var n := |calls| - 1;
      AnswersOf(calls[..n], answers[..n], key) + if calls[n] == key then [answers[n]] else []
  }

  lemma {:induction false} QueueCounts(rows: seq<Row>, key: Key)
    ensures |Queue(rows, key)| == Count(Keys(rows), key)
  {
    if rows != [] {
      var n := |rows| - 1;
      QueueCounts(rows[..n], key);
      if Playable(rows[n]) { assert Keys(rows)[..|Keys(rows)| - 1] == Keys(rows[..n]); } else { assert Keys(rows) == Keys(rows[..n]); }
    }
  }

  lemma {:induction false} CountIsMultiplicity<T>(xs: seq<T>, x: T)
    ensures Count(xs, x) == multiset(xs)[x]
  {
    if xs != [] {
      CountIsMultiplicity(xs[..|xs| - 1], x);
      assert xs == xs[..|xs| - 1] + [xs[|xs| - 1]];
    }
  }

  lemma OneMoreFits<T>(init: seq<T>, key: T, all: multiset<T>)
    ensures multiset(init + [key]) <= all <==> multiset(init) <= all && multiset(init)[key] < all[key]
  {
    var a, b := multiset(init), multiset(init + [key]);
    assert b == a + multiset{key};
    assert forall k :: k != key ==> b[k] == a[k];
  }

  // A replay gets through exactly when it calls no key more often than was recorded.
  lemma {:induction false} AnsweredExactlyWhenRecorded(rows: seq<Row>, calls: seq<Key>)
    ensures Answers(rows, calls).Some? <==> multiset(calls) <= multiset(Keys(rows))
    ensures Answers(rows, calls).Some? ==> |Answers(rows, calls).value| == |calls|
  {
    hide Queue, Keys, Count;
    if calls != [] {
      var init, key := calls[..|calls| - 1], calls[|calls| - 1];
      AnsweredExactlyWhenRecorded(rows, init);
      assert calls == init + [key];
      OneMoreFits(init, key, multiset(Keys(rows)));
      QueueCounts(rows, key);
      CountIsMultiplicity(init, key);
      CountIsMultiplicity(Keys(rows), key);
    }
  }

  // In whatever order the calls come, every key gets its recorded outputs in the recorded order.
  lemma {:induction false} EveryOrderGetsTheRecord(rows: seq<Row>, calls: seq<Key>, key: Key)
    requires Answers(rows, calls).Some?
    ensures |Answers(rows, calls).value| == |calls| && Count(calls, key) <= |Queue(rows, key)|
    ensures AnswersOf(calls, Answers(rows, calls).value, key) == Queue(rows, key)[..Count(calls, key)]
  {
    hide Queue;
    if calls != [] {
      var n := |calls| - 1;
      EveryOrderGetsTheRecord(rows, calls[..n], key);
      var answers := Answers(rows, calls).value;
      AnsweredExactlyWhenRecorded(rows, calls[..n]);
      assert answers[..n] == Answers(rows, calls[..n]).value;
    }
  }

  // Everything recorded in a log whose calls can be made again: those that acted need the output they acted on.
  function Records(rows: seq<Row>): (r: seq<(Key, Call)>) {
    if rows == [] then []
    else
      var row := rows[|rows| - 1];
      Records(rows[..|rows| - 1])
      + if row.outcome == Acted && row.dropped then [] else [(row.key, Call(row.key.purpose, row.outcome, row.output))]
  }

  lemma {:induction false} QueuePrefix(rows: seq<Row>, n: nat, key: Key)
    requires n <= |rows|
    ensures |Queue(rows[..n], key)| <= |Queue(rows, key)|
    ensures Queue(rows[..n], key) == Queue(rows, key)[..|Queue(rows[..n], key)|]
  {
    if n == |rows| {
      assert rows[..n] == rows;
    } else {
      assert rows[..|rows| - 1][..n] == rows[..n];
      QueuePrefix(rows[..|rows| - 1], n, key);
    }
  }

  function CalledKeys(records: seq<(Key, Call)>): seq<Key> {
    if records == [] then [] else CalledKeys(records[..|records| - 1]) + [records[|records| - 1].0]
  }

  function RecordedCalls(records: seq<(Key, Call)>): seq<Call> {
    if records == [] then [] else RecordedCalls(records[..|records| - 1]) + [records[|records| - 1].1]
  }

  lemma OneMoreRecord(records: seq<(Key, Call)>, record: (Key, Call))
    ensures CalledKeys(records + [record]) == CalledKeys(records) + [record.0]
    ensures RecordedCalls(records + [record]) == RecordedCalls(records) + [record.1]
  {
    assert (records + [record])[..|records|] == records;
  }

  lemma AnswersOneMore(rows: seq<Row>, keys: seq<Key>, key: Key)
    requires Answers(rows, keys).Some? && Count(keys, key) < |Queue(rows, key)|
    ensures Answers(rows, keys + [key]) == Some(Answers(rows, keys).value + [Queue(rows, key)[Count(keys, key)]])
  {
    hide Queue, Count;
    assert (keys + [key])[..|keys|] == keys;
  }

  lemma NextRecord(rows: seq<Row>, n: nat)
    requires 0 < n <= |rows| && Playable(rows[n - 1])
    ensures var key := rows[n - 1].key; var at := Count(Keys(rows[..n - 1]), key);
            at < |Queue(rows, key)| && Queue(rows, key)[at] == CallOf(rows[n - 1])
  {
    hide Queue, Keys, Count;
    var key := rows[n - 1].key;
    QueueCounts(rows[..n - 1], key);
    QueuePrefix(rows, n, key);
    QueueOneRow(rows, n);
  }

  lemma {:induction false} PlayedBackUpTo(rows: seq<Row>, n: nat)
    requires n <= |rows|
    ensures CalledKeys(Records(rows[..n])) == Keys(rows[..n])
    ensures Answers(rows, Keys(rows[..n])) == Some(RecordedCalls(Records(rows[..n])))
  {
    if n > 0 {
      hide Queue, Count, Answers, CalledKeys, RecordedCalls;
      var row, before := rows[n - 1], rows[..n - 1];
      PlayedBackUpTo(rows, n - 1);
      assert rows[..n][..n - 1] == before;
      if Playable(row) {
        NextRecord(rows, n);
        AnswersOneMore(rows, Keys(before), row.key);
        OneMoreRecord(Records(before), (row.key, CallOf(row)));
      } else {
        assert Keys(before) + [] == Keys(before) && Records(before) + [] == Records(before);
      }
    }
  }

  lemma QueueOneRow(rows: seq<Row>, n: nat)
    requires 0 < n <= |rows| && Playable(rows[n - 1])
    ensures Queue(rows[..n], rows[n - 1].key) == Queue(rows[..n - 1], rows[n - 1].key) + [CallOf(rows[n - 1])]
  {
    assert rows[..n][..n - 1] == rows[..n - 1];
  }

  // Made again in the recorded order, the calls get back the whole record, call by call.
  lemma RecordPlaysBack(rows: seq<Row>)
    ensures Answers(rows, CalledKeys(Records(rows))) == Some(RecordedCalls(Records(rows)))
  {
    PlayedBackUpTo(rows, |rows|);
    assert rows[..|rows|] == rows;
  }

  // The records left over.
  function Left(rows: seq<Row>, calls: seq<Key>): int { |Keys(rows)| - |calls| }

  lemma EqualExactlyWhenAsLarge<T>(a: multiset<T>, b: multiset<T>)
    requires a <= b
    ensures |a| <= |b|
    ensures |a| == |b| <==> a == b
  {
    assert b == a + (b - a) && |b| == |a| + |b - a|;
    if a != b {
      var k :| a[k] != b[k];
      assert k in b - a;
      assert |b - a| > 0;
    }
  }

  ghost predicate CalledAsRecorded(rows: seq<Row>, calls: seq<Key>) {
    forall key :: Count(calls, key) == |Queue(rows, key)|
  }

  // Nothing is left over exactly when every key was called as often as it was recorded.
  lemma NothingLeftExactlyWhenSameCalls(rows: seq<Row>, calls: seq<Key>)
    requires Answers(rows, calls).Some?
    ensures Left(rows, calls) >= 0
    ensures Left(rows, calls) == 0 <==> CalledAsRecorded(rows, calls)
  {
    hide Answers, Keys;
    AnsweredExactlyWhenRecorded(rows, calls);
    var a, b := multiset(calls), multiset(Keys(rows));
    EqualExactlyWhenAsLarge(a, b);
    assert |a| == |calls| && |b| == |Keys(rows)|;
    assert Left(rows, calls) == |b| - |a|;
    forall key ensures Count(calls, key) == a[key] && |Queue(rows, key)| == b[key] {
      CountIsMultiplicity(calls, key);
      CountIsMultiplicity(Keys(rows), key);
      QueueCounts(rows, key);
    }
    if CalledAsRecorded(rows, calls) {
      assert a == b;
    }
    if a == b {
      assert CalledAsRecorded(rows, calls);
    }
  }

  // ---------------------------------------------------------------- the playback

  lemma QueueOneMore(rows: seq<Row>, i: nat)
    requires i < |rows|
    ensures forall key :: Queue(rows[..i + 1], key)
                          == if rows[i].key == key && Playable(rows[i]) then Queue(rows[..i], key) + [CallOf(rows[i])]
                             else Queue(rows[..i], key)
  {
    assert rows[..i + 1][..i] == rows[..i];
    forall key ensures Queue(rows[..i], key) + [] == Queue(rows[..i], key) {}
  }

  function At(calls: map<Key, seq<Call>>, key: Key): seq<Call> { if key in calls then calls[key] else [] }

  // One queue per key, in the order of the rows.
  method QueueUp(rows: seq<Row>) returns (queues: map<Key, seq<Call>>)
    ensures forall key :: At(queues, key) == Queue(rows, key)
    ensures forall key :: key in queues <==> Queue(rows, key) != []
  {
    queues := map[];
    for i := 0 to |rows|
      invariant forall key :: At(queues, key) == Queue(rows[..i], key)
      invariant forall key :: key in queues <==> Queue(rows[..i], key) != []
    {
      hide Queue;
      QueueOneMore(rows, i);
      var r := rows[i];
      if r.dropped && r.outcome == Acted {
        continue;
      }
      queues := queues[r.key := At(queues, r.key) + [CallOf(r)]];
    }
    assert rows[..|rows|] == rows;
  }

  class TracePlayback {
    var calls: map<Key, seq<Call>>

    // What is left of every queue after the calls taken so far.
    ghost predicate Holds(rows: seq<Row>, taken: seq<Key>)
      reads this
    {
      && Answers(rows, taken).Some?
      && (forall key :: Count(taken, key) <= |Queue(rows, key)| && At(calls, key) == Queue(rows, key)[Count(taken, key)..])
      && forall key :: key in calls <==> Queue(rows, key) != []
    }

    constructor (rows: seq<Row>)
      ensures Holds(rows, [])
    {
      var queues := QueueUp(rows);
      calls := queues;
      new;
      hide Queue, Keys;
      assert forall key :: Queue(rows, key)[0..] == Queue(rows, key);
    }

    // The next record of the key, or None where the source raises an error.
    method TakeNext(key: Key, ghost rows: seq<Row>, ghost taken: seq<Key>) returns (call: Option<Call>)
      requires Holds(rows, taken)
      modifies this
      ensures call.Some? ==> Holds(rows, taken + [key]) && Answers(rows, taken + [key]) == Some(Answers(rows, taken).value + [call.value])
      ensures call.None? ==> Holds(rows, taken) && Answers(rows, taken + [key]).None?
    {
      hide Queue, Answers, Count;
      OneMoreAnswer(rows, taken, key);
      var queue := At(calls, key);
      if queue == [] {
        return None;
      }
      call := Some(queue[0]);
      calls := calls[key := queue[1..]];
      forall k ensures Count(taken + [key], k) == Count(taken, k) + if k == key then 1 else 0 { CountOneMore(taken, key, k); }
      assert Holds(rows, taken + [key]);
    }

    // How many records are left in all.
    method Remaining(ghost rows: seq<Row>, ghost taken: seq<Key>) returns (n: nat)
      requires Holds(rows, taken)
      ensures n == Left(rows, taken)
    {
      hide Answers, Queue, Keys, Count;
      var rest := calls.Keys;
      ghost var seen: set<Key> := {};
      n := 0;
      NoneWithin(Keys(rows));
      NoneWithin(taken);
      while rest != {}
        invariant seen !! rest && seen + rest == calls.Keys
        invariant n == Within(Keys(rows), seen) - Within(taken, seen)
        decreases |rest|
      {
        var key :| key in rest;
        QueueCounts(rows, key);
        OneMoreWithin(Keys(rows), seen, key);
        OneMoreWithin(taken, seen, key);
        n := n + |calls[key]|;
        seen, rest := seen + {key}, rest - {key};
      }
      ghost var all := calls.Keys;
      assert seen == all;
      forall key | key in Keys(rows) || key in taken ensures key in all {
        SomeCount(Keys(rows), key);
        SomeCount(taken, key);
        QueueCounts(rows, key);
        assert Count(taken, key) <= |Queue(rows, key)|;
      }
      AllWithin(Keys(rows), all);
      AllWithin(taken, all);
    }
  }

  lemma OneMoreAnswer(rows: seq<Row>, taken: seq<Key>, key: Key)
    requires Answers(rows, taken).Some?
    ensures Answers(rows, taken + [key])
            == if Count(taken, key) >= |Queue(rows, key)| then None
               else Some(Answers(rows, taken).value + [Queue(rows, key)[Count(taken, key)]])
  {
    assert (taken + [key])[..|taken|] == taken;
  }

  // How many elements of a sequence lie in a set.
  function Within(xs: seq<Key>, s: set<Key>): nat {
    if xs == [] then 0 else Within(xs[..|xs| - 1], s) + if xs[|xs| - 1] in s then 1 else 0
  }

  lemma {:induction false} NoneWithin(xs: seq<Key>)
    ensures Within(xs, {}) == 0
  {
    if xs != [] { NoneWithin(xs[..|xs| - 1]); }
  }

  lemma {:induction false} OneMoreWithin(xs: seq<Key>, s: set<Key>, x: Key)
    requires x !in s
    ensures Within(xs, s + {x}) == Within(xs, s) + Count(xs, x)
  {
    if xs != [] { OneMoreWithin(xs[..|xs| - 1], s, x); }
  }

  lemma {:induction false} AllWithin(xs: seq<Key>, s: set<Key>)
    requires forall x :: x in xs ==> x in s
    ensures Within(xs, s) == |xs|
  {
    if xs != [] {
      assert xs[|xs| - 1] in xs;
      AllWithin(xs[..|xs| - 1], s);
    }
  }

  lemma {:induction false} SomeCount(xs: seq<Key>, x: Key)
    ensures x in xs <==> Count(xs, x) > 0
  {
    if xs != [] {
      SomeCount(xs[..|xs| - 1], x);
      assert x in xs <==> x in xs[..|xs| - 1] || x == xs[|xs| - 1];
    }
  }

  lemma CountOneMore<T>(xs: seq<T>, x: T, y: T)
    ensures Count(xs + [x], y) == Count(xs, y) + if y == x then 1 else 0
  {
    assert (xs + [x])[..|xs|] == xs;
  }

  // ---------------------------------------------------------------- comparing decisions

  datatype Decided = Decided(actor: string, tick: nat, purpose: string, digest: string)
  datatype Diff = Diff(actor: string, tick: nat, purpose: string, sourceDigest: string, replayDigest: string)
  datatype Reason = DecisionAlignment | DecisionCount | ExternalSchedule | UnusedRecordings
  datatype Comparison = Comparison(diffs: seq<Diff>, unverifiable: set<Reason>)

  predicate SamePlace(a: Decided, b: Decided) { a.actor == b.actor && a.tick == b.tick && a.purpose == b.purpose }

  predicate Matches(d: Diff) { d.sourceDigest == d.replayDigest }

  // The decisions paired place by place.
  function Paired(source: seq<Decided>, replay: seq<Decided>): (diffs: seq<Diff>)
    ensures |diffs| <= Min(|source|, |replay|)
  {
    if source == [] || replay == [] then []
    else
      var s, r := source[0], replay[0];
      (if SamePlace(s, r) then [Diff(s.actor, s.tick, s.purpose, s.digest, r.digest)] else [])
      + Paired(source[1..], replay[1..])
  }

  function Compare(source: seq<Decided>, replay: seq<Decided>, scheduleExact: bool, unused: nat): Comparison {
    var diffs := Paired(source, replay);
    Comparison(diffs,
               (if scheduleExact then {} else {ExternalSchedule}) + (if unused == 0 then {} else {UnusedRecordings})
               + (if |source| == |replay| then {} else {DecisionCount})
               + (if |diffs| == Min(|source|, |replay|) then {} else {DecisionAlignment}))
  }

  predicate Ok(c: Comparison) { c.unverifiable == {} && forall i :: 0 <= i < |c.diffs| ==> Matches(c.diffs[i]) }

  lemma {:induction false} PairedIs(source: seq<Decided>, replay: seq<Decided>)
    ensures var n := Min(|source|, |replay|);
            && (|Paired(source, replay)| == n <==> forall i :: 0 <= i < n ==> SamePlace(source[i], replay[i]))
            && (|Paired(source, replay)| == n ==>
                  forall i :: 0 <= i < n ==>
                    Paired(source, replay)[i] == Diff(source[i].actor, source[i].tick, source[i].purpose, source[i].digest, replay[i].digest))
  {
    if source != [] && replay != [] {
      PairedIs(source[1..], replay[1..]);
      var n := Min(|source|, |replay|);
      assert forall i :: 0 <= i < n - 1 ==> source[1..][i] == source[i + 1] && replay[1..][i] == replay[i + 1];
      assert forall i :: 1 <= i < n ==> source[i] == source[1..][i - 1] && replay[i] == replay[1..][i - 1];
    }
  }

  // The comparison is passed exactly when the schedule is exact, nothing is left over and the two worlds decided the
  // same, entry by entry.
  lemma OkExactlyWhenSameDecisions(source: seq<Decided>, replay: seq<Decided>, scheduleExact: bool, unused: nat)
    ensures Ok(Compare(source, replay, scheduleExact, unused)) <==> scheduleExact && unused == 0 && source == replay
  {
    var c := Compare(source, replay, scheduleExact, unused);
    assert !scheduleExact ==> ExternalSchedule in c.unverifiable;
    assert unused != 0 ==> UnusedRecordings in c.unverifiable;
    assert |source| != |replay| ==> DecisionCount in c.unverifiable;
    assert |c.diffs| != Min(|source|, |replay|) ==> DecisionAlignment in c.unverifiable;
    if |source| == |replay| {
      PairedIs(source, replay);
      if |c.diffs| == |source| && forall i :: 0 <= i < |c.diffs| ==> Matches(c.diffs[i]) {
        assert forall i :: 0 <= i < |source| ==> Matches(c.diffs[i]) && source[i] == replay[i];
        assert source == replay;
      }
    }
  }

  // A comparison that does not hold up reports no mismatch; one that does reports exactly the places that differ.
  function Mismatched(c: Comparison): seq<Diff> { if c.unverifiable != {} then [] else Unmatched(c.diffs) }

  function Unmatched(diffs: seq<Diff>): seq<Diff> {
    if diffs == [] then [] else (if Matches(diffs[0]) then [] else [diffs[0]]) + Unmatched(diffs[1..])
  }

  lemma {:induction false} UnmatchedNone(diffs: seq<Diff>)
    ensures Unmatched(diffs) == [] <==> forall i :: 0 <= i < |diffs| ==> Matches(diffs[i])
  {
    if diffs != [] {
      UnmatchedNone(diffs[1..]);
      assert forall i :: 1 <= i < |diffs| ==> diffs[i] == diffs[1..][i - 1];
      assert forall i :: 0 <= i < |diffs| - 1 ==> diffs[1..][i] == diffs[i + 1];
    }
  }

  lemma OkExactlyWhenVerifiableAndNothingMismatched(c: Comparison)
    ensures Ok(c) <==> c.unverifiable == {} && Mismatched(c) == []
  {
    UnmatchedNone(c.diffs);
  }

  // Both worlds decided at the same place, but not the same.
  ghost predicate DiffersAt(source: seq<Decided>, replay: seq<Decided>, i: nat, d: Diff) {
    && i < |source| && i < |replay| && source[i].digest != replay[i].digest
    && d == Diff(source[i].actor, source[i].tick, source[i].purpose, source[i].digest, replay[i].digest)
  }

  lemma {:induction false} UnmatchedAre(diffs: seq<Diff>, d: Diff)
    ensures d in Unmatched(diffs) <==> d in diffs && d.sourceDigest != d.replayDigest
  {
    if diffs != [] {
      UnmatchedAre(diffs[1..], d);
      assert diffs == [diffs[0]] + diffs[1..];
    }
  }

  // The reasons for not holding up are the ones there are, and a comparison that holds up reports exactly the places
  // where the worlds decided differently.
  lemma ReportsExactlyTheDifferences(source: seq<Decided>, replay: seq<Decided>, scheduleExact: bool, unused: nat)
    ensures var c := Compare(source, replay, scheduleExact, unused);
            && (ExternalSchedule in c.unverifiable <==> !scheduleExact) && (UnusedRecordings in c.unverifiable <==> unused > 0)
            && (DecisionCount in c.unverifiable <==> |source| != |replay|)
            && (DecisionAlignment in c.unverifiable <==>
                  exists i :: 0 <= i < |source| && i < |replay|
                              && (source[i].actor != replay[i].actor || source[i].tick != replay[i].tick
                                  || source[i].purpose != replay[i].purpose))
            && (if c.unverifiable == {} then forall d :: d in Mismatched(c) <==> exists i: nat :: DiffersAt(source, replay, i, d)
                else Mismatched(c) == [])
  {
    hide Paired, Unmatched;
    var c := Compare(source, replay, scheduleExact, unused);
    PairedIs(source, replay);
    assert |c.diffs| != Min(|source|, |replay|) ==> DecisionAlignment in c.unverifiable;
    if c.unverifiable == {} {
      forall d ensures d in Mismatched(c) <==> exists i: nat :: DiffersAt(source, replay, i, d) {
        UnmatchedAre(c.diffs, d);
        if d in c.diffs && d.sourceDigest != d.replayDigest {
          var i :| 0 <= i < |c.diffs| && c.diffs[i] == d;
          assert DiffersAt(source, replay, i, d);
        }
        if i: nat :| DiffersAt(source, replay, i, d) {
          assert c.diffs[i] == d;
        }
      }
    }
  }

  // ---------------------------------------------------------------- when outside events were perceived

  datatype External = External(id: string, body: string)
  datatype Schedule = Schedule(byTick: map<nat, seq<External>>, unscheduled: seq<string>)

  function PerceivedAt(perceived: seq<(string, nat)>, id: string): Option<nat> {
    if perceived == [] then None
    else if perceived[|perceived| - 1].0 == id then Some(perceived[|perceived| - 1].1)
    else PerceivedAt(perceived[..|perceived| - 1], id)
  }

  function ScheduledFor(events: seq<External>, perceived: seq<(string, nat)>, tick: nat): seq<External> {
    if events == [] then []
    else
      var e := events[|events| - 1];
      ScheduledFor(events[..|events| - 1], perceived, tick) + if PerceivedAt(perceived, e.id) == Some(tick) then [e] else []
  }

  function Unscheduled(events: seq<External>, perceived: seq<(string, nat)>): seq<string> {
    if events == [] then []
    else
      var e := events[|events| - 1];
      Unscheduled(events[..|events| - 1], perceived) + if PerceivedAt(perceived, e.id).None? then [e.id] else []
  }

  function EventsAt(s: Schedule, tick: nat): seq<External> { if tick in s.byTick then s.byTick[tick] else [] }

  // Every outside event is replayed at the tick it was perceived, in the order it came, or reported as unknown.
  method ExternalSchedules(events: seq<External>, perceived: seq<(string, nat)>) returns (s: Schedule)
    ensures forall tick :: EventsAt(s, tick) == ScheduledFor(events, perceived, tick)
    ensures s.unscheduled == Unscheduled(events, perceived)
  {
    var perceivedAt: map<string, nat> := map[];
    for i := 0 to |perceived|
      invariant forall id :: (if id in perceivedAt then Some(perceivedAt[id]) else None) == PerceivedAt(perceived[..i], id)
    {
      assert perceived[..i + 1][..i] == perceived[..i];
      perceivedAt := perceivedAt[perceived[i].0 := perceived[i].1];
    }
    assert perceived[..|perceived|] == perceived;
    s := Schedule(map[], []);
    for i := 0 to |events|
      invariant forall tick :: EventsAt(s, tick) == ScheduledFor(events[..i], perceived, tick)
      invariant s.unscheduled == Unscheduled(events[..i], perceived)
    {
      hide PerceivedAt;
      assert events[..i + 1][..i] == events[..i];
      var e := events[i];
      if e.id !in perceivedAt {
        assert PerceivedAt(perceived, e.id).None?;
        s := s.(unscheduled := s.unscheduled + [e.id]);
        continue;
      }
      var tick := perceivedAt[e.id];
      assert PerceivedAt(perceived, e.id) == Some(tick);
      s := s.(byTick := s.byTick[tick := EventsAt(s, tick) + [e]]);
    }
    assert events[..|events|] == events;
  }

  lemma {:induction false} ExactExactlyWhenAllPerceived(events: seq<External>, perceived: seq<(string, nat)>)
    ensures Unscheduled(events, perceived) == [] <==> forall e :: e in events ==> PerceivedAt(perceived, e.id).Some?
  {
    if events != [] {
      var init, e := events[..|events| - 1], events[|events| - 1];
      ExactExactlyWhenAllPerceived(init, perceived);
      assert forall x :: x in events <==> x in init || x == e;
    }
  }

  // The last record of the event being perceived is of this tick.
  ghost predicate LastPerceived(perceived: seq<(string, nat)>, id: string, tick: nat) {
    exists k :: 0 <= k < |perceived| && perceived[k] == (id, tick) && forall j :: k < j < |perceived| ==> perceived[j].0 != id
  }

  ghost predicate Perceived(perceived: seq<(string, nat)>, id: string) {
    exists k :: 0 <= k < |perceived| && perceived[k].0 == id
  }

  lemma {:induction false} PerceivedAtIsLast(perceived: seq<(string, nat)>, id: string)
    ensures PerceivedAt(perceived, id).Some? <==> Perceived(perceived, id)
    ensures forall tick: nat :: PerceivedAt(perceived, id) == Some(tick) <==> LastPerceived(perceived, id, tick)
  {
    if perceived != [] {
      var init, last := perceived[..|perceived| - 1], perceived[|perceived| - 1];
      PerceivedAtIsLast(init, id);
      assert perceived[|init|] == last;
      forall tick: nat ensures PerceivedAt(perceived, id) == Some(tick) <==> LastPerceived(perceived, id, tick) {
        if last.0 != id && LastPerceived(init, id, tick) {
          var k :| 0 <= k < |init| && init[k] == (id, tick) && forall j :: k < j < |init| ==> init[j].0 != id;
          assert perceived[k] == (id, tick);
        }
      }
      if last.0 != id && Perceived(init, id) {
        var k :| 0 <= k < |init| && init[k].0 == id;
        assert perceived[k].0 == id;
      }
    }
  }

  // An outside event is scheduled at the tick of the last record of its being perceived, and listed as unscheduled if
  // there is none.
  lemma {:induction false} ScheduledWhereLastPerceived(events: seq<External>, perceived: seq<(string, nat)>, e: External, tick: nat)
    ensures e in ScheduledFor(events, perceived, tick) <==> e in events && LastPerceived(perceived, e.id, tick)
    ensures e in events && !Perceived(perceived, e.id) ==> e.id in Unscheduled(events, perceived)
    ensures e.id in Unscheduled(events, perceived) ==> !Perceived(perceived, e.id)
  {
    hide PerceivedAt, LastPerceived, Perceived;
    if events != [] {
      var init, last := events[..|events| - 1], events[|events| - 1];
      ScheduledWhereLastPerceived(init, perceived, e, tick);
      PerceivedAtIsLast(perceived, last.id);
      assert events == init + [last];
    }
  }
}
