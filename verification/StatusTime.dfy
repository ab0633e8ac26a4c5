/** How long a pull request was in a status, and when it first was. Both are computed
    from the status evolution, a list of (time, status) entries whose first entry is the
    creation; an entry is in force until the next one. */
module StatusTime {
  import opened Classification
  import opened Options
  import opened StateEvolution

  type Statuses = seq<(Instant, PRStatus)>

  predicate Sorted(evolution: Statuses)
  {
    forall i, j :: 0 <= i < j < |evolution| ==> evolution[i].0 <= evolution[j].0
  }

  // ---- Total time ---------------------------------------------------------------------------

  function TotalTime(evolution: Statuses, now: Instant, status: PRStatus): int
    requires evolution != []
    decreases evolution
  {
    var until := if |evolution| == 1 then now else evolution[1].0;
    (if evolution[0].1 == status then until - evolution[0].0 else 0)
    + if |evolution| == 1 then 0 else TotalTime(evolution[1..], now, status)
  }

  method TotalTimeInStatus(created: Instant, now: Instant, initial: PRState, events: seq<Event>, status: PRStatus)
    returns (total: Option<int>)
    ensures StateChanges(created, initial, events).None? ==> total == None
    ensures StateChanges(created, initial, events).Some? ==>
      total == Some(TotalTime(StatusChanges(StateChanges(created, initial, events).value), now, status))
  {
    var changes := DetermineStatusChanges(created, initial, events);
    if changes.None? {
      return None;
    }
    var td := SumIntervals(changes.value, now, status);
    return Some(td);
  }

  // The loop over the intervals, and the last entry's own interval.
  method SumIntervals(evolution: Statuses, now: Instant, status: PRStatus) returns (td: int)
    requires evolution != []
    ensures td == TotalTime(evolution, now, status)
  {
    td := 0;
    for i := 0 to |evolution| - 1
      invariant TotalTime(evolution, now, status) == td + TotalTime(evolution[i..], now, status)
    {
      assert evolution[i..][0] == evolution[i] && evolution[i..][1] == evolution[i + 1];
      assert evolution[i..][1..] == evolution[i + 1..];
      var (oldTime, oldStatus) := evolution[i];
      var (newTime, _) := evolution[i + 1];
      if oldStatus == status {
        td := td + (newTime - oldTime);
      }
    }
    var (last, lastStatus) := evolution[|evolution| - 1];
    assert evolution[|evolution| - 1..] == [(last, lastStatus)];
    if lastStatus == status {
      td := td + (now - last);
    }
  }

  // ---- First time ---------------------------------------------------------------------------

  // The evolution without a zero-length first entry.
  function DropInstantStart(evolution: Statuses): (r: Statuses)
    ensures evolution != [] ==> r != []
  {
    if |evolution| > 1 && evolution[0].0 == evolution[1].0 then evolution[1..] else evolution
  }

  // The first entry counts unless the second one has the same time; all others count.
  predicate Counted(evolution: Statuses, i: int)
  {
    i > 0 || |evolution| <= 1 || evolution[0].0 != evolution[1].0
  }

  predicate IsFirstEntry(evolution: Statuses, status: PRStatus, i: int)
  {
    && 0 <= i < |evolution| && Counted(evolution, i) && evolution[i].1 == status
    && forall j :: 0 <= j < i && Counted(evolution, j) ==> evolution[j].1 != status
  }

  /** The first point in time in a status, or None. It is the time of the first entry that
      counts and has the status. */
  method FirstInStatus(created: Instant, createdAsDraft: bool, fromFork: bool, events: seq<Event>, status: PRStatus)
    returns (raised: bool, first: Option<Instant>)
    ensures var replay := StateChanges(created, PRState([], Pass, createdAsDraft, fromFork), events);
            && (raised <==> replay.None?)
            && (!raised ==>
                  var evolution := StatusChanges(replay.value);
                  && first == FirstTime(DropInstantStart(evolution), status)
                  && forall t :: first == Some(t) <==>
                       exists i :: IsFirstEntry(evolution, status, i) && evolution[i].0 == t)
  {
    var changes := DetermineStatusChanges(created, PRState([], Pass, createdAsDraft, fromFork), events);
    if changes.None? {
      return true, None;
    }
    var evolution := changes.value;
    FirstTimeExactly(evolution, status);
    if |evolution| > 1 {
      if evolution[0].0 == evolution[1].0 {
        evolution := evolution[1..];
      }
    }
    raised := false;
    first := FindStatus(evolution, status);
  }

  method FindStatus(evolution: Statuses, status: PRStatus) returns (first: Option<Instant>)
    ensures first == FirstTime(evolution, status)
  {
    for i := 0 to |evolution|
      invariant FirstTime(evolution, status) == FirstTime(evolution[i..], status)
    {
      assert evolution[i..][0] == evolution[i] && evolution[i..][1..] == evolution[i + 1..];
      if evolution[i].1 == status {
        return Some(evolution[i].0);
      }
    }
    return None;
  }

  function FirstTime(evolution: Statuses, status: PRStatus): Option<Instant>
  {
    if evolution == [] then None
    else if evolution[0].1 == status then Some(evolution[0].0)
    else FirstTime(evolution[1..], status)
  }

  lemma {:induction false} FirstTimeIs(evolution: Statuses, status: PRStatus, t: Instant)
    ensures FirstTime(evolution, status) == Some(t) <==>
      exists i :: 0 <= i < |evolution| && evolution[i] == (t, status) && NoneBefore(evolution, status, i)
  {
    if evolution == [] {
    } else if evolution[0].1 == status {
      assert NoneBefore(evolution, status, 0);
    } else {
      var rest := evolution[1..];
      FirstTimeIs(rest, status, t);
      if i :| 0 <= i < |rest| && rest[i] == (t, status) && NoneBefore(rest, status, i) {
        assert evolution[i + 1] == (t, status) && NoneBefore(evolution, status, i + 1);
      }
      if i :| 0 <= i < |evolution| && evolution[i] == (t, status) && NoneBefore(evolution, status, i) {
        assert rest[i - 1] == (t, status) && NoneBefore(rest, status, i - 1);
      }
    }
  }

  predicate NoneBefore(evolution: Statuses, status: PRStatus, i: int)
    requires 0 <= i < |evolution|
  {
    forall j :: 0 <= j < i ==> evolution[j].1 != status
  }

  // Dropping the start keeps exactly the entries that count.
  lemma DropKeepsCounted(evolution: Statuses) returns (offset: nat)
    ensures offset <= |evolution| && DropInstantStart(evolution) == evolution[offset..]
    ensures forall i :: 0 <= i < |evolution| ==> (Counted(evolution, i) <==> i >= offset)
  {
    offset := |evolution| - |DropInstantStart(evolution)|;
  }

  lemma FirstEntryIs(evolution: Statuses, status: PRStatus, offset: nat, i: nat)
    requires offset <= i < |evolution|
    requires forall j :: 0 <= j < |evolution| ==> (Counted(evolution, j) <==> j >= offset)
    ensures IsFirstEntry(evolution, status, i)
      <==> evolution[i].1 == status && NoneBefore(evolution[offset..], status, i - offset)
  {
    var kept := evolution[offset..];
    assert forall j :: 0 <= j < |kept| ==> kept[j] == evolution[j + offset];
    hide Counted;
    if NoneBefore(kept, status, i - offset) {
      forall j | 0 <= j < i && Counted(evolution, j)
        ensures evolution[j].1 != status
      {
        assert kept[j - offset] == evolution[j];
      }
    }
  }

  lemma FirstTimeExactly(evolution: Statuses, status: PRStatus)
    ensures forall t :: FirstTime(DropInstantStart(evolution), status) == Some(t) <==>
      exists i :: IsFirstEntry(evolution, status, i) && evolution[i].0 == t
  {
    var offset := DropKeepsCounted(evolution);
    var kept := evolution[offset..];
    forall i: nat | offset <= i < |evolution|
      ensures IsFirstEntry(evolution, status, i)
          <==> kept[i - offset].1 == status && NoneBefore(kept, status, i - offset)
    {
      FirstEntryIs(evolution, status, offset, i);
    }
    hide DropInstantStart, NoneBefore, FirstTime;
    forall t
      ensures FirstTime(kept, status) == Some(t)
          <==> exists i :: IsFirstEntry(evolution, status, i) && evolution[i].0 == t
    {
      FirstTimeIs(kept, status, t);
      if k :| 0 <= k < |kept| && kept[k] == (t, status) && NoneBefore(kept, status, k) {
        assert kept[k + offset - offset] == (t, status) && IsFirstEntry(evolution, status, k + offset);
      }
    }
  }

  // ---- The total counts instants --------------------------------------------------------------

  /** Entry i is the latest one at or before t. */
  predicate InForce(evolution: Statuses, i: nat, t: Instant)
    requires i < |evolution|
  {
    evolution[i].0 <= t && forall j :: i < j < |evolution| ==> t < evolution[j].0
  }

  function StatusAt(evolution: Statuses, t: Instant): PRStatus
    requires evolution != []
  {
    if |evolution| == 1 || t < evolution[1].0 then evolution[0].1 else StatusAt(evolution[1..], t)
  }

  /** In a sorted log one entry is in force at each instant since creation, and StatusAt is
      its status. */
  lemma {:induction false} StatusAtIsLatestEntry(evolution: Statuses, t: Instant) returns (i: nat)
    requires evolution != [] && Sorted(evolution) && evolution[0].0 <= t
    ensures i < |evolution| && InForce(evolution, i, t) && evolution[i].1 == StatusAt(evolution, t)
    ensures forall j: nat :: j < |evolution| && InForce(evolution, j, t) ==> j == i
    decreases evolution
  {
    if |evolution| == 1 || t < evolution[1].0 {
      i := 0;
    } else {
      var rest := evolution[1..];
      var k := StatusAtIsLatestEntry(rest, t);
      i := k + 1;
      forall j | i < j < |evolution| ensures t < evolution[j].0 { assert rest[j - 1] == evolution[j]; }
    }
  }

  function InstantsIn(evolution: Statuses, now: Instant, status: PRStatus): set<Instant>
    requires evolution != []
  {
    set t | evolution[0].0 <= t < now && StatusAt(evolution, t) == status
  }

  lemma {:induction false} OneEntrySpan(entry: (Instant, PRStatus), now: Instant, status: PRStatus)
    requires entry.0 <= now
    ensures |InstantsIn([entry], now, status)| == if entry.1 == status then now - entry.0 else 0
    decreases now - entry.0
  {
    var whole := InstantsIn([entry], now, status);
    if entry.1 == status && entry.0 < now {
      OneEntrySpan(entry, now - 1, status);
      assert StatusAt([entry], now - 1) == status;
      assert whole == InstantsIn([entry], now - 1, status) + {now - 1};
    } else {
      assert whole == {};
    }
  }

  lemma InstantsSplit(evolution: Statuses, now: Instant, status: PRStatus)
    requires |evolution| > 1 && evolution[0].0 <= evolution[1].0 <= now
    ensures InstantsIn(evolution, now, status) ==
            InstantsIn([evolution[0]], evolution[1].0, status) + InstantsIn(evolution[1..], now, status)
  {
    var head := InstantsIn([evolution[0]], evolution[1].0, status);
    forall t: Instant ensures StatusAt([evolution[0]], t) == evolution[0].1 {}
    forall t: Instant
      ensures StatusAt(evolution, t) ==
              if t < evolution[1].0 then StatusAt([evolution[0]], t) else StatusAt(evolution[1..], t)
    {}
    assert forall t :: t in InstantsIn(evolution, now, status) && t < evolution[1].0 ==> t in head;
  }

  /** For a sorted log, with now at or after its last entry, the total is the number of
      instants in [created, now) whose latest entry has the status. */
  lemma {:induction false} TotalCountsInstants(evolution: Statuses, now: Instant, status: PRStatus)
    requires evolution != [] && Sorted(evolution) && evolution[|evolution| - 1].0 <= now
    ensures TotalTime(evolution, now, status) == |InstantsIn(evolution, now, status)|
    decreases evolution
  {
    if |evolution| == 1 {
      assert evolution == [evolution[0]];
      OneEntrySpan(evolution[0], now, status);
    } else {
      assert evolution[0].0 <= evolution[1].0 <= evolution[|evolution| - 1].0;
      TotalCountsInstants(evolution[1..], now, status);
      OneEntrySpan(evolution[0], evolution[1].0, status);
      InstantsSplit(evolution, now, status);
      assert InstantsIn([evolution[0]], evolution[1].0, status) !! InstantsIn(evolution[1..], now, status);
    }
  }

  // ---- The totals share out the lifetime --------------------------------------------------------

  function TotalOverAll(evolution: Statuses, now: Instant): int
    requires evolution != []
  {
    TotalTime(evolution, now, NotFromFork) + TotalTime(evolution, now, NotReady)
    + TotalTime(evolution, now, StatusBlocked) + TotalTime(evolution, now, AwaitingReview)
    + TotalTime(evolution, now, StatusHelpWanted) + TotalTime(evolution, now, AwaitingAuthor)
    + TotalTime(evolution, now, AwaitingDecision) + TotalTime(evolution, now, StatusMergeConflict)
    + TotalTime(evolution, now, StatusDelegated) + TotalTime(evolution, now, AwaitingBors)
    + TotalTime(evolution, now, Closed) + TotalTime(evolution, now, Contradictory)
  }

  /** For any log at all, sorted or not, the totals over all statuses add up to the time
      since creation. */
  lemma {:induction false} TotalsShareOutLifetime(evolution: Statuses, now: Instant)
    requires evolution != []
    ensures TotalOverAll(evolution, now) == now - evolution[0].0
    decreases evolution
  {
    if |evolution| > 1 {
      TotalsShareOutLifetime(evolution[1..], now);
    }
  }

  // ---- First time and total time ------------------------------------------------------------------

  lemma {:induction false} FirstTimeBoundsTotal(evolution: Statuses, now: Instant, status: PRStatus)
    requires evolution != [] && Sorted(evolution) && evolution[|evolution| - 1].0 <= now
    ensures match FirstTime(evolution, status)
            case None => TotalTime(evolution, now, status) == 0
            case Some(t) => evolution[0].0 <= t && 0 <= TotalTime(evolution, now, status) <= now - t
    decreases evolution
  {
    if |evolution| > 1 {
      var rest := evolution[1..];
      FirstTimeBoundsTotal(rest, now, status);
    }
  }

  /** The first time bounds the total, although a zero-length first entry is dropped from
      the one computation and kept in the other. */
  lemma FirstTimeAndTotal(evolution: Statuses, now: Instant, status: PRStatus)
    requires evolution != [] && Sorted(evolution) && evolution[|evolution| - 1].0 <= now
    ensures match FirstTime(DropInstantStart(evolution), status)
            case None => TotalTime(evolution, now, status) == 0
            case Some(t) => evolution[0].0 <= t && 0 <= TotalTime(evolution, now, status) <= now - t
  {
    FirstTimeBoundsTotal(DropInstantStart(evolution), now, status);
  }

  /** Any instant in the status lies at or after the first time. */
  lemma FirstTimePrecedesEveryInstant(evolution: Statuses, now: Instant, status: PRStatus, t: Instant)
    requires evolution != [] && Sorted(evolution) && evolution[|evolution| - 1].0 <= now
    requires t in InstantsIn(evolution, now, status)
    ensures FirstTime(DropInstantStart(evolution), status).Some?
    ensures FirstTime(DropInstantStart(evolution), status).value <= t
  {
    var kept := DropInstantStart(evolution);
    assert StatusAt(kept, t) == status;
    var i := StatusAtIsLatestEntry(kept, t);
    FirstTimeIsEarliest(kept, i);
  }

  lemma {:induction false} FirstTimeIsEarliest(evolution: Statuses, i: nat)
    requires Sorted(evolution) && i < |evolution|
    ensures FirstTime(evolution, evolution[i].1).Some?
    ensures FirstTime(evolution, evolution[i].1).value <= evolution[i].0
    decreases evolution
  {
    if evolution[0].1 != evolution[i].1 {
      assert evolution[i] == evolution[1..][i - 1];
      FirstTimeIsEarliest(evolution[1..], i - 1);
    }
  }

  /** The replayed evolution starts at the creation and is sorted when the log is, so the
      results above apply to it. */
  lemma {:induction false} SortedLogGivesSortedEvolution(created: Instant, state: PRState, events: seq<Event>)
    requires StateChanges(created, state, events).Some?
    requires forall i :: 0 <= i < |events| ==> created <= events[i].time
    requires forall i, j :: 0 <= i < j < |events| ==> events[i].time <= events[j].time
    ensures var evolution := StatusChanges(StateChanges(created, state, events).value);
            && Sorted(evolution) && evolution[0].0 == created
            && evolution[|evolution| - 1].0 == if events == [] then created else events[|events| - 1].time
    decreases events
  {
    if events != [] {
      var next := UpdateState(state, events[0].change).value;
      SortedLogGivesSortedEvolution(events[0].time, next, events[1..]);
      var tail := StateChanges(events[0].time, next, events[1..]).value;
      var evolution := StatusChanges(StateChanges(created, state, events).value);
      var rest := StatusChanges(tail);
      forall i | 1 <= i < |evolution| ensures evolution[i] == rest[i - 1] {}
      assert evolution[|evolution| - 1] == rest[|rest| - 1];
    }
  }
}
