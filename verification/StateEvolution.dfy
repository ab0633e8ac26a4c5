/** Replaying a pull request's event log. The replay keeps only label kinds; the main
    theorem says that on a well-formed log this loses nothing: at every point the status
    is the one computed from the label names a naive tracker would hold. */
module StateEvolution {
  import opened Classification
  import opened Options
  import opened Sequences

  datatype PRChange =
    | LabelAdded(name: string)
    | LabelRemoved(name: string)
    | LabelAddedRemoved(added: seq<string>, removed: seq<string>)
    | MarkedDraft
    | MarkedReady
    | CIStatusChanged(newStatus: CIStatus)

  datatype Event = Event(time: Instant, change: PRChange)

  type Evolution = seq<(Instant, PRState)>

  // ---- One event -----------------------------------------------------------------------

  // The list without the first occurrence of x.
  function RemoveFirst(s: seq<LabelKind>, x: LabelKind): (r: seq<LabelKind>)
    requires x in s
    ensures multiset(r) == multiset(s) - multiset{x}
  {
    assert s == [s[0]] + s[1..];
    if s[0] == x then s[1..] else [s[0]] + RemoveFirst(s[1..], x)
  }

  // The relevant names of a list, leaving out those that are both added and removed.
  function NetRelevant(names: seq<string>, both: set<string>): (net: seq<string>)
    ensures forall n :: n in net <==> n in names && n in LABEL_RULES && n !in both
  {
    if names == [] then []
    else if names[0] in LABEL_RULES && names[0] !in both then [names[0]] + NetRelevant(names[1..], both)
    else NetRelevant(names[1..], both)
  }

  function NameSet(names: seq<string>): set<string>
  {
    set n | n in names
  }

  function Both(added: seq<string>, removed: seq<string>): set<string>
  {
    NameSet(added) * NameSet(removed)
  }

  /** Removing kinds one by one. Presence is tested against the labels before the event,
      not against the shrinking copy, so a removal can find its kind gone already: the
      list's remove then raises, which is None here. */
  function RemoveKinds(current: seq<LabelKind>, labels: seq<LabelKind>, kinds: seq<LabelKind>)
    : Option<seq<LabelKind>>
    decreases kinds
  {
    if kinds == [] then Some(labels)
    else if kinds[0] !in current then RemoveKinds(current, labels, kinds[1..])
    else if kinds[0] !in labels then None
    else RemoveKinds(current, RemoveFirst(labels, kinds[0]), kinds[1..])
  }

  function UpdateState(current: PRState, change: PRChange): Option<PRState>
  {
    match change
    case MarkedDraft => Some(current.(draft := true))
    case MarkedReady => Some(current.(draft := false))
    case CIStatusChanged(status) => Some(current.(ci := status))
    case LabelAdded(name) =>
      if name in LABEL_RULES then Some(current.(labels := current.labels + [LABEL_RULES[name]]))
      else Some(current)
    case LabelRemoved(name) =>
      if name in LABEL_RULES && LABEL_RULES[name] in current.labels
      then Some(current.(labels := RemoveFirst(current.labels, LABEL_RULES[name])))
      else Some(current)
    case LabelAddedRemoved(added, removed) =>
      var both := Both(added, removed);
      match RemoveKinds(current.labels, current.labels, KindsOf(NetRelevant(removed, both)))
      case None => None
      case Some(left) => Some(current.(labels := left + KindsOf(NetRelevant(added, both))))
  }

  /** The removal loop of a combined event, as the program runs it on a copy. */
  method RemoveInPlace(current: seq<LabelKind>, removed: seq<LabelKind>) returns (r: Option<seq<LabelKind>>)
    ensures r == RemoveKinds(current, current, removed)
  {
    var newLabels := current;
    for i := 0 to |removed|
      invariant RemoveKinds(current, current, removed) == RemoveKinds(current, newLabels, removed[i..])
    {
      assert removed[i..][0] == removed[i] && removed[i..][1..] == removed[i + 1..];
      if removed[i] in current {
        if removed[i] !in newLabels {
          return None;
        }
        newLabels := RemoveFirst(newLabels, removed[i]);
      }
    }
    return Some(newLabels);
  }

  ghost predicate Overdrawn(current: seq<LabelKind>, labels: seq<LabelKind>, kinds: seq<LabelKind>, k: LabelKind)
  {
    k in current && multiset(kinds)[k] > multiset(labels)[k]
  }

  /** Exactly when the removal raises: some kind that was present is removed more often
      than it is left. */
  lemma {:induction false} RemovalRaisesExactly(current: seq<LabelKind>, labels: seq<LabelKind>, kinds: seq<LabelKind>)
    ensures RemoveKinds(current, labels, kinds).None? <==> exists k :: Overdrawn(current, labels, kinds, k)
    decreases kinds
  {
    if kinds != [] {
      var x, rest := kinds[0], kinds[1..];
      assert kinds == [x] + rest;
      if x in current && x !in labels {
        assert Overdrawn(current, labels, kinds, x);
      } else {
        var left := if x in current then RemoveFirst(labels, x) else labels;
        RemovalRaisesExactly(current, left, rest);
        assert forall k :: Overdrawn(current, labels, kinds, k) <==> Overdrawn(current, left, rest, k);
      }
    }
  }

  // ---- The whole log ---------------------------------------------------------------------

  function StateChanges(created: Instant, state: PRState, events: seq<Event>): (r: Option<Evolution>)
    ensures r.Some? ==> |r.value| == |events| + 1 && r.value[0] == (created, state)
    decreases events
  {
    if events == [] then Some([(created, state)])
    else
      match UpdateState(state, events[0].change)
      case None => None
      case Some(next) =>
        match StateChanges(events[0].time, next, events[1..])
        case None => None
        case Some(tail) => Some([(created, state)] + tail)
  }

  function Prepend(done: Evolution, tail: Option<Evolution>): Option<Evolution>
  {
    if tail.None? then None else Some(done + tail.value)
  }

  method DetermineStateChanges(created: Instant, initial: PRState, events: seq<Event>)
    returns (r: Option<Evolution>)
    ensures r == StateChanges(created, initial, events)
  {
    var result := [(created, initial)];
    var curr := initial;
    ghost var done: Evolution, last := [], created;
    assert events[0..] == events && forall tail: Evolution :: [] + tail == tail;
    for i := 0 to |events|
      invariant result == done + [(last, curr)]
      invariant StateChanges(created, initial, events) == Prepend(done, StateChanges(last, curr, events[i..]))
    {
      assert events[i..][0] == events[i] && events[i..][1..] == events[i + 1..];
      var next := UpdateState(curr, events[i].change);
      if next.None? {
        return None;
      }
      var tail := StateChanges(events[i].time, next.value, events[i + 1..]);
      assert tail.Some? ==> done + ([(last, curr)] + tail.value) == (done + [(last, curr)]) + tail.value;
      result := result + [(events[i].time, next.value)];
      done, last, curr := done + [(last, curr)], events[i].time, next.value;
    }
    return Some(result);
  }

  // ---- Label names: what the kinds stand for -----------------------------------------------

  datatype NameState = NameState(names: set<string>, ci: CIStatus, draft: bool, fromFork: bool)

  function NameStep(state: NameState, change: PRChange): NameState
  {
    match change
    case MarkedDraft => state.(draft := true)
    case MarkedReady => state.(draft := false)
    case CIStatusChanged(status) => state.(ci := status)
    case LabelAdded(name) => state.(names := state.names + {name})
    case LabelRemoved(name) => state.(names := state.names - {name})
    case LabelAddedRemoved(added, removed) =>
      state.(names := state.names - (NameSet(removed) - NameSet(added)) + (NameSet(added) - NameSet(removed)))
  }

  function NameChanges(created: Instant, state: NameState, events: seq<Event>): (r: seq<(Instant, NameState)>)
    ensures |r| == |events| + 1
    decreases events
  {
    if events == [] then [(created, state)]
    else [(created, state)] + NameChanges(events[0].time, NameStep(state, events[0].change), events[1..])
  }

  /** Relevant labels are added only while absent and removed only while present. */
  predicate WellFormedChange(names: set<string>, change: PRChange)
  {
    match change
    case LabelAdded(name) => name in LABEL_RULES ==> name !in names
    case LabelRemoved(name) => name in LABEL_RULES ==> name in names
    case LabelAddedRemoved(added, removed) =>
      var netAdded := NetRelevant(added, NameSet(removed));
      var netRemoved := NetRelevant(removed, NameSet(added));
      && NoDuplicates(netAdded) && (forall n :: n in netAdded ==> n !in names)
      && NoDuplicates(netRemoved) && (forall n :: n in netRemoved ==> n in names)
    case _ => true
  }

  predicate WellFormedLog(state: NameState, events: seq<Event>)
    decreases events
  {
    events != [] ==>
      && WellFormedChange(state.names, events[0].change)
      && WellFormedLog(NameStep(state, events[0].change), events[1..])
  }

  function Holders(names: set<string>, kind: LabelKind): set<string>
  {
    set n | n in names && n in LABEL_RULES && LABEL_RULES[n] == kind
  }

  /** Each kind is listed as often as there are present names of that kind. */
  ghost predicate Tracks(labels: seq<LabelKind>, names: set<string>)
  {
    forall k :: multiset(labels)[k] == |Holders(names, k)|
  }

  ghost predicate Agree(state: PRState, named: NameState)
  {
    && Tracks(state.labels, named.names)
    && state.ci == named.ci && state.draft == named.draft && state.fromFork == named.fromFork
  }

  lemma TracksAdded(labels: seq<LabelKind>, names: set<string>, name: string)
    requires Tracks(labels, names) && name in LABEL_RULES && name !in names
    ensures Tracks(labels + [LABEL_RULES[name]], names + {name})
  {
    forall k ensures multiset(labels + [LABEL_RULES[name]])[k] == |Holders(names + {name}, k)| {
      var kept := Holders(names, k);
      assert Holders(names + {name}, k) == if LABEL_RULES[name] == k then kept + {name} else kept;
    }
  }

  lemma TracksRemoved(labels: seq<LabelKind>, names: set<string>, name: string)
    requires Tracks(labels, names) && name in LABEL_RULES && name in names
    ensures LABEL_RULES[name] in labels
    ensures Tracks(RemoveFirst(labels, LABEL_RULES[name]), names - {name})
  {
    var kind := LABEL_RULES[name];
    assert name in Holders(names, kind);
    assert multiset(labels)[kind] > 0;
    forall k ensures multiset(RemoveFirst(labels, kind))[k] == |Holders(names - {name}, k)| {
      assert Holders(names - {name}, k) == if kind == k then Holders(names, k) - {name} else Holders(names, k);
    }
  }

  lemma TracksIgnoresIrrelevant(labels: seq<LabelKind>, names: set<string>, others: set<string>)
    requires Tracks(labels, names)
    requires forall n :: n in LABEL_RULES ==> (n in names <==> n in others)
    ensures Tracks(labels, others)
  {
    forall k ensures Holders(names, k) == Holders(others, k) {}
  }

  lemma {:induction false} TracksAllAdded(labels: seq<LabelKind>, names: set<string>, added: seq<string>)
    requires Tracks(labels, names) && NoDuplicates(added)
    requires forall n :: n in added ==> n in LABEL_RULES && n !in names
    ensures Tracks(labels + KindsOf(added), names + NameSet(added))
    decreases added
  {
    if added == [] {
      assert labels + KindsOf(added) == labels && names + NameSet(added) == names;
    } else {
      var x, rest := added[0], added[1..];
      TracksAdded(labels, names, x);
      TracksAllAdded(labels + [LABEL_RULES[x]], names + {x}, rest);
      assert labels + [LABEL_RULES[x]] + KindsOf(rest) == labels + KindsOf(added);
      assert names + {x} + NameSet(rest) == names + NameSet(added) by { assert added == [x] + rest; }
    }
  }

  lemma {:induction false} TracksAllRemoved(current: seq<LabelKind>, labels: seq<LabelKind>, names: set<string>,
                                            removed: seq<string>)
    requires Tracks(labels, names) && NoDuplicates(removed)
    requires multiset(labels) <= multiset(current)
    requires forall n :: n in removed ==> n in LABEL_RULES && n in names
    ensures var r := RemoveKinds(current, labels, KindsOf(removed));
            r.Some? && Tracks(r.value, names - NameSet(removed))
    decreases removed
  {
    if removed == [] {
      assert names - NameSet(removed) == names;
    } else {
      var x, rest := removed[0], removed[1..];
      hide Tracks, RemoveKinds, NoDuplicates, NameSet;
      TracksRemoved(labels, names, x);
      var kind := LABEL_RULES[x];
      assert KindsOf(removed) == [kind] + KindsOf(rest);
      hide KindsOf, RemoveFirst;
      FirstRemoved(current, labels, kind, KindsOf(rest));
      FirstNameApart(names, removed);
      TracksAllRemoved(current, RemoveFirst(labels, kind), names - {x}, rest);
    }
  }

  lemma FirstNameApart(names: set<string>, removed: seq<string>)
    requires removed != [] && NoDuplicates(removed)
    ensures var (x, rest) := (removed[0], removed[1..]);
            && NoDuplicates(rest) && x !in rest
            && names - {x} - NameSet(rest) == names - NameSet(removed)
  {
    assert removed == [removed[0]] + removed[1..];
  }

  lemma FirstRemoved(current: seq<LabelKind>, labels: seq<LabelKind>, kind: LabelKind, rest: seq<LabelKind>)
    requires kind in labels && multiset(labels) <= multiset(current)
    ensures RemoveKinds(current, labels, [kind] + rest) == RemoveKinds(current, RemoveFirst(labels, kind), rest)
    ensures multiset(RemoveFirst(labels, kind)) <= multiset(current)
  {
    assert kind in multiset(labels) && kind in multiset(current);
    assert ([kind] + rest)[1..] == rest;
  }

  lemma {:induction false} SameNet(names: seq<string>, one: set<string>, two: set<string>)
    requires forall n :: n in names ==> (n in one <==> n in two)
    ensures NetRelevant(names, one) == NetRelevant(names, two)
  {
    if names != [] {
      assert names[0] in names;
      SameNet(names[1..], one, two);
    }
  }

  lemma CombinedStepTracks(labels: seq<LabelKind>, names: set<string>, netAdded: seq<string>, netRemoved: seq<string>)
    requires Tracks(labels, names)
    requires NoDuplicates(netAdded) && forall n :: n in netAdded ==> n in LABEL_RULES && n !in names
    requires NoDuplicates(netRemoved) && forall n :: n in netRemoved ==> n in LABEL_RULES && n in names
    ensures var left := RemoveKinds(labels, labels, KindsOf(netRemoved));
            left.Some? && Tracks(left.value + KindsOf(netAdded), names - NameSet(netRemoved) + NameSet(netAdded))
  {
    TracksAllRemoved(labels, labels, names, netRemoved);
    TracksAllAdded(RemoveKinds(labels, labels, KindsOf(netRemoved)).value, names - NameSet(netRemoved), netAdded);
  }

  lemma StepPreservesAgree(state: PRState, named: NameState, change: PRChange)
    requires Agree(state, named) && WellFormedChange(named.names, change)
    ensures UpdateState(state, change).Some?
    ensures Agree(UpdateState(state, change).value, NameStep(named, change))
  {
    match change
    case MarkedDraft =>
    case MarkedReady =>
    case CIStatusChanged(_) =>
    case LabelAdded(name) =>
      if name in LABEL_RULES { TracksAdded(state.labels, named.names, name); }
      else { TracksIgnoresIrrelevant(state.labels, named.names, named.names + {name}); }
    case LabelRemoved(name) =>
      if name in LABEL_RULES { TracksRemoved(state.labels, named.names, name); }
      else { TracksIgnoresIrrelevant(state.labels, named.names, named.names - {name}); }
    case LabelAddedRemoved(added, removed) =>
      var both := Both(added, removed);
      var netAdded, netRemoved := NetRelevant(added, both), NetRelevant(removed, both);
      SameNet(added, both, NameSet(removed));
      SameNet(removed, both, NameSet(added));
      CombinedStepTracks(state.labels, named.names, netAdded, netRemoved);
      TracksIgnoresIrrelevant(UpdateState(state, change).value.labels,
                              named.names - NameSet(netRemoved) + NameSet(netAdded), NameStep(named, change).names);
  }

  /** On a well-formed log the replay never raises, and at each entry its kinds are exactly
      the kinds of the names present, with multiplicity. */
  lemma {:induction false} ReplayTracksNames(created: Instant, state: PRState, named: NameState, events: seq<Event>)
    requires Agree(state, named) && WellFormedLog(named, events)
    ensures var r := StateChanges(created, state, events);
            var names := NameChanges(created, named, events);
            r.Some? && forall i :: 0 <= i <= |events| ==>
              r.value[i].0 == names[i].0 && Agree(r.value[i].1, names[i].1)
    decreases events
  {
    if events != [] {
      StepPreservesAgree(state, named, events[0].change);
      ReplayTracksNames(events[0].time, UpdateState(state, events[0].change).value,
                        NameStep(named, events[0].change), events[1..]);
    }
  }

  lemma {:induction false} KindsOfMembers(names: seq<string>, kind: LabelKind)
    ensures kind in KindsOf(names) <==> exists n :: n in names && n in LABEL_RULES && LABEL_RULES[n] == kind
  {
    if names != [] {
      assert names == [names[0]] + names[1..];
      KindsOfMembers(names[1..], kind);
    }
  }

  lemma AgreeingStatesHaveOneStatus(date: Instant, state: PRState, named: NameState, listing: seq<string>,
                                    gating: Option<string>)
    requires Agree(state, named) && named.names == NameSet(listing)
    ensures DeterminePRStatus(date, state, gating)
         == DeterminePRStatus(date, PRState(KindsOf(listing), named.ci, named.draft, named.fromFork), gating)
  {
    forall k ensures k in state.labels <==> k in KindsOf(listing) {
      KindsOfMembers(listing, k);
      assert k in state.labels <==> Holders(named.names, k) != {};
      if Holders(named.names, k) != {} { var n :| n in Holders(named.names, k); assert n in listing; }
      if n :| n in listing && n in LABEL_RULES && LABEL_RULES[n] == k { assert n in Holders(named.names, k); }
    }
    OnlyTheKindSetMatters(date, state, PRState(KindsOf(listing), named.ci, named.draft, named.fromFork), gating);
  }

  function StatusChanges(evolution: Evolution): (r: seq<(Instant, PRStatus)>)
    ensures |r| == |evolution|
    ensures forall i :: 0 <= i < |r| ==>
      r[i] == (evolution[i].0, DeterminePRStatus(evolution[i].0, evolution[i].1, None))
  {
    seq(|evolution|, i requires 0 <= i < |evolution| =>
      (evolution[i].0, DeterminePRStatus(evolution[i].0, evolution[i].1, None)))
  }

  method DetermineStatusChanges(created: Instant, initial: PRState, events: seq<Event>)
    returns (r: Option<seq<(Instant, PRStatus)>>)
    ensures StateChanges(created, initial, events).None? ==> r == None
    ensures StateChanges(created, initial, events).Some? ==>
      r == Some(StatusChanges(StateChanges(created, initial, events).value))
  {
    var evolution := DetermineStateChanges(created, initial, events);
    if evolution.None? {
      return None;
    }
    var res := [];
    for i := 0 to |evolution.value|
      invariant res == StatusChanges(evolution.value)[..i]
    {
      res := res + [(evolution.value[i].0, DeterminePRStatus(evolution.value[i].0, evolution.value[i].1, None))];
    }
    assert StatusChanges(evolution.value)[..|evolution.value|] == StatusChanges(evolution.value);
    return Some(res);
  }

  /** Refinement over whole runs: each status in the evolution is the one the classifier
      gives the label names then present, however those names are listed. */
  lemma StatusesComputedFromNames(created: Instant, state: PRState, named: NameState, events: seq<Event>, i: nat,
                                  listing: seq<string>)
    requires Agree(state, named) && WellFormedLog(named, events) && i <= |events|
    requires NameChanges(created, named, events)[i].1.names == NameSet(listing)
    ensures StateChanges(created, state, events).Some?
    ensures var (time, now) := NameChanges(created, named, events)[i];
            StatusChanges(StateChanges(created, state, events).value)[i] ==
            (time, DeterminePRStatus(time, PRState(KindsOf(listing), now.ci, now.draft, now.fromFork), None))
  {
    ReplayTracksNames(created, state, named, events);
    var (time, now) := NameChanges(created, named, events)[i];
    AgreeingStatesHaveOneStatus(time, StateChanges(created, state, events).value[i].1, now, listing, None);
  }

  // ---- Names ------------------------------------------------------------------------------------

  // What an event does about one label name; a name both added and removed stays as it was.
  predicate Adds(change: PRChange, name: string)
  {
    match change
    case LabelAdded(n) => n == name
    case LabelAddedRemoved(added, removed) => name in added && name !in removed
    case _ => false
  }

  predicate Drops(change: PRChange, name: string)
  {
    match change
    case LabelRemoved(n) => n == name
    case LabelAddedRemoved(added, removed) => name in removed && name !in added
    case _ => false
  }

  lemma {:induction false} NameStays(created: Instant, named: NameState, events: seq<Event>, name: string)
    requires forall i :: 0 <= i < |events| ==> !Adds(events[i].change, name) && !Drops(events[i].change, name)
    ensures name in NameChanges(created, named, events)[|events|].1.names <==> name in named.names
    decreases events
  {
    if events == [] {
    } else {
      NameStays(events[0].time, NameStep(named, events[0].change), events[1..], name);
    }
  }

  /** A label name is present in the end exactly when the last event that adds or drops it adds
      it; a name that no event touches stays as it was. */
  lemma {:induction false} LastLabelEventDecides(created: Instant, named: NameState, events: seq<Event>, name: string,
                                                 i: nat)
    requires i < |events| && (Adds(events[i].change, name) || Drops(events[i].change, name))
    requires forall j :: i < j < |events| ==> !Adds(events[j].change, name) && !Drops(events[j].change, name)
    ensures name in NameChanges(created, named, events)[|events|].1.names <==> Adds(events[i].change, name)
    decreases events
  {
    var next := NameStep(named, events[0].change);
    assert forall j :: 0 < j < |events| ==> events[j] == events[1..][j - 1];
    if i == 0 {
      assert forall j :: 0 <= j < |events[1..]| ==> events[1..][j] == events[j + 1];
      NameStays(events[0].time, next, events[1..], name);
    } else {
      LastLabelEventDecides(events[0].time, next, events[1..], name, i - 1);
    }
  }

  // ---- CI -------------------------------------------------------------------------------------

  lemma {:induction false} ReplayKeepsCi(created: Instant, state: PRState, events: seq<Event>)
    requires StateChanges(created, state, events).Some?
    ensures var last := StateChanges(created, state, events).value[|events|].1;
            && last.fromFork == state.fromFork
            && ((forall i :: 0 <= i < |events| ==> !events[i].change.CIStatusChanged?) ==> last.ci == state.ci)
    decreases events
  {
    if events == [] {
    } else {
      ReplayKeepsCi(events[0].time, UpdateState(state, events[0].change).value, events[1..]);
    }
  }

  /** CI ends as the last event about it says, or as it began; and where the pull request comes
      from never changes. */
  lemma {:induction false} LastCiEventDecides(created: Instant, state: PRState, events: seq<Event>, i: nat)
    requires StateChanges(created, state, events).Some?
    requires i < |events| && events[i].change.CIStatusChanged?
    requires forall j :: i < j < |events| ==> !events[j].change.CIStatusChanged?
    ensures StateChanges(created, state, events).value[|events|].1.ci == events[i].change.newStatus
    decreases events
  {
    var next := UpdateState(state, events[0].change).value;
    assert forall j :: 0 < j < |events| ==> events[j] == events[1..][j - 1];
    if i == 0 {
      assert forall j :: 0 <= j < |events[1..]| ==> events[1..][j] == events[j + 1];
      ReplayKeepsCi(events[0].time, next, events[1..]);
    } else {
      LastCiEventDecides(events[0].time, next, events[1..], i - 1);
    }
  }

  // ---- Draft inference -----------------------------------------------------------------

  predicate IsToggle(change: PRChange)
  {
    change.MarkedDraft? || change.MarkedReady?
  }

  function Toggles(events: seq<Event>): nat
  {
    if events == [] then 0 else (if IsToggle(events[0].change) then 1 else 0) + Toggles(events[1..])
  }

  function CreatedAsDraft(events: seq<Event>, isDraft: bool): bool
  {
    (Toggles(events) % 2 == 1) != isDraft
  }

  function DraftStep(draft: bool, change: PRChange): bool
  {
    match change
    case MarkedDraft => true
    case MarkedReady => false
    case _ => draft
  }

  function DraftAfter(draft: bool, events: seq<Event>): bool
    decreases events
  {
    if events == [] then draft else DraftAfter(DraftStep(draft, events[0].change), events[1..])
  }

  // Toggles that set the flag to the value it already has.
  function RedundantToggles(draft: bool, events: seq<Event>): nat
    decreases events
  {
    if events == [] then 0
    else
      (if IsToggle(events[0].change) && DraftStep(draft, events[0].change) == draft then 1 else 0)
      + RedundantToggles(DraftStep(draft, events[0].change), events[1..])
  }

  lemma {:induction false} ReplayedDraftFlag(created: Instant, state: PRState, events: seq<Event>)
    requires StateChanges(created, state, events).Some?
    ensures StateChanges(created, state, events).value[|events|].1.draft == DraftAfter(state.draft, events)
    decreases events
  {
    if events != [] {
      ReplayedDraftFlag(events[0].time, UpdateState(state, events[0].change).value, events[1..]);
    }
  }

  /** The inferred initial flag is the true one exactly when the log holds an even number of
      redundant toggles; in particular when every toggle is genuine. */
  lemma {:induction false} DraftInferenceExact(draft: bool, events: seq<Event>)
    ensures CreatedAsDraft(events, DraftAfter(draft, events)) == draft <==> RedundantToggles(draft, events) % 2 == 0
    decreases events
  {
    if events != [] {
      DraftInferenceExact(DraftStep(draft, events[0].change), events[1..]);
    }
  }

  lemma {:induction false} ReplayForgetsStart(one: bool, two: bool, events: seq<Event>)
    ensures Toggles(events) == 0 ==> DraftAfter(one, events) == one
    ensures Toggles(events) > 0 ==> DraftAfter(one, events) == DraftAfter(two, events)
    decreases events
  {
    if events != [] {
      ReplayForgetsStart(DraftStep(one, events[0].change), DraftStep(two, events[0].change), events[1..]);
    }
  }

  /** Whatever the true start was, replaying from the inferred one ends in the recorded flag. */
  lemma ReplayFromInferredFlag(draft: bool, events: seq<Event>)
    ensures var final := DraftAfter(draft, events);
            DraftAfter(CreatedAsDraft(events, final), events) == final
  {
    var final := DraftAfter(draft, events);
    ReplayForgetsStart(draft, CreatedAsDraft(events, final), events);
    ReplayForgetsStart(CreatedAsDraft(events, final), draft, events);
  }
}
