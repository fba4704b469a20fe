/**
 Whole-snapshot consequences of the reducers. The store that merges a patch
 into the snapshot is not part of this model; ApplyPatch states the merge the
 reducers are written for (a shallow merge: every patched top-level key is
 replaced, every other key is kept as it was) and is an assumption, not
 modelled code.
 */
module PatchMerge {
  import opened Services

  /** Assumed store merge: no change keeps the snapshot; a patch replaces the
      domains it names and keeps every other domain untouched. */
  function ApplyPatch(state: Registry, update: Update): (r: Registry)
    ensures update.NoChange? ==> r == state
    ensures update.Patch? ==> r.Keys == state.Keys + update.changes.Keys
    ensures update.Patch? ==> forall d :: d in update.changes ==> r[d] == update.changes[d]
    ensures forall d :: d in state && (update.NoChange? || d !in update.changes) ==> r[d] == state[d]
  {
    match update
    case NoChange => state
    case Patch(changes) => state + changes
  }

  /** A registration, once merged, touches no domain but the event's: every
      other domain is present afterwards exactly when it was before, with the
      same services. */
  lemma RegistrationTouchesOnlyItsDomain(state: Registry, event: ServiceEvent, d: string)
    requires d != event.domain
    ensures
      var next := ApplyPatch(state, ProcessServiceRegistered(Some(state), event));
      && (d in next <==> d in state)
      && (d in state ==> next[d] == state[d])
  {
  }

  /** A removal, once merged, touches no domain but the event's: every other
      domain is present afterwards exactly when it was before, with the same
      services. */
  lemma RemovalTouchesOnlyItsDomain(state: Registry, event: ServiceEvent, d: string)
    requires d != event.domain
    ensures
      var next := ApplyPatch(state, RemovalUpdate(Some(state), event));
      && (d in next <==> d in state)
      && (d in state ==> next[d] == state[d])
  {
  }

  /** Registering a service its domain lacks and then removing it again gives
      back the domain's old services, or an empty domain when the domain was
      unknown: the domain key itself is not removed. */
  lemma RegisterThenRemove(state: Registry, event: ServiceEvent)
    requires event.service !in KnownServices(state, event.domain)
    ensures
      var registered := ApplyPatch(state, ProcessServiceRegistered(Some(state), event));
      var removal := RemovalUpdate(Some(registered), event);
      && removal == Patch(map[event.domain := KnownServices(state, event.domain)])
      && ApplyPatch(registered, removal) ==
           if event.domain in state then state else state[event.domain := map[]]
  {
    var before := KnownServices(state, event.domain);
    var registered := ApplyPatch(state, ProcessServiceRegistered(Some(state), event));
    assert registered[event.domain] == before[event.service := Placeholder];
    assert registered[event.domain] - {event.service} == before;
  }

  /** A removal delivered twice is harmless: once the first patch is merged, the
      second removal asks for no change. */
  lemma RemoveTwice(state: Registry, event: ServiceEvent)
    ensures
      var once := ApplyPatch(state, RemovalUpdate(Some(state), event));
      RemovalUpdate(Some(once), event) == NoChange
  {
  }

  /** A registration delivered twice is harmless: merging the second patch
      leaves the snapshot as the first one left it. */
  lemma RegisterTwice(state: Registry, event: ServiceEvent)
    ensures
      var once := ApplyPatch(state, ProcessServiceRegistered(Some(state), event));
      ApplyPatch(once, ProcessServiceRegistered(Some(once), event)) == once
  {
    var once := ApplyPatch(state, ProcessServiceRegistered(Some(state), event));
    assert once[event.domain][event.service := Placeholder] == once[event.domain];
  }

  /** Registering and then removing "turn_on" of "light" against an empty
      snapshot leaves "light" present with no services, not absent. */
  lemma LightRoundTrip()
    ensures
      var event := ServiceEvent("light", "turn_on");
      var registered := ApplyPatch(map[], ProcessServiceRegistered(Some(map[]), event));
      ApplyPatch(registered, RemovalUpdate(Some(registered), event)) == map["light" := map[]]
  {
  }

  /** A snapshot listing "turn_on" under "light" receives a registration of
      "turn_off": both services are then listed, each with the placeholder. */
  lemma LightRegistration()
    ensures
      var state := map["light" := map["turn_on" := Placeholder]];
      ApplyPatch(state, ProcessServiceRegistered(Some(state), ServiceEvent("light", "turn_off")))
        == map["light" := map["turn_on" := Placeholder, "turn_off" := Placeholder]]
  {
  }
}
