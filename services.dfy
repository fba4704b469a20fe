/**
 The registry projection: two reducers that keep a client-side copy of the
 service registry in step with the server's "service_registered" and
 "service_removed" push events. The registry is a two-level map,
 domain -> (service -> descriptor). Each reducer looks at the current snapshot
 and an event and answers either "no change" or a patch: an object of
 top-level keys that the store merges into the snapshot.
 */
module Services {

  /** A service descriptor. The reducers only ever write the placeholder.
      Descriptors that came with the initial fetch are never inspected, so
      `fields` is an opaque stand-in for the real field descriptors, which are
      objects rather than strings. */
  datatype ServiceDesc = ServiceDesc(description: string, fields: map<string, string>)

  /** The descriptor a registration installs: an empty description and no fields. */
  const Placeholder: ServiceDesc := ServiceDesc("", map[])

  /** The services of one domain: service name -> descriptor. */
  type DomainServices = map<string, ServiceDesc>

  /** A registry snapshot: domain name -> the services of that domain. */
  type Registry = map<string, DomainServices>

  /** The snapshot the reducers are given: None until the initial fetch has landed. */
  datatype Option<+T> = None | Some(value: T)

  /** The payload shared by both push events: which service of which domain. */
  datatype ServiceEvent = ServiceEvent(domain: string, service: string)

  /** A reducer's answer: leave the snapshot alone, or merge these top-level keys into it. */
  datatype Update = NoChange | Patch(changes: Registry)

  /** The services a snapshot lists for `domain`; a domain the snapshot lacks
      contributes no services when it is copied, as `Object.assign` skips an
      `undefined` source. A helper of ProcessServiceRegistered, whose contract
      states what it means for the registration. */
  function KnownServices(state: Registry, domain: string): DomainServices
  {
    if domain in state then state[domain] else map[]
  }

  /** Reducer for "service_registered". With no snapshot yet there is nothing to
      update. Otherwise the patch has one key, the event's domain, whose services
      are the old ones plus the event's service with the placeholder descriptor,
      which replaces any descriptor the service had before. */
  function ProcessServiceRegistered(state: Option<Registry>, event: ServiceEvent): (r: Update)
    ensures state.None? <==> r == NoChange
    ensures r.Patch? ==> r.changes.Keys == {event.domain}
    ensures r.Patch? ==>
      var before, after := KnownServices(state.value, event.domain), r.changes[event.domain];
      && after.Keys == before.Keys + {event.service}
      && after[event.service] == Placeholder
      && forall s :: s in before && s != event.service ==> after[s] == before[s]
  {
    match state
    case None => NoChange
    case Some(registry) =>
      var domainInfo := KnownServices(registry, event.domain)[event.service := Placeholder];
      Patch(map[event.domain := domainInfo])
  }

  /** Removal as a value: the reference the "service_removed" reducer is proved
      against. No change when there is no snapshot, when the domain is unknown or
      when the domain does not list the service; otherwise a one-key patch whose
      services are exactly the old ones but the removed service, each with its
      old descriptor. The domain stays in the patch even when it is left empty. */
  function RemovalUpdate(state: Option<Registry>, event: ServiceEvent): (r: Update)
    ensures r == NoChange <==>
      || state.None?
      || event.domain !in state.value
      || event.service !in state.value[event.domain]
    ensures r.Patch? ==> r.changes.Keys == {event.domain}
    ensures r.Patch? ==>
      var before, after := state.value[event.domain], r.changes[event.domain];
      && after.Keys == before.Keys - {event.service}
      && forall s :: s in after ==> after[s] == before[s]
  {
    if state.None? || event.domain !in state.value || event.service !in state.value[event.domain] then
      NoChange
    else
      Patch(map[event.domain := state.value[event.domain] - {event.service}])
  }

  /** Reducer for "service_removed". After the guards, a fresh domain info is
      filled key by key from the current one, skipping the removed service. The
      keys are visited in an arbitrary order, which covers whatever order the
      runtime enumerates them in. */
  method ProcessServiceRemoved(state: Option<Registry>, event: ServiceEvent) returns (r: Update)
    ensures r == RemovalUpdate(state, event)
  {
    if state.None? {
      return NoChange;
    }
    var domain, service := event.domain, event.service;
    if domain !in state.value || service !in state.value[domain] {
      return NoChange;
    }
    var current := state.value[domain];
    var domainInfo: DomainServices := map[];
    var pending := current.Keys;
    while pending != {}
      invariant pending <= current.Keys
      invariant domainInfo.Keys == current.Keys - pending - {service}
      invariant forall s :: s in domainInfo ==> domainInfo[s] == current[s]
      decreases pending
    {
      var sKey :| sKey in pending;
      if sKey != service {
        domainInfo := domainInfo[sKey := current[sKey]];
      }
      pending := pending - {sKey};
    }
    assert domainInfo == current - {service};
    r := Patch(map[domain := domainInfo]);
  }
}
