# Service registry reducers

A model of the registry projection of the Home Assistant websocket client
(`lib/services.ts`). The client keeps a local copy of the server's service
registry: a two-level map, domain -> (service -> descriptor). It fetches the
whole registry once and then follows two push events, "service_registered"
and "service_removed", each carrying a `{domain, service}` pair. For each
event a reducer looks at the current snapshot and returns either "no change"
(`null` in the source) or a patch, an object with one top-level key, that the
store shallow-merges into the snapshot.

- `services.dfy`, module `Services`: the data model and both reducers.
  - The snapshot is `Option<Registry>`. `None` stands for the snapshot that is
    still `undefined` before the initial fetch.
  - A reducer answers with an `Update`: `NoChange` or `Patch(changes)`.
    `changes` is the returned object, so "it has exactly one key" is a proved
    property, not something the type enforces.
  - `ProcessServiceRegistered` is a function, as the source is one
    `Object.assign` expression.
  - `ProcessServiceRemoved` is a method with a `while` loop. This mirrors the
    source's `forEach` loop, which fills a fresh domain info key by key and
    skips the removed service. The method is proved equal to the value-level
    function `RemovalUpdate`, and the lemmas reason about that function.
- `patch_merge.dfy`, module `PatchMerge`: the whole-snapshot properties. The
  store's merge is not part of this model. `ApplyPatch` is an **assumption**
  about it, not modelled code. It says that a patch replaces exactly the
  top-level keys it names and keeps every other domain, which is the merge the
  one-key patches at `lib/services.ts:33` and `lib/services.ts:52` are written
  for.

Two details of the code are worth knowing:

- The removal guard `!curDomainInfo` (`lib/services.ts:45`) never rejects a
  domain info the snapshot owns: a domain info is an object, and every object
  is truthy, even an empty one. For domains that are own keys of the snapshot,
  the guard is therefore `event.domain !in state`, which is what the model
  tests. Inherited property names behave differently in JavaScript (see
  "## Left out").
- Registration copies `state[domain]` with `Object.assign`, which skips an
  `undefined` source. An unknown domain therefore contributes no services
  (`KnownServices`).

## Model

| member | source | states |
|---|---|---|
| Services.ProcessServiceRegistered | lib/services.ts:21-34 | No snapshot gives no change. Otherwise the patch's only key is the event's domain. That domain's services are the old services plus the event's service. The event's service maps to the placeholder `{description: "", fields: {}}`, which replaces any earlier descriptor. Every other service keeps its old descriptor. |
| Services.RemovalUpdate | lib/services.ts:40-52 | No change exactly when there is no snapshot, the domain is absent, or the domain does not list the service. Otherwise the patch's only key is the event's domain. Its services are exactly the old ones minus the removed one, each with its old descriptor. The domain stays in the patch even when it becomes empty. |
| Services.ProcessServiceRemoved | lib/services.ts:36-53 | The guards plus the key-by-key copying loop produce exactly the update `RemovalUpdate` describes, whatever order the keys are visited in. |
| PatchMerge.ApplyPatch | lib/services.ts:33 | Assumed store merge: no change keeps the snapshot. A patch replaces the domains it names and keeps every other domain with the same services. |
| PatchMerge.RegistrationTouchesOnlyItsDomain | lib/services.ts:29-33 | After a registration patch is merged, every domain other than the event's is present exactly when it was before, with the same services. |
| PatchMerge.RemovalTouchesOnlyItsDomain | lib/services.ts:45-52 | After a removal patch is merged, every domain other than the event's is present exactly when it was before, with the same services. |
| PatchMerge.RegisterThenRemove | lib/services.ts:29-50 | Register a service its domain lacks, then remove it. The removal patch gives back the domain's old services, or no services if the domain was unknown. The merged snapshot is the original one, plus an empty entry for a domain that was unknown before. |
| PatchMerge.RemoveTwice | lib/services.ts:45-52 | Once a removal is merged, the same removal again returns no change. |
| PatchMerge.RegisterTwice | lib/services.ts:29-33 | Once a registration is merged, merging the same registration again leaves the snapshot unchanged. |
| PatchMerge.LightRoundTrip | lib/services.ts:29-52 | Start from the empty snapshot, register "turn_on" in "light", then remove it. The result is `{"light": {}}`: the domain stays, with no services. |
| PatchMerge.LightRegistration | lib/services.ts:29-33 | Start from `{"light": {"turn_on": placeholder}}` and register "turn_off". Both services are then listed under "light". |

## Left out

- `fetchServices`, `subscribeUpdates`, `servicesColl` and `subscribeServices` (`lib/services.ts:55-74`) are left out. They are asynchronous connection plumbing: the initial `getServices` request, attaching and detaching the two event listeners with `conn.subscribeEvents`, and handing both to the collection cache. They have no logic of their own beyond the calls into code that is not modelled.
- The collection cache (`collection.ts`) and the store (`store.ts`) are not part of this model. Reference counting, caching, replay to late subscribers and subscriber notification are therefore not modelled. The store's merge appears only as the assumption `ApplyPatch`.
- Property names are modelled as ordinary own keys of plain maps, so JavaScript's inherited properties and the `__proto__` setter are not captured:
  - The `in` test at `lib/services.ts:45` also finds inherited properties (`"toString" in {}` is true). For such service names the source goes on to build a patch where the model returns no change.
  - The domain lookup `state[domain]` at `lib/services.ts:43` and `lib/services.ts:45` also finds inherited properties. With state `{}` and the event `{domain: "constructor", service: "name"}`, `curDomainInfo` is the `Object` function, which is truthy. `"name" in Object` is true and `Object.keys(Object)` is empty, so the source returns `{constructor: {}}` where the model returns no change.
  - A service named `__proto__` is written through the prototype setter by `Object.assign` at `lib/services.ts:29-31` and by `domainInfo[sKey] = …` at `lib/services.ts:49`. It therefore never becomes an own key of the new domain info. The model adds it as an ordinary key.
- Descriptors are opaque values (`ServiceDesc`). The reducers only ever write the fixed placeholder, so the real contents of a descriptor play no part.
- Key enumeration order is not modelled: the removal loop visits the keys in an arbitrary order, and maps carry no order.
