# Layered context store of the Jitsu iOS SDK, in Dafny

The SDK attaches context values to every event it tracks. The context store
`JitsuContextImpl` keeps them in two maps:

- `generalContextValues`: values that apply to every event type;
- `contextValues`: for each event type, a "bucket" of values for that type only.

Four operations act on this state:

- `addValues`: merges new values into it. Without a type list it merges them
  into the general map and into every bucket that already exists. With a list,
  it merges them into each listed type's bucket. A type without a bucket gets
  exactly the new values as its bucket.
- `removeValue`: without a type list, it deletes the key from the general map
  and from every bucket. With a list, it deletes the listed types' whole buckets
  and ignores the key.
- `values(for:)`: gives the general map when no type is given. Otherwise it
  gives the type's bucket laid over the general map, and the bucket wins on a
  shared key.
- `clear`: empties both maps.

The project has three modules:

- `ContextSpec` (`context_spec.dfy`): the operations as functions on the two
  maps, and lemmas that say what a reader then sees for every event type.
- `JitsuContext` (`context_store.dfy`): the class `JitsuContextImpl`. Its two
  fields are updated in place by methods with the same loops as the original.
  Each method is proved equal to the matching `ContextSpec` function of the old
  state.
- `ContextTests` (`context_tests.dfy`): the unit test scenarios, each run on a
  fresh store. Each states what the code returns.

Context values are a type parameter `V`, because the store only stores and
overwrites them. Keys and event types are strings. An optional Swift array of
event types becomes `Option<seq<EventType>>`. The list may name a type twice,
and the result is then the same as naming it once.

### Where the code, its tests and its design notes disagree

The model follows the code in `Sources/Implementations/JitsuContextImpl.swift`.

- A general `addValues` merges into every existing bucket (line 24). So a later
  general write overwrites an earlier type-specific value for the same key.
  - The test `testContext_specific_isnt_overriten_by_general`
    (`Tests/JitsuContextTests.swift:85-96`) expects the type-specific "OLD".
    The code gives "NEW".
  - The design notes also call type-specific values "sticky" against later
    general writes. The code does not do this.
  - See `ContextSpec.GeneralAddOverwritesSpecific` and
    `ContextTests.SpecificIsOverwrittenByGeneral`.
- A general `removeValue` strips the key from every bucket (line 47).
  - The test `testContext_removeValues_specificStays`
    (`Tests/JitsuContextTests.swift:98-113`) expects `key_1` to survive in the
    `first_event` bucket. The code removes it.
  - See `ContextSpec.GeneralRemoveStripsSpecific` and
    `ContextTests.GeneralRemoveStripsSpecificValue`.
- The tests build the store with `JitsuContextImpl(storage:deviceInfoProvider:)`,
  but the initializer takes only `deviceInfoProvider` (lines 79-81). The model's
  constructor takes neither argument, since the provider is used only by the
  device-information step that is left out.

## Model

| member | source | states |
|---|---|---|
| `ContextSpec.Merged` | Sources/Implementations/JitsuContextImpl.swift:59-66 | With no type, the view is exactly the general map. For type T, key k is in the view iff it is in T's bucket or in the general map. Its value is the bucket's when the bucket has k, otherwise the general one. A missing bucket reads as empty. |
| `ContextSpec.AddedTypedClosedForm` | Sources/Implementations/JitsuContextImpl.swift:30-35 | After a typed add, the bucket types are the old ones plus the listed ones. A listed type's bucket is its old bucket merged with the new values, or exactly the new values if it had none, with nothing copied from the general map. Unlisted buckets are unchanged. Naming a type twice equals naming it once. |
| `ContextSpec.AddedToAllView` | Sources/Implementations/JitsuContextImpl.swift:21-25 | A general add creates no bucket and removes none. Every type's view, with or without a bucket, becomes its old view with the new values laid over it. So each added key reads as its new value for every type. |
| `ContextSpec.AddedTypedView` | Sources/Implementations/JitsuContextImpl.swift:30-35 | A typed add turns each listed type's view into its old view with the new values laid over it. The views of unlisted types and the general map are unchanged. |
| `ContextSpec.RemovedFromAllView` | Sources/Implementations/JitsuContextImpl.swift:43-48 | A general remove keeps the set of bucket types. Every view, typed or general, loses exactly the removed key, and the key is absent from all of them. |
| `ContextSpec.RemovedTypesView` | Sources/Implementations/JitsuContextImpl.swift:52-54 | A typed remove makes each listed type's view equal to the general map, whatever key was named. Unlisted types keep their views. |
| `ContextSpec.GeneralAddOverwritesSpecific` | Sources/Implementations/JitsuContextImpl.swift:21-25 | A typed add of key k followed by a general add of k makes the type read the general value. Type-specific values are not protected from later general writes. |
| `ContextSpec.GeneralRemoveStripsSpecific` | Sources/Implementations/JitsuContextImpl.swift:43-48 | A typed add of key k followed by a general remove of k leaves k absent from that type's view. |
| `JitsuContext.JitsuContextImpl.constructor` | Sources/Implementations/JitsuContextImpl.swift:13-14 | A new store has an empty general map and no buckets. |
| `JitsuContext.JitsuContextImpl.AddValues` | Sources/Implementations/JitsuContextImpl.swift:18-39 | With no types, the general map becomes old merged with the values, and every existing bucket is merged too, by a loop over the bucket keys. With types, the buckets become the typed-add result of the old ones, one listed type at a time, and the general map is unchanged. `persist` has no effect on the state. |
| `JitsuContext.JitsuContextImpl.RemoveValue` | Sources/Implementations/JitsuContextImpl.swift:41-57 | With no types, the key leaves the general map and every bucket, by a loop over the bucket keys. With types, the listed buckets are deleted whole and the general map is unchanged. |
| `JitsuContext.JitsuContextImpl.Values` | Sources/Implementations/JitsuContextImpl.swift:59-67 | A read-only function of the two fields, so a read changes nothing. No type gives the general map, and a type without a bucket gives it too. Otherwise the keys are the union of the bucket's and the general map's, and the bucket wins on a shared key. |
| `JitsuContext.JitsuContextImpl.Clear` | Sources/Implementations/JitsuContextImpl.swift:69-72 | Both maps are empty afterwards. |
| `ContextTests.GeneralValuesReachEveryType` | Tests/JitsuContextTests.swift:23-35 | Two general adds are both seen by `first_event`, a type that has no bucket. |
| `ContextTests.NewValuesUpdateOld` | Tests/JitsuContextTests.swift:37-51 | A later general add of `key_2` replaces the earlier one and keeps `key_1`. |
| `ContextTests.NewSpecificValuesUpdateOld` | Tests/JitsuContextTests.swift:53-67 | A later typed add of `key_2` replaces the earlier one in the bucket and keeps `key_1`. |
| `ContextTests.SpecificOvershadowsGeneral` | Tests/JitsuContextTests.swift:69-83 | The typed "NEW" shadows the general "OLD" for `first_event`. `second_event` still reads "OLD". |
| `ContextTests.SpecificIsOverwrittenByGeneral` | Tests/JitsuContextTests.swift:85-96 | `first_event` reads "NEW", the later general value. The test expects "OLD". |
| `ContextTests.GeneralRemoveStripsSpecificValue` | Tests/JitsuContextTests.swift:98-113 | After general removes of `key_1` and `key_2`, neither is in `first_event`'s view. The test expects `key_1` to stay. |
| `ContextTests.TypedRemoveKeepsGeneral` | Tests/JitsuContextTests.swift:115-131 | Removing `first_event`'s bucket makes it read the general "value_2", as `second_event` does. |
| `ContextTests.ClearEmptiesEveryView` | Sources/Implementations/JitsuContextImpl.swift:69-72 | After clear, the general view and a typed view are both empty, even where `persist` was set. |

## Left out

- `JitsuContext.JitsuContextImpl.Clear`: the original re-runs `setup` after emptying the maps, which adds locale, app and device values back. The model stops at the two empty maps.
- `setup`, `getDeviceInfo`, `appInformation` and `localeInfo` (lines 83-140). They read the app bundle and the locale, and take an asynchronous callback from the device-info provider. The model does not cover the values they add. This includes `app_version_id` and `app_build_id` being set from the SDK version (lines 107, 110).
- Concurrency: the concurrent dispatch queue, barrier writes and synchronous reads (lines 16, 19, 42, 60). Each write is modelled as one atomic step, run in issue order before any later read.
- Logging with `print` (line 20) is left out, because it has no effect on state.
- Durable saving of context values is left out. The source has only "todo" comments there, so `persist` has no effect.
- Swift `Any` values are modelled as an opaque type parameter, since the store never inspects them.
- The rest of the SDK is not part of this model, because it is I/O, lazy wiring or plain data. This covers event storage (Core Data), the client facade and its batching threshold, the storage locator and the basic event type. The events controller, user-properties store and batch handling are also not part of this model.
