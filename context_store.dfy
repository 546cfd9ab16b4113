/**
 The context store object: a general map of context values and a map from
 event type to that type's own values, updated in place. Each write runs as
 one atomic step, in the order the writes were issued, and a read sees the
 state after every earlier write.
 */
module JitsuContext {
  import opened ContextSpec

  class JitsuContextImpl<V> {
    /** The per-event-type buckets. */
    var contextValues: Buckets<V>
    /** The values that apply to every event type. */
    var generalContextValues: map<Key, V>

    /** A new store holds no context values at all. */
    constructor ()
      ensures contextValues == map[] && generalContextValues == map[]
    {
      contextValues := map[];
      generalContextValues := map[];
    }

    /**
     Without a type list, merges `values` into the general map and into every
     existing bucket, creating none. With a type list, merges `values` into
     the bucket of each listed type (a type without one gets exactly `values`)
     and leaves the general map alone. New values win on a key already
     present. `persist` does not influence the state.
     */
    method AddValues(values: map<Key, V>, eventTypes: Option<seq<EventType>>, persist: bool)
      modifies this
      ensures eventTypes.None? ==>
        && generalContextValues == old(generalContextValues) + values
        && contextValues == AddedToAll(old(contextValues), values)
      ensures eventTypes.Some? ==>
        && generalContextValues == old(generalContextValues)
        && contextValues == AddedTyped(old(contextValues), values, eventTypes.value)
    {
      match eventTypes {
        case None =>
          generalContextValues := generalContextValues + values;
          var pending := contextValues.Keys;
          while pending != {}
            invariant contextValues.Keys == old(contextValues).Keys
            invariant pending <= contextValues.Keys
            invariant generalContextValues == old(generalContextValues) + values
            invariant forall t :: t in contextValues ==>
              contextValues[t] == if t in pending then old(contextValues)[t] else old(contextValues)[t] + values
            decreases pending
          {
            var t :| t in pending;
            contextValues := contextValues[t := contextValues[t] + values];
            pending := pending - {t};
          }
        case Some(types) =>
          for i := 0 to |types|
            invariant generalContextValues == old(generalContextValues)
            invariant contextValues == AddedTyped(old(contextValues), values, types[..i])
          {
            var t := types[i];
            if t !in contextValues {
              contextValues := contextValues[t := values];
            } else {
              contextValues := contextValues[t := contextValues[t] + values];
            }
            assert types[..i + 1][..i] == types[..i];
          }
          assert types[..|types|] == types;
      }
    }

    /**
     Without a type list, deletes `key` from the general map and from every
     bucket. With a type list, deletes the whole bucket of each listed type
     and ignores `key`.
     */
    method RemoveValue(key: Key, eventTypes: Option<seq<EventType>>)
      modifies this
      ensures eventTypes.None? ==>
        && generalContextValues == old(generalContextValues) - {key}
        && contextValues == RemovedFromAll(old(contextValues), key)
      ensures eventTypes.Some? ==>
        && generalContextValues == old(generalContextValues)
        && contextValues == RemovedTypes(old(contextValues), eventTypes.value)
    {
      match eventTypes {
        case None =>
          generalContextValues := generalContextValues - {key};
          var pending := contextValues.Keys;
          while pending != {}
            invariant contextValues.Keys == old(contextValues).Keys
            invariant pending <= contextValues.Keys
            invariant generalContextValues == old(generalContextValues) - {key}
            invariant forall t :: t in contextValues ==>
              contextValues[t] == if t in pending then old(contextValues)[t] else old(contextValues)[t] - {key}
            decreases pending
          {
            var t :| t in pending;
            contextValues := contextValues[t := contextValues[t] - {key}];
            pending := pending - {t};
          }
        case Some(types) =>
          for i := 0 to |types|
            invariant generalContextValues == old(generalContextValues)
            invariant contextValues == RemovedTypes(old(contextValues), types[..i])
          {
            assert forall t :: t in types[..i + 1] <==> t in types[..i] || t == types[i];
            contextValues := contextValues - {types[i]};
          }
          assert types[..|types|] == types;
      }
    }

    /**
     The context values an event of `eventType` carries: the general map
     when no type is given, otherwise the type's bucket laid over the general
     map, the bucket winning; a type without a bucket gets the general map.
     */
    function Values(eventType: Option<EventType>): (r: map<Key, V>)
      reads this
      ensures eventType.None? ==> r == generalContextValues
      ensures eventType.Some? && eventType.value !in contextValues ==> r == generalContextValues
      ensures eventType.Some? ==> forall k :: k in r <==>
        (eventType.value in contextValues && k in contextValues[eventType.value]) || k in generalContextValues
      ensures eventType.Some? ==> forall k :: k in r ==>
        r[k] == if eventType.value in contextValues && k in contextValues[eventType.value]
                then contextValues[eventType.value][k]
                else generalContextValues[k]
    {
      Merged(contextValues, generalContextValues, eventType)
    }

    /**
     Empties both maps. The device and app information the store then
     gathers again is not part of this model.
     */
    method Clear()
      modifies this
      ensures contextValues == map[] && generalContextValues == map[]
    {
      contextValues := map[];
      generalContextValues := map[];
    }
  }
}
