/** The index between the resolver and the fetching tasks: slots that are created empty and
    filled once. */
module InMemoryIndexes {
  import opened Options

  type PackageName = string
  type VersionText = string
  type Value = nat

  datatype Key = VersionsOf(package: PackageName) | MetadataOf(package: PackageName, version: VersionText)

  /** `None` is an empty slot. */
  type Slots = map<Key, Option<Value>>

  function WithSlot(slots: Slots, key: Key): Slots {
    if key in slots then slots else slots[key := None]
  }

  function WithValue(slots: Slots, key: Key, value: Value): Slots {
    WithSlot(slots, key)[key := Some(value)]
  }

  predicate IsFilled(slots: Slots, key: Key) {
    key in slots && slots[key].Some?
  }

  class InMemoryIndex {
    var slots: Slots

    constructor ()
      ensures slots == map[]
    {
      slots := map[];
    }

    /** Claim a key: only the first caller gets it. */
    method Register(key: Key) returns (claimed: bool)
      modifies this
      ensures claimed <==> key !in old(slots)
      ensures slots == WithSlot(old(slots), key)
    {
      claimed := key !in slots;
      if claimed {
        slots := slots[key := None];
      }
    }

    method Set(key: Key, value: Value)
      modifies this
      ensures slots == WithValue(old(slots), key, value)
    {
      if key !in slots {
        slots := slots[key := None];
      }
      slots := slots[key := Some(value)];
    }

    method TryGet(key: Key) returns (value: Option<Value>)
      ensures value.Some? <==> IsFilled(slots, key)
      ensures value.Some? ==> slots[key] == value
    {
      value := if key in slots then slots[key] else None;
    }

    /** The slot a waiter blocks on: waiting creates it when it is missing. */
    method SlotToWaitOn(key: Key)
      modifies this
      ensures slots == WithSlot(old(slots), key)
    {
      if key !in slots {
        slots := slots[key := None];
      }
    }
  }
}
