/** The on-disk metadata cache: one file per key, an index of them that is saved now and then,
    and eviction of what was not accessed for longest. */
module MetadataCaches {
  import opened Options

  /** `package==version`, in normal form. */
  type Key = string
  type FileName = string

  /** Metadata names the package and version that it is about. */
  datatype Metadata = Metadata(key: Key, payload: string)

  /** A file; no content when it cannot be deserialized. */
  datatype Blob = Blob(content: Option<Metadata>, length: nat)

  type Disk = map<FileName, Blob>

  datatype CacheEntry = CacheEntry(file: FileName, size: nat, lastAccess: nat)

  type Index = map<Key, CacheEntry>

  const FLUSH_THRESHOLD: nat := 64

  // -- Sizes -----------------------------------------------------------------------------

  ghost function Total(index: Index): nat {
    if index == map[] then 0
    else
      var k :| k in index;
      index[k].size + Total(index - {k})
  }

  lemma {:induction false} TotalWithout(index: Index, key: Key)
    requires key in index
    ensures Total(index) == index[key].size + Total(index - {key})
    decreases |index|
  {
    var k :| k in index && Total(index) == index[k].size + Total(index - {k});
    if k != key {
      TotalWithout(index - {k}, key);
      TotalWithout(index - {key}, k);
      assert index - {k} - {key} == index - {key} - {k};
    }
  }

  // -- Eviction --------------------------------------------------------------------------

  /** Some entries are gone: none was accessed after one that stays, and without the last one
      that had to go the rest would still have been too large. */
  ghost predicate Evicted(before: Index, after: Index, max: nat) {
    && after.Keys <= before.Keys && (forall k :: k in after ==> after[k] == before[k])
    && Total(after) <= max
    && (forall k, e :: k in after && e in before && e !in after ==> before[e].lastAccess <= before[k].lastAccess)
    && (after.Keys != before.Keys ==>
          exists e :: e in before && e !in after && Total(after) + before[e].size > max &&
            forall e' :: e' in before && e' !in after ==> before[e'].lastAccess <= before[e].lastAccess)
  }

  /** Every smaller eviction of least recently accessed entries leaves too much behind. */
  lemma EvictionMinimal(before: Index, after: Index, max: nat, other: Index)
    requires Evicted(before, after, max) && after.Keys < other.Keys <= before.Keys
    requires forall k :: k in other ==> other[k] == before[k]
    requires forall k, e :: k in other && e in before && e !in other ==> before[e].lastAccess < before[k].lastAccess
    ensures Total(other) > max
  {
    var e :| e in before && e !in after && Total(after) + before[e].size > max &&
      forall e' :: e' in before && e' !in after ==> before[e'].lastAccess <= before[e].lastAccess;
    assert e in other by {
      var k :| k in other && k !in after;
      assert before[k].lastAccess <= before[e].lastAccess;
    }
    TotalWithout(other, e);
    TotalMonotone(after, other - {e});
  }

  lemma {:induction false} TotalMonotone(small: Index, large: Index)
    requires small.Keys <= large.Keys && forall k :: k in small ==> small[k] == large[k]
    ensures Total(small) <= Total(large)
    decreases |small|
  {
    if small == map[] {
    } else {
      var k :| k in small;
      TotalWithout(small, k);
      TotalWithout(large, k);
      TotalMonotone(small - {k}, large - {k});
    }
  }

  // -- Loading ---------------------------------------------------------------------------

  predicate Tracked(index: Index, file: FileName) {
    exists k :: k in index && index[k].file == file
  }

  /** Readable, and named after the key of its content. */
  predicate Addressed(disk: Disk, fileOf: Key -> FileName, file: FileName) {
    file in disk && disk[file].content.Some? && fileOf(disk[file].content.value.key) == file
  }

  /** A file that stays when the index is loaded, because the index knows it or because it
      can be adopted. */
  predicate Usable(disk: Disk, index: Index, fileOf: Key -> FileName, file: FileName) {
    file in disk && (Tracked(index, file) || Addressed(disk, fileOf, file))
  }

  /** The keys whose files are adopted. */
  ghost predicate Adopted(disk: Disk, index: Index, fileOf: Key -> FileName, key: Key) {
    var f := fileOf(key);
    f in disk && !Tracked(index, f) && disk[f].content.Some? && disk[f].content.value.key == key
  }

  /** What is left of the disk and the index when files are looked at. */
  ghost predicate Reconciled(disk: Disk, index: Index, fileOf: Key -> FileName, now: nat, seen: set<FileName>,
                             disk': Disk, index': Index) {
    && (forall f :: f in disk' <==> f in disk && (f in seen ==> Usable(disk, index, fileOf, f)))
    && (forall f :: f in disk' ==> disk'[f] == disk[f])
    && (forall k :: k in index' <==> k in index || (fileOf(k) in seen && Adopted(disk, index, fileOf, k)))
    && (forall k :: k in index' ==>
          index'[k] == if k in index then index[k] else CacheEntry(fileOf(k), disk[fileOf(k)].length, now))
  }

  /** Whatever the saved index missed, loading it makes every readable file that is named after
      its key available again: a lookup of that key finds it. */
  lemma ReloadAdopts(disk: Disk, index: Index, fileOf: Key -> FileName, now: nat, disk': Disk, index': Index,
                     keys: set<Key>, f: FileName)
    requires Reconciled(disk, index, fileOf, now, disk.Keys, disk', index') && IndexOk(index, fileOf, keys)
    requires InjectiveOn(keys, fileOf) && Addressed(disk, fileOf, f) && disk[f].content.value.key in keys
    ensures f in disk' && disk'[f] == disk[f]
    ensures disk[f].content.value.key in index' && index'[disk[f].content.value.key].file == f
  {
    var key := disk[f].content.value.key;
    if Tracked(index, f) {
      var k :| k in index && index[k].file == f;
      assert k in keys && fileOf(k) == fileOf(key);
    } else {
      assert Adopted(disk, index, fileOf, key);
    }
  }

  /** The index does not know every file. */
  ghost predicate HasOrphan(disk: Disk, index: Index) {
    exists f :: f in disk && !Tracked(index, f)
  }

  /** Once all files were looked at the index knows every file that is left. */
  lemma NoOrphanStays(disk: Disk, index: Index, fileOf: Key -> FileName, now: nat, disk': Disk, index': Index)
    requires Reconciled(disk, index, fileOf, now, disk.Keys, disk', index') && FilesOk(index, fileOf)
    ensures !HasOrphan(disk', index')
  {
    forall f | f in disk' ensures Tracked(index', f) {
      if Tracked(index, f) {
        var k :| k in index && index[k].file == f;
        assert k in index' && index'[k].file == f;
      } else {
        var k := disk[f].content.value.key;
        assert Adopted(disk, index, fileOf, k);
        assert k in index' && index'[k].file == f;
      }
    }
  }

  // -- The cache against a plain map -----------------------------------------------------

  /** Every readable file holds what was last inserted for a key with that file name. */
  ghost predicate Faithful(disk: Disk, fileOf: Key -> FileName, last: map<Key, Metadata>) {
    forall f :: f in disk && disk[f].content.Some? ==>
      exists k :: k in last && fileOf(k) == f && disk[f].content == Some(last[k])
  }

  predicate FilesOk(index: Index, fileOf: Key -> FileName) {
    forall k :: k in index ==> index[k].file == fileOf(k)
  }

  /** The index has the right file names, and only keys in use. */
  predicate IndexOk(index: Index, fileOf: Key -> FileName, keys: set<Key>) {
    FilesOk(index, fileOf) && index.Keys <= keys
  }

  predicate KeysOk(last: map<Key, Metadata>, keys: set<Key>) {
    last.Keys <= keys && forall k :: k in last ==> last[k].key in keys
  }

  ghost predicate InjectiveOn(keys: set<Key>, fileOf: Key -> FileName) {
    forall k, k' :: k in keys && k' in keys && fileOf(k) == fileOf(k') ==> k == k'
  }

  lemma FaithfulAnswer(disk: Disk, fileOf: Key -> FileName, last: map<Key, Metadata>, key: Key, keys: set<Key>)
    requires Faithful(disk, fileOf, last) && InjectiveOn(keys, fileOf) && last.Keys <= keys && key in keys
    requires fileOf(key) in disk && disk[fileOf(key)].content.Some?
    ensures key in last && disk[fileOf(key)].content == Some(last[key])
  {
  }

  /** Losing files, or their content, is harmless. */
  lemma LossesHarmless(disk: Disk, disk': Disk, fileOf: Key -> FileName, last: map<Key, Metadata>)
    requires Faithful(disk, fileOf, last) && disk'.Keys <= disk.Keys
    requires forall f :: f in disk' && disk'[f].content.Some? ==> disk'[f] == disk[f]
    ensures Faithful(disk', fileOf, last)
  {
  }

  lemma InsertFaithful(disk: Disk, fileOf: Key -> FileName, last: map<Key, Metadata>, key: Key, blob: Blob,
                       keys: set<Key>)
    requires Faithful(disk, fileOf, last) && InjectiveOn(keys, fileOf) && last.Keys <= keys && key in keys
    ensures blob.content.Some? ==> Faithful(disk[fileOf(key) := blob], fileOf, last[key := blob.content.value])
    ensures blob.content.None? ==> Faithful(disk[fileOf(key) := blob], fileOf, last)
  {
    if blob.content.Some? {
      var last', disk' := last[key := blob.content.value], disk[fileOf(key) := blob];
      forall f | f in disk' && disk'[f].content.Some?
        ensures exists k :: k in last' && fileOf(k) == f && disk'[f].content == Some(last'[k])
      {
        if f == fileOf(key) {
          assert key in last';
        } else {
          var k :| k in last && fileOf(k) == f && disk[f].content == Some(last[k]);
          assert k in last' && last'[k] == last[k];
        }
      }
    }
  }

  // -- Steps of the loops ----------------------------------------------------------------

  /** The entries that are gone so far were accessed before all others; without the last of
      them the rest was too large. */
  ghost predicate Evicting(before: Index, now: Index, max: nat) {
    && now.Keys <= before.Keys && (forall k :: k in now ==> now[k] == before[k])
    && (forall k, e :: k in now && e in before && e !in now ==> before[e].lastAccess <= before[k].lastAccess)
    && (now.Keys != before.Keys ==>
          exists e :: e in before && e !in now && Total(now) + before[e].size > max &&
            forall e' :: e' in before && e' !in now ==> before[e'].lastAccess <= before[e].lastAccess)
  }

  lemma EvictingStep(before: Index, now: Index, max: nat, key: Key)
    requires Evicting(before, now, max) && Total(now) > max
    requires key in now && forall k :: k in now ==> now[key].lastAccess <= now[k].lastAccess
    ensures Evicting(before, now - {key}, max) && Total(now - {key}) == Total(now) - now[key].size
  {
    TotalWithout(now, key);
    var after := now - {key};
    assert key in before && key !in after && Total(after) + before[key].size > max;
    forall e | e in before && e !in after ensures before[e].lastAccess <= before[key].lastAccess {
    }
  }

  lemma OldestExists(index: Index)
    requires index != map[]
    ensures exists k :: IsOldest(index, k)
    decreases |index|
  {
    var k :| k in index;
    if index - {k} == map[] {
      assert index.Keys == {k} by {
        assert (index - {k}).Keys == {};
      }
      assert IsOldest(index, k);
    } else {
      OldestExists(index - {k});
      var m :| IsOldest(index - {k}, m);
      assert forall k' :: k' in index ==> k' == k || k' in index - {k};
      assert IsOldest(index, if index[k].lastAccess < index[m].lastAccess then k else m);
    }
  }

  predicate IsOldest(index: Index, k: Key) {
    k in index && forall k' :: k' in index ==> index[k].lastAccess <= index[k'].lastAccess
  }

  lemma EvictingNothing(before: Index, max: nat)
    ensures Evicting(before, before, max)
  {
  }

  lemma EvictingDone(before: Index, now: Index, max: nat)
    requires Evicting(before, now, max) && Total(now) <= max
    ensures Evicted(before, now, max)
  {
  }

  lemma EmptyTotal(index: Index)
    ensures Total(index) > 0 ==> index != map[]
  {
  }

  /** The files of the entries that are gone. */
  function DroppedFiles(before: Index, after: Index, fileOf: Key -> FileName): set<FileName> {
    set k | k in before && k !in after :: fileOf(k)
  }

  lemma NothingDropped(index: Index, fileOf: Key -> FileName, disk: Disk)
    ensures disk - DroppedFiles(index, index, fileOf) == disk
  {
  }

  lemma OneMoreDropped(before: Index, now: Index, fileOf: Key -> FileName, key: Key)
    requires now.Keys <= before.Keys && key in now
    ensures DroppedFiles(before, now - {key}, fileOf) == DroppedFiles(before, now, fileOf) + {fileOf(key)}
  {
    forall f
      ensures f in DroppedFiles(before, now - {key}, fileOf) <==> f in DroppedFiles(before, now, fileOf) + {fileOf(key)}
    {
      if f == fileOf(key) {
        assert key in before && key !in now - {key};
      }
    }
  }

  lemma KeptNotDropped(before: Index, after: Index, fileOf: Key -> FileName, keys: set<Key>, key: Key)
    requires IndexOk(before, fileOf, keys) && InjectiveOn(keys, fileOf) && key in keys && key in after
    ensures fileOf(key) !in DroppedFiles(before, after, fileOf)
  {
  }

  lemma EntryRemoved(disk: Disk, index: Index, fileOf: Key -> FileName, keys: set<Key>, last: map<Key, Metadata>,
                     key: Key)
    requires Faithful(disk, fileOf, last) && IndexOk(index, fileOf, keys) && InjectiveOn(keys, fileOf) && key in index
    ensures Faithful(disk - {fileOf(key)}, fileOf, last) && IndexOk(index - {key}, fileOf, keys)
            && FilesOk(index, fileOf)
  {
  }

  /** What holds while entries are removed one by one. */
  ghost predicate EvictingFiles(index0: Index, disk0: Disk, index: Index, disk: Disk, max: nat, fileOf: Key -> FileName,
                                keys: set<Key>, last: map<Key, Metadata>) {
    && Faithful(disk, fileOf, last) && IndexOk(index, fileOf, keys)
    && Evicting(index0, index, max) && index.Keys <= index0.Keys
    && disk == disk0 - DroppedFiles(index0, index, fileOf)
  }

  lemma EvictingStarts(index: Index, disk: Disk, max: nat, fileOf: Key -> FileName, keys: set<Key>,
                       last: map<Key, Metadata>)
    requires Faithful(disk, fileOf, last) && IndexOk(index, fileOf, keys)
    ensures EvictingFiles(index, disk, index, disk, max, fileOf, keys, last)
  {
    hide Faithful, IndexOk, Evicting, DroppedFiles;
    EvictingNothing(index, max);
    NothingDropped(index, fileOf, disk);
  }

  lemma EvictOne(index0: Index, disk0: Disk, index: Index, disk: Disk, max: nat, fileOf: Key -> FileName,
                 keys: set<Key>, last: map<Key, Metadata>, oldest: Key)
    requires EvictingFiles(index0, disk0, index, disk, max, fileOf, keys, last) && InjectiveOn(keys, fileOf)
    requires IsOldest(index, oldest) && Total(index) > max
    ensures EvictingFiles(index0, disk0, index - {oldest}, disk - {fileOf(oldest)}, max, fileOf, keys, last)
    ensures FilesOk(index, fileOf) && Total(index) == index[oldest].size + Total(index - {oldest})
  {
    hide Faithful, IndexOk, FilesOk, InjectiveOn, Evicting, Total, DroppedFiles;
    EvictingStep(index0, index, max, oldest);
    EntryRemoved(disk, index, fileOf, keys, last, oldest);
    OneMoreDropped(index0, index, fileOf, oldest);
    TotalWithout(index, oldest);
  }

  lemma EvictingEnds(index0: Index, disk0: Disk, index: Index, disk: Disk, max: nat, fileOf: Key -> FileName,
                     keys: set<Key>, last: map<Key, Metadata>)
    requires EvictingFiles(index0, disk0, index, disk, max, fileOf, keys, last) && Total(index) <= max
    ensures Faithful(disk, fileOf, last) && IndexOk(index, fileOf, keys) && Evicted(index0, index, max)
    ensures disk == disk0 - DroppedFiles(index0, index, fileOf)
  {
    hide Faithful, IndexOk, Evicting, Evicted, Total, DroppedFiles;
    EvictingDone(index0, index, max);
  }

  lemma FileSeen(disk: Disk, index: Index, fileOf: Key -> FileName, now: nat, seen: set<FileName>, disk': Disk,
                 index': Index, f: FileName)
    requires Reconciled(disk, index, fileOf, now, seen, disk', index') && f in disk && f !in seen
             && FilesOk(index, fileOf)
    ensures f in disk' && disk'[f] == disk[f]
    ensures Tracked(index, f) ==> Reconciled(disk, index, fileOf, now, seen + {f}, disk', index')
    ensures !Tracked(index, f) && !Addressed(disk, fileOf, f) ==>
            Reconciled(disk, index, fileOf, now, seen + {f}, disk' - {f}, index')
    ensures !Tracked(index, f) && Addressed(disk, fileOf, f) ==>
              var key := disk[f].content.value.key;
              key !in index' &&
              Reconciled(disk, index, fileOf, now, seen + {f}, disk', index'[key := CacheEntry(f, disk[f].length, now)])
  {
    if !Tracked(index, f) {
      AdoptedIsAddressed(disk, index, fileOf, f);
    }
    hide Tracked, Addressed, Adopted;
    assert forall k :: k in index && fileOf(k) == f ==> index[k].file == f;
    if Tracked(index, f) {
      TrackedNotAdopted(disk, index, fileOf, f);
    }
  }

  lemma TrackedNotAdopted(disk: Disk, index: Index, fileOf: Key -> FileName, f: FileName)
    requires Tracked(index, f)
    ensures forall k :: fileOf(k) == f ==> !Adopted(disk, index, fileOf, k)
  {
  }

  lemma AdoptedIsAddressed(disk: Disk, index: Index, fileOf: Key -> FileName, f: FileName)
    requires f in disk && !Tracked(index, f)
    ensures forall k :: fileOf(k) == f ==> (Adopted(disk, index, fileOf, k) <==>
            Addressed(disk, fileOf, f) && disk[f].content.value.key == k)
    ensures forall k :: k in index ==> index[k].file != f
  {
  }

  lemma IndexFiles(index: Index, fileOf: Key -> FileName, keys: set<Key>)
    requires IndexOk(index, fileOf, keys)
    ensures FilesOk(index, fileOf)
  {
  }

  lemma Touched(index: Index, fileOf: Key -> FileName, keys: set<Key>, key: Key, now: nat)
    requires IndexOk(index, fileOf, keys) && key in index
    ensures IndexOk(index[key := index[key].(lastAccess := now)], fileOf, keys)
  {
  }

  lemma TrackedFiles(index: Index, tracked: set<FileName>)
    requires tracked == set k | k in index :: index[k].file
    ensures forall f :: f in tracked <==> Tracked(index, f)
  {
  }

  lemma NothingSeen(disk: Disk, index: Index, fileOf: Key -> FileName, now: nat)
    ensures Reconciled(disk, index, fileOf, now, {}, disk, index)
  {
  }

  lemma AddressedMeaning(disk: Disk, fileOf: Key -> FileName, f: FileName)
    requires f in disk
    ensures Addressed(disk, fileOf, f) <==> disk[f].content.Some? && fileOf(disk[f].content.value.key) == f
  {
  }

  lemma ReconciledOk(disk: Disk, index: Index, fileOf: Key -> FileName, now: nat, seen: set<FileName>, disk': Disk,
                     index': Index,
                     last: map<Key, Metadata>, keys: set<Key>)
    requires Reconciled(disk, index, fileOf, now, seen, disk', index')
    requires Faithful(disk, fileOf, last) && IndexOk(index, fileOf, keys) && KeysOk(last, keys)
    ensures Faithful(disk', fileOf, last) && IndexOk(index', fileOf, keys)
  {
    LossesHarmless(disk, disk', fileOf, last);
    forall k | k in index' ensures k in keys {
      if k !in index {
        assert Adopted(disk, index, fileOf, k);
      }
    }
  }

  // -- The cache -------------------------------------------------------------------------

  /** What one more change makes of the saved index, the mark for changes and their number. */
  ghost predicate Noted(writable: bool, index: Index, saved0: Option<Index>, ops0: nat, saved: Option<Index>,
                        dirty: bool, ops: nat) {
    if ops0 + 1 >= FLUSH_THRESHOLD && writable then saved == Some(index) && !dirty && ops == 0
    else saved == saved0 && dirty && ops == ops0 + 1
  }

  class MetadataCache {
    const maxSize: nat
    const fileOf: Key -> FileName
    var disk: Disk
    // the index file, when there is one
    var saved: Option<Index>
    var index: Index
    var dirty: bool
    var opsSinceFlush: nat
    // the keys in use, and what a plain map would hold
    ghost const keys: set<Key>
    ghost var last: map<Key, Metadata>

    ghost predicate Inv()
      reads this
    {
      && InjectiveOn(keys, fileOf) && KeysOk(last, keys)
      && Faithful(disk, fileOf, last)
      && IndexOk(index, fileOf, keys) && (saved.Some? ==> IndexOk(saved.value, fileOf, keys))
    }

    /** Open the cache on what earlier sessions left: any saved index, however old. */
    constructor (maxSize: nat, fileOf: Key -> FileName, disk: Disk, saved: Option<Index>, now: nat,
        ghost keys: set<Key>,
                 ghost last: map<Key, Metadata>)
      requires InjectiveOn(keys, fileOf) && KeysOk(last, keys)
      requires Faithful(disk, fileOf, last) && (saved.Some? ==> IndexOk(saved.value, fileOf, keys))
      ensures Inv() && this.maxSize == maxSize && this.fileOf == fileOf && this.keys == keys && this.last == last
              && this.saved == saved
      ensures !dirty && opsSinceFlush == 0
      ensures Reconciled(disk, if saved.Some? then saved.value else map[], fileOf, now, disk.Keys, this.disk, index)
      ensures !HasOrphan(this.disk, index)
    {
      this.maxSize, this.fileOf, this.disk, this.saved, this.keys, this.last := maxSize, fileOf, disk, saved, keys,
          last;
      index := if saved.Some? then saved.value else map[];
      dirty, opsSinceFlush := false, 0;
      new;
      ReconcileOrphans(now);
    }

    /** Adopt or remove the files that the index does not know. */
    method ReconcileOrphans(now: nat)
      requires Inv()
      modifies this`disk, this`index
      ensures Inv() && Reconciled(old(disk), old(index), fileOf, now, old(disk).Keys, disk, index)
      ensures !HasOrphan(disk, index)
    {
      hide Reconciled, Faithful, IndexOk, FilesOk, KeysOk, InjectiveOn, Tracked, Addressed, HasOrphan;
      IndexFiles(index, fileOf, keys);
      var tracked := set k | k in index :: index[k].file;
      TrackedFiles(index, tracked);
      var todo := disk.Keys;
      ghost var seen: set<FileName> := {};
      NothingSeen(disk, index, fileOf, now);
      while todo != {}
        invariant todo !! seen && todo + seen == old(disk).Keys
        invariant Reconciled(old(disk), old(index), fileOf, now, seen, disk, index)
        decreases |todo|
      {
        var f :| f in todo;
        FileSeen(old(disk), old(index), fileOf, now, seen, disk, index, f);
        if f !in tracked {
          AddressedMeaning(old(disk), fileOf, f);
          if disk[f].content.None? {
            disk := disk - {f};
          } else {
            var key := disk[f].content.value.key;
            if fileOf(key) != f {
              disk := disk - {f};
            } else if key !in index {
              index := index[key := CacheEntry(f, disk[f].length, now)];
            }
          }
        }
        todo, seen := todo - {f}, seen + {f};
      }
      assert seen == old(disk).Keys;
      ReconciledOk(old(disk), old(index), fileOf, now, seen, disk, index, last, keys);
      NoOrphanStays(old(disk), old(index), fileOf, now, disk, index);
    }

    /** Drop an entry together with its file. */
    method RemoveEntry(key: Key)
      requires FilesOk(index, fileOf)
      modifies this`index, this`disk
      ensures key in old(index) ==> index == old(index) - {key} && disk == old(disk) - {fileOf(key)}
      ensures key !in old(index) ==> index == old(index) && disk == old(disk)
    {
      if key in index {
        disk := disk - {index[key].file};
        index := index - {key};
      }
    }

    method Flush(writable: bool)
      modifies this`saved, this`dirty, this`opsSinceFlush
      ensures old(dirty) && writable ==> saved == Some(index) && !dirty && opsSinceFlush == 0
      ensures !(old(dirty) && writable) ==>
                saved == old(saved) && dirty == old(dirty) && opsSinceFlush == old(opsSinceFlush)
    {
      if dirty && writable {
        saved, dirty, opsSinceFlush := Some(index), false, 0;
      }
    }

    /** The index is saved once enough changes have accumulated. */
    method MarkDirty(writable: bool)
      modifies this`saved, this`dirty, this`opsSinceFlush
      ensures Noted(writable, index, old(saved), old(opsSinceFlush), saved, dirty, opsSinceFlush)
      ensures writable ==> opsSinceFlush < FLUSH_THRESHOLD
    {
      dirty := true;
      opsSinceFlush := opsSinceFlush + 1;
      if opsSinceFlush >= FLUSH_THRESHOLD {
        Flush(writable);
      }
    }

    /** A hit needs an index entry and a readable file; an entry without one is dropped. */
    method Get(key: Key, now: nat, writable: bool) returns (found: Option<Metadata>)
      requires Inv() && key in keys
      modifies this`disk, this`saved, this`index, this`dirty, this`opsSinceFlush
      ensures Inv() && last == old(last)
      ensures found == if key in old(index) && fileOf(key) in old(disk) then old(disk)[fileOf(key)].content else None
      ensures found.Some? ==> key in last && found.value == last[key]
      ensures found.Some? ==> disk == old(disk) && index == old(index)[key := old(index)[key].(lastAccess := now)]
      ensures found.None? ==> index == old(index) - {key}
      ensures found.None? ==> disk == if key in old(index) then old(disk) - {fileOf(key)} else old(disk)
      ensures found.Some? ==> dirty && saved == old(saved) && opsSinceFlush == old(opsSinceFlush)
      ensures found.None? && key in old(index) ==>
                Noted(writable, index, old(saved), old(opsSinceFlush), saved, dirty, opsSinceFlush)
      ensures key !in old(index) ==> dirty == old(dirty) && saved == old(saved) && opsSinceFlush == old(opsSinceFlush)
    {
      hide Faithful, IndexOk, InjectiveOn;
      found := None;
      if key in index {
        Touched(index, fileOf, keys, key, now);
        index := index[key := index[key].(lastAccess := now)];
        dirty := true;
        var path := fileOf(key);
        if path in disk && disk[path].content.Some? {
          found := disk[path].content;
          FaithfulAnswer(disk, fileOf, last, key, keys);
          return;
        }
        IndexFiles(index, fileOf, keys);
        EntryRemoved(disk, index, fileOf, keys, last, key);
        RemoveEntry(key);
        MarkDirty(writable);
      }
    }

    /** Store metadata, then evict down to the size limit. A write that fails may leave an
        unreadable file behind. */
    method Insert(key: Key, metadata: Metadata, size: nat, now: nat, written: bool, damaged: bool, writable: bool)
      requires Inv() && key in keys && metadata.key in keys
      modifies this
      ensures Inv()
      ensures written ==> last == old(last)[key := metadata] && Total(index) <= maxSize
      ensures written ==> Evicted(old(index)[key := CacheEntry(fileOf(key), size, now)], index, maxSize)
      ensures written ==> var index0 := old(index)[key := CacheEntry(fileOf(key), size, now)];
                          disk == old(disk)[fileOf(key) := Blob(Some(metadata), size)]
                                  - DroppedFiles(index0, index, fileOf)
      ensures written && key in index ==> fileOf(key) in disk && disk[fileOf(key)].content == Some(metadata)
      ensures written ==> Noted(writable, index, old(saved), old(opsSinceFlush), saved, dirty, opsSinceFlush)
      ensures !written ==> last == old(last) && index == old(index)
                           && disk == (if damaged then old(disk)[fileOf(key) := Blob(None, 0)] else old(disk))
                           && dirty == old(dirty) && saved == old(saved) && opsSinceFlush == old(opsSinceFlush)
    {
      var path := fileOf(key);
      if !written {
        if damaged {
          InsertFaithful(disk, fileOf, last, key, Blob(None, 0), keys);
          disk := disk[path := Blob(None, 0)];
        }
        return;
      }
      InsertFaithful(disk, fileOf, last, key, Blob(Some(metadata), size), keys);
      disk := disk[path := Blob(Some(metadata), size)];
      last := last[key := metadata];
      index := index[key := CacheEntry(path, size, now)];
      ghost var index0 := index;
      EvictIfNeeded();
      if key in index {
        KeptNotDropped(index0, index, fileOf, keys, key);
      }
      MarkDirty(writable);
    }

    method TotalSize() returns (total: nat)
      ensures total == Total(index)
    {
      total := 0;
      var rest := index;
      while rest != map[]
        invariant Total(index) == total + Total(rest)
        decreases |rest|
      {
        var k :| k in rest;
        TotalWithout(rest, k);
        total := total + rest[k].size;
        rest := rest - {k};
      }
    }

    /** Remove entries, those accessed least recently first, until the rest fits, and exactly
        their files. */
    method EvictIfNeeded()
      requires Inv()
      modifies this`index, this`disk
      ensures Inv() && Evicted(old(index), index, maxSize)
      ensures disk == old(disk) - DroppedFiles(old(index), index, fileOf)
    {
      hide Faithful, IndexOk, FilesOk, KeysOk, InjectiveOn, Evicted, Total, DroppedFiles, EvictingFiles;
      EvictingStarts(index, disk, maxSize, fileOf, keys, last);
      var currentSize := TotalSize();
      while currentSize > maxSize
        invariant EvictingFiles(old(index), old(disk), index, disk, maxSize, fileOf, keys, last)
        invariant currentSize == Total(index)
        decreases |index|
      {
        EmptyTotal(index);
        OldestExists(index);
        var oldest :| IsOldest(index, oldest);
        EvictOne(old(index), old(disk), index, disk, maxSize, fileOf, keys, last, oldest);
        var size := index[oldest].size;
        RemoveEntry(oldest);
        currentSize := currentSize - size;
      }
      EvictingEnds(old(index), old(disk), index, disk, maxSize, fileOf, keys, last);
    }
  }
}
