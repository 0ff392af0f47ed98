/** Claiming, filling and waiting as interleaved steps of callers and background tasks. A version
    is known by its text here: versions that compare equal are taken to have one text. */
module FetchProtocols {
  import opened InMemoryIndexes
  import opened Options

  /** What a thread or task does next. The first five belong to callers, the others to the
      tasks that they spawn. */
  datatype Task =
    | TryFirst(key: Key, thenWait: bool)
    | Claim(key: Key, thenWait: bool)
    | Spawn(key: Key, thenWait: bool)
    | Enter(key: Key)
    | Wait(key: Key)
    | FetchVersions(package: PackageName)
    | FetchMetadata(package: PackageName, version: VersionText)
    // chaining the metadata of the likely candidates after fresh versions
    | Chain(package: PackageName, candidates: seq<VersionText>)
    | ChainClaimed(package: PackageName, version: VersionText, candidates: seq<VersionText>)
    // prefetching on request of the resolver
    | Prefetch(package: PackageName, versions: seq<VersionText>)
    | PrefetchClaimed(package: PackageName, version: VersionText, versions: seq<VersionText>)
  {
    /** The key that this task alone must fill, or hand on. */
    function Owned(): Option<Key> {
      match this
      case Spawn(k, _) => Some(k)
      case FetchVersions(p) => Some(VersionsOf(p))
      case FetchMetadata(p, v) => Some(MetadataOf(p, v))
      case ChainClaimed(p, v, _) => Some(MetadataOf(p, v))
      case PrefetchClaimed(p, v, _) => Some(MetadataOf(p, v))
      case _ => None
    }

    /** How many steps of owners are left before the owned key is filled, at most. */
    function Distance(): nat {
      match this
      case Spawn(_, _) => 2
      case ChainClaimed(_, _, _) => 2
      case PrefetchClaimed(_, _, _) => 2
      case _ => 1
    }
  }

  type TaskId = nat

  /** `claims` and `fills` count what happened; `ensured` holds the keys on which a call to
      ensure the fetch has come to its end. */
  datatype State = State(
    slots: Slots,
    tasks: map<TaskId, Task>,
    next: TaskId,
    claims: multiset<Key>,
    fills: multiset<Key>,
    ensured: set<Key>)
  {
    function Claimed(key: Key): State {
      this.(slots := WithSlot(slots, key), claims := claims + multiset{key})
    }

    function Filled(key: Key, value: Value): State {
      this.(slots := WithValue(slots, key, value), fills := fills + multiset{key})
    }

    function Started(t: Task): State {
      this.(tasks := tasks[next := t], next := next + 1)
    }

    function Continued(id: TaskId, t: Task): State {
      this.(tasks := tasks[id := t])
    }

    function Ended(id: TaskId): State {
      this.(tasks := tasks - {id})
    }

    /** The call to ensure a fetch returns. */
    function Ensured(id: TaskId, key: Key, thenWait: bool): State {
      var s := this.(ensured := ensured + {key});
      if thenWait then s.Continued(id, Enter(key)) else s.Ended(id)
    }
  }

  const INITIAL: State := State(map[], map[], 0, multiset{}, multiset{}, {})

  /** What the outside world contributes to a step: what a cache or a server answers. */
  datatype Outcome =
    | Direct(value: Value)
    | Fresh(value: Value, candidates: seq<VersionText>)
    | NotCached

  datatype Action =
    | Ensure(key: Key, thenWait: bool)
    | StartPrefetch(package: PackageName, versions: seq<VersionText>)
    | Run(id: TaskId, outcome: Outcome)

  function FetchTask(key: Key): Task {
    match key
    case VersionsOf(p) => FetchVersions(p)
    case MetadataOf(p, v) => FetchMetadata(p, v)
  }

  predicate Enabled(s: State, a: Action) {
    match a
    case Ensure(_, _) => true
    case StartPrefetch(_, _) => true
    case Run(id, o) =>
      id in s.tasks &&
      match s.tasks[id]
      case Wait(k) => IsFilled(s.slots, k)
      case FetchVersions(_) => !o.NotCached?
      case FetchMetadata(_, _) => o.Direct?
      case ChainClaimed(_, _, _) => !o.Fresh?
      case PrefetchClaimed(_, _, _) => !o.Fresh?
      case _ => true
  }

  function Next(s: State, a: Action): State
    requires Enabled(s, a)
  {
    match a
    case Ensure(k, thenWait) => s.Started(TryFirst(k, thenWait))
    case StartPrefetch(p, vs) => s.Started(Prefetch(p, vs))
    case Run(id, o) => RunTask(s, id, o)
  }

  function RunTask(s: State, id: TaskId, o: Outcome): State
    requires Enabled(s, Run(id, o))
  {
    match s.tasks[id]
    case TryFirst(k, w) => if IsFilled(s.slots, k) then s.Ensured(id, k, w) else s.Continued(id, Claim(k, w))
    case Claim(k, w) => if k in s.slots then s.Ensured(id, k, w) else s.Claimed(k).Continued(id, Spawn(k, w))
    case Spawn(k, w) => s.Ensured(id, k, w).Started(FetchTask(k))
    case Enter(k) => s.(slots := WithSlot(s.slots, k)).Continued(id, Wait(k))
    case Wait(k) => s.Ended(id)
    case FetchVersions(p) =>
      if o.Fresh? then s.Filled(VersionsOf(p), o.value).Continued(id, Chain(p, o.candidates))
      else s.Filled(VersionsOf(p), o.value).Ended(id)
    case FetchMetadata(p, v) => s.Filled(MetadataOf(p, v), o.value).Ended(id)
    case Chain(p, vs) =>
      if vs == [] then s.Ended(id)
      else if MetadataOf(p, vs[0]) in s.slots then s.Continued(id, Chain(p, vs[1..]))
      else s.Claimed(MetadataOf(p, vs[0])).Continued(id, ChainClaimed(p, vs[0], vs[1..]))
    case ChainClaimed(p, v, vs) =>
      if o.Direct? then s.Filled(MetadataOf(p, v), o.value).Continued(id, Chain(p, vs))
      else s.Continued(id, Chain(p, vs)).Started(FetchMetadata(p, v))
    case Prefetch(p, vs) =>
      if vs == [] then s.Ended(id)
      else if MetadataOf(p, vs[0]) in s.slots then s.Continued(id, Prefetch(p, vs[1..]))
      else s.Claimed(MetadataOf(p, vs[0])).Continued(id, PrefetchClaimed(p, vs[0], vs[1..]))
    case PrefetchClaimed(p, v, vs) =>
      if o.Direct? then s.Filled(MetadataOf(p, v), o.value).Continued(id, Prefetch(p, vs))
      else s.Continued(id, Prefetch(p, vs)).Started(FetchMetadata(p, v))
  }

  // -- The invariant ---------------------------------------------------------------------

  predicate Owns(s: State, id: TaskId, key: Key) {
    id in s.tasks && s.tasks[id].Owned() == Some(key)
  }

  /** An empty slot has exactly one owner; a filled or missing one has none. */
  ghost predicate OwnersOk(s: State, key: Key) {
    && (forall i, j :: Owns(s, i, key) && Owns(s, j, key) ==> i == j)
    && ((exists i :: Owns(s, i, key)) <==> key in s.slots && s.slots[key].None?)
  }

  predicate CountsOk(s: State, key: Key) {
    && s.claims[key] == (if key in s.slots then 1 else 0)
    && s.fills[key] == (if IsFilled(s.slots, key) then 1 else 0)
  }

  /** Who is about to wait or waits has ensured the fetch. */
  ghost predicate WaitersOk(s: State) {
    && (forall key :: key in s.ensured ==> key in s.slots)
    && (forall id :: id in s.tasks && (s.tasks[id].Enter? || s.tasks[id].Wait?) ==> s.tasks[id].key in s.ensured)
  }

  ghost predicate Inv(s: State) {
    && (forall id :: id in s.tasks ==> id < s.next)
    && (forall key :: OwnersOk(s, key))
    && (forall key :: CountsOk(s, key))
    && WaitersOk(s)
  }

  // -- The four kinds of steps -----------------------------------------------------------

  ghost predicate SameOwners(s: State, s': State, key: Key) {
    forall i :: Owns(s', i, key) <==> Owns(s, i, key)
  }

  ghost predicate OnlyOwner(s: State, id: TaskId, key: Key) {
    forall i :: Owns(s, i, key) <==> i == id
  }

  /** No slot and no ownership changes. */
  ghost predicate Keeps(s: State, s': State) {
    && s'.slots == s.slots && s'.claims == s.claims && s'.fills == s.fills
    && forall key :: SameOwners(s, s', key)
  }

  /** A missing slot is created; the creator owns it. */
  ghost predicate Claims(s: State, s': State, id: TaskId, k: Key) {
    && k !in s.slots && s'.slots == s.slots[k := None]
    && s'.claims == s.claims + multiset{k} && s'.fills == s.fills
    && OnlyOwner(s', id, k)
    && forall key :: key != k ==> SameOwners(s, s', key)
  }

  /** The owner fills the slot and gives it up. */
  ghost predicate Fills(s: State, s': State, id: TaskId, k: Key, value: Value) {
    && Owns(s, id, k) && k in s.slots && s'.slots == s.slots[k := Some(value)]
    && s'.claims == s.claims && s'.fills == s.fills + multiset{k}
    && (forall i :: Owns(s', i, k) ==> i != id && Owns(s, i, k))
    && forall key :: key != k ==> SameOwners(s, s', key)
  }

  /** The owner passes the slot to a new task. */
  ghost predicate HandsOn(s: State, s': State, id: TaskId, id': TaskId, k: Key) {
    && Owns(s, id, k) && s'.slots == s.slots && s'.claims == s.claims && s'.fills == s.fills
    && Owns(s', id', k) && (forall i :: Owns(s', i, k) ==> i == id' || (i != id && Owns(s, i, k)))
    && forall key :: key != k ==> SameOwners(s, s', key)
  }

  ghost predicate Bookkeeping(s: State) {
    && (forall key :: OwnersOk(s, key))
    && (forall key :: CountsOk(s, key))
  }

  lemma KeepsOk(s: State, s': State)
    requires Bookkeeping(s) && Keeps(s, s')
    ensures Bookkeeping(s')
  {
    forall key ensures OwnersOk(s', key) && CountsOk(s', key) {
      assert OwnersOk(s, key) && CountsOk(s, key) && SameOwners(s, s', key);
    }
  }

  lemma ClaimsOk(s: State, s': State, id: TaskId, k: Key)
    requires Bookkeeping(s) && Claims(s, s', id, k)
    ensures Bookkeeping(s')
  {
    forall key ensures OwnersOk(s', key) && CountsOk(s', key) {
      assert OwnersOk(s, key) && CountsOk(s, key);
      if key != k {
        assert SameOwners(s, s', key);
      } else {
        assert Owns(s', id, k);
      }
    }
  }

  lemma FillsOk(s: State, s': State, id: TaskId, k: Key, value: Value)
    requires Bookkeeping(s) && Fills(s, s', id, k, value)
    ensures Bookkeeping(s')
  {
    forall key ensures OwnersOk(s', key) && CountsOk(s', key) {
      assert OwnersOk(s, key) && CountsOk(s, key);
      if key != k {
        assert SameOwners(s, s', key);
      }
    }
  }

  lemma HandsOnOk(s: State, s': State, id: TaskId, id': TaskId, k: Key)
    requires Bookkeeping(s) && HandsOn(s, s', id, id', k)
    ensures Bookkeeping(s')
  {
    forall key ensures OwnersOk(s', key) && CountsOk(s', key) {
      assert OwnersOk(s, key) && CountsOk(s, key);
      if key != k {
        assert SameOwners(s, s', key);
      }
    }
  }

  /** The kind of a step of a task. */
  datatype StepKind =
    | Keeping
    | Claiming(key: Key)
    | Filling(key: Key, value: Value)
    | Handing(key: Key)

  function KindOf(s: State, id: TaskId, o: Outcome): StepKind
    requires Enabled(s, Run(id, o))
  {
    match s.tasks[id]
    case Claim(k, _) => if k in s.slots then Keeping else Claiming(k)
    case Spawn(k, _) => Handing(k)
    case FetchVersions(p) => Filling(VersionsOf(p), o.value)
    case FetchMetadata(p, v) => Filling(MetadataOf(p, v), o.value)
    case Chain(p, vs) => if vs == [] || MetadataOf(p, vs[0]) in s.slots then Keeping else Claiming(MetadataOf(p, vs[0]))
    case Prefetch(p, vs) => if vs == [] || MetadataOf(p, vs[0]) in s.slots then Keeping
        else Claiming(MetadataOf(p, vs[0]))
    case ChainClaimed(p, v, _) => if o.Direct? then Filling(MetadataOf(p, v), o.value) else Handing(MetadataOf(p, v))
    case PrefetchClaimed(p, v, _) => if o.Direct? then Filling(MetadataOf(p, v), o.value) else Handing(MetadataOf(p, v))
    case _ => Keeping
  }

  ghost predicate IsStep(s: State, s': State, id: TaskId, kind: StepKind) {
    match kind
    case Keeping => Keeps(s, s')
    case Claiming(k) => Claims(s, s', id, k)
    case Filling(k, value) => Fills(s, s', id, k, value)
    case Handing(k) => HandsOn(s, s', id, s.next, k)
  }

  /** The task of one id changes, and perhaps a new one starts. */
  ghost predicate OnlyTask(s: State, s': State, id: TaskId) {
    && (forall i :: i != id && i != s.next ==> (i in s'.tasks <==> i in s.tasks))
    && (forall i :: i != id && i != s.next && i in s.tasks ==> s'.tasks[i] == s.tasks[i])
  }

  lemma OtherTasksKept(s: State, id: TaskId, o: Outcome)
    requires (forall i :: i in s.tasks ==> i < s.next) && Enabled(s, Run(id, o))
    ensures OnlyTask(s, RunTask(s, id, o), id)
    ensures s.next !in s.tasks
  {
  }

  lemma OwnedBefore(s: State, id: TaskId, o: Outcome)
    requires Enabled(s, Run(id, o))
    ensures var kind := KindOf(s, id, o);
            && (kind.Claiming? || kind.Keeping? ==> s.tasks[id].Owned().None?)
            && (kind.Filling? || kind.Handing? ==> s.tasks[id].Owned() == Some(kind.key))
  {
  }

  /** What the task itself owns afterwards. */
  ghost predicate OwnsAfterwards(s: State, s': State, id: TaskId, kind: StepKind) {
    && (id in s'.tasks && s'.tasks[id].Owned().Some? <==> kind.Claiming?)
    && (kind.Claiming? ==> s'.tasks[id].Owned() == Some(kind.key))
  }

  lemma OwnedAfter(s: State, id: TaskId, o: Outcome)
    requires s.next !in s.tasks && Enabled(s, Run(id, o))
    ensures OwnsAfterwards(s, RunTask(s, id, o), id, KindOf(s, id, o))
  {
    if s.tasks[id].Owned().Some? {
      OwnerGivesUp(s, id, o);
    } else {
      OtherMayClaim(s, id, o);
    }
  }

  lemma OwnerGivesUp(s: State, id: TaskId, o: Outcome)
    requires s.next !in s.tasks && Enabled(s, Run(id, o)) && s.tasks[id].Owned().Some?
    ensures OwnsAfterwards(s, RunTask(s, id, o), id, KindOf(s, id, o))
  {
  }

  lemma OtherMayClaim(s: State, id: TaskId, o: Outcome)
    requires s.next !in s.tasks && Enabled(s, Run(id, o)) && s.tasks[id].Owned().None?
    ensures OwnsAfterwards(s, RunTask(s, id, o), id, KindOf(s, id, o))
  {
  }

  /** What a new task owns. */
  lemma OwnedByNew(s: State, id: TaskId, o: Outcome)
    requires s.next !in s.tasks && Enabled(s, Run(id, o))
    ensures var s' := RunTask(s, id, o);
            var kind := KindOf(s, id, o);
            && (s.next in s'.tasks <==> kind.Handing?)
            && (kind.Handing? ==> s'.tasks[s.next].Owned() == Some(kind.key))
  {
  }

  /** What a step does to slots and counts, by its kind. */
  ghost predicate SlotsMatch(s: State, s': State, kind: StepKind) {
    match kind
    case Claiming(k) =>
      && k !in s.slots && s'.slots == s.slots[k := None]
      && s'.claims == s.claims + multiset{k} && s'.fills == s.fills
    case Filling(k, value) =>
      && k in s.slots && s'.slots == s.slots[k := Some(value)]
      && s'.claims == s.claims && s'.fills == s.fills + multiset{k}
    case _ => s'.slots == s.slots && s'.claims == s.claims && s'.fills == s.fills
  }

  lemma SlotsAfter(s: State, id: TaskId, o: Outcome)
    requires Inv(s) && Enabled(s, Run(id, o))
    ensures SlotsMatch(s, RunTask(s, id, o), KindOf(s, id, o))
  {
    if s.tasks[id].Owned().Some? {
      OwnedSlot(s, id);
      OwnerSlots(s, id, o);
    } else if s.tasks[id].Enter? {
      assert s.tasks[id].key in s.slots;
    } else {
      OtherSlots(s, id, o);
    }
  }

  lemma OwnedSlot(s: State, id: TaskId)
    requires Inv(s) && id in s.tasks && s.tasks[id].Owned().Some?
    ensures s.tasks[id].Owned().value in s.slots
  {
    assert Owns(s, id, s.tasks[id].Owned().value) && OwnersOk(s, s.tasks[id].Owned().value);
  }

  lemma OwnerSlots(s: State, id: TaskId, o: Outcome)
    requires Enabled(s, Run(id, o)) && s.tasks[id].Owned().Some? && s.tasks[id].Owned().value in s.slots
    ensures SlotsMatch(s, RunTask(s, id, o), KindOf(s, id, o))
  {
  }

  lemma OtherSlots(s: State, id: TaskId, o: Outcome)
    requires Enabled(s, Run(id, o)) && s.tasks[id].Owned().None? && !s.tasks[id].Enter?
    ensures SlotsMatch(s, RunTask(s, id, o), KindOf(s, id, o))
  {
  }

  lemma StepHasKind(s: State, id: TaskId, o: Outcome)
    requires Inv(s) && Enabled(s, Run(id, o))
    ensures IsStep(s, RunTask(s, id, o), id, KindOf(s, id, o))
  {
    NoUnusedOwner(s);
    OtherTasksKept(s, id, o);
    OwnedBefore(s, id, o);
    OwnedAfter(s, id, o);
    OwnedByNew(s, id, o);
    SlotsAfter(s, id, o);
    var s', kind := RunTask(s, id, o), KindOf(s, id, o);
    hide RunTask, KindOf, Inv, Enabled, Task.Owned;
    OwnersOfStep(s, s', id, kind);
  }

  lemma NoUnusedOwner(s: State)
    requires Inv(s)
    ensures s.next !in s.tasks
    ensures forall key :: OwnersOk(s, key)
  {
  }

  lemma OwnersOfStep(s: State, s': State, id: TaskId, kind: StepKind)
    requires OnlyTask(s, s', id) && id in s.tasks && s.next !in s.tasks && forall key :: OwnersOk(s, key)
    requires id in s'.tasks && s'.tasks[id].Owned().Some? <==> kind.Claiming?
    requires kind.Claiming? ==>
               s'.tasks[id].Owned() == Some(kind.key) && s.tasks[id].Owned().None? && kind.key !in s.slots
    requires kind.Keeping? ==> s.tasks[id].Owned().None?
    requires kind.Filling? || kind.Handing? ==> s.tasks[id].Owned() == Some(kind.key)
    requires s.next in s'.tasks <==> kind.Handing?
    requires kind.Handing? ==> s'.tasks[s.next].Owned() == Some(kind.key)
    ensures forall key :: kind.Keeping? || key != kind.key ==> SameOwners(s, s', key)
    ensures kind.Claiming? ==> OnlyOwner(s', id, kind.key)
    ensures kind.Filling? ==> Owns(s, id, kind.key) && forall i :: Owns(s', i, kind.key) ==>
            i != id && Owns(s, i, kind.key)
    ensures kind.Handing? ==> Owns(s, id, kind.key) && Owns(s', s.next, kind.key)
    ensures kind.Handing? ==> forall i :: Owns(s', i, kind.key) ==> i == s.next || (i != id && Owns(s, i, kind.key))
  {
    hide Task.Owned;
    if kind.Claiming? {
      assert OwnersOk(s, kind.key);
      assert forall i :: !Owns(s, i, kind.key);
      forall i ensures Owns(s', i, kind.key) <==> i == id || Owns(s, i, kind.key) {
      }
    }
    forall key | kind.Keeping? || key != kind.key ensures SameOwners(s, s', key) {
      forall i ensures Owns(s', i, key) <==> Owns(s, i, key) {
        if i == s.next {
          assert !Owns(s, i, key);
        }
      }
    }
  }

  // -- Every step keeps the invariant ----------------------------------------------------

  lemma WaitersKept(s: State, id: TaskId, o: Outcome)
    requires Inv(s) && Enabled(s, Run(id, o))
    ensures WaitersOk(RunTask(s, id, o))
  {
    hide RunTask, Enabled, OwnersOk, CountsOk, Task.Owned;
    SlotsGrow(s, id, o);
    EnsuredAfter(s, id, o);
    OtherTasksKept(s, id, o);
  }

  lemma SlotsGrow(s: State, id: TaskId, o: Outcome)
    requires Inv(s) && Enabled(s, Run(id, o))
    ensures forall key :: key in s.slots ==> key in RunTask(s, id, o).slots
  {
  }

  /** A call to ensure a fetch returns when there is a slot, and waiting follows it. */
  lemma EnsuredAfter(s: State, id: TaskId, o: Outcome)
    requires Inv(s) && Enabled(s, Run(id, o))
    ensures EnsuredGrows(s, RunTask(s, id, o), id)
  {
    if s.tasks[id].Owned().Some? {
      OwnedSlot(s, id);
      OwnerEnsures(s, id, o);
    } else {
      OtherEnsures(s, id, o);
    }
  }

  ghost predicate EnsuredGrows(s: State, s': State, id: TaskId) {
    && s.ensured <= s'.ensured
    && (forall key :: key in s'.ensured ==> key in s.ensured || key in s'.slots)
    && (id in s'.tasks && (s'.tasks[id].Enter? || s'.tasks[id].Wait?) ==> s'.tasks[id].key in s'.ensured)
    && (s.next in s'.tasks ==> !s'.tasks[s.next].Enter? && !s'.tasks[s.next].Wait?)
  }

  lemma OwnerEnsures(s: State, id: TaskId, o: Outcome)
    requires Enabled(s, Run(id, o)) && s.next !in s.tasks && s.tasks[id].Owned().Some?
    requires s.tasks[id].Owned().value in s.slots
    ensures EnsuredGrows(s, RunTask(s, id, o), id)
  {
  }

  lemma OtherEnsures(s: State, id: TaskId, o: Outcome)
    requires Inv(s) && Enabled(s, Run(id, o)) && s.tasks[id].Owned().None?
    ensures EnsuredGrows(s, RunTask(s, id, o), id)
  {
  }

  lemma StepOk(s: State, s': State, id: TaskId, kind: StepKind)
    requires Bookkeeping(s) && IsStep(s, s', id, kind)
    ensures Bookkeeping(s')
  {
    hide Bookkeeping, Keeps, Claims, Fills, HandsOn;
    match kind
    case Keeping => KeepsOk(s, s');
    case Claiming(k) => ClaimsOk(s, s', id, k);
    case Filling(k, value) => FillsOk(s, s', id, k, value);
    case Handing(k) => HandsOnOk(s, s', id, s.next, k);
  }

  lemma IdsBounded(s: State, id: TaskId, o: Outcome)
    requires (forall i :: i in s.tasks ==> i < s.next) && Enabled(s, Run(id, o))
    ensures forall i :: i in RunTask(s, id, o).tasks ==> i < RunTask(s, id, o).next
  {
  }

  lemma RunKeepsInv(s: State, id: TaskId, o: Outcome)
    requires Inv(s) && Enabled(s, Run(id, o))
    ensures Inv(RunTask(s, id, o))
  {
    hide RunTask, KindOf, Enabled, OwnersOk, CountsOk, WaitersOk, IsStep;
    StepHasKind(s, id, o);
    WaitersKept(s, id, o);
    IdsBounded(s, id, o);
    StepOk(s, RunTask(s, id, o), id, KindOf(s, id, o));
  }

  lemma NextKeepsInv(s: State, a: Action)
    requires Inv(s) && Enabled(s, a)
    ensures Inv(Next(s, a))
  {
    if a.Run? {
      RunKeepsInv(s, a.id, a.outcome);
    } else {
      KeepsOk(s, Next(s, a));
    }
  }

  lemma InitialInv()
    ensures Inv(INITIAL)
  {
    forall key ensures OwnersOk(INITIAL, key) && CountsOk(INITIAL, key) {
    }
  }

  // -- Whole runs ------------------------------------------------------------------------

  ghost predicate IsRun(states: seq<State>, actions: seq<Action>) {
    && |states| == |actions| + 1 && states[0] == INITIAL
    && forall i :: 0 <= i < |actions| ==> Enabled(states[i], actions[i]) && states[i + 1] == Next(states[i], actions[i])
  }

  lemma {:induction false} RunInv(states: seq<State>, actions: seq<Action>, i: nat)
    requires IsRun(states, actions) && i < |states|
    ensures Inv(states[i])
  {
    if i == 0 {
      InitialInv();
    } else {
      RunInv(states, actions, i - 1);
      NextKeepsInv(states[i - 1], actions[i - 1]);
    }
  }

  /** Under every interleaving a key is claimed at most once and filled at most once, and not
      filled without a claim. */
  lemma ClaimedAndFilledOnce(states: seq<State>, actions: seq<Action>, i: nat, key: Key)
    requires IsRun(states, actions) && i < |states|
    ensures states[i].fills[key] <= states[i].claims[key] <= 1
    ensures states[i].fills[key] == 1 <==> IsFilled(states[i].slots, key)
  {
    RunInv(states, actions, i);
    assert CountsOk(states[i], key);
  }

  /** A key whose fetch was ensured is filled, or exactly one task is left to fill it. */
  lemma EnsuredIsServed(states: seq<State>, actions: seq<Action>, i: nat, key: Key)
    requires IsRun(states, actions) && i < |states| && key in states[i].ensured
    ensures IsFilled(states[i].slots, key) <==> !exists id :: Owns(states[i], id, key)
    ensures forall id, id' :: Owns(states[i], id, key) && Owns(states[i], id', key) ==> id == id'
  {
    RunInv(states, actions, i);
    assert OwnersOk(states[i], key);
  }

  /** Who waits can go on, or somebody is left to fill the slot. */
  lemma WaitIsServed(states: seq<State>, actions: seq<Action>, i: nat, id: TaskId, o: Outcome)
    requires IsRun(states, actions) && i < |states| && id in states[i].tasks && states[i].tasks[id].Wait?
    ensures Enabled(states[i], Run(id, o)) || exists id' :: Owns(states[i], id', states[i].tasks[id].key)
  {
    RunInv(states, actions, i);
    EnsuredIsServed(states, actions, i, states[i].tasks[id].key);
  }

  /** An owner is never blocked. Its step fills the slot, or the slot gets an owner that is
      nearer to filling it; the steps of all others leave the owner where it is. */
  lemma OwnerProgresses(s: State, a: Action, id: TaskId, key: Key)
    requires Inv(s) && Enabled(s, a) && Owns(s, id, key)
    ensures exists o :: Enabled(s, Run(id, o))
    ensures !(a.Run? && a.id == id) ==> Owns(Next(s, a), id, key) && Next(s, a).tasks[id] == s.tasks[id]
    ensures a.Run? && a.id == id ==>
              || IsFilled(Next(s, a).slots, key)
              || exists id' :: Owns(Next(s, a), id', key) && Next(s, a).tasks[id'].Distance() < s.tasks[id].Distance()
  {
    hide Inv, RunTask, Enabled, KindOf, OwnersOk, CountsOk, WaitersOk, Task.Owned, Task.Distance;
    OwnerIsEnabled(s, id, key);
    if a.Run? {
      if a.id == id {
        OwnerStepProgresses(s, id, key, a.outcome);
      } else {
        OthersTask(s, a.id, a.outcome, id);
      }
    } else {
      OthersStart(s, a, id);
    }
  }

  lemma OwnerIsEnabled(s: State, id: TaskId, key: Key)
    requires Owns(s, id, key)
    ensures exists o :: Enabled(s, Run(id, o))
  {
    assert Enabled(s, Run(id, Direct(0)));
  }

  lemma OthersTask(s: State, id: TaskId, o: Outcome, other: TaskId)
    requires Inv(s) && Enabled(s, Run(id, o)) && other in s.tasks && other != id
    ensures other in RunTask(s, id, o).tasks && RunTask(s, id, o).tasks[other] == s.tasks[other]
  {
    hide RunTask, OwnersOk, CountsOk, WaitersOk;
    OtherTasksKept(s, id, o);
  }

  lemma OthersStart(s: State, a: Action, other: TaskId)
    requires Inv(s) && Enabled(s, a) && !a.Run? && other in s.tasks
    ensures other in Next(s, a).tasks && Next(s, a).tasks[other] == s.tasks[other]
  {
    hide OwnersOk, CountsOk, WaitersOk;
  }

  lemma OwnerStepProgresses(s: State, id: TaskId, key: Key, o: Outcome)
    requires Inv(s) && Enabled(s, Run(id, o)) && Owns(s, id, key)
    ensures var s' := RunTask(s, id, o);
            || IsFilled(s'.slots, key)
            || exists id' :: Owns(s', id', key) && s'.tasks[id'].Distance() < s.tasks[id].Distance()
  {
    hide Inv, RunTask, Enabled, KindOf, Task.Distance;
    StepHasKind(s, id, o);
    OwnedBefore(s, id, o);
    if KindOf(s, id, o).Handing? {
      HandedIsNearer(s, id, o);
    }
  }

  lemma HandedIsNearer(s: State, id: TaskId, o: Outcome)
    requires Inv(s) && Enabled(s, Run(id, o)) && KindOf(s, id, o).Handing?
    ensures s.next in RunTask(s, id, o).tasks && RunTask(s, id, o).tasks[s.next].Distance() < s.tasks[id].Distance()
  {
  }

  lemma FilledStaysStep(s: State, a: Action, key: Key)
    requires Inv(s) && Enabled(s, a) && IsFilled(s.slots, key)
    ensures IsFilled(Next(s, a).slots, key) && Next(s, a).slots[key] == s.slots[key]
  {
    hide Inv, Enabled, RunTask, KindOf, Task.Owned;
    NoOwnerLeft(s, key);
    if a.Run? {
      StepHasKind(s, a.id, a.outcome);
    }
  }

  lemma NoOwnerLeft(s: State, key: Key)
    requires Inv(s) && IsFilled(s.slots, key)
    ensures forall id :: !Owns(s, id, key)
  {
    assert OwnersOk(s, key);
  }

  ghost function Counted(s: State, a: Action, key: Key): nat {
    if a.Run? && Owns(s, a.id, key) then 1 else 0
  }

  /** How many steps from the i-th to the n-th were steps of owners of the key. */
  ghost function OwnerSteps(states: seq<State>, actions: seq<Action>, i: nat, n: nat, key: Key): nat
    requires i <= n <= |actions| < |states|
  {
    if i == n then 0
    else OwnerSteps(states, actions, i, n - 1, key) + Counted(states[n - 1], actions[n - 1], key)
  }

  /** The key is filled, or an owner is left and at most so many owners' steps away from it. */
  ghost predicate Within(s: State, key: Key, steps: int) {
    IsFilled(s.slots, key) || exists id :: Owns(s, id, key) && s.tasks[id].Distance() <= steps
  }

  lemma WithinStep(s: State, a: Action, key: Key, steps: int)
    requires Inv(s) && Enabled(s, a) && Within(s, key, steps)
    ensures Within(Next(s, a), key, steps - Counted(s, a, key))
  {
    if IsFilled(s.slots, key) {
      FilledStaysStep(s, a, key);
    } else {
      var id :| Owns(s, id, key) && s.tasks[id].Distance() <= steps;
      assert OwnersOk(s, key);
      hide OwnersOk, Inv, Enabled, Next, IsFilled, Task.Distance;
      OwnerProgresses(s, a, id, key);
    }
  }

  lemma ApproachStep(states: seq<State>, actions: seq<Action>, i: nat, n: nat, key: Key, steps: int)
    requires IsRun(states, actions) && i < n <= |actions| < |states|
    requires Within(states[n - 1], key, steps - OwnerSteps(states, actions, i, n - 1, key))
    ensures Within(states[n], key, steps - OwnerSteps(states, actions, i, n, key))
  {
    hide OwnerSteps, Within, IsRun, Inv, Enabled, Next, Counted;
    var left := steps - OwnerSteps(states, actions, i, n - 1, key);
    OneStepMore(states, actions, i, n, key);
    RunStep(states, actions, n - 1);
    WithinStep(states[n - 1], actions[n - 1], key, left);
  }

  lemma OneStepMore(states: seq<State>, actions: seq<Action>, i: nat, n: nat, key: Key)
    requires i < n <= |actions| < |states|
    ensures OwnerSteps(states, actions, i, n, key)
            == OwnerSteps(states, actions, i, n - 1, key) + Counted(states[n - 1], actions[n - 1], key)
  {
    hide Counted;
  }

  lemma {:induction false} OwnersApproach(states: seq<State>, actions: seq<Action>, i: nat, n: nat, key: Key,
                                          steps: int)
    requires IsRun(states, actions) && i <= n <= |actions| < |states| && Within(states[i], key, steps)
    ensures Within(states[n], key, steps - OwnerSteps(states, actions, i, n, key))
    decreases n
  {
    hide IsRun, Within;
    if i < n {
      hide OwnerSteps;
      OwnersApproach(states, actions, i, n - 1, key, steps);
      ApproachStep(states, actions, i, n, key, steps);
    }
  }

  lemma RunStep(states: seq<State>, actions: seq<Action>, k: nat)
    requires IsRun(states, actions) && k < |actions|
    ensures Inv(states[k]) && Enabled(states[k], actions[k]) && states[k + 1] == Next(states[k], actions[k])
  {
    RunInv(states, actions, k);
  }

  /** In every run, whatever else happens in between: once the successive owners of a key took as
      many steps as the first of them was away from filling it, it is filled. */
  lemma OwnersFill(states: seq<State>, actions: seq<Action>, i: nat, n: nat, id: TaskId, key: Key)
    requires IsRun(states, actions) && i <= n <= |actions| && Owns(states[i], id, key)
    ensures OwnerSteps(states, actions, i, n, key) >= states[i].tasks[id].Distance() ==> IsFilled(states[n].slots, key)
    ensures states[i].tasks[id].Distance() <= 2
  {
    hide IsRun, OwnerSteps, IsFilled;
    RunLength(states, actions);
    OwnersApproach(states, actions, i, n, key, states[i].tasks[id].Distance());
  }

  lemma RunLength(states: seq<State>, actions: seq<Action>)
    requires IsRun(states, actions)
    ensures |states| == |actions| + 1
  {
  }

  /** What a waiter read once, every later reader reads, too. */
  lemma {:induction false} FilledStays(states: seq<State>, actions: seq<Action>, i: nat, j: nat, key: Key)
    requires IsRun(states, actions) && i <= j < |states| && IsFilled(states[i].slots, key)
    ensures IsFilled(states[j].slots, key) && states[j].slots[key] == states[i].slots[key]
  {
    if i < j {
      FilledStays(states, actions, i, j - 1, key);
      RunInv(states, actions, j - 1);
      FilledStaysStep(states[j - 1], actions[j - 1], key);
    }
  }

  // -- Waiting too early -----------------------------------------------------------------

  /** An empty slot that nobody owns, as waiting for a key before it is ensured leaves it. */
  ghost predicate Orphaned(s: State, key: Key) {
    key in s.slots && s.slots[key].None? && forall id :: !Owns(s, id, key)
  }

  lemma EarlyWaitOrphans(s: State, key: Key)
    requires Inv(s) && key !in s.slots
    ensures Orphaned(s.(slots := WithSlot(s.slots, key)), key)
  {
    assert OwnersOk(s, key);
    var s' := s.(slots := WithSlot(s.slots, key));
    assert forall id :: Owns(s', id, key) <==> Owns(s, id, key);
  }

  /** It stays so whatever happens, even if the fetch is ensured afterwards: the claim fails. */
  lemma OrphanStays(s: State, a: Action, key: Key)
    requires Orphaned(s, key) && Enabled(s, a) && (forall id :: id in s.tasks ==> id < s.next)
    ensures Orphaned(Next(s, a), key)
  {
    if a.Run? {
      OrphanStaysRun(s, a.id, a.outcome, key);
    } else {
      assert forall id :: Owns(Next(s, a), id, key) <==> Owns(s, id, key);
    }
  }

  lemma OrphanStaysRun(s: State, id: TaskId, o: Outcome, key: Key)
    requires Orphaned(s, key) && Enabled(s, Run(id, o)) && (forall i :: i in s.tasks ==> i < s.next)
    ensures Orphaned(RunTask(s, id, o), key)
  {
    OtherTasksKept(s, id, o);
    OwnedBefore(s, id, o);
    OwnedAfter(s, id, o);
    OwnedByNew(s, id, o);
    OrphanSlot(s, id, o, key);
    assert !Owns(s, id, key);
    var s' := RunTask(s, id, o);
    hide RunTask, Enabled, Task.Owned;
    forall i ensures !Owns(s', i, key) {
      assert !Owns(s, i, key);
    }
  }

  lemma OrphanSlot(s: State, id: TaskId, o: Outcome, key: Key)
    requires Orphaned(s, key) && Enabled(s, Run(id, o))
    ensures key in RunTask(s, id, o).slots && RunTask(s, id, o).slots[key].None?
    ensures KindOf(s, id, o).Claiming? ==> KindOf(s, id, o).key != key
  {
    assert !Owns(s, id, key);
    if s.tasks[id].Owned().Some? {
      OwnerKeepsOthers(s, id, o, key);
    } else {
      OthersKeepSlots(s, id, o, key);
    }
    hide RunTask, KindOf, Task.Owned, Enabled;
  }

  lemma OwnerKeepsOthers(s: State, id: TaskId, o: Outcome, key: Key)
    requires Enabled(s, Run(id, o)) && key in s.slots && s.tasks[id].Owned().Some? && s.tasks[id].Owned() != Some(key)
    ensures key in RunTask(s, id, o).slots && RunTask(s, id, o).slots[key] == s.slots[key]
    ensures !KindOf(s, id, o).Claiming?
  {
  }

  lemma OthersKeepSlots(s: State, id: TaskId, o: Outcome, key: Key)
    requires Enabled(s, Run(id, o)) && key in s.slots && s.tasks[id].Owned().None?
    ensures key in RunTask(s, id, o).slots && RunTask(s, id, o).slots[key] == s.slots[key]
    ensures KindOf(s, id, o).Claiming? ==> KindOf(s, id, o).key != key
  {
  }
}
