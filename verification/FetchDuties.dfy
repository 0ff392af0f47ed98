/** What a call or task has brought about when it is over: the fetch was ensured, the wait ended
    with a value, and every version of a list has a slot. */
module FetchDuties {
  import opened FetchProtocols
  import opened InMemoryIndexes
  import opened Options

  /** The versions that a task has still to look at. */
  function Ahead(t: Task, package: PackageName): seq<VersionText> {
    match t
    case Chain(p, vs) => if p == package then vs else []
    case ChainClaimed(p, _, vs) => if p == package then vs else []
    case Prefetch(p, vs) => if p == package then vs else []
    case PrefetchClaimed(p, _, vs) => if p == package then vs else []
    case _ => []
  }

  /** Every version of the list has a slot or is still ahead of the task. */
  ghost predicate Looking(s: State, id: TaskId, package: PackageName, versions: seq<VersionText>) {
    forall v :: v in versions ==>
      MetadataOf(package, v) in s.slots || (id in s.tasks && v in Ahead(s.tasks[id], package))
  }

  /** The task is on its way to a wait for the key. */
  predicate BoundToWait(t: Task, key: Key) {
    match t
    case TryFirst(k, w) => k == key && w
    case Claim(k, w) => k == key && w
    case Spawn(k, w) => k == key && w
    case Enter(k) => k == key
    case Wait(k) => k == key
    case _ => false
  }

  /** The task is on its way to a slot for the key. */
  predicate BoundToClaim(t: Task, key: Key) {
    (t.TryFirst? || t.Claim?) && t.key == key
  }

  ghost predicate Served(s: State, id: TaskId, key: Key) {
    IsFilled(s.slots, key) || (id in s.tasks && BoundToWait(s.tasks[id], key))
  }

  ghost predicate Slotted(s: State, id: TaskId, key: Key) {
    key in s.slots || (id in s.tasks && BoundToClaim(s.tasks[id], key))
  }

  // -- One step --------------------------------------------------------------------------

  lemma SlotsStay(s: State, a: Action)
    requires Inv(s) && Enabled(s, a)
    ensures forall key :: key in s.slots ==> key in Next(s, a).slots
  {
    if a.Run? {
      SlotsGrow(s, a.id, a.outcome);
    }
  }

  lemma OthersStay(s: State, a: Action, id: TaskId)
    requires Inv(s) && Enabled(s, a) && id in s.tasks && !(a.Run? && a.id == id)
    ensures id in Next(s, a).tasks && Next(s, a).tasks[id] == s.tasks[id]
  {
    if a.Run? {
      OtherTasksKept(s, a.id, a.outcome);
    }
  }

  lemma LookStep(s: State, id: TaskId, o: Outcome, package: PackageName, v: VersionText)
    requires Enabled(s, Run(id, o)) && s.next != id && v in Ahead(s.tasks[id], package)
    ensures var s' := RunTask(s, id, o);
            MetadataOf(package, v) in s'.slots || (id in s'.tasks && v in Ahead(s'.tasks[id], package))
  {
  }

  lemma LookingStep(s: State, a: Action, id: TaskId, package: PackageName, versions: seq<VersionText>)
    requires Inv(s) && Enabled(s, a) && Looking(s, id, package, versions)
    ensures Looking(Next(s, a), id, package, versions)
  {
    hide Inv, Enabled, Next, Ahead;
    SlotsStay(s, a);
    forall v | v in versions && MetadataOf(package, v) !in Next(s, a).slots
      ensures id in Next(s, a).tasks && v in Ahead(Next(s, a).tasks[id], package)
    {
      AheadStep(s, a, id, package, v);
    }
  }

  lemma AheadStep(s: State, a: Action, id: TaskId, package: PackageName, v: VersionText)
    requires Inv(s) && Enabled(s, a) && id in s.tasks && v in Ahead(s.tasks[id], package)
    ensures MetadataOf(package, v) in Next(s, a).slots
            || (id in Next(s, a).tasks && v in Ahead(Next(s, a).tasks[id], package))
  {
    hide Inv, Enabled, Ahead, RunTask;
    IdsBelow(s, id);
    if a.Run? && a.id == id {
      LookStep(s, id, a.outcome, package, v);
    } else {
      OthersStay(s, a, id);
    }
  }

  lemma IdsBelow(s: State, id: TaskId)
    requires Inv(s) && id in s.tasks
    ensures id < s.next
  {
  }

  lemma WaitStep(s: State, id: TaskId, o: Outcome, key: Key)
    requires Enabled(s, Run(id, o)) && s.next != id && BoundToWait(s.tasks[id], key)
    ensures Served(RunTask(s, id, o), id, key)
  {
  }

  lemma ClaimStep(s: State, id: TaskId, o: Outcome, key: Key)
    requires Enabled(s, Run(id, o)) && s.next != id && BoundToClaim(s.tasks[id], key)
    ensures Slotted(RunTask(s, id, o), id, key)
  {
  }

  lemma ServedStep(s: State, a: Action, id: TaskId, key: Key)
    requires Inv(s) && Enabled(s, a) && Served(s, id, key)
    ensures Served(Next(s, a), id, key)
  {
    hide Inv, Enabled, BoundToWait, IsFilled, RunTask;
    if IsFilled(s.slots, key) {
      FilledStaysStep(s, a, key);
    } else {
      IdsBelow(s, id);
      if a.Run? && a.id == id {
        WaitStep(s, id, a.outcome, key);
      } else {
        OthersStay(s, a, id);
      }
    }
  }

  lemma SlottedStep(s: State, a: Action, id: TaskId, key: Key)
    requires Inv(s) && Enabled(s, a) && Slotted(s, id, key)
    ensures Slotted(Next(s, a), id, key)
  {
    hide Inv, Enabled, BoundToClaim, RunTask;
    SlotsStay(s, a);
    if key !in s.slots {
      IdsBelow(s, id);
      if a.Run? && a.id == id {
        ClaimStep(s, id, a.outcome, key);
      } else {
        OthersStay(s, a, id);
      }
    }
  }

  // -- Whole runs ------------------------------------------------------------------------

  lemma {:induction false} StaysServed(states: seq<State>, actions: seq<Action>, i: nat, j: nat, id: TaskId, key: Key)
    requires IsRun(states, actions) && i <= j < |states| && Served(states[i], id, key)
    ensures Served(states[j], id, key)
    decreases j
  {
    hide Served;
    RunLength(states, actions);
    if i < j {
      StaysServed(states, actions, i, j - 1, id, key);
      RunStep(states, actions, j - 1);
      ServedStep(states[j - 1], actions[j - 1], id, key);
    }
  }

  lemma {:induction false} StaysSlotted(states: seq<State>, actions: seq<Action>, i: nat, j: nat, id: TaskId, key: Key)
    requires IsRun(states, actions) && i <= j < |states| && Slotted(states[i], id, key)
    ensures Slotted(states[j], id, key)
    decreases j
  {
    hide Slotted;
    RunLength(states, actions);
    if i < j {
      StaysSlotted(states, actions, i, j - 1, id, key);
      RunStep(states, actions, j - 1);
      SlottedStep(states[j - 1], actions[j - 1], id, key);
    }
  }

  lemma {:induction false} StaysLooking(states: seq<State>, actions: seq<Action>, i: nat, j: nat, id: TaskId,
                                        package: PackageName, versions: seq<VersionText>)
    requires IsRun(states, actions) && i <= j < |states| && Looking(states[i], id, package, versions)
    ensures Looking(states[j], id, package, versions)
    decreases j
  {
    hide Looking;
    RunLength(states, actions);
    if i < j {
      StaysLooking(states, actions, i, j - 1, id, package, versions);
      RunStep(states, actions, j - 1);
      LookingStep(states[j - 1], actions[j - 1], id, package, versions);
    }
  }

  /** Whatever happens in between: a call to ensure a fetch is over only when the key has a slot,
      and with a wait only when the key has a value. */
  lemma CallServed(states: seq<State>, actions: seq<Action>, i: nat, j: nat, key: Key, thenWait: bool)
    requires IsRun(states, actions) && i < j <= |actions| && actions[i] == Ensure(key, thenWait)
    requires states[i].next !in states[j].tasks
    ensures key in states[j].slots && (thenWait ==> IsFilled(states[j].slots, key))
  {
    var id := states[i].next;
    RunStep(states, actions, i);
    StaysSlotted(states, actions, i + 1, j, id, key);
    if thenWait {
      StaysServed(states, actions, i + 1, j, id, key);
    }
  }

  /** Whatever happens in between: a prefetch is over only when all its versions have slots. */
  lemma PrefetchCovers(states: seq<State>, actions: seq<Action>, i: nat, j: nat, package: PackageName,
                       versions: seq<VersionText>, v: VersionText)
    requires IsRun(states, actions) && i < j <= |actions| && actions[i] == StartPrefetch(package, versions)
    requires states[i].next !in states[j].tasks && v in versions
    ensures MetadataOf(package, v) in states[j].slots
  {
    RunStep(states, actions, i);
    StaysLooking(states, actions, i + 1, j, states[i].next, package, versions);
  }

  /** The same for the likely candidates among fresh versions. */
  lemma ChainCovers(states: seq<State>, actions: seq<Action>, i: nat, j: nat, package: PackageName, id: TaskId,
                    value: Value, candidates: seq<VersionText>, v: VersionText)
    requires IsRun(states, actions) && i < j <= |actions| && actions[i] == Run(id, Fresh(value, candidates))
    requires id in states[i].tasks && states[i].tasks[id] == FetchVersions(package)
    requires id !in states[j].tasks && v in candidates
    ensures MetadataOf(package, v) in states[j].slots
  {
    RunStep(states, actions, i);
    StaysLooking(states, actions, i + 1, j, id, package, candidates);
  }

  predicate Brings(o: Outcome, value: Value) {
    match o
    case Direct(v) => v == value
    case Fresh(v, _) => v == value
    case NotCached => false
  }

  lemma FilledStep(s: State, a: Action, key: Key)
    requires Inv(s) && Enabled(s, a) && !IsFilled(s.slots, key) && IsFilled(Next(s, a).slots, key)
    ensures a.Run? && Owns(s, a.id, key) && Brings(a.outcome, Next(s, a).slots[key].value)
  {
    if a.Run? {
      SlotsAfter(s, a.id, a.outcome);
      OwnedBefore(s, a.id, a.outcome);
      KindBrings(s, a.id, a.outcome);
      hide Inv, RunTask, KindOf, Enabled, Task.Owned;
    }
  }

  lemma KindBrings(s: State, id: TaskId, o: Outcome)
    requires Enabled(s, Run(id, o)) && KindOf(s, id, o).Filling?
    ensures Brings(o, KindOf(s, id, o).value)
  {
  }

  /** A value that is read was brought by a step of the owner of its key. */
  lemma {:induction false} ValueFromOwner(states: seq<State>, actions: seq<Action>, j: nat, key: Key)
    returns (i: nat)
    requires IsRun(states, actions) && j < |states| && IsFilled(states[j].slots, key)
    ensures i < j && actions[i].Run? && Owns(states[i], actions[i].id, key)
    ensures Brings(actions[i].outcome, states[j].slots[key].value)
    decreases j
  {
    hide Owns, Brings, Inv, Enabled, Next;
    RunStep(states, actions, j - 1);
    if IsFilled(states[j - 1].slots, key) {
      FilledStaysStep(states[j - 1], actions[j - 1], key);
      i := ValueFromOwner(states, actions, j - 1, key);
    } else {
      FilledStep(states[j - 1], actions[j - 1], key);
      i := j - 1;
    }
  }
}
