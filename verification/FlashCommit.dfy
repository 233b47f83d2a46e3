/** Committing configuration items to flash: any number of committers, a lock, a request
    channel of depth one, a result signal, and the worker that owns the flash. */
module FlashCommit {
  import opened Words

  /** Whether storing an item succeeds, given all stored before it. */
  type Store<!T> = (seq<T>, T) -> bool

  /** Where a committer is; `at` says which of the stores was its own. */
  datatype Committer<T> =
    | Waiting(item: T)                            // for the lock
    | Locked(item: T)
    | Ready(item: T)                              // the signal reset, for room in the channel
    | Sent(item: T)                               // for the signal
    | Done(item: T, result: bool, at: nat)

  datatype Worker<T> = Idle | Storing(item: T)

  datatype System<T> = System(
    committers: seq<Committer<T>>, lock: Option<nat>, request: Option<T>, signal: Option<bool>,
    worker: Worker<T>, stored: seq<T>)

  datatype Action = Lock(who: nat) | Reset(who: nat) | Send(who: nat) | Collect(who: nat) | Take | Finish

  predicate Enabled<T>(s: System<T>, a: Action) {
    match a
    case Lock(i) => i < |s.committers| && s.committers[i].Waiting? && s.lock.None?
    case Reset(i) => i < |s.committers| && s.committers[i].Locked?
    case Send(i) => i < |s.committers| && s.committers[i].Ready? && s.request.None?
    case Collect(i) => i < |s.committers| && s.committers[i].Sent? && s.signal.Some?
    case Take => s.worker.Idle? && s.request.Some?
    case Finish => s.worker.Storing?
  }

  function Next<T>(store: Store<T>, s: System<T>, a: Action): System<T>
    requires Enabled(s, a)
  {
    match a
    case Lock(i) => s.(lock := Some(i), committers := s.committers[i := Locked(s.committers[i].item)])
    case Reset(i) => s.(signal := None, committers := s.committers[i := Ready(s.committers[i].item)])
    case Send(i) =>
      s.(request := Some(s.committers[i].item), committers := s.committers[i := Sent(s.committers[i].item)])
    case Collect(i) =>
      var at: nat := if s.stored == [] then 0 else |s.stored| - 1;
      s.(signal := None, lock := None,
         committers := s.committers[i := Done(s.committers[i].item, s.signal.value, at)])
    case Take => s.(request := None, worker := Storing(s.request.value))
    case Finish =>
      s.(worker := Idle, stored := s.stored + [s.worker.item], signal := Some(store(s.stored, s.worker.item)))
  }

  predicate Holding<T>(c: Committer<T>) {
    c.Locked? || c.Ready? || c.Sent?
  }

  /** The `at`-th store was of `item` and had this result. */
  predicate WasStored<T(==)>(store: Store<T>, stored: seq<T>, at: nat, item: T, result: bool) {
    at < |stored| && stored[at] == item && result == store(stored[..at], item)
  }

  /** The committer holding the lock has its item in the channel, in the worker, or its
      result in the signal: in one of them exactly. */
  predicate InTransit<T(==)>(store: Store<T>, s: System<T>, item: T) {
    && Bit(s.request.Some?) + Bit(s.worker.Storing?) + Bit(s.signal.Some?) == 1
    && (s.request.Some? ==> s.request.value == item)
    && (s.worker.Storing? ==> s.worker.item == item)
    && (s.signal.Some? ==> s.stored != [] && WasStored(store, s.stored, |s.stored| - 1, item, s.signal.value))
  }

  predicate Quiet<T>(s: System<T>) {
    s.request.None? && s.worker.Idle? && s.signal.None?
  }

  /** Stores whose results were collected. */
  function Settled<T>(s: System<T>): int {
    |s.stored| - Bit(s.signal.Some?)
  }

  predicate Inv<T(==)>(store: Store<T>, s: System<T>) {
    && (forall i :: 0 <= i < |s.committers| ==> (Holding(s.committers[i]) <==> s.lock == Some(i)))
    && (s.lock.None? ==> Quiet(s))
    && (s.lock.Some? ==>
          && s.lock.value < |s.committers|
          && var c := s.committers[s.lock.value];
          if c.Sent? then InTransit(store, s, c.item) else Quiet(s))
    && (forall i :: 0 <= i < |s.committers| && s.committers[i].Done? ==>
          && s.committers[i].at < Settled(s)
          && WasStored(store, s.stored, s.committers[i].at, s.committers[i].item, s.committers[i].result))
    && (forall i, j :: 0 <= i < j < |s.committers| && s.committers[i].Done? && s.committers[j].Done? ==>
          s.committers[i].at != s.committers[j].at)
  }

  lemma StoredMore<T>(store: Store<T>, stored: seq<T>, more: T, at: nat, item: T, result: bool)
    requires WasStored(store, stored, at, item, result)
    ensures WasStored(store, stored + [more], at, item, result)
  {
    assert (stored + [more])[..at] == stored[..at];
  }

  lemma StepKeeps<T>(store: Store<T>, s: System<T>, a: Action)
    requires Inv(store, s) && Enabled(s, a)
    ensures Inv(store, Next(store, s, a))
  {
    hide WasStored;
    if a.Finish? {
      var item := s.worker.item;
      assert s.lock.Some?;
      StoredLast(store, s.stored, item);
      forall i | 0 <= i < |s.committers| && s.committers[i].Done?
        ensures WasStored(store, s.stored + [item], s.committers[i].at, s.committers[i].item, s.committers[i].result)
      {
        StoredMore(store, s.stored, item, s.committers[i].at, s.committers[i].item, s.committers[i].result);
      }
    }
  }

  lemma StoredLast<T>(store: Store<T>, stored: seq<T>, item: T)
    ensures WasStored(store, stored + [item], |stored|, item, store(stored, item))
  {
    assert (stored + [item])[..|stored|] == stored;
  }

  predicate Possible<T>(store: Store<T>, s: System<T>, trace: seq<Action>)
    decreases |trace|
  {
    trace == [] || (Enabled(s, trace[0]) && Possible(store, Next(store, s, trace[0]), trace[1..]))
  }

  function After<T>(store: Store<T>, s: System<T>, trace: seq<Action>): System<T>
    requires Possible(store, s, trace)
    decreases |trace|
  {
    if trace == [] then s else After(store, Next(store, s, trace[0]), trace[1..])
  }

  function Start<T>(items: seq<T>): System<T> {
    System(seq(|items|, i requires 0 <= i < |items| => Waiting(items[i])), None, None, None, Idle, [])
  }

  lemma {:induction false} TraceKeeps<T>(store: Store<T>, s: System<T>, trace: seq<Action>)
    requires Inv(store, s) && Possible(store, s, trace)
    ensures Inv(store, After(store, s, trace))
    ensures SameItems(s, After(store, s, trace))
    decreases |trace|
  {
    hide Inv, Next, Enabled;
    if trace != [] {
      StepKeeps(store, s, trace[0]);
      StepKeepsItems(store, s, trace[0]);
      TraceKeeps(store, Next(store, s, trace[0]), trace[1..]);
    }
  }

  predicate SameItems<T(==)>(s: System<T>, t: System<T>) {
    |s.committers| == |t.committers|
    && forall i :: 0 <= i < |s.committers| ==> s.committers[i].item == t.committers[i].item
  }

  lemma StepKeepsItems<T>(store: Store<T>, s: System<T>, a: Action)
    requires Enabled(s, a)
    ensures SameItems(s, Next(store, s, a))
  {
  }

  /** However any number of commits interleave, each one that returns has the result of
      storing its own item, and no two share a store. */
  lemma OwnResults<T>(store: Store<T>, items: seq<T>, trace: seq<Action>, i: nat, j: nat)
    requires Possible(store, Start(items), trace) && i < |items| && j < |items|
    ensures var s := After(store, Start(items), trace);
            && |s.committers| == |items|
            && var a, b := s.committers[i], s.committers[j];
            && (a.Done? ==> a.at < |s.stored| && s.stored[a.at] == items[i]
                            && a.result == store(s.stored[..a.at], items[i]))
            && (i != j && a.Done? && b.Done? ==> a.at != b.at)
  {
    TraceKeeps(store, Start(items), trace);
  }

  /** Some step can be taken until every commit has returned. */
  lemma NeverStuck<T>(store: Store<T>, s: System<T>, i: nat) returns (a: Action)
    requires Inv(store, s) && i < |s.committers| && !s.committers[i].Done?
    ensures Enabled(s, a)
  {
    hide WasStored;
    if s.lock.None? {
      a := Lock(i);
    } else {
      var c := s.committers[s.lock.value];
      a := if c.Locked? then Reset(s.lock.value)
           else if c.Ready? then Send(s.lock.value)
           else if s.request.Some? then Take
           else if s.worker.Storing? then Finish
           else Collect(s.lock.value);
    }
  }
}
