/** The per-request locks of the durable pipeline (`delivery_lock` in `src/dm.rs`): a bounded
    table that may forget a lock only when no task holds a handle to it. */
module DeliveryLocks {
  import opened Bytes
  import DC = DeliveryCache

  type Key = DC.Key

  type LockId = nat
  type TaskId = nat

  /** A task's clone of the `Arc` around a lock. */
  datatype Handle = Handle(key: Key, lock: LockId)

  /** The table, the handles that are out, and the tasks that are inside the lock they have a handle to. */
  datatype Table = Table(
    locks: map<Key, LockId>,
    order: seq<Key>,
    nextLock: LockId,
    handles: map<TaskId, Handle>,
    inside: set<TaskId>)

  const EmptyTable := Table(map[], [], 0, map[], {})

  /** `Arc::strong_count(lock) == 1`: only the table refers to the lock. */
  predicate Idle(handles: map<TaskId, Handle>, lock: LockId) {
    forall t <- handles :: handles[t].lock != lock
  }

  /** Position of the oldest lock that is idle, the length of the queue when there is none. */
  function OldestIdle(order: seq<Key>, locks: map<Key, LockId>, handles: map<TaskId, Handle>): (p: nat)
    ensures p <= |order|
    ensures p < |order| ==> order[p] in locks && Idle(handles, locks[order[p]])
    ensures forall q :: 0 <= q < p && order[q] in locks ==> !Idle(handles, locks[order[q]])
  {
    if order == [] then 0
    else if order[0] in locks && Idle(handles, locks[order[0]]) then 0
    else 1 + OldestIdle(order[1..], locks, handles)
  }

  function DropAt(order: seq<Key>, p: nat): seq<Key>
    requires p < |order|
  {
    order[..p] + order[p + 1..]
  }

  /** Forget idle locks, oldest first, until there is a free slot; false when there is none to forget. */
  function Forget(tb: Table, p: nat): Table
    requires p < |tb.order|
  {
    tb.(order := DropAt(tb.order, p), locks := tb.locks - {tb.order[p]})
  }

  function MakeRoom(tb: Table, maxSize: nat): (Table, bool)
    decreases |tb.order|
  {
    if |tb.locks| < maxSize then (tb, true)
    else
      var p := OldestIdle(tb.order, tb.locks, tb.handles);
      if p == |tb.order| then (tb, false)
      else MakeRoom(Forget(tb, p), maxSize)
  }

  /** The table with a new lock for `key`. */
  function WithLock(tb: Table, key: Key): Table {
    tb.(locks := tb.locks[key := tb.nextLock], order := tb.order + [key], nextLock := tb.nextLock + 1)
  }

  /** `delivery_lock` */
  function DeliveryLock(tb: Table, maxSize: nat, key: Key): (Table, Option<LockId>) {
    if key in tb.locks then (tb, Some(tb.locks[key]))
    else
      var (roomy, ok) := MakeRoom(tb, maxSize);
      if !ok then (roomy, None)
      else (WithLock(roomy, key), Some(roomy.nextLock))
  }

  class LockTable {
    var locks: map<Key, LockId>
    var order: seq<Key>
    var nextLock: LockId
    var handles: map<TaskId, Handle>
    var inside: set<TaskId>
    const maxSize: nat

    function View(): Table
      reads this
    {
      Table(locks, order, nextLock, handles, inside)
    }

    constructor (maxSize: nat)
      ensures View() == EmptyTable && this.maxSize == maxSize
    {
      locks, order, nextLock, handles, inside := map[], [], 0, map[], {};
      this.maxSize := maxSize;
    }

    /** The position search over the queue. */
    method FindIdle() returns (p: nat)
      ensures p == OldestIdle(order, locks, handles)
    {
      p := 0;
      while p < |order| && !(order[p] in locks && Idle(handles, locks[order[p]]))
        invariant p <= |order|
        invariant OldestIdle(order, locks, handles) == p + OldestIdle(order[p..], locks, handles)
      {
        assert order[p..][1..] == order[p + 1..];
        p := p + 1;
      }
    }

    method Obtain(key: Key) returns (lock: Option<LockId>)
      modifies this
      ensures (View(), lock) == DeliveryLock(old(View()), maxSize, key)
    {
      if key in locks {
        return Some(locks[key]);
      }
      while |locks| >= maxSize
        invariant MakeRoom(View(), maxSize) == MakeRoom(old(View()), maxSize)
        decreases |order|
      {
        var p := FindIdle();
        if p == |order| {
          return None;
        }
        var oldestIdle := order[p];
        order := order[..p] + order[p + 1..];
        locks := locks - {oldestIdle};
      }
      locks := locks[key := nextLock];
      order := order + [key];
      lock := Some(nextLock);
      nextLock := nextLock + 1;
    }

    /** A task gets a handle to the lock of its request, unless it has one or none is to be had. */
    method AskFor(task: TaskId, key: Key)
      modifies this
      ensures View() == Step(old(View()), maxSize, Ask(task, key))
    {
      if task in handles {
        return;
      }
      var lock := Obtain(key);
      if lock.Some? {
        handles := handles[task := Handle(key, lock.value)];
      }
    }

    method EnterLock(task: TaskId)
      modifies this`inside
      ensures View() == Step(old(View()), maxSize, Enter(task))
    {
      if task in handles && Free(View(), handles[task].lock) {
        inside := inside + {task};
      }
    }

    method DropHandle(task: TaskId)
      modifies this`inside, this`handles
      ensures View() == Step(old(View()), maxSize, LetGo(task))
    {
      inside := inside - {task};
      handles := handles - {task};
    }

    method Perform(a: Action)
      modifies this
      ensures View() == Step(old(View()), maxSize, a)
    {
      match a
      case Ask(task, key) => AskFor(task, key);
      case Enter(task) => EnterLock(task);
      case LetGo(task) => DropHandle(task);
    }
  }

  // ---------------------------------------------------------------- runs

  /** A task asks for the lock of its request, enters it, and lets go of it. */
  datatype Action =
    | Ask(task: TaskId, key: Key)
    | Enter(task: TaskId)
    | LetGo(task: TaskId)

  /** Nobody is inside the lock. */
  predicate Free(tb: Table, lock: LockId) {
    forall t <- tb.inside :: t in tb.handles ==> tb.handles[t].lock != lock
  }

  /** A task with a handle does not ask again; it enters only a lock nobody is inside. */
  function Step(tb: Table, maxSize: nat, a: Action): Table {
    match a
    case Ask(task, key) =>
      if task in tb.handles then tb
      else
        var (tb', lock) := DeliveryLock(tb, maxSize, key);
        if lock.None? then tb' else tb'.(handles := tb'.handles[task := Handle(key, lock.value)])
    case Enter(task) =>
      if task in tb.handles && Free(tb, tb.handles[task].lock) then tb.(inside := tb.inside + {task}) else tb
    case LetGo(task) => tb.(handles := tb.handles - {task}, inside := tb.inside - {task})
  }

  function Run(maxSize: nat, run: seq<Action>): Table {
    if run == [] then EmptyTable else Step(Run(maxSize, run[..|run| - 1]), maxSize, run[|run| - 1])
  }

  /** The object goes through a run as the runs of the values do. */
  method Execute(maxSize: nat, run: seq<Action>) returns (table: LockTable)
    ensures fresh(table) && table.maxSize == maxSize && table.View() == Run(maxSize, run)
  {
    table := new LockTable(maxSize);
    for i := 0 to |run|
      invariant fresh(table) && table.maxSize == maxSize && table.View() == Run(maxSize, run[..i])
    {
      assert run[..i + 1][..i] == run[..i];
      table.Perform(run[i]);
    }
    assert run[..|run|] == run;
  }

  // ---------------------------------------------------------------- what every run keeps

  ghost predicate Queued(tb: Table) {
    DC.Distinct(tb.order) && DC.Keys(tb.order) == tb.locks.Keys
  }

  /** Different requests have different locks, and none will be handed out again. */
  ghost predicate Separate(tb: Table) {
    && (forall k <- tb.locks :: tb.locks[k] < tb.nextLock)
    && (forall k, m :: k in tb.locks && m in tb.locks && tb.locks[k] == tb.locks[m] ==> k == m)
  }

  /** Every handle that is out is to the lock the table has for its request. */
  ghost predicate Current(tb: Table) {
    && (forall t <- tb.handles :: tb.handles[t].key in tb.locks && tb.locks[tb.handles[t].key] == tb.handles[t].lock)
    && (forall t <- tb.inside :: t in tb.handles)
  }

  /** No two tasks are inside one lock. */
  ghost predicate Exclusive(tb: Table) {
    forall t, u ::
      (t in tb.inside && u in tb.inside && t in tb.handles && u in tb.handles
       && tb.handles[t].lock == tb.handles[u].lock) ==> t == u
  }

  ghost predicate Valid(tb: Table, maxSize: nat) {
    Queued(tb) && |tb.locks| <= maxSize && Separate(tb) && Current(tb) && Exclusive(tb)
  }

  lemma DropAtQueued(tb: Table, p: nat)
    requires Queued(tb) && p < |tb.order|
    ensures Queued(tb.(order := DropAt(tb.order, p), locks := tb.locks - {tb.order[p]}))
  {
  }

  /** Forgetting a lock nobody has a handle to. */
  lemma ForgetIdle(tb: Table, maxSize: nat, p: nat)
    requires Valid(tb, maxSize) && p < |tb.order| && Idle(tb.handles, tb.locks[tb.order[p]])
    ensures var after := Forget(tb, p);
            Valid(after, maxSize) && |after.locks| < maxSize && after.locks.Keys <= tb.locks.Keys
  {
    DropAtQueued(tb, p);
    var after := tb.(order := DropAt(tb.order, p), locks := tb.locks - {tb.order[p]});
    assert after.locks.Keys == tb.locks.Keys - {tb.order[p]};
  }

  /** From a valid table at most one idle lock is forgotten. */
  lemma RoomByForgetting(tb: Table, maxSize: nat)
    requires Valid(tb, maxSize) && |tb.locks| >= maxSize
    ensures var p := OldestIdle(tb.order, tb.locks, tb.handles);
            MakeRoom(tb, maxSize) == if p == |tb.order| then (tb, false) else (Forget(tb, p), true)
  {
    var p := OldestIdle(tb.order, tb.locks, tb.handles);
    if p < |tb.order| {
      ForgetIdle(tb, maxSize, p);
    }
  }

  lemma RoomMade(tb: Table, maxSize: nat)
    requires Valid(tb, maxSize)
    ensures var (roomy, ok) := MakeRoom(tb, maxSize);
            && Valid(roomy, maxSize) && roomy == tb.(order := roomy.order, locks := roomy.locks)
            && roomy.locks.Keys <= tb.locks.Keys
            && (ok ==> |roomy.locks| < maxSize)
            && (!ok ==> roomy == tb)
  {
    if |tb.locks| >= maxSize {
      RoomByForgetting(tb, maxSize);
      var p := OldestIdle(tb.order, tb.locks, tb.handles);
      if p < |tb.order| {
        ForgetIdle(tb, maxSize, p);
      }
    }
  }

  lemma RoomExactly(tb: Table, maxSize: nat)
    requires Valid(tb, maxSize)
    ensures MakeRoom(tb, maxSize).1 <==> |tb.locks| < maxSize || exists k <- tb.locks :: Idle(tb.handles, tb.locks[k])
  {
    if |tb.locks| >= maxSize {
      RoomByForgetting(tb, maxSize);
      var p := OldestIdle(tb.order, tb.locks, tb.handles);
      if p < |tb.order| {
        assert tb.order[p] in tb.locks && Idle(tb.handles, tb.locks[tb.order[p]]);
      } else {
        NoneIdle(tb);
      }
    }
  }

  lemma NoneIdle(tb: Table)
    requires Queued(tb) && OldestIdle(tb.order, tb.locks, tb.handles) == |tb.order|
    ensures forall k <- tb.locks :: !Idle(tb.handles, tb.locks[k])
  {
    forall k <- tb.locks ensures !Idle(tb.handles, tb.locks[k]) {
      assert k in DC.Keys(tb.order);
      var q :| 0 <= q < |tb.order| && tb.order[q] == k;
    }
  }

  /** No lock is handed out exactly when the table is full of other requests' locks that are all in use. */
  lemma NoneExactlyWhenFull(tb: Table, maxSize: nat, key: Key)
    requires Valid(tb, maxSize)
    ensures DeliveryLock(tb, maxSize, key).1.None?
       <==> (&& key !in tb.locks && |tb.locks| == maxSize
             && forall k <- tb.locks :: exists t <- tb.handles :: tb.handles[t] == Handle(k, tb.locks[k]))
  {
    RoomExactly(tb, maxSize);
    forall k <- tb.locks
      ensures !Idle(tb.handles, tb.locks[k]) <==> exists t <- tb.handles :: tb.handles[t] == Handle(k, tb.locks[k])
    {
      if !Idle(tb.handles, tb.locks[k]) {
        var t :| t in tb.handles && tb.handles[t].lock == tb.locks[k];
        assert tb.handles[t] == Handle(k, tb.locks[k]);
      }
    }
  }

  lemma AddLockQueued(tb: Table, key: Key)
    requires Queued(tb) && key !in tb.locks
    ensures Queued(WithLock(tb, key)) && |WithLock(tb, key).locks| == |tb.locks| + 1
  {
  }

  lemma AddLockSeparate(tb: Table, key: Key)
    requires Separate(tb) && key !in tb.locks
    ensures Separate(WithLock(tb, key))
  {
  }

  lemma AddLockCurrent(tb: Table, key: Key)
    requires Current(tb) && key !in tb.locks
    ensures Current(WithLock(tb, key))
  {
  }

  lemma AddLock(tb: Table, maxSize: nat, key: Key)
    requires Valid(tb, maxSize) && |tb.locks| < maxSize && key !in tb.locks
    ensures Valid(WithLock(tb, key), maxSize)
  {
    AddLockQueued(tb, key);
    AddLockSeparate(tb, key);
    AddLockCurrent(tb, key);
  }

  lemma AddHandle(tb: Table, maxSize: nat, task: TaskId, key: Key)
    requires Valid(tb, maxSize) && task !in tb.handles && key in tb.locks
    ensures Valid(tb.(handles := tb.handles[task := Handle(key, tb.locks[key])]), maxSize)
  {
  }

  lemma AskKeepsValid(tb: Table, maxSize: nat, task: TaskId, key: Key)
    requires Valid(tb, maxSize) && task !in tb.handles
    ensures Valid(Step(tb, maxSize, Ask(task, key)), maxSize)
  {
    var (tb', lock) := DeliveryLock(tb, maxSize, key);
    if key !in tb.locks {
      RoomMade(tb, maxSize);
      var (roomy, ok) := MakeRoom(tb, maxSize);
      if ok {
        AddLock(roomy, maxSize, key);
      }
    }
    if lock.Some? {
      AddHandle(tb', maxSize, task, key);
    }
  }

  lemma StepKeepsValid(tb: Table, maxSize: nat, a: Action)
    requires Valid(tb, maxSize)
    ensures Valid(Step(tb, maxSize, a), maxSize)
  {
    if a.Ask? && a.task !in tb.handles {
      AskKeepsValid(tb, maxSize, a.task, a.key);
    }
  }

  lemma {:induction false} AlwaysValid(maxSize: nat, run: seq<Action>)
    ensures Valid(Run(maxSize, run), maxSize)
  {
    if run != [] {
      AlwaysValid(maxSize, run[..|run| - 1]);
      StepKeepsValid(Run(maxSize, run[..|run| - 1]), maxSize, run[|run| - 1]);
    }
  }

  /** In every run: the table keeps its bound, two tasks have handles to one lock exactly when
      they serve one request, and at most one task is inside a request's lock. */
  lemma RequestsAreSerialized(maxSize: nat, run: seq<Action>, t: TaskId, u: TaskId)
    requires var tb := Run(maxSize, run); t in tb.handles && u in tb.handles
    ensures var tb := Run(maxSize, run);
            && |tb.locks| <= maxSize
            && (tb.handles[t].key == tb.handles[u].key <==> tb.handles[t].lock == tb.handles[u].lock)
            && (tb.handles[t].key == tb.handles[u].key && t in tb.inside && u in tb.inside ==> t == u)
  {
    AlwaysValid(maxSize, run);
  }

  // ---------------------------------------------------------------- one mutex per request

  /** What the table is for: which request each task serves, and which tasks are inside. There
      are no locks, only requests; a request is served by one task at a time, and no more than
      so many requests at once. */
  datatype Desk = Desk(serving: map<TaskId, Key>, inside: set<TaskId>)

  predicate Vacant(d: Desk, key: Key) {
    forall t <- d.inside :: t in d.serving ==> d.serving[t] != key
  }

  function DeskStep(d: Desk, maxSize: nat, a: Action): Desk {
    match a
    case Ask(task, key) =>
      if task in d.serving then d
      else if key in d.serving.Values || |d.serving.Values| < maxSize then d.(serving := d.serving[task := key])
      else d
    case Enter(task) =>
      if task in d.serving && Vacant(d, d.serving[task]) then d.(inside := d.inside + {task}) else d
    case LetGo(task) => Desk(d.serving - {task}, d.inside - {task})
  }

  function DeskRun(maxSize: nat, run: seq<Action>): Desk {
    if run == [] then Desk(map[], {}) else DeskStep(DeskRun(maxSize, run[..|run| - 1]), maxSize, run[|run| - 1])
  }

  /** The table with its locks forgotten. */
  function Abstract(tb: Table): Desk {
    Desk(map t | t in tb.handles :: tb.handles[t].key, tb.inside)
  }

  lemma {:induction false} SubsetCount(a: set<Key>, b: set<Key>)
    requires a <= b
    ensures |a| <= |b| && (|a| == |b| ==> a == b)
  {
    if a != b {
      var x :| x in b && x !in a;
      SubsetCount(a, b - {x});
    }
  }

  lemma ServedAreLocked(tb: Table)
    requires Current(tb)
    ensures Abstract(tb).serving.Values <= tb.locks.Keys
  {
    var serving := Abstract(tb).serving;
    forall k <- serving.Values ensures k in tb.locks {
      var t :| t in serving && serving[t] == k;
    }
  }

  lemma ServedExactly(tb: Table, key: Key)
    requires Current(tb) && key in tb.locks
    ensures key in Abstract(tb).serving.Values <==>
            exists t <- tb.handles :: tb.handles[t] == Handle(key, tb.locks[key])
  {
    var serving := Abstract(tb).serving;
    if key in serving.Values {
      var t :| t in serving && serving[t] == key;
      assert tb.handles[t] == Handle(key, tb.locks[key]);
    }
    if t :| t in tb.handles && tb.handles[t] == Handle(key, tb.locks[key]) {
      assert serving[t] == key;
    }
  }

  lemma AllServedExactly(tb: Table)
    requires Current(tb)
    ensures tb.locks.Keys <= Abstract(tb).serving.Values <==>
            forall k <- tb.locks :: exists t <- tb.handles :: tb.handles[t] == Handle(k, tb.locks[k])
  {
    forall k <- tb.locks
      ensures k in Abstract(tb).serving.Values <==>
              exists t <- tb.handles :: tb.handles[t] == Handle(k, tb.locks[k])
    {
      ServedExactly(tb, k);
    }
  }

  lemma FullOfServed(served: set<Key>, locked: set<Key>, maxSize: nat, key: Key)
    requires served <= locked && |locked| <= maxSize
    ensures key !in locked && |locked| == maxSize && locked <= served <==> key !in served && |served| >= maxSize
  {
    SubsetCount(served, locked);
    if locked <= served {
      assert served == locked;
    } else {
      assert |served| != |locked|;
    }
  }

  /** A lock is refused if and only if as many other requests as the table holds are being served. */
  lemma RefusedExactly(tb: Table, maxSize: nat, key: Key)
    requires Valid(tb, maxSize)
    ensures var served := Abstract(tb).serving.Values;
            DeliveryLock(tb, maxSize, key).1.None? <==> key !in served && |served| >= maxSize
  {
    var served, locked := Abstract(tb).serving.Values, tb.locks.Keys;
    assert |locked| == |tb.locks|;
    assert served <= locked by {
      ServedAreLocked(tb);
    }
    assert DeliveryLock(tb, maxSize, key).1.None? <==>
           (key !in tb.locks && |tb.locks| == maxSize && locked <= served) by {
      NoneExactlyWhenFull(tb, maxSize, key);
      AllServedExactly(tb);
    }
    FullOfServed(served, locked, maxSize, key);
  }

  lemma LockKeepsHandles(tb: Table, maxSize: nat, key: Key)
    requires Valid(tb, maxSize)
    ensures var (tb', _) := DeliveryLock(tb, maxSize, key);
            tb'.handles == tb.handles && tb'.inside == tb.inside
  {
    RoomMade(tb, maxSize);
  }

  lemma NewHandle(tb: Table, tb': Table, task: TaskId, h: Handle)
    requires tb'.handles == tb.handles[task := h] && tb'.inside == tb.inside
    ensures Abstract(tb') == Desk(Abstract(tb).serving[task := h.key], tb.inside)
  {
  }

  lemma AskRefines(tb: Table, maxSize: nat, task: TaskId, key: Key)
    requires Valid(tb, maxSize) && task !in tb.handles
    ensures Abstract(Step(tb, maxSize, Ask(task, key))) == DeskStep(Abstract(tb), maxSize, Ask(task, key))
  {
    RefusedExactly(tb, maxSize, key);
    LockKeepsHandles(tb, maxSize, key);
    var (tb', lock) := DeliveryLock(tb, maxSize, key);
    assert task !in Abstract(tb).serving;
    if lock.Some? {
      NewHandle(tb, tb'.(handles := tb'.handles[task := Handle(key, lock.value)]), task, Handle(key, lock.value));
    } else {
      assert Abstract(tb') == Abstract(tb);
    }
  }

  lemma EnterRefines(tb: Table, maxSize: nat, task: TaskId)
    requires Valid(tb, maxSize)
    ensures Abstract(Step(tb, maxSize, Enter(task))) == DeskStep(Abstract(tb), maxSize, Enter(task))
  {
    if task in tb.handles {
      var d := Abstract(tb);
      assert forall t <- tb.inside :: d.serving[t] == d.serving[task] <==> tb.handles[t].lock == tb.handles[task].lock;
    }
  }

  lemma LetGoRefines(tb: Table, maxSize: nat, task: TaskId)
    ensures Abstract(Step(tb, maxSize, LetGo(task))) == DeskStep(Abstract(tb), maxSize, LetGo(task))
  {
  }

  /** Over every run, the table of locks that are handed out, shared and forgotten does what one
      mutex per request would do. */
  lemma {:induction false} RefinesMutexPerRequest(maxSize: nat, run: seq<Action>)
    ensures Abstract(Run(maxSize, run)) == DeskRun(maxSize, run)
  {
    if run != [] {
      var tb := Run(maxSize, run[..|run| - 1]);
      RefinesMutexPerRequest(maxSize, run[..|run| - 1]);
      AlwaysValid(maxSize, run[..|run| - 1]);
      match run[|run| - 1] {
        case Ask(task, key) =>
          if task !in tb.handles {
            AskRefines(tb, maxSize, task, key);
          }
        case Enter(task) => EnterRefines(tb, maxSize, task);
        case LetGo(task) => LetGoRefines(tb, maxSize, task);
      }
    }
  }
}
