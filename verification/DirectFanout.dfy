/** The direct-message fan-out of `src/direct.rs`: bounded drop-oldest subscriber queues, the
    registry, and deliveries that interleave with subscribers reading, leaving and closing. */
module DirectFanout {
  import opened Bytes

  type Id = nat

  datatype Message = Message(sender: nat, payload: Bytes)

  /** `DirectSubscriberQueue` */
  datatype Queue = Queue(buffer: seq<Message>, closed: bool, capacity: nat)

  /** `DirectSubscriberPush` */
  datatype Outcome = Delivered | DeliveredWithEviction | Closed

  // ---------------------------------------------------------------- one queue

  predicate Evicts(q: Queue) {
    !q.closed && |q.buffer| >= q.capacity
  }

  /** `push_drop_oldest` */
  function Push(q: Queue, m: Message): (Queue, Outcome) {
    if q.closed then (q, Closed)
    else if |q.buffer| >= q.capacity then
      (q.(buffer := (if q.buffer == [] then [] else q.buffer[1..]) + [m]), DeliveredWithEviction)
    else (q.(buffer := q.buffer + [m]), Delivered)
  }

  /** `pop_front` */
  function PopFront(q: Queue): (Queue, Option<Message>) {
    if q.buffer == [] then (q, None) else (q.(buffer := q.buffer[1..]), Some(q.buffer[0]))
  }

  // ---------------------------------------------------------------- the service

  /** A `handle_incoming` under way: the part of its snapshot it has not reached, how many
      queues took the message, and the subscribers it found closed. */
  datatype Task = Task(msg: Message, todo: set<Id>, delivered: nat, refused: set<Id>)

  datatype Counters = Counters(envelopes: nat, deliveredEnvelopes: nat, lagged: nat, evicted: nat, closed: nat)

  datatype State = State(queues: map<Id, Queue>, registered: set<Id>, nextId: Id, capacity: nat,
                         tasks: map<nat, Task>, nextTask: nat, counters: Counters, pull: seq<Message>)

  /** `with_subscriber_capacity` */
  function Start(capacity: nat): State {
    State(map[], {}, 1, Max(capacity, 1), map[], 0, Counters(0, 0, 0, 0, 0), [])
  }

  datatype Action =
    | Subscribe
    | Arrive(msg: Message)
    | PushTo(task: nat, id: Id)
    | Finish(task: nat)
    | Pop(id: Id)
    | Pull
    | Unregister(id: Id)
    | Close(id: Id)

  predicate Reaches(s: State, t: nat, id: Id) {
    t in s.tasks && id in s.tasks[t].todo && id in s.queues
  }

  function TaskAfter(task: Task, id: Id, q: Queue): Task {
    if q.closed then task.(todo := task.todo - {id}, refused := task.refused + {id})
    else task.(todo := task.todo - {id}, delivered := task.delivered + 1)
  }

  function CountersAfter(c: Counters, q: Queue): Counters {
    if q.closed then c.(closed := c.closed + 1)
    else if Evicts(q) then c.(lagged := c.lagged + 1, evicted := c.evicted + 1)
    else c
  }

  /** One round of the loop over the snapshot. */
  function PushOne(s: State, t: nat, id: Id): State
    requires Reaches(s, t, id)
  {
    var q := s.queues[id];
    s.(queues := s.queues[id := Push(q, s.tasks[t].msg).0], tasks := s.tasks[t := TaskAfter(s.tasks[t], id, q)],
       counters := CountersAfter(s.counters, q))
  }

  function Received(c: Counters): Counters {
    c.(envelopes := c.envelopes + 1)
  }

  /** An envelope counts as delivered if someone took it. */
  function Settled(c: Counters, delivered: nat): Counters {
    c.(deliveredEnvelopes := c.deliveredEnvelopes + (if delivered > 0 then 1 else 0))
  }

  /** The copy for the pull API: a bounded channel that takes nothing more when it is full. */
  function Offer(pull: seq<Message>, capacity: nat, m: Message): seq<Message> {
    if |pull| < capacity then pull + [m] else pull
  }

  /** After the loop: count the envelope, drop the closed subscribers, offer the pull copy. */
  function FinishTask(s: State, t: nat): State
    requires t in s.tasks
  {
    var task := s.tasks[t];
    s.(registered := s.registered - task.refused, tasks := s.tasks - {t},
       counters := Settled(s.counters, task.delivered), pull := Offer(s.pull, s.capacity, task.msg))
  }

  /** Every step of every thread; a step that is not possible changes nothing. */
  function Step(s: State, a: Action): State {
    match a
    case Subscribe =>
      s.(queues := s.queues[s.nextId := Queue([], false, s.capacity)], registered := s.registered + {s.nextId},
         nextId := s.nextId + 1)
    case Arrive(m) =>
      s.(tasks := s.tasks[s.nextTask := Task(m, s.registered, 0, {})], nextTask := s.nextTask + 1,
         counters := Received(s.counters))
    case PushTo(t, id) => if Reaches(s, t, id) then PushOne(s, t, id) else s
    case Finish(t) => if t in s.tasks && s.tasks[t].todo == {} then FinishTask(s, t) else s
    case Pop(id) => if id in s.queues then s.(queues := s.queues[id := PopFront(s.queues[id]).0]) else s
    case Pull => if s.pull == [] then s else s.(pull := s.pull[1..])
    case Unregister(id) => s.(registered := s.registered - {id})
    case Close(id) => if id in s.queues then s.(queues := s.queues[id := s.queues[id].(closed := true)]) else s
  }

  function Run(s: State, run: seq<Action>): State {
    if run == [] then s else Step(Run(s, run[..|run| - 1]), run[|run| - 1])
  }

  // ---------------------------------------------------------------- what a subscriber sees

  datatype Event = Took(msg: Message, evicting: bool) | Gave(msg: Message) | Quiet

  /** What a push and a read are to the subscriber, by their outcome. */
  function PushEvent(o: Outcome, m: Message): Event {
    match o
    case Delivered => Took(m, false)
    case DeliveredWithEviction => Took(m, true)
    case Closed => Quiet
  }

  function PopEvent(m: Option<Message>): Event {
    if m.Some? then Gave(m.value) else Quiet
  }

  /** What a step is to one subscriber. */
  function EventOf(s: State, a: Action, id: Id): Event {
    match a
    case PushTo(t, i) =>
      if i == id && Reaches(s, t, i) then PushEvent(Push(s.queues[i], s.tasks[t].msg).1, s.tasks[t].msg) else Quiet
    case Pop(i) => if i == id && i in s.queues then PopEvent(PopFront(s.queues[i]).1) else Quiet
    case _ => Quiet
  }

  /** The messages queued for a subscriber, and those it read, oldest first. */
  datatype Story = Story(pushed: seq<Message>, popped: seq<Message>, evictions: nat)

  function Extend(h: Story, e: Event): Story {
    match e
    case Took(m, evicting) => h.(pushed := h.pushed + [m], evictions := h.evictions + (if evicting then 1 else 0))
    case Gave(m) => h.(popped := h.popped + [m])
    case Quiet => h
  }

  function StoryOf(s: State, run: seq<Action>, id: Id): Story {
    if run == [] then Story([], [], 0)
    else
      var rest := run[..|run| - 1];
      Extend(StoryOf(s, rest, id), EventOf(Run(s, rest), run[|run| - 1], id))
  }

  // ---------------------------------------------------------------- conservation

  /** `a` is `b` with some messages left out. */
  predicate Thinned(a: seq<Message>, b: seq<Message>) {
    a == []
    || (b != [] && (Thinned(a, b[..|b| - 1])
                    || (a[|a| - 1] == b[|b| - 1] && Thinned(a[..|a| - 1], b[..|b| - 1]))))
  }

  function Gone(h: Story): nat {
    |h.popped| + h.evictions
  }

  /** The buffer is the end of what was queued. */
  ghost predicate Conserved(q: Queue, h: Story) {
    Gone(h) <= |h.pushed| && q.buffer == h.pushed[Gone(h)..] && |q.buffer| <= q.capacity
  }

  /** What was read came in order, and all of it if nothing was evicted. */
  ghost predicate InOrder(h: Story) {
    && Gone(h) <= |h.pushed| && Thinned(h.popped, h.pushed[..Gone(h)])
    && (h.evictions == 0 ==> h.popped == h.pushed[..Gone(h)])
  }

  lemma ThinnedMore(a: seq<Message>, b: seq<Message>, m: Message)
    requires Thinned(a, b)
    ensures Thinned(a, b + [m]) && Thinned(a + [m], b + [m])
  {
  }

  lemma PushConserves(q: Queue, h: Story, m: Message)
    requires Conserved(q, h) && q.capacity > 0 && !q.closed
    ensures Conserved(Push(q, m).0, Extend(h, Took(m, Evicts(q))))
  {
  }

  lemma PushInOrder(h: Story, m: Message, evicting: bool)
    requires InOrder(h) && (evicting ==> Gone(h) < |h.pushed|)
    ensures InOrder(Extend(h, Took(m, evicting)))
  {
    if evicting {
      ThinnedMore(h.popped, h.pushed[..Gone(h)], h.pushed[Gone(h)]);
      assert (h.pushed + [m])[..Gone(h) + 1] == h.pushed[..Gone(h)] + [h.pushed[Gone(h)]];
    } else {
      assert (h.pushed + [m])[..Gone(h)] == h.pushed[..Gone(h)];
    }
  }

  lemma PopInOrder(h: Story)
    requires InOrder(h) && Gone(h) < |h.pushed|
    ensures InOrder(Extend(h, Gave(h.pushed[Gone(h)])))
  {
    ThinnedMore(h.popped, h.pushed[..Gone(h)], h.pushed[Gone(h)]);
    assert h.pushed[..Gone(h) + 1] == h.pushed[..Gone(h)] + [h.pushed[Gone(h)]];
  }

  /** The queue of one subscriber, if it exists yet. */
  ghost predicate Accounted(s: State, h: Story, id: Id) {
    if id in s.queues
    then s.queues[id].capacity == s.capacity && Conserved(s.queues[id], h) && InOrder(h) && id < s.nextId
    else h == Story([], [], 0)
  }

  lemma AccountedStep(s: State, h: Story, a: Action, id: Id)
    requires Accounted(s, h, id) && s.capacity > 0
    ensures Accounted(Step(s, a), Extend(h, EventOf(s, a, id)), id) && Step(s, a).capacity == s.capacity
  {
    if id in s.queues {
      match a
      case PushTo(t, i) =>
        if i == id && Reaches(s, t, i) && !s.queues[i].closed {
          PushConserves(s.queues[i], h, s.tasks[t].msg);
          PushInOrder(h, s.tasks[t].msg, Evicts(s.queues[i]));
        }
      case Pop(i) =>
        if i == id && s.queues[i].buffer != [] {
          PopInOrder(h);
        }
      case _ =>
    }
  }

  lemma {:induction false} AccountedAlways(capacity: nat, run: seq<Action>, id: Id)
    ensures Accounted(Run(Start(capacity), run), StoryOf(Start(capacity), run, id), id)
    ensures Run(Start(capacity), run).capacity == Max(capacity, 1)
  {
    if run != [] {
      var rest := run[..|run| - 1];
      AccountedAlways(capacity, rest, id);
      AccountedStep(Run(Start(capacity), rest), StoryOf(Start(capacity), rest, id), run[|run| - 1], id);
    }
  }

  /** Over every interleaving: a subscriber's buffer is the end of what was queued for it, no
      longer than the capacity; everything queued was read, evicted or is still buffered; what
      was read is in order, and complete when nothing was evicted. */
  lemma BufferIsRecentSuffix(capacity: nat, run: seq<Action>, id: Id)
    ensures var s, h := Run(Start(capacity), run), StoryOf(Start(capacity), run, id);
            id in s.queues ==> RecentSuffix(s.queues[id], h, Max(capacity, 1))
  {
    AccountedAlways(capacity, run, id);
    var s, h := Run(Start(capacity), run), StoryOf(Start(capacity), run, id);
    if id in s.queues {
      SuffixLength(s.queues[id], h);
    }
  }

  ghost predicate RecentSuffix(q: Queue, h: Story, capacity: nat) {
    && |q.buffer| <= capacity
    && |h.pushed| == |h.popped| + h.evictions + |q.buffer|
    && q.buffer == h.pushed[|h.pushed| - |q.buffer|..]
    && Thinned(h.popped, h.pushed[..|h.pushed| - |q.buffer|])
    && (h.evictions == 0 ==> h.popped == h.pushed[..|h.popped|])
  }

  lemma SuffixLength(q: Queue, h: Story)
    requires Conserved(q, h) && InOrder(h)
    ensures RecentSuffix(q, h, q.capacity)
  {
    assert |h.pushed| - |q.buffer| == Gone(h);
  }

  /** A read hands out the oldest message that was neither read nor evicted, and nothing only if
      there is none. */
  lemma ReadsOldest(capacity: nat, run: seq<Action>, id: Id)
    requires id in Run(Start(capacity), run).queues
    ensures var h := StoryOf(Start(capacity), run, id);
            PopFront(Run(Start(capacity), run).queues[id]).1
            == if Gone(h) < |h.pushed| then Some(h.pushed[Gone(h)]) else None
  {
    AccountedAlways(capacity, run, id);
  }

  // ---------------------------------------------------------------- the eviction counter

  /** Evictions of all subscribers below `n`. */
  function TotalEvictions(s: State, run: seq<Action>, n: nat): nat {
    if n == 0 then 0 else TotalEvictions(s, run, n - 1) + StoryOf(s, run, n - 1).evictions
  }

  predicate EvictsAt(s: State, a: Action)
    requires a.PushTo?
  {
    EventOf(s, a, a.id).Took? && EventOf(s, a, a.id).evicting
  }

  lemma {:induction false} TotalStep(s: State, run: seq<Action>, n: nat)
    requires run != []
    ensures var rest, a := run[..|run| - 1], run[|run| - 1];
            var evicts := a.PushTo? && a.id < n && EvictsAt(Run(s, rest), a);
            TotalEvictions(s, run, n) == TotalEvictions(s, rest, n) + (if evicts then 1 else 0)
  {
    if n > 0 {
      TotalStep(s, run, n - 1);
    }
  }

  lemma CounterStep(s: State, a: Action)
    ensures var s', more := Step(s, a), if a.PushTo? && EvictsAt(s, a) then 1 else 0;
            && s'.counters.evicted == s.counters.evicted + more && s'.counters.lagged == s.counters.lagged + more
            && s'.nextId == s.nextId + (if a.Subscribe? then 1 else 0)
            && (a.PushTo? && EvictsAt(s, a) ==> a.id in s.queues)
  {
  }

  lemma NewcomerHasNone(capacity: nat, run: seq<Action>)
    requires run != [] && run[|run| - 1].Subscribe?
    ensures var id := Run(Start(capacity), run[..|run| - 1]).nextId; StoryOf(Start(capacity), run, id).evictions == 0
  {
    var rest := run[..|run| - 1];
    AccountedAlways(capacity, rest, Run(Start(capacity), rest).nextId);
  }

  /** The global counters are the sum over the subscribers. */
  lemma {:induction false} EvictionsAddUp(capacity: nat, run: seq<Action>)
    ensures var s := Run(Start(capacity), run);
            s.counters.evicted == s.counters.lagged == TotalEvictions(Start(capacity), run, s.nextId)
  {
    if run == [] {
      assert TotalEvictions(Start(capacity), [], 1) == TotalEvictions(Start(capacity), [], 0);
    } else {
      var rest, a := run[..|run| - 1], run[|run| - 1];
      var s := Run(Start(capacity), rest);
      EvictionsAddUp(capacity, rest);
      TotalStep(Start(capacity), run, s.nextId);
      CounterStep(s, a);
      if a.PushTo? {
        AccountedAlways(capacity, rest, a.id);
      } else if a.Subscribe? {
        NewcomerHasNone(capacity, run);
      }
    }
  }

  // ---------------------------------------------------------------- one delivery

  /** What a run did for one `handle_incoming`: its message, the subscribers it started with,
      and those whose queue took the message. */
  datatype Ledger = Ledger(msg: Option<Message>, snapshot: set<Id>, took: set<Id>)

  function Enter(l: Ledger, s: State, a: Action, t: nat): Ledger {
    if a.Arrive? && s.nextTask == t then Ledger(Some(a.msg), s.registered, {})
    else if a.PushTo? && a.task == t && EventOf(s, a, a.id).Took? then l.(took := l.took + {a.id})
    else l
  }

  function LedgerOf(s: State, run: seq<Action>, t: nat): Ledger {
    if run == [] then Ledger(None, {}, {})
    else Enter(LedgerOf(s, run[..|run| - 1], t), Run(s, run[..|run| - 1]), run[|run| - 1], t)
  }

  ghost predicate Parts(whole: set<Id>, a: set<Id>, b: set<Id>, c: set<Id>) {
    forall i :: && (i in whole <==> i in a || i in b || i in c)
                && !(i in a && i in b) && !(i in a && i in c) && !(i in b && i in c)
  }

  /** Every subscriber of the snapshot is yet to be reached, has taken the message once, or was
      found closed. */
  ghost predicate Balanced(task: Task, l: Ledger) {
    l.msg == Some(task.msg) && task.delivered == |l.took| && Parts(l.snapshot, task.todo, l.took, task.refused)
  }

  ghost predicate RefusedClosed(s: State, t: nat) {
    t in s.tasks ==> forall i <- s.tasks[t].refused :: i in s.queues && s.queues[i].closed
  }

  lemma RefusedStep(s: State, a: Action, t: nat)
    requires RefusedClosed(s, t) && s.nextId !in s.queues
    ensures RefusedClosed(Step(s, a), t)
  {
  }

  ghost predicate Tracked(s: State, l: Ledger, t: nat) {
    && s.registered <= s.queues.Keys && s.nextId !in s.queues
    && (t in s.tasks ==> t < s.nextTask && Balanced(s.tasks[t], l) && l.snapshot <= s.queues.Keys)
  }

  lemma BalancedPush(s: State, l: Ledger, t: nat, id: Id)
    requires Reaches(s, t, id) && Balanced(s.tasks[t], l)
    ensures Balanced(PushOne(s, t, id).tasks[t], Enter(l, s, PushTo(t, id), t))
  {
  }

  lemma TrackedStep(s: State, l: Ledger, a: Action, t: nat)
    requires Tracked(s, l, t) && Step(s, a).nextId !in Step(s, a).queues
    ensures Tracked(Step(s, a), Enter(l, s, a, t), t)
  {
    if a.PushTo? && a.task == t && Reaches(s, t, a.id) {
      BalancedPush(s, l, t, a.id);
    }
  }

  lemma {:induction false} TrackedAlways(capacity: nat, run: seq<Action>, t: nat)
    ensures Tracked(Run(Start(capacity), run), LedgerOf(Start(capacity), run, t), t)
    ensures RefusedClosed(Run(Start(capacity), run), t)
  {
    if run != [] {
      var rest, a := run[..|run| - 1], run[|run| - 1];
      TrackedAlways(capacity, rest, t);
      RefusedStep(Run(Start(capacity), rest), a, t);
      AccountedAlways(capacity, run, Run(Start(capacity), run).nextId);
      TrackedStep(Run(Start(capacity), rest), LedgerOf(Start(capacity), rest, t), a, t);
    }
  }

  /** When a delivery returns, its count is the number of subscribers that took its message, once
      each; the others of its snapshot had closed, and are no longer registered. */
  lemma DeliveryReachesEveryone(capacity: nat, run: seq<Action>, t: nat)
    requires var s := Run(Start(capacity), run); t in s.tasks && s.tasks[t].todo == {}
    ensures var s, l := Run(Start(capacity), run), LedgerOf(Start(capacity), run, t);
            && l.msg == Some(s.tasks[t].msg)
            && s.tasks[t].delivered == |l.took|
            && l.took + s.tasks[t].refused == l.snapshot && l.took !! s.tasks[t].refused
            && (forall i <- s.tasks[t].refused :: i in s.queues && s.queues[i].closed)
            && Step(s, Finish(t)).registered == s.registered - (l.snapshot - l.took)
  {
    TrackedAlways(capacity, run, t);
    var s, l := Run(Start(capacity), run), LedgerOf(Start(capacity), run, t);
    assert l.snapshot - l.took == s.tasks[t].refused;
  }

  // ---------------------------------------------------------------- isolation

  /** The run without the reads of the other subscribers. */
  function Muted(run: seq<Action>, id: Id): seq<Action> {
    if run == [] then []
    else
      var rest, a := Muted(run[..|run| - 1], id), run[|run| - 1];
      if a.Pop? && a.id != id then rest else rest + [a]
  }

  /** The same but for what other subscribers have buffered. */
  ghost predicate Alike(s: State, s': State, id: Id) {
    && s.registered == s'.registered && s.nextId == s'.nextId && s.capacity == s'.capacity
    && s.tasks == s'.tasks && s.nextTask == s'.nextTask && s.pull == s'.pull
    && s.queues.Keys == s'.queues.Keys
    && (forall i <- s.queues :: s.queues[i].closed == s'.queues[i].closed)
    && (id in s.queues ==> s.queues[id] == s'.queues[id])
  }

  lemma AlikeStep(s: State, s': State, a: Action, id: Id)
    requires Alike(s, s', id)
    ensures Alike(Step(s, a), Step(s', a), id) && EventOf(s, a, id) == EventOf(s', a, id)
  {
    if a.PushTo? && Reaches(s, a.task, a.id) {
      AlikePush(s, s', a.task, a.id, id);
    }
  }

  lemma AlikePush(s: State, s': State, t: nat, i: Id, id: Id)
    requires Alike(s, s', id) && Reaches(s, t, i)
    ensures Reaches(s', t, i) && Alike(PushOne(s, t, i), PushOne(s', t, i), id)
  {
  }

  lemma {:induction false} MutedRun(s: State, run: seq<Action>, id: Id)
    ensures Alike(Run(s, run), Run(s, Muted(run, id)), id)
    ensures StoryOf(s, run, id) == StoryOf(s, Muted(run, id), id)
  {
    if run != [] {
      var rest, a := run[..|run| - 1], run[|run| - 1];
      MutedRun(s, rest, id);
      if !(a.Pop? && a.id != id) {
        AlikeStep(Run(s, rest), Run(s, Muted(rest, id)), a, id);
        assert Muted(run, id)[..|Muted(run, id)| - 1] == Muted(rest, id);
      }
    }
  }

  /** How fast the others read changes nothing for a subscriber: runs that agree but for the
      others' reads give it the same messages, evictions and buffer. */
  lemma SlowSubscribersAreIsolated(s: State, one: seq<Action>, two: seq<Action>, id: Id)
    requires Muted(one, id) == Muted(two, id)
    ensures StoryOf(s, one, id) == StoryOf(s, two, id)
    ensures id in Run(s, one).queues <==> id in Run(s, two).queues
    ensures id in Run(s, one).queues ==> Run(s, one).queues[id] == Run(s, two).queues[id]
    ensures Run(s, one).tasks == Run(s, two).tasks && Run(s, one).registered == Run(s, two).registered
    ensures Run(s, one).pull == Run(s, two).pull
  {
    MutedRun(s, one, id);
    MutedRun(s, two, id);
  }

  // ---------------------------------------------------------------- an undisturbed delivery

  function Open(queues: map<Id, Queue>, ids: set<Id>): set<Id> {
    set i | i in ids && i in queues && !queues[i].closed
  }

  function Shut(queues: map<Id, Queue>, ids: set<Id>): set<Id> {
    set i | i in ids && i in queues && queues[i].closed
  }

  function Full(queues: map<Id, Queue>, ids: set<Id>): set<Id> {
    set i | i in ids && i in queues && Evicts(queues[i])
  }

  function PushAll(queues: map<Id, Queue>, ids: set<Id>, m: Message): map<Id, Queue> {
    map i | i in queues :: if i in ids then Push(queues[i], m).0 else queues[i]
  }

  /** The counters after reaching these subscribers. */
  function Counted(c: Counters, queues: map<Id, Queue>, ids: set<Id>): Counters {
    c.(envelopes := c.envelopes + 1, lagged := c.lagged + |Full(queues, ids)|,
       evicted := c.evicted + |Full(queues, ids)|,
       closed := c.closed + |Shut(queues, ids)|)
  }

  /** `handle_incoming` with nothing in between: every open queue takes the message, closed
      subscribers leave the registry. */
  function Deliver(s: State, m: Message): State {
    s.(queues := PushAll(s.queues, s.registered, m), registered := Open(s.queues, s.registered),
       nextTask := s.nextTask + 1,
       counters := Settled(Counted(s.counters, s.queues, s.registered), |Open(s.queues, s.registered)|),
       pull := Offer(s.pull, s.capacity, m))
  }

  function TaskAt(s: State, m: Message, done: set<Id>): Task {
    Task(m, s.registered - done, |Open(s.queues, done)|, Shut(s.queues, done))
  }

  /** The state with part of the snapshot reached. */
  function Midway(s: State, m: Message, done: set<Id>): State {
    s.(queues := PushAll(s.queues, done, m), tasks := s.tasks[s.nextTask := TaskAt(s, m, done)],
       nextTask := s.nextTask + 1,
       counters := Counted(s.counters, s.queues, done))
  }

  lemma OneMoreOpen(queues: map<Id, Queue>, done: set<Id>, i: Id)
    requires i in queues && i !in done
    ensures var open, open' := Open(queues, done), Open(queues, done + {i});
            && open' == (if queues[i].closed then open else open + {i})
            && |open'| == |open| + (if queues[i].closed then 0 else 1)
  {
  }

  lemma OneMoreFull(queues: map<Id, Queue>, done: set<Id>, i: Id)
    requires i in queues && i !in done
    ensures |Full(queues, done + {i})| == |Full(queues, done)| + (if Evicts(queues[i]) then 1 else 0)
  {
    var full, full' := Full(queues, done), Full(queues, done + {i});
    assert full' == if Evicts(queues[i]) then full + {i} else full;
  }

  lemma OneMoreShut(queues: map<Id, Queue>, done: set<Id>, i: Id)
    requires i in queues && i !in done
    ensures var shut, shut' := Shut(queues, done), Shut(queues, done + {i});
            && shut' == (if queues[i].closed then shut + {i} else shut)
            && |shut'| == |shut| + (if queues[i].closed then 1 else 0)
  {
  }

  lemma OneMoreCounted(c: Counters, queues: map<Id, Queue>, done: set<Id>, i: Id)
    requires i in queues && i !in done
    ensures Counted(c, queues, done + {i}) == CountersAfter(Counted(c, queues, done), queues[i])
  {
    OneMoreFull(queues, done, i);
    OneMoreShut(queues, done, i);
  }

  lemma OneMoreTask(s: State, m: Message, done: set<Id>, i: Id)
    requires i in s.queues && i !in done
    ensures TaskAt(s, m, done + {i}) == TaskAfter(TaskAt(s, m, done), i, s.queues[i])
  {
    OneMoreOpen(s.queues, done, i);
    OneMoreShut(s.queues, done, i);
    assert s.registered - (done + {i}) == s.registered - done - {i};
  }

  lemma OneMorePushed(queues: map<Id, Queue>, done: set<Id>, m: Message, i: Id)
    requires i in queues && i !in done
    ensures PushAll(queues, done + {i}, m) == PushAll(queues, done, m)[i := Push(queues[i], m).0]
    ensures i in PushAll(queues, done, m) && PushAll(queues, done, m)[i] == queues[i]
  {
  }

  lemma MidwayStep(s: State, m: Message, done: set<Id>, i: Id)
    requires s.registered <= s.queues.Keys && i in s.registered && i !in done
    ensures Step(Midway(s, m, done), PushTo(s.nextTask, i)) == Midway(s, m, done + {i})
  {
    var mid := Midway(s, m, done);
    OneMorePushed(s.queues, done, m, i);
    assert Reaches(mid, s.nextTask, i) && mid.queues[i] == s.queues[i];
    assert CountersAfter(mid.counters, s.queues[i]) == Counted(s.counters, s.queues, done + {i}) by {
      OneMoreCounted(s.counters, s.queues, done, i);
    }
    assert TaskAfter(TaskAt(s, m, done), i, s.queues[i]) == TaskAt(s, m, done + {i}) by {
      OneMoreTask(s, m, done, i);
    }
  }

  function Pushes(t: nat, order: seq<Id>): seq<Action> {
    if order == [] then [] else Pushes(t, order[..|order| - 1]) + [PushTo(t, order[|order| - 1])]
  }

  /** One call from start to end, over its snapshot in some order. */
  function Call(s: State, m: Message, order: seq<Id>): seq<Action> {
    [Arrive(m)] + Pushes(s.nextTask, order) + [Finish(s.nextTask)]
  }

  ghost predicate NoRepeats(order: seq<Id>) {
    forall i, j :: 0 <= i < j < |order| ==> order[i] != order[j]
  }

  lemma RunLast(s: State, run: seq<Action>, a: Action)
    ensures Run(s, run + [a]) == Step(Run(s, run), a)
  {
  }

  function Begun(s: State, m: Message, order: seq<Id>): State {
    Run(s, [Arrive(m)] + Pushes(s.nextTask, order))
  }

  lemma BegunFirst(s: State, m: Message)
    ensures Begun(s, m, []) == Midway(s, m, {})
  {
    RunLast(s, [], Arrive(m));
    assert [Arrive(m)] + Pushes(s.nextTask, []) == [] + [Arrive(m)];
    assert PushAll(s.queues, {}, m) == s.queues && s.registered - {} == s.registered;
    NoneReached(s.counters, s.queues);
  }

  lemma BegunNext(s: State, m: Message, order: seq<Id>)
    requires order != []
    ensures Begun(s, m, order) == Step(Begun(s, m, order[..|order| - 1]), PushTo(s.nextTask, order[|order| - 1]))
  {
    var before := [Arrive(m)] + Pushes(s.nextTask, order[..|order| - 1]);
    assert [Arrive(m)] + Pushes(s.nextTask, order) == before + [PushTo(s.nextTask, order[|order| - 1])];
    RunLast(s, before, PushTo(s.nextTask, order[|order| - 1]));
  }

  /** The ids of a walk. */
  function Ids(order: seq<Id>): set<Id> {
    if order == [] then {} else Ids(order[..|order| - 1]) + {order[|order| - 1]}
  }

  lemma {:induction false} IdsAreMembers(order: seq<Id>, i: Id)
    ensures i in Ids(order) <==> i in order
  {
    if order != [] {
      IdsAreMembers(order[..|order| - 1], i);
      assert order == order[..|order| - 1] + [order[|order| - 1]];
    }
  }

  lemma {:induction false} MidwayRun(s: State, m: Message, order: seq<Id>)
    requires s.registered <= s.queues.Keys && NoRepeats(order) && Ids(order) <= s.registered
    ensures Begun(s, m, order) == Midway(s, m, Ids(order))
  {
    if order == [] {
      BegunFirst(s, m);
    } else {
      var rest, last := order[..|order| - 1], order[|order| - 1];
      MidwayRun(s, m, rest);
      IdsAreMembers(rest, last);
      MidwayNext(s, m, order, Ids(rest));
    }
  }

  lemma MidwayNext(s: State, m: Message, order: seq<Id>, before: set<Id>)
    requires s.registered <= s.queues.Keys && order != []
    requires var last := order[|order| - 1]; last in s.registered && last !in before
    requires Begun(s, m, order[..|order| - 1]) == Midway(s, m, before)
    ensures Begun(s, m, order) == Midway(s, m, before + {order[|order| - 1]})
  {
    MidwayStep(s, m, before, order[|order| - 1]);
    BegunNext(s, m, order);
  }

  lemma MidwayFinish(s: State, m: Message)
    requires s.registered <= s.queues.Keys && s.nextTask !in s.tasks
    ensures Step(Midway(s, m, s.registered), Finish(s.nextTask)) == Deliver(s, m)
  {
    var mid, open := Midway(s, m, s.registered), Open(s.queues, s.registered);
    assert mid.tasks - {s.nextTask} == s.tasks;
    assert s.registered - Shut(s.queues, s.registered) == open;
  }

  /** Whatever order the registry is walked in, an undisturbed call has the same effect. */
  lemma OrderDoesNotMatter(s: State, m: Message, order: seq<Id>)
    requires s.registered <= s.queues.Keys && s.nextTask !in s.tasks
    requires NoRepeats(order) && Ids(order) == s.registered
    ensures Run(s, Call(s, m, order)) == Deliver(s, m)
  {
    MidwayRun(s, m, order);
    RunLast(s, [Arrive(m)] + Pushes(s.nextTask, order), Finish(s.nextTask));
    MidwayFinish(s, m);
  }

  /** What the loop has done after a walk: as the rounds one by one. */
  function Walked(m: Message, queues: map<Id, Queue>, order: seq<Id>): Task {
    if order == [] || order[|order| - 1] !in queues then Task(m, queues.Keys, 0, {})
    else TaskAfter(Walked(m, queues, order[..|order| - 1]), order[|order| - 1], queues[order[|order| - 1]])
  }

  function WalkedCounters(c: Counters, queues: map<Id, Queue>, order: seq<Id>): Counters {
    if order == [] || order[|order| - 1] !in queues then c
    else CountersAfter(WalkedCounters(c, queues, order[..|order| - 1]), queues[order[|order| - 1]])
  }

  lemma {:induction false} WalkedTodo(m: Message, queues: map<Id, Queue>, order: seq<Id>)
    requires Ids(order) <= queues.Keys
    ensures Walked(m, queues, order).todo == queues.Keys - Ids(order)
  {
    if order != [] {
      WalkedTodo(m, queues, order[..|order| - 1]);
    }
  }

  lemma WalkFurther(m: Message, c: Counters, queues: map<Id, Queue>, order: seq<Id>, id: Id)
    requires NoRepeats(order) && Ids(order) <= queues.Keys && id in Walked(m, queues, order).todo
    ensures id in queues && NoRepeats(order + [id]) && Ids(order + [id]) == Ids(order) + {id} <= queues.Keys
    ensures Walked(m, queues, order + [id]) == TaskAfter(Walked(m, queues, order), id, queues[id])
    ensures WalkedCounters(c, queues, order + [id]) == CountersAfter(WalkedCounters(c, queues, order), queues[id])
  {
    WalkedTodo(m, queues, order);
    assert (order + [id])[..|order|] == order;
    IdsAreMembers(order, id);
  }

  /** The rounds one by one and the walk as a whole. */
  lemma {:induction false} WalkedIs(m: Message, c: Counters, queues: map<Id, Queue>, order: seq<Id>)
    requires NoRepeats(order) && Ids(order) <= queues.Keys
    ensures Walked(m, queues, order)
         == Task(m, queues.Keys - Ids(order), |Open(queues, Ids(order))|, Shut(queues, Ids(order)))
    ensures WalkedCounters(Received(c), queues, order) == Counted(c, queues, Ids(order))
  {
    if order == [] {
      NoneReached(c, queues);
    } else {
      var rest, last := order[..|order| - 1], order[|order| - 1];
      WalkedIs(m, c, queues, rest);
      IdsAreMembers(rest, last);
      OneMoreTask(State(queues, queues.Keys, 0, 0, map[], 0, c, []), m, Ids(rest), last);
      OneMoreCounted(c, queues, Ids(rest), last);
    }
  }

  lemma WalkedAll(m: Message, c: Counters, queues: map<Id, Queue>, order: seq<Id>)
    requires NoRepeats(order) && Ids(order) == queues.Keys
    ensures Walked(m, queues, order) == Task(m, {}, |Open(queues, queues.Keys)|, Shut(queues, queues.Keys))
    ensures WalkedCounters(Received(c), queues, order) == Counted(c, queues, queues.Keys)
  {
    WalkedIs(m, c, queues, order);
  }

  /** What a call leaves: it delivered to the open queues, found the others closed, and counted. */
  ghost predicate FannedOut(queues: map<Id, Queue>, c: Counters, delivered: nat, refused: set<Id>, c': Counters) {
    && delivered == |Open(queues, queues.Keys)| && refused == Shut(queues, queues.Keys)
    && c' == Settled(Counted(c, queues, queues.Keys), delivered)
  }

  lemma WalkedFansOut(m: Message, c: Counters, queues: map<Id, Queue>, order: seq<Id>, delivered: nat, refused: set<Id>)
    requires NoRepeats(order) && Ids(order) == queues.Keys
             && Walked(m, queues, order) == Task(m, {}, delivered, refused)
    ensures FannedOut(queues, c, delivered, refused, Settled(WalkedCounters(Received(c), queues, order), delivered))
  {
    WalkedAll(m, c, queues, order);
  }

  lemma NoneReached(c: Counters, queues: map<Id, Queue>)
    ensures Open(queues, {}) == {} && Shut(queues, {}) == {} && Counted(c, queues, {}) == Received(c)
  {
    assert Full(queues, {}) == {};
  }

  // ---------------------------------------------------------------- the classes

  class SubscriberQueue {
    var queue: seq<Message>
    var closed: bool
    const capacity: nat
    /** The id it is registered under. */
    ghost const id: Id

    function View(): Queue
      reads this
    {
      Queue(queue, closed, capacity)
    }

    constructor (capacity: nat, ghost id: Id)
      ensures View() == Queue([], false, capacity) && this.id == id
    {
      this.capacity, this.id := capacity, id;
      queue, closed := [], false;
    }

    method PushDropOldest(m: Message) returns (o: Outcome)
      modifies this`queue
      ensures (View(), o) == Push(old(View()), m)
    {
      if closed {
        return Closed;
      }
      var evicted := false;
      if |queue| >= capacity {
        if queue != [] {
          queue := queue[1..];
        }
        evicted := true;
      }
      queue := queue + [m];
      o := if evicted then DeliveredWithEviction else Delivered;
    }

    method TryRecv() returns (m: Option<Message>)
      modifies this`queue
      ensures (View(), m) == PopFront(old(View()))
    {
      if queue == [] {
        return None;
      }
      m := Some(queue[0]);
      queue := queue[1..];
    }

    method CloseQueue()
      modifies this`closed
      ensures View() == old(View()).(closed := true)
    {
      closed := true;
    }
  }

  class DirectMessaging {
    var subscribers: map<Id, SubscriberQueue>
    var nextId: Id
    const capacity: nat
    var counters: Counters
    var pull: seq<Message>

    /** No queue is registered under two ids, and ids to come are unused. */
    ghost predicate Valid()
      reads this
    {
      capacity >= 1 && forall i <- subscribers :: subscribers[i].id == i && i < nextId
    }

    constructor (requested: nat)
      ensures Valid() && subscribers == map[] && nextId == 1 && capacity == Max(requested, 1)
      ensures counters == Counters(0, 0, 0, 0, 0) && pull == []
    {
      subscribers, nextId, capacity := map[], 1, Max(requested, 1);
      counters, pull := Counters(0, 0, 0, 0, 0), [];
    }

    method SubscribeDirect() returns (id: Id, q: SubscriberQueue)
      requires Valid()
      modifies this`subscribers, this`nextId
      ensures Valid() && fresh(q) && id == old(nextId) && nextId == old(nextId) + 1
      ensures subscribers == old(subscribers)[id := q] && id !in old(subscribers)
      ensures q.View() == Queue([], false, capacity)
    {
      id := nextId;
      q := new SubscriberQueue(capacity, id);
      nextId := nextId + 1;
      subscribers := subscribers[id := q];
    }

    method DropReceiver(id: Id, q: SubscriberQueue)
      requires Valid() && (id in subscribers ==> subscribers[id] == q)
      modifies this`subscribers, q`closed
      ensures Valid() && subscribers == old(subscribers) - {id} && q.View() == old(q.View()).(closed := true)
    {
      subscribers := subscribers - {id};
      q.CloseQueue();
    }

    method RemoveSubscribers(ids: set<Id>)
      requires Valid()
      modifies this`subscribers
      ensures Valid() && subscribers == old(subscribers) - ids
    {
      if ids != {} {
        subscribers := subscribers - ids;
      }
    }

    method CountDelivered(delivered: nat)
      modifies this`counters
      ensures counters == Settled(old(counters), delivered)
    {
      if delivered > 0 {
        counters := counters.(deliveredEnvelopes := counters.deliveredEnvelopes + 1);
      }
    }

    /** One round of the loop. */
    method DeliverTo(q: SubscriberQueue, m: Message) returns (taken: bool)
      modifies this`counters, q`queue
      ensures q.View() == Push(old(q.View()), m).0 && taken == !old(q.closed)
      ensures counters == CountersAfter(old(counters), old(q.View()))
    {
      var outcome := q.PushDropOldest(m);
      match outcome {
        case Delivered =>
        case DeliveredWithEviction =>
          counters := counters.(lagged := counters.lagged + 1, evicted := counters.evicted + 1);
        case Closed =>
          counters := counters.(closed := counters.closed + 1);
      }
      taken := !outcome.Closed?;
    }

    /** It leaves the other queues of the snapshot alone. */
    method Round(ghost snapshot: map<Id, SubscriberQueue>, ghost id: Id, q: SubscriberQueue, m: Message,
                 ghost before: Queue)
      returns (taken: bool)
      requires id in snapshot && snapshot[id] == q && forall i <- snapshot :: snapshot[i].id == i
      requires q.View() == before
      modifies this`counters, q`queue
      ensures q.View() == Push(before, m).0 && taken == !before.closed
      ensures forall i <- snapshot :: i != id ==> snapshot[i].View() == old(snapshot[i].View())
      ensures counters == CountersAfter(old(counters), before)
    {
      taken := DeliverTo(q, m);
    }

    /** The loop over the snapshot, in any order. */
    method Walk(m: Message, snapshot: map<Id, SubscriberQueue>, ghost before: map<Id, Queue>)
      returns (delivered: nat, removeIds: set<Id>, ghost order: seq<Id>)
      requires forall i <- snapshot :: snapshot[i].id == i
      requires before.Keys == snapshot.Keys && forall i <- snapshot :: before[i] == snapshot[i].View()
      modifies this`counters, snapshot.Values
      ensures forall i <- snapshot :: snapshot[i].View() == Push(before[i], m).0
      ensures NoRepeats(order) && Ids(order) == snapshot.Keys
      ensures Walked(m, before, order) == Task(m, {}, delivered, removeIds)
      ensures counters == WalkedCounters(old(counters), before, order)
    {
      delivered, removeIds, order := 0, {}, [];
      var todo := snapshot.Keys;
      while todo != {}
        invariant NoRepeats(order) && Ids(order) <= snapshot.Keys && todo <= snapshot.Keys
        invariant forall i <- todo :: snapshot[i].View() == before[i]
        invariant forall i <- Ids(order) :: snapshot[i].View() == Push(before[i], m).0
        invariant Walked(m, before, order) == Task(m, todo, delivered, removeIds)
        invariant counters == WalkedCounters(old(counters), before, order)
      {
        var id :| id in todo;
        WalkFurther(m, old(counters), before, order, id);
        var taken := Round(snapshot, id, snapshot[id], m, before[id]);
        if taken {
          delivered := delivered + 1;
        } else {
          removeIds := removeIds + {id};
        }
        order, todo := order + [id], todo - {id};
      }
      WalkedTodo(m, before, order);
    }

    method OfferPull(m: Message)
      modifies this`pull
      ensures pull == Offer(old(pull), capacity, m)
    {
      if |pull| < capacity {
        pull := pull + [m];
      }
    }

    /** The body of `handle_incoming`, accounted for round by round. */
    method Distribute(m: Message, ghost before: map<Id, Queue>)
      returns (delivered: nat, ghost refused: set<Id>, ghost order: seq<Id>)
      requires Valid() && before.Keys == subscribers.Keys
               && forall i <- subscribers :: before[i] == subscribers[i].View()
      modifies this`subscribers, this`counters, this`pull, subscribers.Values
      ensures Valid() && pull == Offer(old(pull), capacity, m)
      ensures forall i <- before :: old(subscribers)[i].View() == Push(before[i], m).0
      ensures NoRepeats(order) && Ids(order) == before.Keys
              && Walked(m, before, order) == Task(m, {}, delivered, refused)
      ensures subscribers == old(subscribers) - refused
      ensures counters == Settled(WalkedCounters(Received(old(counters)), before, order), delivered)
    {
      counters := Received(counters);
      var removeIds;
      delivered, removeIds, order := Walk(m, subscribers, before);
      CountDelivered(delivered);
      RemoveSubscribers(removeIds);
      OfferPull(m);
      refused := removeIds;
    }

    /** `handle_incoming`, with the registered queues as they are found: every queue gets the
        push, the result is the number of open ones, closed subscribers leave, evictions and
        closed queues are counted, and the pull API is offered a copy. */
    method HandleIncoming(m: Message, ghost before: map<Id, Queue>) returns (delivered: nat, ghost refused: set<Id>)
      requires Valid() && before.Keys == subscribers.Keys
               && forall i <- subscribers :: before[i] == subscribers[i].View()
      modifies this`subscribers, this`counters, this`pull, subscribers.Values
      ensures Valid() && pull == Offer(old(pull), capacity, m)
      ensures forall i <- before :: old(subscribers)[i].View() == Push(before[i], m).0
      ensures FannedOut(before, old(counters), delivered, refused, counters)
              && subscribers == old(subscribers) - refused
    {
      ghost var order;
      delivered, refused, order := Distribute(m, before);
      WalkedFansOut(m, old(counters), before, order, delivered, refused);
    }
  }

  /** This is an undisturbed delivery. */
  lemma FannedOutIsDeliver(s: State, m: Message, delivered: nat, refused: set<Id>, c': Counters)
    requires s.registered == s.queues.Keys && FannedOut(s.queues, s.counters, delivered, refused, c')
    ensures var after := Deliver(s, m);
            && after.queues.Keys == s.queues.Keys && (forall i <- s.queues :: after.queues[i] == Push(s.queues[i], m).0)
            && after.registered == s.registered - refused && |after.registered| == delivered
            && after.counters == c' && after.pull == Offer(s.pull, s.capacity, m)
  {
    assert Open(s.queues, s.registered) == s.registered - refused;
  }
}
