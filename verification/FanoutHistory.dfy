/** The fan-out service told as a book of calls: who subscribed, who left, who closed, and for
    every message who took it and who was found closed. The service keeps no such book; over
    every interleaving its registry, its running deliveries, its counters and its pull channel
    say what the book says. */
module FanoutHistory {
  import opened Bytes
  import opened DirectFanout

  /** One `handle_incoming`: the members it started with, those that took the message, those
      found closed, and whether it has returned. */
  datatype Call = Call(msg: Message, snapshot: set<Id>, took: set<Id>, refused: set<Id>, returned: bool)

  /** Ids up to `issued` were given out. Of the messages offered to the pull API, `accepted`
      are those it had room for, and the first `read` of them were read. */
  datatype Book = Book(issued: nat, closed: set<Id>, members: set<Id>, calls: seq<Call>, accepted: seq<Message>,
                       read: nat)

  predicate Running(b: Book, t: nat) {
    t < |b.calls| && !b.calls[t].returned
  }

  /** The call meets one more member of its snapshot. */
  function Meet(c: Call, id: Id, isClosed: bool): Call {
    if id !in c.snapshot - c.took - c.refused then c
    else if isClosed then c.(refused := c.refused + {id})
    else c.(took := c.took + {id})
  }

  function Write(b: Book, capacity: nat, a: Action): Book {
    match a
    case Subscribe => b.(issued := b.issued + 1, members := b.members + {b.issued + 1})
    case Arrive(m) => b.(calls := b.calls + [Call(m, b.members, {}, {}, false)])
    case PushTo(t, id) =>
      if !Running(b, t) then b else b.(calls := b.calls[t := Meet(b.calls[t], id, id in b.closed)])
    case Finish(t) =>
      if !Running(b, t) || b.calls[t].took + b.calls[t].refused != b.calls[t].snapshot then b
      else
        var c := b.calls[t];
        b.(calls := b.calls[t := c.(returned := true)], members := b.members - c.refused,
           accepted := if |b.accepted| - b.read < capacity then b.accepted + [c.msg] else b.accepted)
    case Pop(_) => b
    case Pull => if b.read < |b.accepted| then b.(read := b.read + 1) else b
    case Unregister(id) => b.(members := b.members - {id})
    case Close(id) => if 1 <= id <= b.issued then b.(closed := b.closed + {id}) else b
  }

  function BookOf(capacity: nat, run: seq<Action>): Book {
    if run == [] then Book(0, {}, {}, [], [], 0)
    else Write(BookOf(capacity, run[..|run| - 1]), capacity, run[|run| - 1])
  }

  // ---------------------------------------------------------------- what can be read off the book

  /** How often a delivery found a subscriber closed. */
  function Refusals(calls: seq<Call>): nat {
    if calls == [] then 0 else Refusals(calls[..|calls| - 1]) + |calls[|calls| - 1].refused|
  }

  /** How many deliveries that returned had been taken by someone. */
  function Taken(calls: seq<Call>): nat {
    if calls == [] then 0
    else Taken(calls[..|calls| - 1])
         + (if calls[|calls| - 1].returned && calls[|calls| - 1].took != {} then 1 else 0)
  }

  /** The registry and the queues say who is there and who is closed. */
  ghost predicate SameMembers(s: State, b: Book) {
    && s.registered == b.members && s.nextId == b.issued + 1
    && (forall id :: id in s.queues <==> 1 <= id <= b.issued)
    && (forall id <- s.queues :: s.queues[id].closed <==> id in b.closed)
    && (forall id <- b.members :: id in s.queues) && (forall id <- b.closed :: id in s.queues)
  }

  /** A running delivery is the open part of its call. */
  ghost predicate SameCall(task: Task, c: Call) {
    && task.msg == c.msg && task.refused == c.refused && task.delivered == |c.took|
    && task.todo == c.snapshot - c.took - c.refused && c.took <= c.snapshot && c.refused <= c.snapshot
    && c.took !! c.refused
  }

  ghost predicate SameCalls(s: State, b: Book) {
    && s.nextTask == |b.calls|
    && (forall t :: t in s.tasks <==> Running(b, t))
    && (forall t <- s.tasks :: SameCall(s.tasks[t], b.calls[t]))
    && (forall t :: 0 <= t < |b.calls| ==> forall id <- b.calls[t].snapshot :: id in s.queues)
  }

  /** A call that has returned had reached everyone. */
  ghost predicate Complete(c: Call) {
    c.returned ==> c.took + c.refused == c.snapshot && c.took !! c.refused
  }

  ghost predicate SameCounts(s: State, b: Book) {
    && s.counters.envelopes == |b.calls|
    && s.counters.closed == Refusals(b.calls)
    && s.counters.deliveredEnvelopes == Taken(b.calls)
  }

  ghost predicate SamePull(s: State, b: Book, capacity: nat) {
    b.read <= |b.accepted| && s.pull == b.accepted[b.read..] && |s.pull| <= capacity
  }

  // ---------------------------------------------------------------- step by step

  lemma {:induction false} SumsUpdate(calls: seq<Call>, t: nat, c: Call)
    requires t < |calls|
    ensures Refusals(calls[t := c]) == Refusals(calls) - |calls[t].refused| + |c.refused|
    ensures var counts := (x: Call) => if x.returned && x.took != {} then 1 else 0;
            Taken(calls[t := c]) == Taken(calls) - counts(calls[t]) + counts(c)
  {
    var n := |calls| - 1;
    if t == n {
      assert calls[t := c][..n] == calls[..n];
    } else {
      assert calls[t := c][..n] == calls[..n][t := c];
      SumsUpdate(calls[..n], t, c);
    }
  }

  lemma SumsAppend(calls: seq<Call>, c: Call)
    ensures Refusals(calls + [c]) == Refusals(calls) + |c.refused|
    ensures Taken(calls + [c]) == Taken(calls) + if c.returned && c.took != {} then 1 else 0
  {
    assert (calls + [c])[..|calls|] == calls;
  }

  lemma MembersAfterPush(s: State, b: Book, t: nat, id: Id)
    requires SameMembers(s, b)
    ensures SameMembers(Step(s, PushTo(t, id)), Write(b, s.capacity, PushTo(t, id)))
  {
  }

  lemma MembersStep(s: State, b: Book, a: Action)
    requires SameMembers(s, b) && SameCalls(s, b)
    ensures SameMembers(Step(s, a), Write(b, s.capacity, a))
  {
    if a.PushTo? {
      MembersAfterPush(s, b, a.task, a.id);
    } else if a.Finish? && a.task in s.tasks {
      TodoExactly(s.tasks[a.task], b.calls[a.task]);
    }
  }

  lemma TodoExactly(task: Task, c: Call)
    requires SameCall(task, c)
    ensures task.todo == {} <==> c.took + c.refused == c.snapshot
  {
    if task.todo == {} {
      forall id <- c.snapshot ensures id in c.took + c.refused {
        assert id !in task.todo;
      }
    }
  }

  /** One round of a delivery. */
  lemma MeetsOne(s: State, b: Book, t: nat, id: Id)
    requires SameMembers(s, b) && t in s.tasks && Running(b, t) && SameCall(s.tasks[t], b.calls[t])
    requires id in s.tasks[t].todo && id in s.queues
    ensures SameCall(TaskAfter(s.tasks[t], id, s.queues[id]), Meet(b.calls[t], id, id in b.closed))
  {
  }

  lemma CallsAfterPush(s: State, b: Book, t: nat, id: Id)
    requires SameMembers(s, b) && SameCalls(s, b)
    ensures SameCalls(Step(s, PushTo(t, id)), Write(b, s.capacity, PushTo(t, id)))
  {
    if t in s.tasks {
      if id in s.tasks[t].todo {
        assert id in b.calls[t].snapshot;
        MeetsOne(s, b, t, id);
      } else {
        assert Meet(b.calls[t], id, id in b.closed) == b.calls[t];
        assert b.calls[t := b.calls[t]] == b.calls;
      }
    }
  }

  lemma CallsAfterFinish(s: State, b: Book, t: nat)
    requires SameCalls(s, b)
    ensures SameCalls(Step(s, Finish(t)), Write(b, s.capacity, Finish(t)))
  {
    if t in s.tasks {
      TodoExactly(s.tasks[t], b.calls[t]);
    }
  }

  lemma CallsAfterArrive(s: State, b: Book, m: Message)
    requires SameMembers(s, b) && SameCalls(s, b)
    ensures SameCalls(Step(s, Arrive(m)), Write(b, s.capacity, Arrive(m)))
  {
  }

  lemma CallsStep(s: State, b: Book, a: Action)
    requires SameMembers(s, b) && SameCalls(s, b)
    ensures SameCalls(Step(s, a), Write(b, s.capacity, a))
  {
    match a
    case Arrive(m) => CallsAfterArrive(s, b, m);
    case PushTo(t, id) => CallsAfterPush(s, b, t, id);
    case Finish(t) => CallsAfterFinish(s, b, t);
    case _ =>
  }

  lemma CountsAfterPush(s: State, b: Book, t: nat, id: Id)
    requires SameMembers(s, b) && SameCalls(s, b) && SameCounts(s, b)
    ensures SameCounts(Step(s, PushTo(t, id)), Write(b, s.capacity, PushTo(t, id)))
  {
    if t in s.tasks {
      var c := Meet(b.calls[t], id, id in b.closed);
      SumsUpdate(b.calls, t, c);
      if id in s.tasks[t].todo {
        assert id in b.calls[t].snapshot;
      }
    }
  }

  lemma CountsAfterFinish(s: State, b: Book, t: nat)
    requires SameCalls(s, b) && SameCounts(s, b)
    ensures SameCounts(Step(s, Finish(t)), Write(b, s.capacity, Finish(t)))
  {
    if t in s.tasks {
      TodoExactly(s.tasks[t], b.calls[t]);
      SumsUpdate(b.calls, t, b.calls[t].(returned := true));
    }
  }

  lemma CountsStep(s: State, b: Book, a: Action)
    requires SameMembers(s, b) && SameCalls(s, b) && SameCounts(s, b)
    ensures SameCounts(Step(s, a), Write(b, s.capacity, a))
  {
    match a
    case Arrive(m) => SumsAppend(b.calls, Call(m, b.members, {}, {}, false));
    case PushTo(t, id) => CountsAfterPush(s, b, t, id);
    case Finish(t) => CountsAfterFinish(s, b, t);
    case _ =>
  }

  lemma PullStep(s: State, b: Book, a: Action)
    requires SameCalls(s, b) && SamePull(s, b, s.capacity)
    ensures SamePull(Step(s, a), Write(b, s.capacity, a), s.capacity)
  {
    if a.Finish? && a.task in s.tasks {
      TodoExactly(s.tasks[a.task], b.calls[a.task]);
    }
  }

  lemma CompleteStep(b: Book, capacity: nat, a: Action)
    requires forall c <- b.calls :: Complete(c) && c.took !! c.refused
    ensures forall c <- Write(b, capacity, a).calls :: Complete(c) && c.took !! c.refused
  {
  }

  // ---------------------------------------------------------------- over every run

  ghost predicate Agree(s: State, b: Book) {
    && SameMembers(s, b) && SameCalls(s, b) && SameCounts(s, b) && SamePull(s, b, s.capacity)
    && (forall c <- b.calls :: Complete(c) && c.took !! c.refused)
  }

  lemma AgreeStep(s: State, b: Book, a: Action)
    requires Agree(s, b)
    ensures Agree(Step(s, a), Write(b, s.capacity, a)) && Step(s, a).capacity == s.capacity
  {
    MembersStep(s, b, a);
    CallsStep(s, b, a);
    CountsStep(s, b, a);
    PullStep(s, b, a);
    CompleteStep(b, s.capacity, a);
  }

  /** Over every interleaving: exactly those are registered who subscribed, did not leave and
      were not found closed by a delivery that returned; every delivery that returned had
      reached everyone it started with, once; envelopes, envelopes taken and refusals are
      counted as the book has them; and the pull channel holds, in order, what it had room for
      and was not read. */
  lemma {:induction false} ServiceKeepsTheBook(capacity: nat, run: seq<Action>)
    ensures Agree(Run(Start(capacity), run), BookOf(Max(capacity, 1), run))
    ensures Run(Start(capacity), run).capacity == Max(capacity, 1)
  {
    if run != [] {
      var rest := run[..|run| - 1];
      ServiceKeepsTheBook(capacity, rest);
      AgreeStep(Run(Start(capacity), rest), BookOf(Max(capacity, 1), rest), run[|run| - 1]);
    }
  }
}
