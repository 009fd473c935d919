/** In-flight ACK tracking (`InFlightAcks` in `src/dm.rs`): waiters pinned to a protocol
    version, a recipient and perhaps a machine, and what each of them ever gets to see. */
module InFlightAcks {
  import opened Bytes

  const DM_PROTOCOL_DURABLE_ACK: nat := 2

  type RequestId = nat
  type AgentId = nat
  type MachineId = nat
  type WaiterId = nat

  datatype Outcome = Accepted | RejectedByPolicy(reason: string) | IdempotencyConflict(reason: string)
  datatype Ingress = DirectTyped | Subscription

  /** What an ACK must satisfy to resolve a waiter. */
  datatype Binding = Binding(version: nat, recipient: AgentId, machine: Option<MachineId>)

  /** An authenticated ACK and, when the transport is observed, how it came in. */
  datatype Ack = Ack(version: nat, sender: AgentId, machine: MachineId, outcome: Outcome, ingress: Option<Ingress>)

  datatype Waiter = Waiter(id: WaiterId, binding: Binding)

  /** The waiter map, and what the waiters' channels and ingress cells hold. */
  datatype State = State(
    pending: map<RequestId, Waiter>,
    nextWaiter: WaiterId,
    outcomes: map<WaiterId, Outcome>,
    ingress: map<WaiterId, Ingress>)

  const EmptyState := State(map[], 0, map[], map[])

  /** `ack_binding_matches` */
  predicate Matches(b: Binding, ack: Ack) {
    b.version == ack.version && b.recipient == ack.sender && (b.machine.None? || b.machine.value == ack.machine)
  }

  /** `register_for_protocol_with_provenance`: an earlier waiter of the request is replaced. */
  function Register(s: State, request: RequestId, b: Binding): State {
    s.(pending := s.pending[request := Waiter(s.nextWaiter, b)], nextWaiter := s.nextWaiter + 1)
  }

  /** `resolve_inner` */
  function Resolve(s: State, request: RequestId, ack: Ack): (State, bool) {
    if request in s.pending && Matches(s.pending[request].binding, ack) then
      var w := s.pending[request];
      var stamped := if ack.ingress.Some? && w.binding.version >= DM_PROTOCOL_DURABLE_ACK
                     then s.ingress[w.id := ack.ingress.value] else s.ingress;
      (s.(pending := s.pending - {request}, outcomes := s.outcomes[w.id := ack.outcome], ingress := stamped), true)
    else
      (s, false)
  }

  function Cancel(s: State, request: RequestId): State {
    s.(pending := s.pending - {request})
  }

  class InFlight {
    var pending: map<RequestId, Waiter>
    var nextWaiter: WaiterId
    var outcomes: map<WaiterId, Outcome>
    var ingress: map<WaiterId, Ingress>

    function View(): State
      reads this
    {
      State(pending, nextWaiter, outcomes, ingress)
    }

    constructor ()
      ensures View() == EmptyState
    {
      pending, nextWaiter, outcomes, ingress := map[], 0, map[], map[];
    }

    method RegisterWaiter(request: RequestId, b: Binding) returns (id: WaiterId)
      modifies this
      ensures View() == Register(old(View()), request, b) && id == old(nextWaiter)
    {
      id := nextWaiter;
      pending := pending[request := Waiter(id, b)];
      nextWaiter := nextWaiter + 1;
    }

    method ResolveWaiter(request: RequestId, ack: Ack) returns (resolved: bool)
      modifies this
      ensures (View(), resolved) == Resolve(old(View()), request, ack)
    {
      if request in pending && Matches(pending[request].binding, ack) {
        var waiter := pending[request];
        pending := pending - {request};
        if ack.ingress.Some? && waiter.binding.version >= DM_PROTOCOL_DURABLE_ACK {
          ingress := ingress[waiter.id := ack.ingress.value];
        }
        outcomes := outcomes[waiter.id := ack.outcome];
        return true;
      }
      return false;
    }

    method CancelWaiter(request: RequestId)
      modifies this`pending
      ensures View() == Cancel(old(View()), request)
    {
      pending := pending - {request};
    }
  }

  // ---------------------------------------------------------------- runs

  datatype Action =
    | Registered(request: RequestId, binding: Binding)
    | Acked(request: RequestId, ack: Ack)
    | Cancelled(request: RequestId)

  function Step(s: State, a: Action): State {
    match a
    case Registered(r, b) => Register(s, r, b)
    case Acked(r, ack) => Resolve(s, r, ack).0
    case Cancelled(r) => Cancel(s, r)
  }

  function Run(run: seq<Action>): State {
    if run == [] then EmptyState else Step(Run(run[..|run| - 1]), run[|run| - 1])
  }

  /** The object goes through a run as the runs of the values do. */
  method Execute(run: seq<Action>) returns (acks: InFlight)
    ensures fresh(acks) && acks.View() == Run(run)
  {
    acks := new InFlight();
    for i := 0 to |run|
      invariant fresh(acks) && acks.View() == Run(run[..i])
    {
      assert run[..i + 1][..i] == run[..i];
      match run[i] {
        case Registered(request, binding) => var _ := acks.RegisterWaiter(request, binding);
        case Acked(request, ack) => var _ := acks.ResolveWaiter(request, ack);
        case Cancelled(request) => acks.CancelWaiter(request);
      }
    }
    assert run[..|run|] == run;
  }

  /** What becomes of a waiter. */
  datatype Fate = Open | ResolvedBy(at: nat) | Abandoned

  /** The fate of the waiter registered at `i`, read off the run alone: the first ACK for its
      request in its protocol version, from its recipient and from its machine if one is pinned,
      unless the request is cancelled or registered anew before. */
  function FateOf(run: seq<Action>, i: nat): (fate: Fate)
    requires i < |run| && run[i].Registered?
    ensures fate.ResolvedBy? ==>
              && i < fate.at < |run| && run[fate.at].Acked? && run[fate.at].request == run[i].request
              && run[fate.at].ack.version == run[i].binding.version
              && run[fate.at].ack.sender == run[i].binding.recipient
              && (run[i].binding.machine.Some? ==> run[fate.at].ack.machine == run[i].binding.machine.value)
  {
    var n := |run| - 1;
    if n == i then Open
    else
      var before := FateOf(run[..n], i);
      if before != Open || run[n].request != run[i].request then before
      else match run[n]
           case Registered(_, _) => Abandoned
           case Cancelled(_) => Abandoned
           case Acked(_, ack) =>
             var b := run[i].binding;
             if ack.version != b.version || ack.sender != b.recipient then Open
             else if b.machine == None || b.machine == Some(ack.machine) then ResolvedBy(n)
             else Open
  }

  /** The number of the waiter registered at `i`. */
  function WaiterAt(run: seq<Action>, i: nat): WaiterId
    requires i < |run|
  {
    Run(run[..i]).nextWaiter
  }

  /** No waiter is pending twice, or both pending and resolved. */
  ghost predicate Consistent(s: State) {
    && (forall r <- s.pending :: s.pending[r].id < s.nextWaiter && s.pending[r].id !in s.outcomes)
    && (forall r, q :: r in s.pending && q in s.pending && s.pending[r].id == s.pending[q].id ==> r == q)
    && (forall w <- s.outcomes :: w < s.nextWaiter)
    && s.ingress.Keys <= s.outcomes.Keys
  }

  lemma {:induction false} AlwaysConsistent(run: seq<Action>)
    ensures Consistent(Run(run))
  {
    if run != [] {
      AlwaysConsistent(run[..|run| - 1]);
      ConsistentStep(Run(run[..|run| - 1]), run[|run| - 1]);
    }
  }

  lemma ConsistentStep(s: State, a: Action)
    requires Consistent(s)
    ensures Consistent(Step(s, a))
  {
  }

  /** What the state says of a waiter with this fate. */
  ghost predicate Shows(s: State, run: seq<Action>, i: nat, w: WaiterId, fate: Fate)
    requires i < |run| && run[i].Registered?
    requires fate.ResolvedBy? ==> fate.at < |run| && run[fate.at].Acked?
  {
    && w < s.nextWaiter
    && match fate
       case Open =>
         && run[i].request in s.pending && s.pending[run[i].request] == Waiter(w, run[i].binding)
         && w !in s.outcomes && w !in s.ingress
       case Abandoned =>
         && (forall r <- s.pending :: s.pending[r].id != w)
         && w !in s.outcomes && w !in s.ingress
       case ResolvedBy(j) =>
         && (forall r <- s.pending :: s.pending[r].id != w)
         && w in s.outcomes && s.outcomes[w] == run[j].ack.outcome
         && (if run[j].ack.ingress.Some? && run[i].binding.version >= DM_PROTOCOL_DURABLE_ACK
             then w in s.ingress && s.ingress[w] == run[j].ack.ingress.value
             else w !in s.ingress)
  }

  lemma ShowsStep(s: State, run: seq<Action>, i: nat, w: WaiterId)
    requires i + 1 < |run| && run[i].Registered? && Consistent(s)
    requires Shows(s, run[..|run| - 1], i, w, FateOf(run[..|run| - 1], i))
    ensures Shows(Step(s, run[|run| - 1]), run, i, w, FateOf(run, i))
  {
  }

  /** Over every interleaving of registrations, ACKs and cancellations, each waiter sees
      exactly its fate: one outcome, from the first matching ACK while it is the request's
      waiter, and nothing otherwise; and an ingress stamp exactly when that ACK has one and
      the waiter asked for a durable receipt. */
  lemma {:induction false} WaiterSeesItsFate(run: seq<Action>, i: nat)
    requires i < |run| && run[i].Registered?
    ensures Shows(Run(run), run, i, WaiterAt(run, i), FateOf(run, i))
    decreases |run|
  {
    var n := |run| - 1;
    AlwaysConsistent(run[..n]);
    if i == n {
      assert run[..i] == run[..n];
    } else {
      assert run[..n][..i] == run[..i];
      WaiterSeesItsFate(run[..n], i);
      ShowsStep(Run(run[..n]), run, i, WaiterAt(run, i));
    }
  }

  /** So an outcome comes from an ACK after the registration, for its request, in its version,
      from its recipient and, if one is pinned, from its machine. */
  lemma OutcomeHasItsAck(run: seq<Action>, i: nat)
    requires i < |run| && run[i].Registered? && WaiterAt(run, i) in Run(run).outcomes
    ensures exists j ::
              && i < j < |run| && run[j].Acked? && run[j].request == run[i].request
              && run[j].ack.version == run[i].binding.version && run[j].ack.sender == run[i].binding.recipient
              && (run[i].binding.machine.Some? ==> run[j].ack.machine == run[i].binding.machine.value)
              && Run(run).outcomes[WaiterAt(run, i)] == run[j].ack.outcome
  {
    WaiterSeesItsFate(run, i);
  }

  /** An ACK resolves if and only if a waiter for the request is pending and version, recipient
      and pinned machine are those of the ACK; any other ACK changes nothing at all. */
  lemma MismatchedAckIsNothing(s: State, request: RequestId, ack: Ack)
    requires Consistent(s)
    ensures Resolve(s, request, ack).1
       <==> (&& request in s.pending
             && s.pending[request].binding.version == ack.version
             && s.pending[request].binding.recipient == ack.sender
             && (s.pending[request].binding.machine.Some? ==>
                   s.pending[request].binding.machine.value == ack.machine))
    ensures Resolve(s, request, ack).0 == s <==> !Resolve(s, request, ack).1
  {
  }

  /** Every outcome and every stamp anyone ever sees belongs to some registered waiter. */
  lemma {:induction false} OutcomesHaveWaiters(run: seq<Action>, w: WaiterId)
    requires w < Run(run).nextWaiter
    ensures exists i :: 0 <= i < |run| && run[i].Registered? && WaiterAt(run, i) == w
  {
    if run != [] {
      var n := |run| - 1;
      if w < Run(run[..n]).nextWaiter {
        OutcomesHaveWaiters(run[..n], w);
        var i :| 0 <= i < n && run[..n][i].Registered? && WaiterAt(run[..n], i) == w;
        assert run[..n][..i] == run[..i];
      } else {
        assert WaiterAt(run, n) == w;
      }
    }
  }
}
