/** Delegation envelopes (`src/delegation.rs`): the canonical bytes that are signed, the
    policy each grant must meet, and what re-delegation can and cannot pass on. */
module Delegation {
  import opened Bytes

  datatype Scope = TaskExecute | SendAs

  datatype Verb = Claim | Complete | SendPublicMessage {
    function Scope(): Scope {
      match this
      case Claim => TaskExecute
      case Complete => TaskExecute
      case SendPublicMessage => SendAs
    }
  }

  datatype Delegation = Delegation(
    delegationId: Bytes,
    issuedAt: nat,
    taskRef: Option<Bytes>,
    fromAgent: Bytes,
    toAgent: Bytes,
    scope: Scope,
    verbs: seq<Verb>,
    expiry: nat,
    parent: Option<Bytes>,
    depth: nat,
    groupId: Bytes)

  const MAX_DELEGATION_DEPTH: nat := 2

  predicate Fits32(o: Option<Bytes>) {
    o.Some? ==> |o.value| == 32
  }

  /** The ranges the Rust field types impose. */
  predicate Fits(d: Delegation) {
    && |d.delegationId| == 16 && d.issuedAt <= U64_MAX && Fits32(d.taskRef)
    && |d.fromAgent| == 32 && |d.toAgent| == 32
    && d.expiry <= U64_MAX && Fits32(d.parent) && d.depth < 256
  }

  // ---------------------------------------------------------------- canonical bytes

  // "x0x.delegation.v1"
  const Domain: Bytes := [120, 48, 120, 46, 100, 101, 108, 101, 103, 97, 116, 105, 111, 110, 46, 118, 49]

  function ScopeByte(s: Scope): Byte {
    match s case TaskExecute => 0 case SendAs => 1
  }

  function VerbByte(v: Verb): Byte {
    match v case Claim => 0 case Complete => 1 case SendPublicMessage => 2
  }

  function VerbBytes(verbs: seq<Verb>): (r: Bytes)
    ensures |r| == |verbs| && forall i :: 0 <= i < |r| ==> r[i] == VerbByte(verbs[i])
  {
    seq(|verbs|, i requires 0 <= i < |verbs| => VerbByte(verbs[i]))
  }

  /** A presence byte and the value, in front of `rest`. */
  function PutOption(o: Option<Bytes>, rest: Bytes): Bytes {
    if o.Some? then [1] + (o.value + rest) else [0] + rest
  }

  function GroupPart(d: Delegation): Bytes {
    LittleEndian(4, |d.groupId|) + d.groupId
  }

  function DepthPart(d: Delegation): Bytes {
    [d.depth % 256] + GroupPart(d)
  }

  /** Expiry, parent, depth and group: everything behind the verbs. */
  function Tail(d: Delegation): Bytes {
    BigEndian(8, d.expiry) + PutOption(d.parent, DepthPart(d))
  }

  /** The verb count, cut to a byte, the verbs and the tail. */
  function VerbsAndTail(d: Delegation): Bytes {
    [|d.verbs| % 256] + (VerbBytes(d.verbs) + Tail(d))
  }

  function ScopePart(d: Delegation): Bytes {
    [ScopeByte(d.scope)] + VerbsAndTail(d)
  }

  /** Everything from the delegator on. */
  function Parties(d: Delegation): Bytes {
    d.fromAgent + (d.toAgent + ScopePart(d))
  }

  function TaskPart(d: Delegation): Bytes {
    PutOption(d.taskRef, Parties(d))
  }

  /** `canonical_delegation_bytes` */
  function Canonical(d: Delegation): Bytes {
    Domain + (d.delegationId + (BigEndian(8, d.issuedAt) + TaskPart(d)))
  }

  /** The bytes of scopes and verbs as they are sent. */
  lemma ScopesAndVerbsSpelled(d: Delegation)
    ensures d.scope == SendAs && d.verbs == [SendPublicMessage] ==> ScopePart(d)[..3] == [1, 1, 2]
    ensures d.scope == TaskExecute && d.verbs == [Claim, Complete] ==> ScopePart(d)[..4] == [0, 2, 0, 1]
  {
  }

  lemma OptionInFront(o: Option<Bytes>, rest: Bytes)
    ensures PutOption(o, rest) == PutOption(o, []) + rest
  {
  }

  /** One more segment of `whole` written. */
  lemma Written(out: Bytes, segment: Bytes, rest: Bytes, whole: Bytes)
    requires out + (segment + rest) == whole
    ensures (out + segment) + rest == whole
  {
  }

  method AppendOption(out: Bytes, o: Option<Bytes>) returns (r: Bytes)
    ensures r == out + PutOption(o, [])
  {
    match o
    case Some(value) =>
      r := out + [1];
      r := r + value;
      assert r == out + ([1] + (value + []));
    case None =>
      r := out + [0];
      assert [0] + [] == [0];
  }

  method AppendVerbs(out: Bytes, verbs: seq<Verb>) returns (r: Bytes)
    ensures r == out + VerbBytes(verbs)
  {
    r := out;
    for i := 0 to |verbs|
      invariant r == out + VerbBytes(verbs)[..i]
    {
      r := r + [VerbByte(verbs[i])];
      assert VerbBytes(verbs)[..i + 1] == VerbBytes(verbs)[..i] + [VerbByte(verbs[i])];
    }
    assert VerbBytes(verbs)[..|verbs|] == VerbBytes(verbs);
  }

  /** Everything behind the verbs, appended field by field. */
  method AppendTail(out: Bytes, d: Delegation) returns (r: Bytes)
    ensures r == out + Tail(d)
  {
    ghost var whole := out + Tail(d);
    OptionInFront(d.parent, DepthPart(d));
    Written(out, BigEndian(8, d.expiry), PutOption(d.parent, DepthPart(d)), whole);
    r := out + BigEndian(8, d.expiry);
    Written(r, PutOption(d.parent, []), DepthPart(d), whole);
    r := AppendOption(r, d.parent);
    Written(r, [d.depth % 256], GroupPart(d), whole);
    r := r + [d.depth % 256];
    Written(r, LittleEndian(4, |d.groupId|), d.groupId, whole);
    r := r + LittleEndian(4, |d.groupId|);
    r := r + d.groupId;
  }

  /** The buffer the source fills. */
  method CanonicalBytes(d: Delegation) returns (out: Bytes)
    ensures out == Canonical(d)
  {
    ghost var whole := Canonical(d);
    OptionInFront(d.taskRef, Parties(d));
    out := Domain;
    Written(out, d.delegationId, BigEndian(8, d.issuedAt) + TaskPart(d), whole);
    out := out + d.delegationId;
    Written(out, BigEndian(8, d.issuedAt), TaskPart(d), whole);
    out := out + BigEndian(8, d.issuedAt);
    Written(out, PutOption(d.taskRef, []), Parties(d), whole);
    out := AppendOption(out, d.taskRef);
    Written(out, d.fromAgent, d.toAgent + ScopePart(d), whole);
    out := out + d.fromAgent;
    Written(out, d.toAgent, ScopePart(d), whole);
    out := out + d.toAgent;
    Written(out, [ScopeByte(d.scope)], VerbsAndTail(d), whole);
    out := out + [ScopeByte(d.scope)];
    Written(out, [|d.verbs| % 256], VerbBytes(d.verbs) + Tail(d), whole);
    out := out + [|d.verbs| % 256];
    Written(out, VerbBytes(d.verbs), Tail(d), whole);
    out := AppendVerbs(out, d.verbs);
    out := AppendTail(out, d);
  }

  lemma OptionSplit(o: Option<Bytes>, x: Bytes, p: Option<Bytes>, y: Bytes)
    requires Fits32(o) && Fits32(p) && PutOption(o, x) == PutOption(p, y)
    ensures o == p && x == y
  {
    assert PutOption(o, x)[0] == PutOption(p, y)[0];
    if o.Some? {
      SplitAt([1], o.value + x, [1], p.value + y);
      SplitAt(o.value, x, p.value, y);
    } else {
      SplitAt([0], x, [0], y);
    }
  }

  lemma Width8()
    ensures Pow256(8) == U64_MAX + 1
  {
  }

  /** A 64-bit field in front of the rest is read back. */
  lemma WordSplit(m: nat, x: Bytes, n: nat, y: Bytes)
    requires m <= U64_MAX && n <= U64_MAX && BigEndian(8, m) + x == BigEndian(8, n) + y
    ensures m == n && x == y
  {
    SplitAt(BigEndian(8, m), x, BigEndian(8, n), y);
    Width8();
    BigEndianInjective(8, m, n);
  }

  lemma DepthPartInjective(d: Delegation, e: Delegation)
    requires d.depth < 256 && e.depth < 256 && DepthPart(d) == DepthPart(e)
    ensures d.depth == e.depth && d.groupId == e.groupId
  {
    SplitAt([d.depth], GroupPart(d), [e.depth], GroupPart(e));
    SplitAt(LittleEndian(4, |d.groupId|), d.groupId, LittleEndian(4, |e.groupId|), e.groupId);
  }

  lemma TailInjective(d: Delegation, e: Delegation)
    requires Fits(d) && Fits(e) && Tail(d) == Tail(e)
    ensures d.expiry == e.expiry && d.parent == e.parent && d.depth == e.depth && d.groupId == e.groupId
  {
    WordSplit(d.expiry, PutOption(d.parent, DepthPart(d)), e.expiry, PutOption(e.parent, DepthPart(e)));
    OptionSplit(d.parent, DepthPart(d), e.parent, DepthPart(e));
    DepthPartInjective(d, e);
  }

  lemma VerbBytesInjective(v: seq<Verb>, w: seq<Verb>)
    requires VerbBytes(v) == VerbBytes(w)
    ensures v == w
  {
    assert |v| == |w|;
    forall i | 0 <= i < |v| ensures v[i] == w[i] {
      assert VerbBytes(v)[i] == VerbBytes(w)[i];
    }
  }

  lemma VerbsAndTailInjective(d: Delegation, e: Delegation)
    requires Fits(d) && Fits(e) && VerbsAndTail(d) == VerbsAndTail(e)
    ensures |d.verbs| % 256 == |e.verbs| % 256 && VerbBytes(d.verbs) + Tail(d) == VerbBytes(e.verbs) + Tail(e)
    ensures |d.verbs| == |e.verbs| ==>
              && d.verbs == e.verbs && d.expiry == e.expiry && d.parent == e.parent
              && d.depth == e.depth && d.groupId == e.groupId
  {
    SplitAt([|d.verbs| % 256], VerbBytes(d.verbs) + Tail(d), [|e.verbs| % 256], VerbBytes(e.verbs) + Tail(e));
    if |d.verbs| == |e.verbs| {
      SplitAt(VerbBytes(d.verbs), Tail(d), VerbBytes(e.verbs), Tail(e));
      VerbBytesInjective(d.verbs, e.verbs);
      TailInjective(d, e);
    }
  }

  /** Everything in front of the verbs is bound. */
  lemma PartiesInjective(d: Delegation, e: Delegation)
    requires Fits(d) && Fits(e) && Parties(d) == Parties(e)
    ensures d.fromAgent == e.fromAgent && d.toAgent == e.toAgent && d.scope == e.scope
    ensures VerbsAndTail(d) == VerbsAndTail(e)
  {
    SplitAt(d.fromAgent, d.toAgent + ScopePart(d), e.fromAgent, e.toAgent + ScopePart(e));
    SplitAt(d.toAgent, ScopePart(d), e.toAgent, ScopePart(e));
    SplitAt([ScopeByte(d.scope)], VerbsAndTail(d), [ScopeByte(e.scope)], VerbsAndTail(e));
  }

  lemma HeadInjective(d: Delegation, e: Delegation)
    requires Fits(d) && Fits(e) && Canonical(d) == Canonical(e)
    ensures d.delegationId == e.delegationId && d.issuedAt == e.issuedAt && d.taskRef == e.taskRef
    ensures d.fromAgent == e.fromAgent && d.toAgent == e.toAgent && d.scope == e.scope
    ensures VerbsAndTail(d) == VerbsAndTail(e)
  {
    var x, y := BigEndian(8, d.issuedAt) + TaskPart(d), BigEndian(8, e.issuedAt) + TaskPart(e);
    SplitAt(Domain, d.delegationId + x, Domain, e.delegationId + y);
    SplitAt(d.delegationId, x, e.delegationId, y);
    WordSplit(d.issuedAt, TaskPart(d), e.issuedAt, TaskPart(e));
    OptionSplit(d.taskRef, Parties(d), e.taskRef, Parties(e));
    PartiesInjective(d, e);
  }

  /** Two delegations share canonical bytes only when they are equal in every field or the
      numbers of their verbs differ by a multiple of 256. The group id needs no bound: it
      comes last, so its length is known even where its prefix is cut. */
  lemma SharedBytes(d: Delegation, e: Delegation)
    requires Fits(d) && Fits(e) && Canonical(d) == Canonical(e)
    ensures d == e || (|d.verbs| != |e.verbs| && |d.verbs| % 256 == |e.verbs| % 256)
  {
    HeadInjective(d, e);
    VerbsAndTailInjective(d, e);
  }

  /** Canonical bytes are injective on delegations with at most 255 verbs. */
  lemma CanonicalInjective(d: Delegation, e: Delegation)
    requires Fits(d) && Fits(e) && |d.verbs| <= 255 && |e.verbs| <= 255
    requires Canonical(d) == Canonical(e)
    ensures d == e
  {
    SharedBytes(d, e);
    SmallCounts(|d.verbs|, |e.verbs|);
  }

  lemma SmallCounts(m: nat, n: nat)
    requires m <= 255 && n <= 255
    ensures m % 256 == m && n % 256 == n
  {
  }

  // ---------------------------------------------------------------- policy

  datatype Violation =
    | DepthZero | DepthAboveCap | ExpiryNotAfterIssue | SelfDelegation
    | NoVerbs | VerbOutsideScope | TaskRequired | ParentMismatch

  /** What every grant must be. */
  ghost predicate PolicyOk(d: Delegation) {
    && 1 <= d.depth <= MAX_DELEGATION_DEPTH
    && d.issuedAt < d.expiry
    && d.fromAgent != d.toAgent
    && d.verbs != [] && (forall v <- d.verbs :: v.Scope() == d.scope)
    && (d.scope == TaskExecute ==> d.taskRef.Some?)
    && (d.depth == 1 <==> d.parent.None?)
  }

  /** What each violation says of a grant. */
  ghost predicate Violates(d: Delegation, v: Violation) {
    match v
    case DepthZero => d.depth == 0
    case DepthAboveCap => d.depth > MAX_DELEGATION_DEPTH
    case ExpiryNotAfterIssue => d.expiry <= d.issuedAt
    case SelfDelegation => d.fromAgent == d.toAgent
    case NoVerbs => d.verbs == []
    case VerbOutsideScope => exists verb <- d.verbs :: verb.Scope() != d.scope
    case TaskRequired => d.scope == TaskExecute && d.taskRef.None?
    case ParentMismatch => !(d.depth == 1 <==> d.parent.None?)
  }

  /** The policy is the absence of all of them. */
  lemma PolicyExactly(d: Delegation)
    ensures PolicyOk(d) <==> forall v :: !Violates(d, v)
  {
    if forall v :: !Violates(d, v) {
      assert !Violates(d, DepthZero) && !Violates(d, DepthAboveCap) && !Violates(d, ExpiryNotAfterIssue);
      assert !Violates(d, SelfDelegation) && !Violates(d, NoVerbs) && !Violates(d, VerbOutsideScope);
      assert !Violates(d, TaskRequired) && !Violates(d, ParentMismatch);
    }
  }

  /** The order in which violations are looked for. */
  function Precedence(v: Violation): nat {
    match v
    case DepthZero => 0
    case DepthAboveCap => 1
    case ExpiryNotAfterIssue => 2
    case SelfDelegation => 3
    case NoVerbs => 4
    case VerbOutsideScope => 5
    case TaskRequired => 6
    case ParentMismatch => 7
  }

  /** `validate_policy` */
  method ValidatePolicy(d: Delegation) returns (r: Option<Violation>)
    ensures r.None? <==> PolicyOk(d)
    ensures r.Some? ==> Violates(d, r.value) && forall v | Violates(d, v) :: Precedence(r.value) <= Precedence(v)
  {
    if d.depth == 0 { return Some(DepthZero); }
    if d.depth > MAX_DELEGATION_DEPTH { return Some(DepthAboveCap); }
    if d.expiry <= d.issuedAt { return Some(ExpiryNotAfterIssue); }
    if d.fromAgent == d.toAgent { return Some(SelfDelegation); }
    if d.verbs == [] { return Some(NoVerbs); }
    for i := 0 to |d.verbs|
      invariant forall j :: 0 <= j < i ==> d.verbs[j].Scope() == d.scope
    {
      if d.verbs[i].Scope() != d.scope { return Some(VerbOutsideScope); }
    }
    if d.scope == TaskExecute && d.taskRef.None? { return Some(TaskRequired); }
    if (d.depth == 1) != d.parent.None? { return Some(ParentMismatch); }
    return None;
  }

  // ---------------------------------------------------------------- grants that share their bytes

  /** In a longer send-as grant of the same bytes, its verb stands where the shorter one says
      whether there is a parent. */
  lemma VerbOverPresence(d: Delegation, e: Delegation)
    requires |e.verbs| + 8 < |d.verbs| && VerbBytes(d.verbs) + Tail(d) == VerbBytes(e.verbs) + Tail(e)
    requires forall v <- d.verbs :: v.Scope() == SendAs
    ensures Tail(e)[8] == 2
  {
    var k := |e.verbs| + 8;
    assert (VerbBytes(d.verbs) + Tail(d))[k] == (VerbBytes(e.verbs) + Tail(e))[k];
    assert d.verbs[k] in d.verbs;
  }

  lemma PresenceByte(e: Delegation)
    ensures Tail(e)[8] == if e.parent.Some? then 1 else 0
  {
  }

  lemma NotLonger(d: Delegation, e: Delegation)
    requires VerbBytes(d.verbs) + Tail(d) == VerbBytes(e.verbs) + Tail(e) && |d.verbs| % 256 == |e.verbs| % 256
    requires forall v <- d.verbs :: v.Scope() == SendAs
    ensures |d.verbs| <= |e.verbs|
  {
    if |d.verbs| > |e.verbs| {
      PresenceByte(e);
      VerbOverPresence(d, e);
    }
  }

  /** The verb of a send-as grant is no presence byte, so such grants are bound by their bytes,
      however many verbs they list. */
  lemma SendAsInjective(d: Delegation, e: Delegation)
    requires Fits(d) && Fits(e) && PolicyOk(d) && PolicyOk(e) && d.scope == SendAs
    requires Canonical(d) == Canonical(e)
    ensures d == e
  {
    HeadInjective(d, e);
    VerbsAndTailInjective(d, e);
    NotLonger(d, e);
    NotLonger(e, d);
  }

  function Zeros(n: nat): (z: Bytes)
    ensures |z| == n && forall i :: 0 <= i < n ==> z[i] == 0
  {
    seq(n, i => 0)
  }

  /** 2^48 ms, in the year 10889: its bytes could be verbs. */
  const FAR_EXPIRY: nat := 0x1_0000_0000_0000

  /** The first bytes of the tail of a root grant that expires then, with 256 bytes of group id. */
  const Spelled: Bytes := [0, 1, 0, 0, 0, 0, 0, 0, 0, 1, 0, 1, 0, 0]

  /** The tail of a root grant that expires then and has no group id. */
  const LongTail: Bytes := [0, 1, 0, 0, 0, 0, 0, 0, 0, 1, 0, 0, 0, 0]

  lemma FarExpiryBytes()
    ensures BigEndian(8, FAR_EXPIRY) == [0, 1, 0, 0, 0, 0, 0, 0]
  {
    assert BigEndian(2, 1) == [0, 1] by { assert BigEndian(1, 0) == [0]; }
    assert BigEndian(4, 0x1_0000) == [0, 1, 0, 0] by { assert BigEndian(3, 0x100) == [0, 1, 0]; }
    assert BigEndian(6, 0x1_0000_0000) == [0, 1, 0, 0, 0, 0] by { assert BigEndian(5, 0x100_0000) == [0, 1, 0, 0, 0]; }
    assert BigEndian(7, 0x100_0000_0000) == [0, 1, 0, 0, 0, 0, 0];
  }

  lemma LengthBytes()
    ensures LittleEndian(4, 0) == [0, 0, 0, 0] && LittleEndian(4, 256) == [0, 1, 0, 0]
  {
    assert LittleEndian(2, 0) == [0, 0] && LittleEndian(2, 1) == [1, 0];
    assert LittleEndian(3, 0) == [0, 0, 0] && LittleEndian(3, 1) == [1, 0, 0];
  }

  /** The grant with `n` verbs, and with a group id that ends in the longer grant's tail. */
  function Shorter(base: Delegation, n: nat): Delegation {
    base.(verbs := seq(n, i => Claim), expiry := FAR_EXPIRY, parent := None, depth := 1,
          groupId := Zeros(242) + LongTail)
  }

  /** The grant with 256 verbs more, which spell the shorter one's tail. */
  function Longer(base: Delegation, n: nat): Delegation {
    base.(verbs := seq(n + 256, i => if n <= i < n + 14 && Spelled[i - n] == 1 then Complete else Claim),
          expiry := FAR_EXPIRY, parent := None, depth := 1, groupId := [])
  }

  lemma TailOfLonger(base: Delegation, n: nat)
    ensures Tail(Longer(base, n)) == LongTail
  {
    FarExpiryBytes();
    LengthBytes();
    assert GroupPart(Longer(base, n)) == [0, 0, 0, 0] + [];
  }

  lemma TailOfShorter(base: Delegation, n: nat)
    ensures Tail(Shorter(base, n)) == Spelled + (Zeros(242) + LongTail)
  {
    FarExpiryBytes();
    LengthBytes();
    var group := Zeros(242) + LongTail;
    assert GroupPart(Shorter(base, n)) == [0, 1, 0, 0] + group;
    assert PutOption(None, [1] + ([0, 1, 0, 0] + group)) == [0, 1, 0, 1, 0, 0] + group;
  }

  lemma SpelledVerbs(base: Delegation, n: nat)
    ensures VerbBytes(Longer(base, n).verbs) == VerbBytes(Shorter(base, n).verbs) + (Spelled + Zeros(242))
  {
  }

  /** Policy-valid task grants of every number of verbs share their bytes with another. */
  lemma TaskGrantsCollide(base: Delegation, n: nat)
    requires Fits(base) && PolicyOk(base) && base.scope == TaskExecute && base.issuedAt < FAR_EXPIRY && n > 0
    ensures var d, e := Shorter(base, n), Longer(base, n);
            && Fits(d) && Fits(e) && PolicyOk(d) && PolicyOk(e) && d.scope == e.scope == TaskExecute
            && |d.verbs| == n && |e.verbs| == n + 256 && Canonical(d) == Canonical(e)
  {
    SameVerbsAndTail(base, n);
    SameHead(Shorter(base, n), Longer(base, n));
  }

  lemma Regroup(a: Bytes, b: Bytes, c: Bytes, d: Bytes)
    ensures (a + (b + c)) + d == a + (b + (c + d))
  {
  }

  lemma SameVerbsAndTail(base: Delegation, n: nat)
    ensures VerbsAndTail(Shorter(base, n)) == VerbsAndTail(Longer(base, n))
  {
    TailOfLonger(base, n);
    TailOfShorter(base, n);
    SpelledVerbs(base, n);
    Regroup(VerbBytes(Shorter(base, n).verbs), Spelled, Zeros(242), LongTail);
    assert n % 256 == (n + 256) % 256;
  }

  lemma SameHead(d: Delegation, e: Delegation)
    requires VerbsAndTail(d) == VerbsAndTail(e)
    requires d == e.(verbs := d.verbs, expiry := d.expiry, parent := d.parent, depth := d.depth, groupId := d.groupId)
    ensures Canonical(d) == Canonical(e)
  {
  }

  /** Some policy-valid grant of this scope and number of verbs shares its bytes with another. */
  ghost predicate Ambiguous(scope: Scope, n: nat) {
    exists d, e :: Collide(d, e) && d.scope == scope && |d.verbs| == n
  }

  ghost predicate Collide(d: Delegation, e: Delegation) {
    Fits(d) && Fits(e) && PolicyOk(d) && PolicyOk(e) && d != e && Canonical(d) == Canonical(e)
  }

  /** Among the grants the policy admits, the bytes leave exactly the task grants open. */
  lemma AmbiguousExactly(scope: Scope, n: nat)
    requires n > 0
    ensures Ambiguous(scope, n) <==> scope == TaskExecute
  {
    if scope == TaskExecute {
      var task, from, to := Some(Zeros(32)), Zeros(32), Zeros(31) + [1];
      var base := Delegation(Zeros(16), 0, task, from, to, TaskExecute, [Claim], 1, None, 1, []);
      assert base.toAgent[31] != base.fromAgent[31];
      TaskGrantsCollide(base, n);
      assert Collide(Shorter(base, n), Longer(base, n));
    } else {
      forall d, e | Collide(d, e) && d.scope == scope ensures false {
        SendAsInjective(d, e);
      }
    }
  }

  // ---------------------------------------------------------------- attenuation

  datatype Widening = OtherGroup | OtherScope | VerbAdded | OutlivesParent | OtherTask | TaskDropped

  predicate TaskNarrows(parent: Option<Bytes>, child: Option<Bytes>) {
    parent.None? || (child.Some? && child.value == parent.value)
  }

  /** The field-wise bounds of re-delegation. */
  ghost predicate Attenuated(parent: Delegation, child: Delegation) {
    && parent.groupId == child.groupId
    && parent.scope == child.scope
    && (forall v <- child.verbs :: v in parent.verbs)
    && child.expiry <= parent.expiry
    && TaskNarrows(parent.taskRef, child.taskRef)
  }

  ghost predicate Widens(parent: Delegation, child: Delegation, w: Widening) {
    match w
    case OtherGroup => parent.groupId != child.groupId
    case OtherScope => parent.scope != child.scope
    case VerbAdded => exists v <- child.verbs :: v !in parent.verbs
    case OutlivesParent => child.expiry > parent.expiry
    case OtherTask => parent.taskRef.Some? && child.taskRef.Some? && parent.taskRef != child.taskRef
    case TaskDropped => parent.taskRef.Some? && child.taskRef.None?
  }

  /** The bounds are the absence of all widenings. */
  lemma AttenuatedExactly(parent: Delegation, child: Delegation)
    ensures Attenuated(parent, child) <==> forall w :: !Widens(parent, child, w)
  {
    if forall w :: !Widens(parent, child, w) {
      assert !Widens(parent, child, OtherGroup) && !Widens(parent, child, OtherScope);
      assert !Widens(parent, child, VerbAdded) && !Widens(parent, child, OutlivesParent);
      assert !Widens(parent, child, OtherTask) && !Widens(parent, child, TaskDropped);
    }
  }

  function Rank(w: Widening): nat {
    match w
    case OtherGroup => 0
    case OtherScope => 1
    case VerbAdded => 2
    case OutlivesParent => 3
    case OtherTask => 4
    case TaskDropped => 4
  }

  /** `is_attenuated_by` */
  method IsAttenuatedBy(parent: Delegation, child: Delegation) returns (r: Option<Widening>)
    ensures r.None? <==> Attenuated(parent, child)
    ensures r.Some? ==>
              Widens(parent, child, r.value) && forall w | Widens(parent, child, w) :: Rank(r.value) <= Rank(w)
  {
    if parent.groupId != child.groupId { return Some(OtherGroup); }
    if parent.scope != child.scope { return Some(OtherScope); }
    for i := 0 to |child.verbs|
      invariant forall j :: 0 <= j < i ==> child.verbs[j] in parent.verbs
    {
      if child.verbs[i] !in parent.verbs { return Some(VerbAdded); }
    }
    if child.expiry > parent.expiry { return Some(OutlivesParent); }
    match (parent.taskRef, child.taskRef) {
      case (None, _) =>
      case (Some(p), Some(c)) => if p != c { return Some(OtherTask); }
      case (Some(_), None) => return Some(TaskDropped);
    }
    return None;
  }

  /** What a grant lets its delegate do: this verb, in this group, on this task, at this time. */
  predicate Permits(d: Delegation, group: Bytes, verb: Verb, task: Bytes, now: nat) {
    d.groupId == group && d.scope == verb.Scope() && verb in d.verbs && now < d.expiry
    && (d.taskRef.None? || d.taskRef.value == task)
  }

  /** Whatever the child permits the parent permits. */
  ghost predicate Included(child: Delegation, parent: Delegation) {
    forall group, verb, task, now: nat | |task| == 32 ::
      Permits(child, group, verb, task, now) ==> Permits(parent, group, verb, task, now)
  }

  /** For grants that meet the policy, the field-wise check is exactly inclusion of authority. */
  lemma AttenuationIsInclusion(parent: Delegation, child: Delegation)
    requires Fits(parent) && Fits(child) && PolicyOk(parent) && PolicyOk(child)
    ensures Attenuated(parent, child) <==> Included(child, parent)
  {
    if Included(child, parent) {
      var g, v, t := child.groupId, child.verbs[0], if child.taskRef.Some? then child.taskRef.value else Zeros(32);
      assert Permits(child, g, v, t, child.expiry - 1);
      forall w <- child.verbs ensures w in parent.verbs {
        assert Permits(child, g, w, t, 0);
      }
      if child.taskRef.None? && parent.taskRef.Some? {
        var other := parent.taskRef.value[0 := (parent.taskRef.value[0] + 1) % 256];
        assert other[0] != parent.taskRef.value[0];
        assert Permits(child, g, v, other, 0);
      }
    }
  }

  // ---------------------------------------------------------------- chains

  type Digest = Bytes -> Bytes

  ghost predicate Injective(digest: Digest) {
    forall x, y :: digest(x) == digest(y) ==> x == y
  }

  /** `verify_chain`; the depth is a `u8`. */
  predicate VerifyChain(digest: Digest, parent: Delegation, child: Delegation) {
    && child.parent == Some(digest(Canonical(parent)))
    && parent.toAgent == child.fromAgent
    && child.depth == (parent.depth + 1) % 256
  }

  /** Grants from the first to the leaf, each verified against and attenuated by the one before. */
  ghost predicate Chain(digest: Digest, ds: seq<Delegation>) {
    && ds != []
    && (forall d <- ds :: Fits(d) && PolicyOk(d))
    && (forall i, j :: 0 <= i < j < |ds| && j == i + 1 ==>
          VerifyChain(digest, ds[i], ds[j]) && Attenuated(ds[i], ds[j]))
  }

  lemma IncludedTransitive(a: Delegation, b: Delegation, c: Delegation)
    requires Included(a, b) && Included(b, c)
    ensures Included(a, c)
  {
  }

  /** One link: a policy-valid child verified against and attenuated by a policy-valid parent. */
  lemma Link(digest: Digest, parent: Delegation, child: Delegation)
    requires Fits(parent) && Fits(child) && PolicyOk(parent) && PolicyOk(child)
    requires VerifyChain(digest, parent, child) && Attenuated(parent, child)
    ensures child.depth == parent.depth + 1 && Included(child, parent)
  {
  }

  lemma ChainLink(digest: Digest, ds: seq<Delegation>, i: nat)
    requires Chain(digest, ds) && i + 1 < |ds|
    ensures ds[i + 1].depth == ds[i].depth + 1 && Included(ds[i + 1], ds[i])
  {
    var parent, child := ds[i], ds[i + 1];
    assert parent in ds && child in ds;
    Link(digest, parent, child);
  }

  lemma {:induction false} ChainSoFar(digest: Digest, ds: seq<Delegation>, i: nat)
    requires Chain(digest, ds) && i < |ds|
    ensures ds[i].depth == ds[0].depth + i && Included(ds[i], ds[0])
  {
    if i > 0 {
      ChainSoFar(digest, ds, i - 1);
      ChainLink(digest, ds, i - 1);
      IncludedTransitive(ds[i], ds[i - 1], ds[0]);
    }
  }

  /** Along a chain the leaf's authority is part of the first grant's, and the first grant is
      a parentless root exactly when the chain has as many grants as the leaf's depth says,
      which is at most two. */
  lemma ChainBoundsAuthority(digest: Digest, ds: seq<Delegation>)
    requires Chain(digest, ds)
    ensures Included(ds[|ds| - 1], ds[0])
    ensures ds[0].parent.None? <==> |ds| == ds[|ds| - 1].depth
    ensures |ds| <= 2
  {
    ChainSoFar(digest, ds, |ds| - 1);
    assert ds[0] in ds && ds[|ds| - 1] in ds;
  }

  /** A child names one parent only: two grants of at most 255 verbs it verifies against are the same grant. */
  lemma ParentIsUnique(digest: Digest, p: Delegation, q: Delegation, child: Delegation)
    requires Injective(digest) && Fits(p) && Fits(q) && |p.verbs| <= 255 && |q.verbs| <= 255
    requires VerifyChain(digest, p, child) && VerifyChain(digest, q, child)
    ensures p == q
  {
    assert Canonical(p) == Canonical(q);
    CanonicalInjective(p, q);
  }

  // ---------------------------------------------------------------- use

  /** The first committed grant with this digest. */
  function FindByDigest(digest: Digest, committed: seq<Delegation>, wanted: Bytes): (r: Option<Delegation>)
    ensures r.Some? ==> r.value in committed && digest(Canonical(r.value)) == wanted
    ensures r.None? ==> forall d <- committed :: digest(Canonical(d)) != wanted
  {
    if committed == [] then None
    else if digest(Canonical(committed[0])) == wanted then Some(committed[0])
    else FindByDigest(digest, committed[1..], wanted)
  }

  /** The predicate that admits an act under a grant (`authorize` in `src/server/delegations.rs`). */
  ghost predicate Authorized(digest: Digest, committed: seq<Delegation>, d: Delegation, actor: Bytes, verb: Verb,
                             group: Bytes, now: nat) {
    && d.groupId == group && d.toAgent == actor && d.scope == verb.Scope() && verb in d.verbs && now < d.expiry
    && (d.depth > 1 ==>
          && d.parent.Some?
          && var p := FindByDigest(digest, committed, d.parent.value);
             p.Some? && VerifyChain(digest, p.value, d) && Attenuated(p.value, d) && now < p.value.expiry)
  }

  /** Why an act is refused. */
  datatype Refusal =
    | Quarantined | WrongGroup | NotTheDelegate | OutsideScope | VerbNotGranted | GrantExpired
    | NoParentNamed | ParentNotCommitted | ChainBroken | NotBounded | ParentExpired

  /** `authorize`: the marker of a contested group fails closed before anything else is looked at. */
  method Authorize(digest: Digest, committed: seq<Delegation>, quarantined: bool, d: Delegation, actor: Bytes,
                   verb: Verb, group: Bytes, now: nat)
    returns (r: Option<Refusal>)
    ensures r.None? <==> !quarantined && Authorized(digest, committed, d, actor, verb, group, now)
    ensures r == Some(Quarantined) <==> quarantined
    ensures r in {Some(NoParentNamed), Some(ParentNotCommitted), Some(ChainBroken), Some(NotBounded),
                  Some(ParentExpired)} ==>
              d.depth > 1 && Authorized(digest, committed, d.(depth := 1), actor, verb, group, now)
  {
    if quarantined { return Some(Quarantined); }
    if d.groupId != group { return Some(WrongGroup); }
    if d.toAgent != actor { return Some(NotTheDelegate); }
    if d.scope != verb.Scope() { return Some(OutsideScope); }
    if verb !in d.verbs { return Some(VerbNotGranted); }
    if now >= d.expiry { return Some(GrantExpired); }
    if d.depth > 1 {
      if d.parent.None? { return Some(NoParentNamed); }
      var parent := FindByDigest(digest, committed, d.parent.value);
      if parent.None? { return Some(ParentNotCommitted); }
      if !VerifyChain(digest, parent.value, d) { return Some(ChainBroken); }
      var widening := IsAttenuatedBy(parent.value, d);
      if widening.Some? { return Some(NotBounded); }
      if now >= parent.value.expiry { return Some(ParentExpired); }
    }
    return None;
  }

  lemma {:induction false} FirstByDigest(digest: Digest, committed: seq<Delegation>, wanted: Bytes) returns (k: nat)
    requires FindByDigest(digest, committed, wanted).Some?
    ensures FirstWith(digest, committed, wanted, k)
    ensures FindByDigest(digest, committed, wanted).value == committed[k]
  {
    if digest(Canonical(committed[0])) == wanted {
      k := 0;
    } else {
      k := FirstByDigest(digest, committed[1..], wanted);
      assert forall j :: 0 < j < |committed| ==> committed[j] == committed[1..][j - 1];
      k := k + 1;
    }
  }

  /** Grant `k` is the first committed one with this digest. */
  ghost predicate FirstWith(digest: Digest, committed: seq<Delegation>, wanted: Bytes, k: nat) {
    && k < |committed| && digest(Canonical(committed[k])) == wanted
    && forall j :: 0 <= j < k ==> digest(Canonical(committed[j])) != wanted
  }

  /** Grant `p` is a root that names the issuer of `d` its delegate, lives now and contains it. */
  ghost predicate RootFor(p: Delegation, d: Delegation, now: nat) {
    p.toAgent == d.fromAgent && p.depth == 1 && p.parent.None? && now < p.expiry && Included(d, p)
  }

  /** Among policy-valid grants, an act is admitted if and only if the grant is the actor's own,
      permits the act on some task, and is a root or contained in the live root it names by
      digest. */
  lemma AuthorizedExactly(digest: Digest, committed: seq<Delegation>, d: Delegation, actor: Bytes, verb: Verb,
                          group: Bytes, now: nat)
    requires Fits(d) && PolicyOk(d) && forall c <- committed :: Fits(c) && PolicyOk(c)
    ensures Authorized(digest, committed, d, actor, verb, group, now)
       <==> (&& d.toAgent == actor && (exists task :: |task| == 32 && Permits(d, group, verb, task, now))
             && (d.parent.Some? ==>
                   exists k: nat :: FirstWith(digest, committed, d.parent.value, k) && RootFor(committed[k], d, now)))
  {
    var task := if d.taskRef.Some? then d.taskRef.value else Zeros(32);
    assert d.groupId == group && d.scope == verb.Scope() && verb in d.verbs && now < d.expiry ==>
             |task| == 32 && Permits(d, group, verb, task, now);
    if d.parent.Some? {
      RootExactly(digest, committed, d, now);
    }
  }

  lemma RootMatches(digest: Digest, p: Delegation, d: Delegation, now: nat)
    requires Fits(d) && PolicyOk(d) && Fits(p) && PolicyOk(p)
    requires d.parent == Some(digest(Canonical(p)))
    ensures VerifyChain(digest, p, d) && Attenuated(p, d) && now < p.expiry <==> RootFor(p, d, now)
  {
    AttenuationIsInclusion(p, d);
  }

  lemma RootExactly(digest: Digest, committed: seq<Delegation>, d: Delegation, now: nat)
    requires Fits(d) && PolicyOk(d) && d.parent.Some? && forall c <- committed :: Fits(c) && PolicyOk(c)
    ensures (var p := FindByDigest(digest, committed, d.parent.value);
             p.Some? && VerifyChain(digest, p.value, d) && Attenuated(p.value, d) && now < p.value.expiry)
       <==> exists k: nat :: FirstWith(digest, committed, d.parent.value, k) && RootFor(committed[k], d, now)
  {
    var wanted := d.parent.value;
    var p := FindByDigest(digest, committed, wanted);
    if p.Some? {
      var k := FirstByDigest(digest, committed, wanted);
      assert p.value in committed;
      RootMatches(digest, p.value, d, now);
      assert RootFor(p.value, d, now) ==> FirstWith(digest, committed, wanted, k) && RootFor(committed[k], d, now);
      forall j: nat | FirstWith(digest, committed, wanted, j) ensures j == k {
      }
    } else {
      forall j: nat ensures !FirstWith(digest, committed, wanted, j) {
        if j < |committed| {
          assert committed[j] in committed;
        }
      }
    }
  }

  /** Every act that is admitted is covered, task by task, by a root grant: the grant used or
      a committed one whose delegate issued it. */
  lemma AuthorizedActHasRoot(digest: Digest, committed: seq<Delegation>, d: Delegation, actor: Bytes, verb: Verb,
                             group: Bytes, now: nat)
    returns (root: Delegation)
    requires Fits(d) && PolicyOk(d) && forall c <- committed :: Fits(c) && PolicyOk(c)
    requires Authorized(digest, committed, d, actor, verb, group, now)
    ensures root == d || (root in committed && root.toAgent == d.fromAgent)
    ensures root.depth == 1 && root.parent.None? && now < root.expiry
    ensures forall task :: |task| == 32 && Permits(d, group, verb, task, now) ==> Permits(root, group, verb, task, now)
  {
    root := d;
    if d.depth > 1 {
      root := FindByDigest(digest, committed, d.parent.value).value;
      assert Chain(digest, [root, d]);
      ChainBoundsAuthority(digest, [root, d]);
    }
  }
}
