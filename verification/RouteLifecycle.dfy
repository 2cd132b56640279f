/**
 * Opaque receive routes (src/opaque-route-v2.js): created, renewed and torn
 * down by requests that name the transition before them. Digests and message
 * authentication codes are free terms over what the source hashes; times are
 * milliseconds.
 */
module RouteLifecycle {
  import opened Wrappers

  const MINIMUM_LEASE_MS := 5 * 60 * 1000
  const MAXIMUM_LEASE_MS := 30 * 24 * 60 * 60 * 1000
  const CLOCK_SKEW_MS := 5 * 60 * 1000
  const MAXIMUM_RENEWALS := 9007199254740990
  const MAXIMUM_LEDGER := 4096

  type Secret = nat

  datatype Authority = SendAuthority | ReadAuthority | RenewAuthority | TeardownAuthority

  datatype CredentialDigest = DigestOf(authority: Authority, secret: Secret)

  datatype Lease = Lease(issuedAt: int, lastRenewedAt: int, expiresAt: int, renewalSequence: int, policy: nat)

  datatype CreateBody = CreateBody(
    routeID: nat,
    sendDigest: CredentialDigest,
    readDigest: CredentialDigest,
    renewDigest: CredentialDigest,
    teardownDigest: CredentialDigest,
    lease: Lease,
    key: nat)

  datatype RenewBody = RenewBody(
    routeID: nat,
    renewalSequence: int,
    previous: TransitionDigest,
    newExpiry: int,
    authorizedAt: int,
    key: nat)

  datatype TeardownBody = TeardownBody(routeID: nat, renewalSequence: int, previous: TransitionDigest,
                                       authorizedAt: int, key: nat)

  datatype TransitionDigest =
    | OfCreate(created: CreateBody)
    | OfRenew(renewed: RenewBody)
    | OfTeardown(torn: TeardownBody)

  datatype Operation = Transition(digest: TransitionDigest) | Use(id: nat)

  datatype Mac = MacOf(secret: Secret, authority: Authority, routeID: nat, operation: Operation, authorizedAt: int,
                       nonce: nat)

  datatype Proof = Proof(authority: Authority, nonce: nat, operation: Operation, authorizedAt: int, mac: Mac)

  datatype CreateRequest = CreateRequest(body: CreateBody, authorization: Proof)
  datatype RenewRequest = RenewRequest(body: RenewBody, authorization: Proof)
  datatype TeardownRequest = TeardownRequest(body: TeardownBody, authorization: Proof)

  datatype Status = Active | TornDown(at: int)

  datatype Route = Route(
    routeID: nat,
    sendDigest: CredentialDigest,
    readDigest: CredentialDigest,
    renewDigest: CredentialDigest,
    teardownDigest: CredentialDigest,
    lease: Lease,
    status: Status,
    createdAt: int,
    creationKey: nat,
    creationDigest: TransitionDigest,
    lastKey: nat,
    lastDigest: TransitionDigest)

  datatype RouteError =
    | ConfidentialTransportRequired
    | InvalidRequest
    | InvalidLease
    | InvalidAuthorization
    | AuthorizationExpired
    | RouteMismatch
    | RouteTornDown
    | RouteExpired
    | RouteAlreadyExists
    | IdempotencyConflict
    | StaleTransition
    | TransitionFork
    | TransitionOutOfOrder
    | AuthorizationReplay
    | LedgerExhausted

  // ---- Checks ----

  predicate ValidLease(l: Lease) {
    && l.issuedAt <= l.lastRenewedAt < l.expiresAt
    && MINIMUM_LEASE_MS <= l.expiresAt - l.lastRenewedAt <= MAXIMUM_LEASE_MS
    && 0 <= l.renewalSequence <= MAXIMUM_RENEWALS
  }

  predicate FourDigests(a: CredentialDigest, b: CredentialDigest, c: CredentialDigest, d: CredentialDigest) {
    a != b && a != c && a != d && b != c && b != d && c != d
  }

  predicate ValidRoute(r: Route) {
    && FourDigests(r.sendDigest, r.readDigest, r.renewDigest, r.teardownDigest)
    && ValidLease(r.lease) && r.createdAt == r.lease.issuedAt
    && (r.status.TornDown? ==> r.status.at >= r.createdAt)
  }

  predicate InSkew(authorizedAt: int, now: int) {
    -CLOCK_SKEW_MS <= now - authorizedAt <= CLOCK_SKEW_MS
  }

  predicate LeaseActive(l: Lease, now: int) {
    l.issuedAt <= now < l.expiresAt
  }

  predicate ProofVerifies(p: Proof, authority: Authority, routeID: nat, operation: Operation, secret: Secret) {
    && p.authority == authority && p.operation == operation
    && p.mac == MacOf(secret, authority, routeID, operation, p.authorizedAt, p.nonce)
  }

  predicate CapabilityProof(r: Route, p: Proof, secret: Secret, authority: Authority, digest: TransitionDigest) {
    && DigestOf(authority, secret) == (if authority == RenewAuthority then r.renewDigest else r.teardownDigest)
    && ProofVerifies(p, authority, r.routeID, Transition(digest), secret)
  }

  predicate ValidCreate(q: CreateRequest) {
    && ValidLease(q.body.lease) && q.body.lease.renewalSequence == 0
    && FourDigests(q.body.sendDigest, q.body.readDigest, q.body.renewDigest, q.body.teardownDigest)
    && q.authorization.authority == RenewAuthority && q.authorization.authorizedAt == q.body.lease.issuedAt
    && q.authorization.operation == Transition(OfCreate(q.body))
  }

  predicate ValidRenew(q: RenewRequest) {
    && 1 <= q.body.renewalSequence <= MAXIMUM_RENEWALS + 1
    && q.authorization.authority == RenewAuthority && q.authorization.authorizedAt == q.body.authorizedAt
    && q.authorization.operation == Transition(OfRenew(q.body))
  }

  predicate ValidTeardown(q: TeardownRequest) {
    && 0 <= q.body.renewalSequence <= MAXIMUM_RENEWALS + 1
    && q.authorization.authority == TeardownAuthority && q.authorization.authorizedAt == q.body.authorizedAt
    && q.authorization.operation == Transition(OfTeardown(q.body))
  }

  // ---- Transitions ----

  /** How a request reaches the relay: over which transport, with which secret, when. */
  datatype Presented = Presented(confidential: bool, secret: Secret, now: int)

  function Checked(r: Route): Result<Route, RouteError> {
    if ValidRoute(r) then Ok(r) else Err(InvalidRequest)
  }

  function Create(existing: Option<Route>, q: CreateRequest, p: Presented): Result<Route, RouteError> {
    if !p.confidential then Err(ConfidentialTransportRequired)
    else if !ValidCreate(q) then Err(InvalidRequest)
    else if !InSkew(q.authorization.authorizedAt, p.now) then Err(AuthorizationExpired)
    else if DigestOf(RenewAuthority, p.secret) != q.body.renewDigest
            || !ProofVerifies(q.authorization, RenewAuthority, q.body.routeID, Transition(OfCreate(q.body)),
                              p.secret) then
      Err(InvalidAuthorization)
    else if existing.Some? then
      var s := existing.value;
      if !ValidRoute(s) then Err(InvalidRequest)
      else if s.routeID != q.body.routeID then Err(RouteMismatch)
      else if s.status.TornDown? then Err(RouteTornDown)
      else if s.creationKey == q.body.key then
        if s.creationDigest != OfCreate(q.body) then Err(IdempotencyConflict) else Ok(s)
      else Err(RouteAlreadyExists)
    else if !LeaseActive(q.body.lease, p.now) then Err(RouteExpired)
    else
      Checked(Route(q.body.routeID, q.body.sendDigest, q.body.readDigest, q.body.renewDigest, q.body.teardownDigest,
                    q.body.lease, Active, q.body.lease.issuedAt, q.body.key, OfCreate(q.body), q.body.key,
                    OfCreate(q.body)))
  }

  function RenewLease(l: Lease, renewedAt: int, newExpiry: int): Result<Lease, RouteError> {
    if renewedAt < l.lastRenewedAt || renewedAt >= l.expiresAt || newExpiry <= l.expiresAt then Err(InvalidLease)
    else
      var next := Lease(l.issuedAt, renewedAt, newExpiry, l.renewalSequence + 1, l.policy);
      if ValidLease(next) then Ok(next) else Err(InvalidLease)
  }

  function Renew(r: Route, q: RenewRequest, p: Presented): Result<Route, RouteError> {
    var digest := OfRenew(q.body);
    var expected := r.lease.renewalSequence + 1;
    if !p.confidential then Err(ConfidentialTransportRequired)
    else if !ValidRoute(r) || !ValidRenew(q) then Err(InvalidRequest)
    else if q.body.routeID != r.routeID then Err(RouteMismatch)
    else if q.body.key == r.lastKey then
      if digest != r.lastDigest then Err(IdempotencyConflict)
      else if !CapabilityProof(r, q.authorization, p.secret, RenewAuthority, digest) then Err(InvalidAuthorization)
      else Ok(r)
    else if r.status.TornDown? then Err(RouteTornDown)
    else if !LeaseActive(r.lease, p.now) then Err(RouteExpired)
    else if q.body.renewalSequence < expected then
      Err(if q.body.renewalSequence == r.lease.renewalSequence then TransitionFork else StaleTransition)
    else if q.body.renewalSequence != expected then Err(TransitionOutOfOrder)
    else if q.body.previous != r.lastDigest then Err(TransitionFork)
    else if !InSkew(q.authorization.authorizedAt, p.now) then Err(AuthorizationExpired)
    else if q.body.authorizedAt < r.lease.lastRenewedAt then Err(InvalidAuthorization)
    else if !CapabilityProof(r, q.authorization, p.secret, RenewAuthority, digest) then Err(InvalidAuthorization)
    else
      match RenewLease(r.lease, q.body.authorizedAt, q.body.newExpiry)
      case Err(e) => Err(e)
      case Ok(lease) => Checked(r.(lease := lease, lastKey := q.body.key, lastDigest := digest))
  }

  function Teardown(r: Route, q: TeardownRequest, p: Presented): Result<Route, RouteError> {
    var digest := OfTeardown(q.body);
    if !p.confidential then Err(ConfidentialTransportRequired)
    else if !ValidRoute(r) || !ValidTeardown(q) then Err(InvalidRequest)
    else if q.body.routeID != r.routeID then Err(RouteMismatch)
    else if q.body.key == r.lastKey then
      if digest != r.lastDigest then Err(IdempotencyConflict)
      else if !CapabilityProof(r, q.authorization, p.secret, TeardownAuthority, digest) then Err(InvalidAuthorization)
      else Ok(r)
    else if r.status.TornDown? then Err(RouteTornDown)
    else if q.body.renewalSequence < r.lease.renewalSequence then Err(StaleTransition)
    else if q.body.renewalSequence != r.lease.renewalSequence then Err(TransitionOutOfOrder)
    else if q.body.previous != r.lastDigest then Err(TransitionFork)
    else if !InSkew(q.authorization.authorizedAt, p.now) then Err(AuthorizationExpired)
    else if !CapabilityProof(r, q.authorization, p.secret, TeardownAuthority, digest) then Err(InvalidAuthorization)
    else Checked(r.(status := TornDown(p.now), lastKey := q.body.key, lastDigest := digest))
  }

  // ---- Request histories ----

  datatype Request =
    | CreateOp(create: CreateRequest)
    | RenewOp(renew: RenewRequest)
    | TeardownOp(teardown: TeardownRequest)

  datatype Arrival = Arrival(request: Request, presented: Presented)

  function Handle(existing: Option<Route>, a: Arrival): Result<Route, RouteError> {
    match a.request
    case CreateOp(q) => Create(existing, q, a.presented)
    case RenewOp(q) => if existing.None? then Err(RouteMismatch) else Renew(existing.value, q, a.presented)
    case TeardownOp(q) => if existing.None? then Err(RouteMismatch) else Teardown(existing.value, q, a.presented)
  }

  /** The relay keeps what an accepted request returns; `log` is every transition that changed the route. */
  datatype World = World(route: Option<Route>, log: seq<TransitionDigest>)

  function DigestOfRequest(q: Request): TransitionDigest {
    match q
    case CreateOp(c) => OfCreate(c.body)
    case RenewOp(r) => OfRenew(r.body)
    case TeardownOp(t) => OfTeardown(t.body)
  }

  function Step(w: World, a: Arrival): World {
    match Handle(w.route, a)
    case Err(_) => w
    case Ok(next) =>
      if Some(next) == w.route then w else World(Some(next), w.log + [DigestOfRequest(a.request)])
  }

  function Run(arrivals: seq<Arrival>): World {
    if arrivals == [] then World(None, []) else Step(Run(arrivals[..|arrivals| - 1]), arrivals[|arrivals| - 1])
  }

  function Renewals(log: seq<TransitionDigest>): nat {
    if log == [] then 0 else Renewals(log[..|log| - 1]) + if log[|log| - 1].OfRenew? then 1 else 0
  }

  function Previous(d: TransitionDigest): Option<TransitionDigest> {
    match d case OfCreate(_) => None case OfRenew(b) => Some(b.previous) case OfTeardown(b) => Some(b.previous)
  }

  /** The log is one chain: a creation, then transitions that each name the one before, at most the last a teardown. */
  ghost predicate Chain(log: seq<TransitionDigest>) {
    forall k :: 0 <= k < |log| ==> Linked(log, k)
  }

  predicate Linked(log: seq<TransitionDigest>, k: nat)
    requires k < |log|
  {
    && Previous(log[k]) == (if k == 0 then None else Some(log[k - 1]))
    && (k > 0 ==> !log[k - 1].OfTeardown?)
  }

  lemma ChainAppend(log: seq<TransitionDigest>, d: TransitionDigest)
    requires Chain(log) && Linked(log + [d], |log|)
    ensures Chain(log + [d])
  {
    forall k | 0 <= k < |log + [d]| ensures Linked(log + [d], k) {
      assert k < |log| ==> Linked(log, k);
    }
  }

  ghost predicate Good(w: World) {
    && Chain(w.log) && (w.route.None? <==> w.log == [])
    && (w.route.Some? ==>
          var r := w.route.value;
          && ValidRoute(r) && r.creationDigest == w.log[0] && w.log[0].OfCreate?
          && r.lastDigest == w.log[|w.log| - 1]
          && r.lease.renewalSequence == Renewals(w.log)
          && (r.status.TornDown? <==> w.log[|w.log| - 1].OfTeardown?)
          && Stable(r, w.log[0].created))
  }

  /** What no transition changes. */
  predicate Stable(r: Route, c: CreateBody) {
    && r.routeID == c.routeID && r.sendDigest == c.sendDigest && r.readDigest == c.readDigest
    && r.renewDigest == c.renewDigest && r.teardownDigest == c.teardownDigest
    && r.lease.policy == c.lease.policy && r.lease.issuedAt == c.lease.issuedAt && r.createdAt == c.lease.issuedAt
    && r.creationKey == c.key
  }

  lemma RenewalsAppend(log: seq<TransitionDigest>, d: TransitionDigest)
    ensures Renewals(log + [d]) == Renewals(log) + if d.OfRenew? then 1 else 0
  {
    assert (log + [d])[..|log|] == log;
  }

  lemma CreateGood(w: World, a: Arrival)
    requires Good(w) && a.request.CreateOp? && Step(w, a) != w
    ensures Good(Step(w, a))
  {
    hide ProofVerifies, InSkew, LeaseActive;
    var d := OfCreate(a.request.create.body);
    assert w.route == None;
    assert Step(w, a).log == [d] && Renewals([d]) == 0;
    assert Linked([d], 0);
  }

  lemma RenewGood(w: World, a: Arrival)
    requires Good(w) && a.request.RenewOp? && Step(w, a) != w
    ensures Good(Step(w, a))
  {
    hide CapabilityProof, InSkew, LeaseActive, ValidRenew, Renewals;
    var d := OfRenew(a.request.renew.body);
    var r, next := w.route.value, Step(w, a).route.value;
    assert r.status.Active? && Previous(d) == Some(r.lastDigest);
    RenewalsAppend(w.log, d);
    assert Linked(w.log + [d], |w.log|);
    ChainAppend(w.log, d);
    assert (w.log + [d])[0] == w.log[0];
    assert ValidRoute(next) && Stable(next, w.log[0].created);
  }

  lemma TeardownGood(w: World, a: Arrival)
    requires Good(w) && a.request.TeardownOp? && Step(w, a) != w
    ensures Good(Step(w, a))
  {
    hide CapabilityProof, InSkew, LeaseActive, ValidTeardown, Renewals;
    var d := OfTeardown(a.request.teardown.body);
    var r, next := w.route.value, Step(w, a).route.value;
    assert r.status.Active? && Previous(d) == Some(r.lastDigest);
    RenewalsAppend(w.log, d);
    assert Linked(w.log + [d], |w.log|);
    ChainAppend(w.log, d);
    assert (w.log + [d])[0] == w.log[0];
    assert ValidRoute(next) && Stable(next, w.log[0].created);
  }

  lemma StepGood(w: World, a: Arrival)
    requires Good(w)
    ensures Good(Step(w, a))
  {
    hide Good, Step;
    if Step(w, a) != w {
      match a.request
      case CreateOp(_) => CreateGood(w, a);
      case RenewOp(_) => RenewGood(w, a);
      case TeardownOp(_) => TeardownGood(w, a);
    }
  }

  lemma {:induction false} RunGood(arrivals: seq<Arrival>)
    ensures Good(Run(arrivals))
  {
    hide Good, Step;
    if arrivals == [] {
      NothingGood();
    } else {
      RunGood(arrivals[..|arrivals| - 1]);
      StepGood(Run(arrivals[..|arrivals| - 1]), arrivals[|arrivals| - 1]);
    }
  }

  lemma NothingGood()
    ensures Good(World(None, []))
  {
  }

  /**
   * Over all request histories: the renewal sequence counts the accepted
   * renewals, the accepted transitions form one digest chain that ends where
   * the route stands, and credentials, policy and creation never change.
   */
  lemma LifecycleIsOneChain(arrivals: seq<Arrival>)
    requires Run(arrivals).route.Some?
    ensures var w := Run(arrivals);
            && w.route.value.lease.renewalSequence == Renewals(w.log)
            && w.log != [] && w.log[0] == w.route.value.creationDigest && w.log[0].OfCreate?
               && Stable(w.route.value, w.log[0].created)
            && w.log[|w.log| - 1] == w.route.value.lastDigest
            && forall k :: 0 < k < |w.log| ==> Previous(w.log[k]) == Some(w.log[k - 1])
  {
    hide Run;
    RunGood(arrivals);
    forall k | 0 < k < |Run(arrivals).log| ensures Previous(Run(arrivals).log[k]) == Some(Run(arrivals).log[k - 1]) {
      assert Linked(Run(arrivals).log, k);
    }
  }

  // ---- Single transitions ----

  /** An accepted renewal moves the expiry strictly on, to at most 30 days and five minutes past its acceptance. */
  lemma RenewalExtends(r: Route, q: RenewRequest, p: Presented)
    requires Renew(r, q, p).Ok? && Renew(r, q, p).value != r
    ensures var next := Renew(r, q, p).value;
            && r.lease.expiresAt < next.lease.expiresAt <= p.now + CLOCK_SKEW_MS + MAXIMUM_LEASE_MS
            && next.lease.renewalSequence == r.lease.renewalSequence + 1 && next.lastDigest == OfRenew(q.body)
            && p.now < r.lease.expiresAt
  {
    hide CapabilityProof;
  }

  // ---- Exactly when a transition takes effect ----

  /** What the renewing party must present: the secret its route was created under, and a code made with it. */
  predicate RenewsRightfully(r: Route, q: RenewRequest, p: Presented) {
    && p.confidential && q.body.routeID == r.routeID
    && r.renewDigest == DigestOf(RenewAuthority, p.secret)
    && q.authorization == Proof(RenewAuthority, q.authorization.nonce, Transition(OfRenew(q.body)), q.body.authorizedAt,
                                MacOf(p.secret, RenewAuthority, r.routeID, Transition(OfRenew(q.body)),
                                      q.body.authorizedAt, q.authorization.nonce))
  }

  predicate TearsDownRightfully(r: Route, q: TeardownRequest, p: Presented) {
    && p.confidential && q.body.routeID == r.routeID
    && r.teardownDigest == DigestOf(TeardownAuthority, p.secret)
    && q.authorization == Proof(TeardownAuthority, q.authorization.nonce, Transition(OfTeardown(q.body)),
                                q.body.authorizedAt,
                                MacOf(p.secret, TeardownAuthority, r.routeID, Transition(OfTeardown(q.body)),
                                      q.body.authorizedAt, q.authorization.nonce))
  }

  /** In time: within the lease, at most five minutes off the clock, not before the last renewal. */
  predicate RenewsInTime(l: Lease, q: RenewBody, now: int) {
    && l.issuedAt <= now < l.expiresAt && now - 300000 <= q.authorizedAt <= now + 300000
    && l.lastRenewedAt <= q.authorizedAt < l.expiresAt < q.newExpiry
    && q.authorizedAt + 300000 <= q.newExpiry <= q.authorizedAt + 2592000000
  }

  /** The last transition of a log. */
  function LastOf(log: seq<TransitionDigest>): Option<TransitionDigest> {
    if log == [] then None else Some(log[|log| - 1])
  }

  /** The last transition carries the number the lease has now. */
  predicate Numbered(w: World) {
    w.route.Some? ==>
      match w.route.value.lastDigest
      case OfCreate(_) => true
      case OfRenew(b) => b.renewalSequence == w.route.value.lease.renewalSequence
      case OfTeardown(b) => b.renewalSequence == w.route.value.lease.renewalSequence
  }

  lemma StepNumbered(w: World, a: Arrival)
    requires Good(w) && Numbered(w)
    ensures Numbered(Step(w, a))
  {
    hide CapabilityProof, ProofVerifies, InSkew, LeaseActive, ValidRoute, ValidCreate, Renewals, Chain;
  }

  lemma {:induction false} RunNumbered(arrivals: seq<Arrival>)
    ensures Numbered(Run(arrivals))
  {
    hide Good, Step, Numbered;
    if arrivals == [] {
      NothingNumbered();
    } else {
      RunGood(arrivals[..|arrivals| - 1]);
      RunNumbered(arrivals[..|arrivals| - 1]);
      StepNumbered(Run(arrivals[..|arrivals| - 1]), arrivals[|arrivals| - 1]);
    }
  }

  lemma NothingNumbered()
    ensures Numbered(World(None, []))
  {
  }

  /** The same request as the last transition. */
  predicate Repeats(w: World, key: nat, digest: TransitionDigest) {
    w.route.Some? && key == w.route.value.lastKey && LastOf(w.log) == Some(digest)
  }

  /** The next renewal of the chain, in time. */
  predicate RenewsNext(w: World, q: RenewBody, now: int) {
    && w.route.Some? && w.route.value.status.Active? && q.key != w.route.value.lastKey
    && q.renewalSequence == Renewals(w.log) + 1 <= 9007199254740990 && LastOf(w.log) == Some(q.previous)
    && RenewsInTime(w.route.value.lease, q, now)
  }

  /**
   * At every point of every history a renewal is accepted exactly when the
   * holder of the renewing secret repeats the last transition, or presents the
   * next one in time; then the lease has its time and expiry, and nothing else
   * but the last transition changes.
   */
  lemma RenewTakesEffectExactly(arrivals: seq<Arrival>, q: RenewRequest, p: Presented)
    requires Run(arrivals).route.Some?
    ensures var w := Run(arrivals); var r := w.route.value; var answer := Renew(r, q, p);
            && (answer.Ok? <==> RenewsRightfully(r, q, p)
                                && (Repeats(w, q.body.key, OfRenew(q.body)) || RenewsNext(w, q.body, p.now)))
            && (answer.Ok? && q.body.key == r.lastKey ==> answer.value == r)
            && (answer.Ok? && q.body.key != r.lastKey ==>
                  answer.value == r.(lease := Lease(r.lease.issuedAt, q.body.authorizedAt, q.body.newExpiry,
                                                    Renewals(w.log) + 1, r.lease.policy),
                                     lastKey := q.body.key, lastDigest := OfRenew(q.body)))
  {
    hide Run, Chain, Renewals, FourDigests;
    RunGood(arrivals);
    RunNumbered(arrivals);
    if Run(arrivals).route.value.lastDigest.OfRenew? {
      LastIsCounted(Run(arrivals).log);
    }
  }

  lemma LastIsCounted(log: seq<TransitionDigest>)
    requires log != [] && log[|log| - 1].OfRenew?
    ensures Renewals(log) >= 1
  {
  }

  /**
   * And a teardown exactly when the holder of the other secret repeats the last
   * transition, or presents one that names it, in time; the lease may be over.
   */
  lemma TeardownTakesEffectExactly(arrivals: seq<Arrival>, q: TeardownRequest, p: Presented)
    requires Run(arrivals).route.Some?
    ensures var w := Run(arrivals); var r := w.route.value; var answer := Teardown(r, q, p);
            && (answer.Ok? <==>
                && TearsDownRightfully(r, q, p)
                && (|| Repeats(w, q.body.key, OfTeardown(q.body))
                    || (&& r.status.Active? && q.body.key != r.lastKey && q.body.renewalSequence == Renewals(w.log)
                        && LastOf(w.log) == Some(q.body.previous)
                        && p.now - 300000 <= q.body.authorizedAt <= p.now + 300000 && r.createdAt <= p.now)))
            && (answer.Ok? && q.body.key == r.lastKey ==> answer.value == r)
            && (answer.Ok? && q.body.key != r.lastKey ==>
                  answer.value
                  == r.(status := TornDown(p.now), lastKey := q.body.key, lastDigest := OfTeardown(q.body)))
  {
    hide Run, Chain, Renewals, FourDigests;
    RunGood(arrivals);
    RunNumbered(arrivals);
  }

  /**
   * Why a renewal that is well formed, for this route and under a new key is
   * refused: in this order, for where the route stands, for its place in the
   * chain, for its time, for its authority and for its lease.
   */
  lemma RenewRefusedFor(arrivals: seq<Arrival>, q: RenewRequest, p: Presented)
    requires Run(arrivals).route.Some? && p.confidential && ValidRenew(q)
    requires var r := Run(arrivals).route.value; q.body.routeID == r.routeID && q.body.key != r.lastKey
    ensures var w := Run(arrivals); var r := w.route.value; var done := Renewals(w.log);
            Renew(r, q, p).Err? ==>
              Renew(r, q, p).error ==
              if r.status.TornDown? then RouteTornDown
              else if p.now < r.lease.issuedAt || p.now >= r.lease.expiresAt then RouteExpired
              else if q.body.renewalSequence < done then StaleTransition
              else if q.body.renewalSequence == done then TransitionFork
              else if q.body.renewalSequence > done + 1 then TransitionOutOfOrder
              else if LastOf(w.log) != Some(q.body.previous) then TransitionFork
              else if q.body.authorizedAt < p.now - 300000 || q.body.authorizedAt > p.now + 300000 then
                AuthorizationExpired
              else if q.body.authorizedAt < r.lease.lastRenewedAt then InvalidAuthorization
              else if !RenewsRightfully(r, q, p) then InvalidAuthorization
              else InvalidLease
  {
    hide Run, Chain, Renewals, FourDigests;
    RunGood(arrivals);
  }

  /** The same of a teardown, which the end of the lease does not stop. */
  lemma TeardownRefusedFor(arrivals: seq<Arrival>, q: TeardownRequest, p: Presented)
    requires Run(arrivals).route.Some? && p.confidential && ValidTeardown(q)
    requires var r := Run(arrivals).route.value; q.body.routeID == r.routeID && q.body.key != r.lastKey
    ensures var w := Run(arrivals); var r := w.route.value; var done := Renewals(w.log);
            Teardown(r, q, p).Err? ==>
              Teardown(r, q, p).error ==
              if r.status.TornDown? then RouteTornDown
              else if q.body.renewalSequence < done then StaleTransition
              else if q.body.renewalSequence > done then TransitionOutOfOrder
              else if LastOf(w.log) != Some(q.body.previous) then TransitionFork
              else if q.body.authorizedAt < p.now - 300000 || q.body.authorizedAt > p.now + 300000 then
                AuthorizationExpired
              else if !TearsDownRightfully(r, q, p) then InvalidAuthorization
              else InvalidRequest
  {
    hide Run, Chain, Renewals, FourDigests;
    RunGood(arrivals);
  }

  /** A request under the last key with other content conflicts, one of another route or transport is refused first. */
  lemma OtherRefusals(r: Route, q: RenewRequest, t: TeardownRequest, p: Presented)
    requires ValidRoute(r)
    ensures !p.confidential ==> Renew(r, q, p) == Teardown(r, t, p) == Err(ConfidentialTransportRequired)
    ensures p.confidential && ValidRenew(q) && q.body.routeID != r.routeID ==> Renew(r, q, p) == Err(RouteMismatch)
    ensures p.confidential && ValidTeardown(t) && t.body.routeID != r.routeID ==>
              Teardown(r, t, p) == Err(RouteMismatch)
    ensures p.confidential && ValidRenew(q) && q.body.routeID == r.routeID && q.body.key == r.lastKey ==>
              r.lastDigest == OfRenew(q.body) || Renew(r, q, p) == Err(IdempotencyConflict)
    ensures p.confidential && ValidTeardown(t) && t.body.routeID == r.routeID && t.body.key == r.lastKey ==>
              r.lastDigest == OfTeardown(t.body) || Teardown(r, t, p) == Err(IdempotencyConflict)
    ensures p.confidential && !ValidRenew(q) ==> Renew(r, q, p) == Err(InvalidRequest)
    ensures p.confidential && !ValidTeardown(t) ==> Teardown(r, t, p) == Err(InvalidRequest)
    ensures q.body.key == r.lastKey && Renew(r, q, p).Err? && r.lastDigest == OfRenew(q.body) ==>
              Renew(r, q, p).error in {ConfidentialTransportRequired, InvalidRequest, RouteMismatch,
                                       InvalidAuthorization}
    ensures t.body.key == r.lastKey && Teardown(r, t, p).Err? && r.lastDigest == OfTeardown(t.body) ==>
              Teardown(r, t, p).error in {ConfidentialTransportRequired, InvalidRequest, RouteMismatch,
                                          InvalidAuthorization}
  {
    hide ValidRoute, ValidRenew, ValidTeardown;
  }

  /** Why a creation is refused: in this order, for its transport, form, time and authority, and for what is there. */
  lemma CreateRefusedFor(existing: Option<Route>, q: CreateRequest, p: Presented)
    requires (existing.Some? ==> ValidRoute(existing.value)) && Create(existing, q, p).Err?
    ensures Create(existing, q, p).error ==
            if !p.confidential then ConfidentialTransportRequired
            else if !ValidCreate(q) then InvalidRequest
            else if q.body.lease.issuedAt < p.now - 300000 || q.body.lease.issuedAt > p.now + 300000 then
              AuthorizationExpired
            else if q.body.renewDigest != DigestOf(RenewAuthority, p.secret)
                    || q.authorization.mac != MacOf(p.secret, RenewAuthority, q.body.routeID,
                                                    Transition(OfCreate(q.body)), q.body.lease.issuedAt,
                                                    q.authorization.nonce) then
              InvalidAuthorization
            else if existing.None? then RouteExpired
            else if existing.value.routeID != q.body.routeID then RouteMismatch
            else if existing.value.status.TornDown? then RouteTornDown
            else if existing.value.creationKey == q.body.key then IdempotencyConflict
            else RouteAlreadyExists
  {
  }

  /** The request renews the route. */
  predicate Renews(r: Route, q: RenewRequest, p: Presented) {
    Renew(r, q, p).Ok? && Renew(r, q, p).value != r
  }

  /** Some request under the secret renews the route at a time. */
  ghost predicate CanRenew(r: Route, secret: Secret, now: int) {
    exists q: RenewRequest, p: Presented :: p.secret == secret && p.now == now && Renews(r, q, p)
  }

  ghost predicate CanTearDown(r: Route, secret: Secret, now: int) {
    exists q: TeardownRequest, p: Presented :: p.secret == secret && p.now == now && TearsDown(r, q, p)
  }

  predicate TearsDown(r: Route, q: TeardownRequest, p: Presented) {
    Teardown(r, q, p).Ok? && Teardown(r, q, p).value.status == TornDown(p.now) && r.status.Active?
  }

  /** The latest renewal a holder of the secret can authorize at a time, with the nearest expiry. */
  function LatestRenewal(w: World, secret: Secret, now: int): RenewRequest
    requires w.route.Some?
  {
    var r := w.route.value;
    var at := if r.lease.expiresAt <= now + 300000 then r.lease.expiresAt - 1 else now + 300000;
    var expiry := if r.lease.expiresAt < at + 300000 then at + 300000 else r.lease.expiresAt + 1;
    var body := RenewBody(r.routeID, r.lease.renewalSequence + 1, r.lastDigest, expiry, at, r.lastKey + 1);
    var operation := Transition(OfRenew(body));
    RenewRequest(body, Proof(RenewAuthority, 0, operation, at, MacOf(secret, RenewAuthority, r.routeID, operation, at,
                                                                     0)))
  }

  /**
   * Who can renew a route, and when: over every history, some request under a
   * secret renews it at a time if and only if the route was created under that
   * secret, stands, has renewals left and is within its lease, its last renewal
   * is not more than five minutes ahead, and its expiry less than 30 days and
   * five minutes. So every standing route can be renewed before its lease ends.
   */
  lemma RenewableExactly(arrivals: seq<Arrival>, secret: Secret, now: int)
    requires Run(arrivals).route.Some?
    ensures var w := Run(arrivals); var r := w.route.value;
            CanRenew(r, secret, now) <==>
            && w.log != [] && w.log[0].OfCreate? && w.log[0].created.renewDigest == DigestOf(RenewAuthority, secret)
            && r.status.Active? && Renewals(w.log) < 9007199254740990
            && r.lease.issuedAt <= now < r.lease.expiresAt < now + 300000 + 2592000000
            && r.lease.lastRenewedAt <= now + 300000
  {
    hide Run, Renewals, Renew, RenewsRightfully, Repeats, RenewsNext;
    RunGood(arrivals);
    var w, r := Run(arrivals), Run(arrivals).route.value;
    forall q, p | Renews(r, q, p)
      ensures RenewsRightfully(r, q, p) && RenewsNext(w, q.body, p.now)
    {
      RenewTakesEffectExactly(arrivals, q, p);
      if Repeats(w, q.body.key, OfRenew(q.body)) {
        RepeatChangesNothing(w, q, p);
      }
    }
    if r.renewDigest == DigestOf(RenewAuthority, secret) && r.status.Active? && Renewals(w.log) < 9007199254740990
       && r.lease.issuedAt <= now < r.lease.expiresAt < now + 300000 + 2592000000
       && r.lease.lastRenewedAt <= now + 300000 {
      LatestIsAccepted(arrivals, secret, now);
    }
    if CanRenew(r, secret, now) {
      var q: RenewRequest, p: Presented :| p.secret == secret && p.now == now && Renews(r, q, p);
      NextNeeds(w, q, p);
    }
  }

  lemma RepeatChangesNothing(w: World, q: RenewRequest, p: Presented)
    requires w.route.Some? && Renew(w.route.value, q, p).Ok? && Repeats(w, q.body.key, OfRenew(q.body))
    ensures Renew(w.route.value, q, p).value == w.route.value
  {
    hide CapabilityProof, ValidRoute, ValidRenew;
  }

  lemma NextNeeds(w: World, q: RenewRequest, p: Presented)
    requires w.route.Some? && RenewsRightfully(w.route.value, q, p) && RenewsNext(w, q.body, p.now)
    ensures var r := w.route.value;
            && r.renewDigest == DigestOf(RenewAuthority, p.secret)
            && r.status.Active? && Renewals(w.log) < 9007199254740990
            && r.lease.issuedAt <= p.now < r.lease.expiresAt < p.now + 300000 + 2592000000
            && r.lease.lastRenewedAt <= p.now + 300000
  {
    hide Renewals;
  }

  lemma LatestIsAccepted(arrivals: seq<Arrival>, secret: Secret, now: int)
    requires Run(arrivals).route.Some?
    requires var w := Run(arrivals); var r := w.route.value;
             && r.renewDigest == DigestOf(RenewAuthority, secret)
             && r.status.Active? && Renewals(w.log) < 9007199254740990
             && r.lease.issuedAt <= now < r.lease.expiresAt < now + 300000 + 2592000000
             && r.lease.lastRenewedAt <= now + 300000
    ensures var w := Run(arrivals); Renews(w.route.value, LatestRenewal(w, secret, now), Presented(true, secret, now))
  {
    hide Run, Renewals, Renew, FourDigests, Chain;
    RunGood(arrivals);
    RenewTakesEffectExactly(arrivals, LatestRenewal(Run(arrivals), secret, now), Presented(true, secret, now));
  }

  /** A standing route can be torn down under its own secret from its creation on, also after its lease, and only so. */
  lemma TearableExactly(arrivals: seq<Arrival>, secret: Secret, now: int)
    requires Run(arrivals).route.Some?
    ensures var w := Run(arrivals); var r := w.route.value;
            CanTearDown(r, secret, now) <==>
            && w.log != [] && w.log[0].OfCreate?
            && w.log[0].created.teardownDigest == DigestOf(TeardownAuthority, secret)
            && r.status.Active? && r.createdAt <= now
  {
    hide Run, Renewals, Teardown, FourDigests, Chain;
    RunGood(arrivals);
    var w, r := Run(arrivals), Run(arrivals).route.value;
    forall q, p | TearsDown(r, q, p)
      ensures r.teardownDigest == DigestOf(TeardownAuthority, p.secret) && r.createdAt <= p.now
    {
      TeardownTakesEffectExactly(arrivals, q, p);
    }
    var body := TeardownBody(r.routeID, r.lease.renewalSequence, r.lastDigest, now, r.lastKey + 1);
    var operation := Transition(OfTeardown(body));
    var q := TeardownRequest(body, Proof(TeardownAuthority, 0, operation, now,
                                         MacOf(secret, TeardownAuthority, r.routeID, operation, now, 0)));
    TeardownTakesEffectExactly(arrivals, q, Presented(true, secret, now));
    if r.teardownDigest == DigestOf(TeardownAuthority, secret) && r.status.Active? && r.createdAt <= now {
      assert TearsDown(r, q, Presented(true, secret, now));
    }
  }

  /** Nothing that arrives under any other secret changes a route. */
  lemma OnlyHoldersChange(arrivals: seq<Arrival>, a: Arrival)
    requires Run(arrivals).route.Some? && Step(Run(arrivals), a) != Run(arrivals)
    ensures var log := Run(arrivals).log;
            && log != [] && log[0].OfCreate? && !a.request.CreateOp?
            && (a.request.RenewOp? ==> log[0].created.renewDigest == DigestOf(RenewAuthority, a.presented.secret))
            && (a.request.TeardownOp? ==>
                  log[0].created.teardownDigest == DigestOf(TeardownAuthority, a.presented.secret))
  {
    hide Run, Renewals, Renew, Teardown, FourDigests, Chain;
    RunGood(arrivals);
    match a.request
    case CreateOp(_) =>
    case RenewOp(q) => RenewTakesEffectExactly(arrivals, q, a.presented);
    case TeardownOp(q) => TeardownTakesEffectExactly(arrivals, q, a.presented);
  }

  /** A creation is accepted exactly when its own renewing secret vouches for it and nothing else has its identifier. */
  lemma CreateTakesEffectExactly(existing: Option<Route>, q: CreateRequest, p: Presented)
    requires existing.Some? ==> ValidRoute(existing.value)
    ensures var l := q.body.lease; var at := q.authorization.authorizedAt;
            Create(existing, q, p).Ok? <==>
            && p.confidential && q.body.renewDigest == DigestOf(RenewAuthority, p.secret)
            && q.authorization == Proof(RenewAuthority, q.authorization.nonce, Transition(OfCreate(q.body)), l.issuedAt,
                                        MacOf(p.secret, RenewAuthority, q.body.routeID, Transition(OfCreate(q.body)),
                                              l.issuedAt, q.authorization.nonce))
            && p.now - 300000 <= l.issuedAt <= p.now + 300000
            && l.renewalSequence == 0 && l.issuedAt <= l.lastRenewedAt
            && l.lastRenewedAt + 300000 <= l.expiresAt <= l.lastRenewedAt + 2592000000
            && (forall a, b :: 0 <= a < b < 4 ==> Digests(q.body)[a] != Digests(q.body)[b])
            && if existing.None? then l.issuedAt <= p.now < l.expiresAt
               else && existing.value.routeID == q.body.routeID && existing.value.status.Active?
                    && existing.value.creationKey == q.body.key && existing.value.creationDigest == OfCreate(q.body)
    ensures Create(existing, q, p).Ok? && existing.Some? ==> Create(existing, q, p).value == existing.value
    ensures Create(existing, q, p).Ok? && existing.None? ==>
              var r := Create(existing, q, p).value;
              && Stable(r, q.body) && r.lease == q.body.lease && r.status.Active?
              && r.lastKey == q.body.key && r.creationDigest == r.lastDigest == OfCreate(q.body)
  {
    var d := Digests(q.body);
    assert FourDigests(d[0], d[1], d[2], d[3]) <==> forall a, b :: 0 <= a < b < 4 ==> d[a] != d[b];
  }

  function Digests(b: CreateBody): (d: seq<CredentialDigest>)
    ensures |d| == 4
  {
    [b.sendDigest, b.readDigest, b.renewDigest, b.teardownDigest]
  }

  predicate Creates(q: CreateRequest, p: Presented, now: int) {
    Create(None, q, p.(now := now)).Ok?
  }

  /**
   * A creation is bounded by the renewal time its own lease claims, since the
   * check compares the expiry with that alone. The bound of a renewal holds at
   * every time the creation is accepted exactly when the lease itself ends
   * within 30 days and five minutes of its issue.
   */
  lemma CreationExpiry(q: CreateRequest, p: Presented)
    requires Create(None, q, p).Ok?
    ensures var l := Create(None, q, p).value.lease;
            && l == q.body.lease && l.expiresAt <= p.now + MAXIMUM_LEASE_MS + (l.lastRenewedAt - l.issuedAt)
            && ((forall now :: Creates(q, p, now) ==> l.expiresAt <= now + CLOCK_SKEW_MS + MAXIMUM_LEASE_MS) <==>
                l.expiresAt <= l.issuedAt + CLOCK_SKEW_MS + MAXIMUM_LEASE_MS)
  {
    hide ProofVerifies, FourDigests;
    assert Creates(q, p, q.body.lease.issuedAt);
  }

  /**
   * Nothing ties a new lease's renewal time to the clock, so its expiry can lie
   * any time ahead; the bound above is met.
   */
  lemma CreationExpiryIsUnbounded(now: int, ahead: nat) returns (q: CreateRequest, p: Presented)
    ensures p.now == now && Create(None, q, p).Ok?
    ensures var l := Create(None, q, p).value.lease;
            l.expiresAt == now + MAXIMUM_LEASE_MS + ahead && l.lastRenewedAt - l.issuedAt == ahead
  {
    var lease := Lease(now, now + ahead, now + ahead + MAXIMUM_LEASE_MS, 0, 0);
    var body := CreateBody(1, DigestOf(SendAuthority, 1), DigestOf(ReadAuthority, 2), DigestOf(RenewAuthority, 3),
                           DigestOf(TeardownAuthority, 4), lease, 9);
    var operation := Transition(OfCreate(body));
    p := Presented(true, 3, now);
    q := CreateRequest(body, Proof(RenewAuthority, 7, operation, now, MacOf(3, RenewAuthority, 1, operation, now, 7)));
  }

  /** Retrying an accepted request at once returns the identical route, also when the lease has run out by then. */
  lemma ImmediateRetryIsIdempotent(r: Route, q: RenewRequest, t: TeardownRequest, p: Presented, later: int)
    ensures Renew(r, q, p).Ok? ==> Renew(Renew(r, q, p).value, q, p.(now := later)) == Renew(r, q, p)
    ensures Teardown(r, t, p).Ok? ==> Teardown(Teardown(r, t, p).value, t, p.(now := later)) == Teardown(r, t, p)
  {
    hide ValidRenew, ValidTeardown, InSkew, LeaseActive, ProofVerifies;
  }

  lemma CreateRetryIsIdempotent(q: CreateRequest, p: Presented, later: int)
    requires Create(None, q, p).Ok? && InSkew(q.authorization.authorizedAt, later)
    ensures Create(Some(Create(None, q, p).value), q, p.(now := later)) == Create(None, q, p)
  {
    hide ValidCreate, InSkew, LeaseActive, ProofVerifies;
  }

  // ---- Races ----

  lemma {:induction false} LogGrows(arrivals: seq<Arrival>, n: nat)
    requires n <= |arrivals|
    ensures Run(arrivals[..n]).log <= Run(arrivals).log
  {
    if n == |arrivals| {
      assert arrivals[..n] == arrivals;
    } else {
      var front := arrivals[..|arrivals| - 1];
      LogGrows(front, n);
      assert front[..n] == arrivals[..n];
    }
  }

  lemma RenewalsMonotone(a: seq<TransitionDigest>, b: seq<TransitionDigest>)
    requires a <= b
    ensures Renewals(a) <= Renewals(b)
    decreases |b|
  {
    if a != b {
      RenewalsMonotone(a, b[..|b| - 1]);
    }
  }

  /**
   * Two renewals made from the same state never both take effect: once one is
   * accepted, the other is refused for ever, by every later state.
   */
  lemma CompetingRenewalsExclude(arrivals: seq<Arrival>, n: nat, winner: RenewRequest, loser: RenewRequest,
                                 p: Presented)
    requires n < |arrivals| && arrivals[n].request == RenewOp(winner)
    requires Run(arrivals[..n]).route.Some? && Step(Run(arrivals[..n]), arrivals[n]) != Run(arrivals[..n])
    requires loser.body != winner.body && loser.body.renewalSequence == winner.body.renewalSequence
    requires loser.body.previous == winner.body.previous
    ensures Run(arrivals).route.Some? && Renew(Run(arrivals).route.value, loser, p).Err?
  {
    hide Run, Good;
    var before := Run(arrivals[..n]);
    OneMore(arrivals, n);
    var after := Run(arrivals[..n + 1]);
    RenewalTakesEffect(before, arrivals[n], winner);
    RunGood(arrivals[..n + 1]);
    RunGood(arrivals);
    LogGrows(arrivals, n + 1);
    RenewalsMonotone(after.log, Run(arrivals).log);
    LoserRefused(after, Run(arrivals), winner, loser, p);
  }

  lemma OneMore(arrivals: seq<Arrival>, n: nat)
    requires n < |arrivals|
    ensures Run(arrivals[..n + 1]) == Step(Run(arrivals[..n]), arrivals[n])
  {
    assert arrivals[..n + 1][..n] == arrivals[..n];
  }

  lemma RenewalTakesEffect(w: World, a: Arrival, q: RenewRequest)
    requires w.route.Some? && a.request == RenewOp(q) && Step(w, a) != w
    ensures Step(w, a).route.Some? && Step(w, a).log == w.log + [OfRenew(q.body)]
    ensures Step(w, a).route.value.lease.renewalSequence == q.body.renewalSequence
  {
    hide CapabilityProof, InSkew, LeaseActive, ValidRenew;
  }

  lemma LoserRefused(after: World, end: World, winner: RenewRequest, loser: RenewRequest, p: Presented)
    requires Good(after) && Good(end) && after.log <= end.log && after.log != []
             && after.log[|after.log| - 1] == OfRenew(winner.body)
    requires after.route.Some? && after.route.value.lease.renewalSequence == winner.body.renewalSequence
    requires Renewals(after.log) <= Renewals(end.log)
    requires loser.body != winner.body && loser.body.renewalSequence == winner.body.renewalSequence
    requires loser.body.previous == winner.body.previous
    ensures end.route.Some? && Renew(end.route.value, loser, p).Err?
  {
    hide CapabilityProof, InSkew, LeaseActive, ValidRenew, ValidRoute, Renewals;
    var k := |after.log| - 1;
    if end.route.value.lastDigest == OfRenew(loser.body) {
      LoserNotLast(after.log, end.log, winner, loser);
    }
  }

  /** In a chain no later transition names the same predecessor. */
  lemma LoserNotLast(log: seq<TransitionDigest>, longer: seq<TransitionDigest>, winner: RenewRequest,
                     loser: RenewRequest)
    requires Chain(log) && Chain(longer) && log <= longer && log != [] && log[|log| - 1] == OfRenew(winner.body)
    requires loser.body != winner.body && loser.body.previous == winner.body.previous
    ensures longer[|longer| - 1] != OfRenew(loser.body)
  {
    var k, m := |log| - 1, |longer| - 1;
    assert longer[k] == log[k];
    assert Linked(longer, k) && Linked(longer, m);
    if longer[m] == OfRenew(loser.body) && k < m {
      Acyclic(longer, k - 1, m - 1);
    }
  }

  /** Digests contain the digest before them, so no digest occurs twice in a chain. */
  lemma {:induction false} Acyclic(log: seq<TransitionDigest>, j: nat, k: nat)
    requires Chain(log) && j < k < |log|
    ensures log[j] != log[k]
  {
    assert Linked(log, j) && Linked(log, k);
    if j > 0 {
      Acyclic(log, j - 1, k - 1);
    }
  }

  /** A torn down route never changes again, whatever arrives. */
  lemma {:induction false} TeardownIsFinal(arrivals: seq<Arrival>, n: nat)
    requires n <= |arrivals| && Run(arrivals[..n]).route.Some? && Run(arrivals[..n]).route.value.status.TornDown?
    ensures Run(arrivals) == Run(arrivals[..n])
  {
    if n == |arrivals| {
      assert arrivals[..n] == arrivals;
    } else {
      var front, a := arrivals[..|arrivals| - 1], arrivals[|arrivals| - 1];
      assert front[..n] == arrivals[..n];
      TeardownIsFinal(front, n);
      TornDownStays(Run(front), a);
    }
  }

  lemma TornDownStays(w: World, a: Arrival)
    requires w.route.Some? && w.route.value.status.TornDown?
    ensures Step(w, a) == w
  {
    hide CapabilityProof, ProofVerifies, ValidRoute, ValidCreate, ValidRenew, ValidTeardown;
  }

  // ---- Using a route ----

  /** A read or send proof is good once; the ledger holds every proof it let through. */
  function AuthorizeUse(r: Route, proof: Proof, operation: nat, authority: Authority, p: Presented, ledger: set<Proof>)
    : Result<set<Proof>, RouteError>
  {
    if !p.confidential then Err(ConfidentialTransportRequired)
    else if authority != SendAuthority && authority != ReadAuthority then Err(InvalidRequest)
    else if !ValidRoute(r) then Err(InvalidRequest)
    else if r.status.TornDown? then Err(RouteTornDown)
    else if !LeaseActive(r.lease, p.now) then Err(RouteExpired)
    else if !InSkew(proof.authorizedAt, p.now) then Err(AuthorizationExpired)
    else if DigestOf(authority, p.secret) != (if authority == SendAuthority then r.sendDigest else r.readDigest)
            || !ProofVerifies(proof, authority, r.routeID, Use(operation), p.secret) then Err(InvalidAuthorization)
    else if |ledger| > MAXIMUM_LEDGER then Err(InvalidAuthorization)
    else if proof in ledger then Err(AuthorizationReplay)
    else if |ledger| >= MAXIMUM_LEDGER then Err(LedgerExhausted)
    else Ok(ledger + {proof})
  }

  /**
   * A use is authorized exactly under the secret of its own authority, for its
   * operation, in time on a standing route, with a proof not used before and
   * room in the ledger.
   */
  lemma UseAuthorizedExactly(r: Route, proof: Proof, operation: nat, authority: Authority, p: Presented,
                             ledger: set<Proof>)
    requires ValidRoute(r)
    ensures AuthorizeUse(r, proof, operation, authority, p, ledger).Ok? <==>
            && p.confidential && r.status.Active? && r.lease.issuedAt <= p.now < r.lease.expiresAt
            && (|| (authority == SendAuthority && r.sendDigest == DigestOf(SendAuthority, p.secret))
                || (authority == ReadAuthority && r.readDigest == DigestOf(ReadAuthority, p.secret)))
            && p.now - 300000 <= proof.authorizedAt <= p.now + 300000
            && proof == Proof(authority, proof.nonce, Use(operation), proof.authorizedAt,
                              MacOf(p.secret, authority, r.routeID, Use(operation), proof.authorizedAt, proof.nonce))
            && proof !in ledger && |ledger| < 4096
    ensures AuthorizeUse(r, proof, operation, authority, p, ledger).Ok? ==>
              AuthorizeUse(r, proof, operation, authority, p, ledger).value == ledger + {proof}
  {
    hide ValidRoute;
  }

  /** Why a use is refused, in the order of the checks. */
  lemma UseRefusedFor(r: Route, proof: Proof, operation: nat, authority: Authority, p: Presented, ledger: set<Proof>)
    requires ValidRoute(r) && |ledger| <= 4096 && AuthorizeUse(r, proof, operation, authority, p, ledger).Err?
    ensures AuthorizeUse(r, proof, operation, authority, p, ledger).error ==
            if !p.confidential then ConfidentialTransportRequired
            else if authority == RenewAuthority || authority == TeardownAuthority then InvalidRequest
            else if r.status.TornDown? then RouteTornDown
            else if p.now < r.lease.issuedAt || p.now >= r.lease.expiresAt then RouteExpired
            else if proof.authorizedAt < p.now - 300000 || proof.authorizedAt > p.now + 300000 then
              AuthorizationExpired
            else if proof in ledger && Authentic(r, proof, operation, authority, p.secret) then AuthorizationReplay
            else if Authentic(r, proof, operation, authority, p.secret) then LedgerExhausted
            else InvalidAuthorization
  {
    hide ValidRoute;
  }

  /** The holder of the authority's secret made the proof for this operation. */
  predicate Authentic(r: Route, proof: Proof, operation: nat, authority: Authority, secret: Secret) {
    && DigestOf(authority, secret) == (if authority == SendAuthority then r.sendDigest else r.readDigest)
    && proof == Proof(authority, proof.nonce, Use(operation), proof.authorizedAt,
                      MacOf(secret, authority, r.routeID, Use(operation), proof.authorizedAt, proof.nonce))
  }

  datatype UseArrival = UseArrival(route: Route, proof: Proof, operation: nat, authority: Authority,
                                   presented: Presented)

  /** Ledger and accepted proofs after a run of uses, whatever state the route is in at each. */
  function Uses(arrivals: seq<UseArrival>): (set<Proof>, seq<Proof>) {
    if arrivals == [] then ({}, [])
    else
      var (ledger, accepted) := Uses(arrivals[..|arrivals| - 1]);
      var a := arrivals[|arrivals| - 1];
      match AuthorizeUse(a.route, a.proof, a.operation, a.authority, a.presented, ledger)
      case Err(_) => (ledger, accepted)
      case Ok(next) => (next, accepted + [a.proof])
  }

  /** No proof is accepted twice, and the ledger stays within its bound. */
  lemma {:induction false} ProofsAreUsedOnce(arrivals: seq<UseArrival>)
    ensures var (ledger, accepted) := Uses(arrivals);
            && |ledger| == |accepted| <= MAXIMUM_LEDGER
            && (forall x :: x in accepted <==> x in ledger)
            && (forall j, k :: 0 <= j < k < |accepted| ==> accepted[j] != accepted[k])
  {
    hide ValidRoute, LeaseActive, InSkew, ProofVerifies;
    if arrivals != [] {
      ProofsAreUsedOnce(arrivals[..|arrivals| - 1]);
    }
  }
}
