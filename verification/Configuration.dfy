/**
 * Administrator configuration: providers, routes and the compiled table of internal/core/ai/store.go, providers.go and
 * compile.go, over the credentials and references of Vault.
 *
 * Inputs arrive trimmed. Whether a base URL is acceptable and whether an OAuth secret decodes are given with the request.
 */
module Configuration {
  import opened Common
  import opened Pricing
  import V = Vault

  datatype Billing = Metered | Subscription
  datatype BillingInput = Blank | Given(billing: Billing) | OtherBilling

  datatype Provider = Provider(id: Text, kind: ProviderKind, baseUrl: Text, credential: Text, billing: Billing)
  datatype ProviderInput = ProviderInput(id: Text, kind: ProviderKind, baseUrl: Text, credential: Text, billing: BillingInput)

  datatype Capability = Chat | Embed | OtherCapability(name: Text)
  datatype AttemptInput = AttemptInput(provider: Text, model: Text, inPerM: int64, outPerM: int64)
  datatype RouteRow = RouteRow(capabilities: seq<Capability>, maxInput: int64, maxOutput: int64)
  datatype RouteInput = RouteInput(name: Text, row: RouteRow, attempts: seq<AttemptInput>)

  datatype Error =
    | InvalidProvider | MissingCredential | SubscriptionOnly | UnknownProvider | ProviderInUse
    | InvalidRoute | MissingPrice | Unbounded | Credential(e: V.Error)

  // ---- Compiling a route --------------------------------------------------------------------------------

  /** A compiled route keeps the attempts resolved before the first error, and the error. */
  datatype Compiled = Compiled(row: RouteRow, attempts: seq<Attempt>, error: Option<Error>)

  predicate Has(row: RouteRow, c: Capability) { c in row.capabilities }

  function Resolve(a: AttemptInput, p: Provider): Attempt {
    Attempt(p.id, p.kind, p.baseUrl, p.credential, p.billing != Subscription, a.model, a.inPerM, a.outPerM)
  }

  function AttemptError(a: AttemptInput, providers: map<Text, Provider>, chat: bool): Option<Error> {
    if a.provider !in providers then Some(UnknownProvider)
    else if a.model == [] then Some(InvalidRoute)
    else if providers[a.provider].billing != Subscription && (a.inPerM <= 0 || (chat && a.outPerM <= 0)) then Some(MissingPrice)
    else None
  }

  function Plan(attempts: seq<AttemptInput>, providers: map<Text, Provider>, chat: bool): (seq<Attempt>, Option<Error>) {
    if attempts == [] then ([], None)
    else
      match AttemptError(attempts[0], providers, chat)
      case Some(e) => ([], Some(e))
      case None =>
        var rest := Plan(attempts[1..], providers, chat);
        ([Resolve(attempts[0], providers[attempts[0].provider])] + rest.0, rest.1)
  }

  function HeaderError(input: RouteInput): Option<Error> {
    if !V.ValidId(input.name) then Some(InvalidRoute)
    else if input.row.maxInput <= 0 || input.row.maxOutput <= 0 then Some(InvalidRoute)
    else if input.attempts == [] || input.row.capabilities == [] then Some(InvalidRoute)
    else None
  }

  /** The route's maximum cost, in the form its capabilities call for. */
  function BoundError(row: RouteRow, plan: seq<Attempt>): Option<Error> {
    if !Has(row, Chat) && !Has(row, Embed) then Some(InvalidRoute)
    else if Has(row, Chat) && ChatTotal(plan, row.maxInput, OutputLimit(row.maxOutput, 0), 0).Err? then Some(Error.Unbounded)
    else if !Has(row, Chat) && EmbedTotal(plan, row.maxInput, 0).Err? then Some(Error.Unbounded)
    else None
  }

  function Compile(input: RouteInput, providers: map<Text, Provider>): Compiled {
    match HeaderError(input)
    case Some(e) => Compiled(input.row, [], Some(e))
    case None =>
      var plan := Plan(input.attempts, providers, Has(input.row, Chat));
      Compiled(input.row, plan.0, if plan.1.Some? then plan.1 else BoundError(input.row, plan.0))
  }

  /** compileRoute: exactly what can be said of the compiled route without saying how it is made. */
  method CompileRoute(input: RouteInput, providers: map<Text, Provider>) returns (r: Compiled)
    ensures r == Compile(input, providers) && CompiledFrom(input, providers, r)
  {
    r := CompileSteps(input, providers);
    CompileExact(input, providers);
  }

  /** Its loop over the attempts and its call of the estimate. */
  method CompileSteps(input: RouteInput, providers: map<Text, Provider>) returns (r: Compiled)
    ensures r == Compile(input, providers)
  {
    var header := HeaderError(input);
    if header.Some? { return Compiled(input.row, [], header); }
    var chat := Has(input.row, Chat);
    ghost var all := Plan(input.attempts, providers, chat);
    var attempts: seq<Attempt> := [];
    assert input.attempts[0..] == input.attempts;
    for i := 0 to |input.attempts|
      invariant all.0 == attempts + Plan(input.attempts[i..], providers, chat).0
      invariant all.1 == Plan(input.attempts[i..], providers, chat).1
    {
      assert input.attempts[i..][1..] == input.attempts[i + 1..];
      var e := AttemptError(input.attempts[i], providers, chat);
      if e.Some? { return Compiled(input.row, attempts, e); }
      attempts := attempts + [Resolve(input.attempts[i], providers[input.attempts[i].provider])];
    }
    assert input.attempts[|input.attempts|..] == [] && all.0 == attempts && all.1 == None;
    if !Has(input.row, Chat) && !Has(input.row, Embed) { return Compiled(input.row, attempts, Some(InvalidRoute)); }
    var total;
    if Has(input.row, Chat) {
      total := EstimateChat(attempts, input.row.maxInput, input.row.maxOutput, 0);
    } else {
      total := EstimateEmbed(attempts, input.row.maxInput);
    }
    return Compiled(input.row, attempts, if total.Err? then Some(Error.Unbounded) else None);
  }

  // ---- What compiling gives, apart from how ---------------------------------------------------------------

  /** A compiled attempt carries its stored model and prices, and everything else from its provider. */
  predicate ResolvedFrom(x: Attempt, a: AttemptInput, p: Provider) {
    && x.providerId == p.id && x.kind == p.kind && x.baseUrl == p.baseUrl && x.credential == p.credential
    && (x.metered <==> p.billing == Metered)
    && x.model == a.model && x.inPerM == a.inPerM && x.outPerM == a.outPerM
  }

  /** The attempt names a known provider and a model, and a metered one has the prices its route needs. */
  predicate Resolvable(a: AttemptInput, providers: map<Text, Provider>, chat: bool) {
    && a.provider in providers && a.model != []
    && (providers[a.provider].billing == Metered ==> a.inPerM > 0 && (chat ==> a.outPerM > 0))
  }

  predicate MeteredOn(a: AttemptInput, providers: map<Text, Provider>) {
    a.provider in providers && providers[a.provider].billing == Metered
  }

  predicate RefusedFor(a: AttemptInput, providers: map<Text, Provider>, e: Error) {
    if a.provider !in providers then e == UnknownProvider else if a.model == [] then e == InvalidRoute else e == MissingPrice
  }

  predicate WellFormed(input: RouteInput) {
    && V.ValidId(input.name) && input.row.maxInput > 0 && input.row.maxOutput > 0
    && input.attempts != [] && input.row.capabilities != []
  }

  /** The plan's estimate, for chats if the route takes them and else for embeddings. */
  predicate Bounded(row: RouteRow, plan: seq<Attempt>) {
    if Has(row, Chat) then ChatTotal(plan, row.maxInput, row.maxOutput, 0).Ok? else EmbedTotal(plan, row.maxInput, 0).Ok?
  }

  /**
   * The attempts up to the first that cannot be resolved, and the error: none exactly for a well-formed route all of whose
   * attempts resolve, that takes chats or embeddings, and whose estimate is bounded.
   */
  predicate CompiledFrom(input: RouteInput, providers: map<Text, Provider>, r: Compiled) {
    var chat := Has(input.row, Chat);
    && r.row == input.row && |r.attempts| <= |input.attempts|
    && (forall i :: 0 <= i < |r.attempts| ==> Resolvable(input.attempts[i], providers, chat))
    && (forall i :: 0 <= i < |r.attempts| ==> ResolvedFrom(r.attempts[i], input.attempts[i], providers[input.attempts[i].provider]))
    && if !WellFormed(input) then r.attempts == [] && r.error == Some(InvalidRoute)
       else if |r.attempts| < |input.attempts| then
         && !Resolvable(input.attempts[|r.attempts|], providers, chat)
         && r.error.Some? && RefusedFor(input.attempts[|r.attempts|], providers, r.error.value)
       else if !chat && !Has(input.row, Embed) then r.error == Some(InvalidRoute)
       else r.error == if Bounded(input.row, r.attempts) then None else Some(Error.Unbounded)
  }

  /** Attempts resolve one by one in order, up to the first that cannot; that one's error is the route's. */
  lemma {:induction false} PlanExact(attempts: seq<AttemptInput>, providers: map<Text, Provider>, chat: bool)
    ensures var plan := Plan(attempts, providers, chat);
      && |plan.0| <= |attempts|
      && (forall i :: 0 <= i < |plan.0| ==> Resolvable(attempts[i], providers, chat))
      && (forall i :: 0 <= i < |plan.0| ==> ResolvedFrom(plan.0[i], attempts[i], providers[attempts[i].provider]))
      && (if |plan.0| == |attempts| then plan.1 == None
          else !Resolvable(attempts[|plan.0|], providers, chat) && plan.1.Some? && RefusedFor(attempts[|plan.0|], providers, plan.1.value))
    decreases |attempts|
  {
    if attempts != [] { PlanExact(attempts[1..], providers, chat); }
  }

  lemma CompileExact(input: RouteInput, providers: map<Text, Provider>)
    ensures CompiledFrom(input, providers, Compile(input, providers))
  {
    PlanExact(input.attempts, providers, Has(input.row, Chat));
  }

  /** A well-formed, fully priced route whose products round and whose maximum fits always compiles. */
  lemma BoundedRouteCompiles(input: RouteInput, providers: map<Text, Provider>)
    requires WellFormed(input) && (Has(input.row, Chat) || Has(input.row, Embed))
    requires forall i :: 0 <= i < |input.attempts| ==> Resolvable(input.attempts[i], providers, Has(input.row, Chat))
    requires forall i :: 0 <= i < |input.attempts| && MeteredOn(input.attempts[i], providers) ==>
      && input.row.maxInput * input.attempts[i].inPerM <= MAX_PRODUCT
      && (Has(input.row, Chat) ==> input.row.maxOutput * input.attempts[i].outPerM <= MAX_PRODUCT)
    requires var plan, row := Compile(input, providers).attempts, input.row;
      if Has(row, Chat) then Priced(plan) ==> TrueMaximum(plan, row.maxInput, row.maxOutput) < TWO63
      else EmbedMaximum(plan, row.maxInput) < TWO63
    ensures Compile(input, providers).error == None
  {
    CompileExact(input, providers);
    var r, row := Compile(input, providers), input.row;
    assert forall a <- r.attempts :: exists i :: 0 <= i < |r.attempts| && r.attempts[i] == a;
    if Has(row, Chat) {
      BoundedPlanAccepted(r.attempts, row.maxInput, row.maxOutput, 0);
    } else {
      BoundedEmbedAccepted(r.attempts, row.maxInput, 0);
    }
  }

  /** Compiling looks at no provider but those the attempts name. */
  lemma {:induction false} PlanDepends(attempts: seq<AttemptInput>, p: map<Text, Provider>, q: map<Text, Provider>, chat: bool)
    requires forall a <- attempts :: a.provider in p && a.provider in q && p[a.provider] == q[a.provider]
    ensures Plan(attempts, p, chat) == Plan(attempts, q, chat)
    decreases |attempts|
  {
    if attempts != [] {
      assert attempts[0] in attempts;
      assert forall a <- attempts[1..] :: a in attempts;
      PlanDepends(attempts[1..], p, q, chat);
    }
  }

  // ---- Tables and memory --------------------------------------------------------------------------------

  datatype Stored = Stored(
    vault: V.Tables, providers: map<Text, Provider>, routes: map<Text, RouteRow>, attempts: map<Text, seq<AttemptInput>>)

  /** What the process keeps compiled. */
  datatype Memory = Memory(providers: map<Text, Provider>, routes: map<Text, Compiled>)

  datatype State = State(db: Stored, mem: Memory)

  /** "ai.providers" */
  const OWNER: Text := [97, 105, 46, 112, 114, 111, 118, 105, 100, 101, 114, 115]

  function InputOf(db: Stored, name: Text): RouteInput
    requires name in db.routes
  {
    RouteInput(name, db.routes[name], if name in db.attempts then db.attempts[name] else [])
  }

  function Load(db: Stored): Memory {
    Memory(db.providers, map name | name in db.routes :: Compile(InputOf(db, name), db.providers))
  }

  function Credentials(providers: map<Text, Provider>): set<Text> { set id <- providers :: providers[id].credential }

  function Refer(t: V.Tables, owner: Text, ids: set<Text>): V.Tables {
    t.(refs := (set r <- t.refs | r.0 != owner) + set id <- ids :: (owner, id))
  }

  /** reload: memory is replaced first; the references follow unless a credential is missing. */
  function Reload(db: Stored): State {
    if Credentials(db.providers) <= db.vault.rows.Keys
    then State(db.(vault := Refer(db.vault, OWNER, Credentials(db.providers))), Load(db))
    else State(db, Load(db))
  }

  // ---- Requests -------------------------------------------------------------------------------------------

  datatype Op =
    | PutProvider(input: ProviderInput, urlOk: bool, decodes: bool)
    | DeleteProvider(id: Text)
    | PutRoute(route: RouteInput)
    | DeleteRoute(name: Text)
    | CredentialOp(keys: V.Keys, request: V.Request)

  /** Every owner but this one may rewrite its own references. */
  predicate Foreign(op: Op) {
    op.CredentialOp? && op.request.op.ReplaceRefs? ==> op.request.op.owner != OWNER
  }

  /** A Codex provider bills against a plan and has a default URL; other blanks mean metered. */
  function Normalize(p: ProviderInput): ProviderInput {
    if p.kind == Codex
    then p.(baseUrl := if p.baseUrl == [] then CODEX_URL else p.baseUrl, billing := Given(Subscription))
    else if p.billing == Blank then p.(billing := Given(Metered)) else p
  }

  predicate ValidProvider(p: ProviderInput, urlOk: bool) {
    && V.ValidId(p.id) && p.credential != [] && p.billing.Given?
    && p.kind != OtherKind && (p.kind == Codex ==> p.billing.billing == Subscription)
    && (p.kind == Fake || urlOk)
  }

  /** The credential behind a provider, as its Attributes are read. */
  function ProviderError(db: Stored, p: ProviderInput, urlOk: bool, decodes: bool): Option<Error> {
    if !ValidProvider(p, urlOk) then Some(InvalidProvider)
    else if p.credential !in db.vault.rows then Some(MissingCredential)
    else if db.vault.rows[p.credential].kind == V.OAuth && !decodes then Some(MissingCredential)
    else if p.kind == Codex && db.vault.rows[p.credential].kind != V.OAuth then Some(SubscriptionOnly)
    else None
  }

  const CODEX_URL: Text := V.Ascii("https://chatgpt.com/backend-api/codex")

  predicate UsesProvider(attempts: seq<AttemptInput>, id: Text) { exists a <- attempts :: a.provider == id }

  /** The transaction of each request. */
  function Commit(db: Stored, op: Op): Result<Stored, Error> {
    match op
    case PutProvider(input, urlOk, decodes) =>
      var p := Normalize(input);
      (match ProviderError(db, p, urlOk, decodes)
       case Some(e) => Err(e)
       case None => Ok(db.(providers := db.providers[p.id := Provider(p.id, p.kind, p.baseUrl, p.credential, p.billing.billing)])))
    case DeleteProvider(id) =>
      if id !in db.providers then Err(UnknownProvider)
      else if exists name <- db.attempts :: UsesProvider(db.attempts[name], id) then Err(ProviderInUse)
      else Ok(db.(providers := db.providers - {id}))
    case PutRoute(route) =>
      var c := Compile(route, db.providers);
      if c.error.Some? then Err(c.error.value)
      else Ok(db.(routes := db.routes[route.name := route.row], attempts := db.attempts[route.name := route.attempts]))
    case DeleteRoute(name) =>
      Ok(db.(routes := db.routes - {name}, attempts := db.attempts - {name}))
    case CredentialOp(keys, r) =>
      match V.Transact(db.vault, keys, r.active, r.nonce, r.op)
      case Err(e) => Err(Credential(e))
      case Ok(t) => Ok(db.(vault := t))
  }

  /** Some stored route has an attempt at the provider. */
  predicate SomeAttemptUses(attempts: map<Text, seq<AttemptInput>>, provider: Text) {
    exists name <- attempts :: exists a <- attempts[name] :: a.provider == provider
  }

  lemma UsedMeans(attempts: map<Text, seq<AttemptInput>>, provider: Text)
    ensures (exists name <- attempts :: UsesProvider(attempts[name], provider)) <==> SomeAttemptUses(attempts, provider)
  {
  }

  /** A request served, a request committed by a process that then dies and restarts, or a plain restart. */
  datatype Step = Serve(op: Op) | Killed(op: Op) | Restart

  function Next(s: State, step: Step): State {
    match step
    case Restart => Reload(s.db)
    case Serve(op) =>
      (match Commit(s.db, op)
       case Err(_) => s
       case Ok(db) => if op.CredentialOp? then State(db, s.mem) else Reload(db))
    case Killed(op) =>
      match Commit(s.db, op)
      case Err(_) => Reload(s.db)
      case Ok(db) => Reload(db)
  }

  // ---- What always agrees -----------------------------------------------------------------------------------

  ghost predicate Linked(t: V.Tables) { forall r <- t.refs :: r.1 in t.rows }

  ghost predicate Owned(db: Stored) {
    forall id :: (OWNER, id) in db.vault.refs <==> id in Credentials(db.providers)
  }

  ghost predicate Routed(db: Stored) {
    && db.attempts.Keys == db.routes.Keys
    && forall name <- db.attempts :: forall a <- db.attempts[name] :: a.provider in db.providers
  }

  ghost predicate Keyed(db: Stored) { forall id <- db.providers :: db.providers[id].id == id }

  /** What holds of the tables even between a commit and the reload after it. */
  ghost predicate Consistent(db: Stored) {
    Linked(db.vault) && Routed(db) && Keyed(db) && Credentials(db.providers) <= db.vault.rows.Keys
  }

  ghost predicate Agrees(s: State) { Consistent(s.db) && Owned(s.db) && s.mem == Load(s.db) }

  lemma CredentialOpKeeps(t: V.Tables, keys: V.Keys, active: int64, nonce: Text, op: V.Op)
    requires Linked(t) && V.Transact(t, keys, active, nonce, op).Ok?
    requires op.ReplaceRefs? ==> op.owner != OWNER
    ensures var t' := V.Transact(t, keys, active, nonce, op).value;
      && Linked(t')
      && (forall id :: (OWNER, id) in t'.refs <==> (OWNER, id) in t.refs)
      && (forall id <- t.rows | (OWNER, id) in t.refs :: id in t'.rows)
  {
  }

  lemma CommitKeepsConsistent(db: Stored, op: Op)
    requires Consistent(db) && Owned(db) && Foreign(op) && Commit(db, op).Ok?
    ensures Consistent(Commit(db, op).value)
  {
    var db' := Commit(db, op).value;
    match op
    case PutProvider(_, _, _) =>
    case DeleteProvider(id) =>
      forall name <- db'.attempts, a <- db'.attempts[name] ensures a.provider in db'.providers {
        assert !UsesProvider(db.attempts[name], id);
      }
    case PutRoute(route) =>
      PlanExact(route.attempts, db.providers, Has(route.row, Chat));
    case DeleteRoute(_) =>
    case CredentialOp(keys, r) =>
      CredentialOpKeeps(db.vault, keys, r.active, r.nonce, r.op);
      assert forall id <- Credentials(db.providers) :: (OWNER, id) in db.vault.refs;
  }

  /** A reload of consistent tables never finds a credential missing, and makes everything agree. */
  lemma ReloadAgrees(db: Stored)
    requires Consistent(db)
    ensures Agrees(Reload(db)) && Reload(db).db == db.(vault := Reload(db).db.vault)
  {
    var s := Reload(db);
    assert forall id :: (OWNER, id) in s.db.vault.refs <==> id in Credentials(db.providers);
    assert s.mem.routes == Load(s.db).routes;
  }

  lemma StepAgrees(s: State, step: Step)
    requires Agrees(s) && (step.Restart? || Foreign(step.op))
    ensures Agrees(Next(s, step))
  {
    if step.Restart? || Commit(s.db, step.op).Err? {
      ReloadAgrees(s.db);
      return;
    }
    var op, db := step.op, Commit(s.db, step.op).value;
    CommitKeepsConsistent(s.db, op);
    ReloadAgrees(db);
    if op.CredentialOp? {
      CredentialOpKeeps(s.db.vault, op.keys, op.request.active, op.request.nonce, op.request.op);
      assert Load(db).routes == Load(s.db).routes;
    }
  }

  function After(s: State, steps: seq<Step>): State {
    if steps == [] then s else Next(After(s, steps[..|steps| - 1]), steps[|steps| - 1])
  }

  /**
   * After any sequence of provider, route and credential requests, with the process killed after any commit: no
   * reference dangles, "ai.providers" refers to exactly the providers' credentials, every stored attempt
   * names a provider, and the compiled table is what compiling the stored routes gives.
   */
  lemma {:induction false} AlwaysAgrees(s: State, steps: seq<Step>)
    requires Agrees(s) && forall x <- steps :: x.Restart? || Foreign(x.op)
    ensures Agrees(After(s, steps))
    decreases |steps|
  {
    if steps != [] {
      var n := |steps| - 1;
      AlwaysAgrees(s, steps[..n]);
      assert steps[n] in steps;
      StepAgrees(After(s, steps[..n]), steps[n]);
    }
  }

  // ---- What follows from agreement ------------------------------------------------------------------------

  /** A restart in an agreeing state changes nothing. */
  lemma RestartIsInvisible(s: State)
    requires Agrees(s)
    ensures Reload(s.db) == s
  {
    assert Refer(s.db.vault, OWNER, Credentials(s.db.providers)).refs == s.db.vault.refs;
  }

  /** So dying between a commit and its reload ends in the same state as serving the request. */
  lemma KilledIsServed(s: State, op: Op)
    requires Agrees(s) && Foreign(op)
    ensures Next(s, Killed(op)) == Next(s, Serve(op))
  {
    if Commit(s.db, op).Err? {
      RestartIsInvisible(s);
    } else if op.CredentialOp? {
      StepAgrees(s, Serve(op));
      RestartIsInvisible(Next(s, Serve(op)));
    }
  }

  /** Deleting a provider, when it is allowed, leaves every compiled route as it was. */
  lemma DeletionBreaksNoRoute(s: State, id: Text)
    requires Agrees(s) && Commit(s.db, DeleteProvider(id)).Ok?
    ensures Next(s, Serve(DeleteProvider(id))).mem.routes == s.mem.routes
    ensures id !in Next(s, Serve(DeleteProvider(id))).mem.providers
  {
    var db := s.db.(providers := s.db.providers - {id});
    forall name <- s.db.routes ensures Compile(InputOf(db, name), db.providers) == Compile(InputOf(s.db, name), s.db.providers) {
      var attempts := s.db.attempts[name];
      assert !UsesProvider(attempts, id);
      PlanDepends(attempts, db.providers, s.db.providers, Has(s.db.routes[name], Chat));
    }
    assert Load(db).routes == Load(s.db).routes;
  }

  /** A route that was just stored is usable, each attempt resolved from the stored one; nothing else changes. */
  lemma StoredRouteIsUsable(s: State, r: RouteInput)
    requires Agrees(s) && Commit(s.db, PutRoute(r)).Ok?
    ensures var s' := Next(s, Serve(PutRoute(r)));
      && r.name in s'.mem.routes && s'.mem.routes[r.name].error.None? && |s'.mem.routes[r.name].attempts| == |r.attempts|
      && CompiledFrom(r, s.db.providers, s'.mem.routes[r.name])
      && s'.db.routes == s.db.routes[r.name := r.row] && s'.db.attempts == s.db.attempts[r.name := r.attempts]
      && s'.db.providers == s.db.providers && s'.db.vault.rows == s.db.vault.rows
    ensures forall name <- s.mem.routes | name != r.name ::
      name in Next(s, Serve(PutRoute(r))).mem.routes && Next(s, Serve(PutRoute(r))).mem.routes[name] == s.mem.routes[name]
  {
    CompileExact(r, s.db.providers);
    var db := Commit(s.db, PutRoute(r)).value;
    assert InputOf(db, r.name) == r;
    assert forall name <- s.db.routes | name != r.name :: InputOf(db, name) == InputOf(s.db, name);
  }

  /** What an administrator asks for in a provider: the conditions under which it is accepted, in terms of the input alone. */
  predicate Acceptable(db: Stored, p: ProviderInput, urlOk: bool, decodes: bool) {
    && V.ValidId(p.id) && p.credential != [] && p.credential in db.vault.rows
    && (db.vault.rows[p.credential].kind == V.OAuth ==> decodes)
    && match p.kind
       case OpenAICompatible => urlOk && p.billing != OtherBilling
       case Codex => urlOk && db.vault.rows[p.credential].kind == V.OAuth
       case Fake => p.billing != OtherBilling
       case OtherKind => false
  }

  /** A provider is stored exactly when acceptable, as asked for, with a Codex one on subscription and blanks filled in. */
  lemma ProviderIff(db: Stored, p: ProviderInput, urlOk: bool, decodes: bool)
    ensures var c := Commit(db, PutProvider(p, urlOk, decodes));
      && (c.Ok? <==> Acceptable(db, p, urlOk, decodes))
      && (c.Ok? ==> p.id in c.value.providers && c.value == db.(providers := db.providers[p.id := c.value.providers[p.id]]))
      && (c.Ok? ==> StoredAs(p, c.value.providers[p.id]))
  {
  }

  predicate StoredAs(p: ProviderInput, q: Provider) {
    && q.id == p.id && q.kind == p.kind && q.credential == p.credential
    && q.baseUrl == (if p.kind == Codex && p.baseUrl == [] then CODEX_URL else p.baseUrl)
    && q.billing == (if p.kind == Codex then Subscription else if p.billing.Given? then p.billing.billing else Metered)
  }

  /** The refusals, in the order they are found. */
  lemma ProviderRefused(db: Stored, p: ProviderInput, urlOk: bool, decodes: bool)
    requires Commit(db, PutProvider(p, urlOk, decodes)).Err?
    ensures var e := Commit(db, PutProvider(p, urlOk, decodes)).error;
      var bad := !V.ValidId(p.id) || p.credential == [] || p.kind == OtherKind || (p.kind != Fake && !urlOk)
        || (p.kind != Codex && p.billing == OtherBilling);
      e == if bad then InvalidProvider
           else if p.credential !in db.vault.rows || (db.vault.rows[p.credential].kind == V.OAuth && !decodes) then MissingCredential
           else SubscriptionOnly
  {
  }

  /** A route the compiler accepts has positive limits and, if it takes chats, positive prices and a finite maximum. */
  lemma CompiledIsBounded(input: RouteInput, providers: map<Text, Provider>)
    requires Compile(input, providers).error.None?
    ensures var r := Compile(input, providers);
      && r.row == input.row && |r.attempts| == |input.attempts| > 0 && r.row.maxInput > 0 && r.row.maxOutput > 0
      && (Has(r.row, Chat) ==> Priced(r.attempts) && ChatTotal(r.attempts, r.row.maxInput, r.row.maxOutput, 0).Ok?)
  {
    PlanExact(input.attempts, providers, Has(input.row, Chat));
  }

  /** So has every usable chat route in memory. */
  lemma UsableRouteIsBounded(s: State, name: Text)
    requires Agrees(s) && name in s.mem.routes && s.mem.routes[name].error.None? && Has(s.mem.routes[name].row, Chat)
    ensures var r := s.mem.routes[name];
      && Priced(r.attempts) && r.attempts != [] && r.row.maxInput > 0 && r.row.maxOutput > 0
      && ChatTotal(r.attempts, r.row.maxInput, r.row.maxOutput, 0).Ok?
  {
    CompiledIsBounded(InputOf(s.db, name), s.db.providers);
  }

  /** Every attempt in memory goes out under a credential that exists and that may not be deleted. */
  lemma PlannedCredentialsExist(s: State, name: Text, a: Attempt)
    requires Agrees(s) && name in s.mem.routes && a in s.mem.routes[name].attempts
    ensures a.credential in s.db.vault.rows && (OWNER, a.credential) in s.db.vault.refs
    ensures a.providerId in s.db.providers && s.db.providers[a.providerId].credential == a.credential
  {
    var input := InputOf(s.db, name);
    PlanExact(input.attempts, s.db.providers, Has(input.row, Chat));
    CompileExact(input, s.db.providers);
    var i :| 0 <= i < |s.mem.routes[name].attempts| && s.mem.routes[name].attempts[i] == a;
    var p := s.db.providers[input.attempts[i].provider];
    assert a.credential == p.credential && p.credential in Credentials(s.db.providers);
  }

  /** A credential can be deleted exactly when no provider uses it and no other owner refers to it. */
  lemma DeletableIff(s: State, keys: V.Keys, active: int64, nonce: Text, actor: Text, id: Text)
    requires Agrees(s) && actor != [] && id in s.db.vault.rows
    ensures Commit(s.db, CredentialOp(keys, V.Request(active, nonce, V.Delete(actor, id)))).Ok? <==>
      && (forall p <- s.db.providers :: s.db.providers[p].credential != id)
      && (forall r <- s.db.vault.refs | r.0 != OWNER :: r.1 != id)
  {
    if id in Credentials(s.db.providers) { assert (OWNER, id) in s.db.vault.refs; }
    if V.Referenced(s.db.vault, id) {
      var r :| r in s.db.vault.refs && r.1 == id;
      assert r == (r.0, id);
    }
  }
}
