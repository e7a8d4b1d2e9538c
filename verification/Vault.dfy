/**
 * Stored credentials: CreateAPIKey, ReplaceAPIKey, RotateAPIKey and Delete of internal/core/credentials/admin.go, and
 * ReplaceTx and verifyAll of store.go. Each transaction is one function from tables to tables or an error.
 */
module Vault {
  import opened Common
  import opened Envelope

  /** The bytes of an ASCII literal. */
  function Ascii(s: string): (r: Text)
    ensures |r| == |s|
  {
    seq(|s|, i requires 0 <= i < |s| => (s[i] as int) % 256)
  }

  predicate Lower(c: byte) { 97 <= c <= 122 }

  predicate NameByte(c: byte) { Lower(c) || 48 <= c <= 57 || c == 95 || c == 45 }

  /** validID, and the same rule as validName in internal/core/ai: a-z first, then a-z, 0-9, `_` and `-`, 64 at most. */
  predicate ValidId(id: Text) {
    0 < |id| <= 64 && Lower(id[0]) && forall i :: 0 <= i < |id| ==> NameByte(id[i])
  }

  /** 1 to 64 of the characters, a letter first. */
  predicate SpelledId(id: Text) {
    1 <= |id| <= 64 && (id[0] as char) in LETTERS && forall i :: 0 <= i < |id| ==> (id[i] as char) in LETTERS + DIGITS + "_-"
  }

  lemma IdAlphabet(id: Text)
    ensures ValidId(id) <==> SpelledId(id)
  {
    forall i | 0 <= i < |id| ensures NameByte(id[i]) <==> (id[i] as char) in LETTERS + DIGITS + "_-" { Alphabet(id[i] as char); }
    if id != [] { Alphabet(id[0] as char); }
  }

  /** validID and validName as they are written: the length, the first byte, then every byte. */
  method CheckId(id: Text) returns (ok: bool)
    ensures (ok <==> ValidId(id)) && (ok <==> SpelledId(id))
  {
    IdAlphabet(id);
    if |id| == 0 || |id| > 64 { return false; }
    for i := 0 to |id|
      invariant i > 0 ==> 97 <= id[0] <= 122
      invariant forall j :: 0 <= j < i ==> NameByte(id[j])
    {
      var c := id[i];
      var letter, digit := 97 <= c <= 122, 48 <= c <= 57;
      if i == 0 && !letter { return false; }
      if !(letter || digit || c == 95 || c == 45) { return false; }
    }
    return true;
  }

  datatype Kind = ApiKey | OAuth

  function KindName(k: Kind): Text { match k case ApiKey => Ascii("api_key") case OAuth => Ascii("oauth") }

  const TABLE: Text := Ascii("core_credentials")
  const STATES: Text := Ascii("core_credential_oauth_states")

  datatype Row = Row(kind: Kind, provider: Text, statusOk: bool, version: int64, env: Stored)

  datatype Action = Created | Replaced | Rotated | Deleted

  datatype Audit = Audit(id: Text, actor: Text, action: Action, version: int64)

  /** A sign-in under way, keyed by the hash of its state; its verifier is sealed like a secret. */
  datatype Pending = Pending(provider: Text, consumed: bool, env: Stored)

  /** Credentials, the references owners hold on them, the audit trail and pending sign-ins. */
  datatype Tables = Tables(
    rows: map<Text, Row>, refs: set<(Text, Text)>, audit: seq<Audit>, states: map<Text, Pending>)

  datatype Error =
    | NoActor | InvalidId | InvalidProvider | InvalidSecret | Duplicate | Unknown | KindMismatch | InUse | EmptyOwner | Repeated
    | Crypto(e: CryptoError)

  type Keys = map<int64, seq<byte>>

  function BindingOf(id: Text, row: Row): Binding {
    Binding(TABLE, id, KindName(row.kind), row.provider, row.version, 0)
  }

  function StateBinding(hash: Text, p: Pending): Binding {
    Binding(STATES, hash, KindName(OAuth), p.provider, 0, 0)
  }

  // ---- Transactions ----------------------------------------------------------------------------------------

  function CreateTx(
      t: Tables, keys: Keys, active: int64, nonce: Text, actor: Text, id: Text, provider: Text, secret: Text)
    : Result<Tables, Error>
  {
    if actor == [] then Err(NoActor)
    else if !ValidId(id) then Err(InvalidId)
    else if !ValidId(provider) then Err(InvalidProvider)
    else if secret == [] then Err(InvalidSecret)
    else
      match Encrypt(keys, active, nonce, secret, Binding(TABLE, id, KindName(ApiKey), provider, 1, 0))
      case Err(e) => Err(Crypto(e))
      case Ok(env) =>
        if id in t.rows then Err(Duplicate)
        else Ok(t.(rows := t.rows[id := Row(ApiKey, provider, true, 1, env)],
                   audit := t.audit + [Audit(id, actor, Created, 1)]))
  }

  function ReplaceKeyTx(
      t: Tables, keys: Keys, active: int64, nonce: Text, actor: Text, id: Text, secret: Text, rotate: bool)
    : Result<Tables, Error>
  {
    if actor == [] then Err(NoActor)
    else if secret == [] then Err(InvalidSecret)
    else if id !in t.rows then Err(Unknown)
    else if t.rows[id].kind != ApiKey then Err(KindMismatch)
    else
      var row := t.rows[id];
      var next := Wrap(row.version + 1);
      match Encrypt(keys, active, nonce, secret, Binding(TABLE, id, KindName(ApiKey), row.provider, next, 0))
      case Err(e) => Err(Crypto(e))
      case Ok(env) =>
        Ok(t.(rows := t.rows[id := row.(statusOk := true, version := next, env := env)],
              audit := t.audit + [Audit(id, actor, if rotate then Rotated else Replaced, next)]))
  }

  predicate Referenced(t: Tables, id: Text) { exists r <- t.refs :: r.1 == id }

  function DeleteTx(t: Tables, actor: Text, id: Text): Result<Tables, Error> {
    if actor == [] then Err(NoActor)
    else if id !in t.rows then Err(Unknown)
    else if Referenced(t, id) then Err(InUse)
    else Ok(t.(rows := t.rows - {id}, audit := t.audit + [Audit(id, actor, Deleted, 0)]))
  }

  /** ReplaceTx: the owner's references become exactly these, if each exists and none comes twice. */
  function ReplaceRefsTx(t: Tables, owner: Text, ids: seq<Text>): Result<Tables, Error> {
    if owner == [] then Err(EmptyOwner)
    else if exists id <- ids :: id !in t.rows then Err(Unknown)
    else if !Distinct(ids) then Err(Repeated)
    else Ok(t.(refs := (set r <- t.refs | r.0 != owner) + set id <- ids :: (owner, id)))
  }

  /** Equal entries are the same entry. */
  predicate NoneTwice(ids: seq<Text>) { forall i, j :: 0 <= i < |ids| && 0 <= j < |ids| && ids[i] == ids[j] ==> i == j }

  /** It is accepted exactly then, and afterwards the owner refers to exactly these and every other owner to what it did. */
  lemma RefsIff(t: Tables, owner: Text, ids: seq<Text>)
    ensures var r := ReplaceRefsTx(t, owner, ids);
      && (r.Ok? <==> owner != [] && (forall id <- ids :: id in t.rows) && NoneTwice(ids))
      && (r.Ok? ==> forall o, id :: (o, id) in r.value.refs <==> if o == owner then id in ids else (o, id) in t.refs)
      && (r.Ok? ==> r.value == t.(refs := r.value.refs))
  {
  }

  predicate Distinct(ids: seq<Text>) { forall i, j :: 0 <= i < j < |ids| ==> ids[i] != ids[j] }

  /** Every refusal names a fault the request has, and the first one in the order of the checks. */
  lemma RefusalsNameTheFault(
      t: Tables, keys: Keys, active: int64, nonce: Text, actor: Text, id: Text, provider: Text, secret: Text, rotate: bool,
      owner: Text, ids: seq<Text>)
    ensures match CreateTx(t, keys, active, nonce, actor, id, provider, secret)
      case Ok(_) => true
      case Err(NoActor) => actor == []
      case Err(InvalidId) => actor != [] && !SpelledId(id)
      case Err(InvalidProvider) => actor != [] && SpelledId(id) && !SpelledId(provider)
      case Err(InvalidSecret) => actor != [] && SpelledId(id) && SpelledId(provider) && secret == []
      case Err(Crypto(e)) => actor != [] && SpelledId(id) && SpelledId(provider) && secret != [] && e == MasterKey && !Usable(keys, active)
      case Err(Duplicate) => actor != [] && secret != [] && Usable(keys, active) && id in t.rows
      case Err(_) => false
    ensures match ReplaceKeyTx(t, keys, active, nonce, actor, id, secret, rotate)
      case Ok(_) => true
      case Err(NoActor) => actor == []
      case Err(InvalidSecret) => actor != [] && secret == []
      case Err(Unknown) => actor != [] && secret != [] && id !in t.rows
      case Err(KindMismatch) => actor != [] && secret != [] && id in t.rows && t.rows[id].kind == OAuth
      case Err(Crypto(e)) => actor != [] && secret != [] && id in t.rows && e == MasterKey && !Usable(keys, active)
      case Err(_) => false
    ensures match DeleteTx(t, actor, id)
      case Ok(_) => true
      case Err(NoActor) => actor == []
      case Err(Unknown) => actor != [] && id !in t.rows
      case Err(InUse) => actor != [] && id in t.rows && exists r <- t.refs :: r.1 == id
      case Err(_) => false
    ensures match ReplaceRefsTx(t, owner, ids)
      case Ok(_) => true
      case Err(EmptyOwner) => owner == []
      case Err(Unknown) => owner != [] && exists id <- ids :: id !in t.rows
      case Err(Repeated) => owner != [] && (forall id <- ids :: id in t.rows) && !NoneTwice(ids)
      case Err(_) => false
  {
    IdAlphabet(id);
    IdAlphabet(provider);
  }

  datatype Op =
    | Create(actor: Text, id: Text, provider: Text, secret: Text)
    | ReplaceKey(actor: Text, id: Text, secret: Text, rotate: bool)
    | Delete(actor: Text, id: Text)
    | ReplaceRefs(owner: Text, ids: seq<Text>)

  function Transact(t: Tables, keys: Keys, active: int64, nonce: Text, op: Op): Result<Tables, Error> {
    match op
    case Create(actor, id, provider, secret) => CreateTx(t, keys, active, nonce, actor, id, provider, secret)
    case ReplaceKey(actor, id, secret, rotate) => ReplaceKeyTx(t, keys, active, nonce, actor, id, secret, rotate)
    case Delete(actor, id) => DeleteTx(t, actor, id)
    case ReplaceRefs(owner, ids) => ReplaceRefsTx(t, owner, ids)
  }

  // ---- Every row opens ------------------------------------------------------------------------------------

  predicate Opens(keys: Keys, id: Text, row: Row) { Decrypt(keys, row.env, BindingOf(id, row)).Ok? }

  predicate StateOpens(keys: Keys, hash: Text, p: Pending) { p.consumed || Decrypt(keys, p.env, StateBinding(hash, p)).Ok? }

  /** What startup checks. */
  predicate Verified(keys: Keys, t: Tables) {
    && (forall id <- t.rows :: Opens(keys, id, t.rows[id]))
    && (forall h <- t.states :: StateOpens(keys, h, t.states[h]))
  }

  /** verifyAll: one decryption per row and unconsumed state, in whatever order they come, stopping at a failure. */
  method VerifyAll(keys: Keys, t: Tables) returns (ok: bool)
    ensures ok <==> Verified(keys, t)
  {
    var rest := t.rows.Keys;
    while rest != {}
      invariant rest <= t.rows.Keys
      invariant forall id <- t.rows | id !in rest :: Opens(keys, id, t.rows[id])
    {
      var id :| id in rest;
      if Decrypt(keys, t.rows[id].env, BindingOf(id, t.rows[id])).Err? { return false; }
      rest := rest - {id};
    }
    ok := VerifyStates(keys, t.states);
  }

  /** What a row or a pending sign-in has to be sealed under: its table, its key, its kind, its provider and its version. */
  lemma FitsIff(keys: Keys, active: int64, nonce: Text, plain: Text, x: Binding, id: Text, row: Row, p: Pending)
    requires Short(x) && Usable(keys, active) && |id| < 0x1_0000_0000 && |row.provider| < 0x1_0000_0000 && |p.provider| < 0x1_0000_0000
    ensures var env := Encrypt(keys, active, nonce, plain, x).value;
      && (Opens(keys, id, row.(env := env)) <==>
            x == Binding(Ascii("core_credentials"), id, Ascii(if row.kind == OAuth then "oauth" else "api_key"),
                         row.provider, row.version, x.keyVersion))
      && (StateOpens(keys, id, p.(consumed := false, env := env)) <==>
            x == Binding(Ascii("core_credential_oauth_states"), id, Ascii("oauth"), p.provider, 0, x.keyVersion))
  {
    var env := Encrypt(keys, active, nonce, plain, x).value;
    DecryptsOnlyItsOwn(keys, active, nonce, plain, x, keys, BindingOf(id, row.(env := env)));
    DecryptsOnlyItsOwn(keys, active, nonce, plain, x, keys, StateBinding(id, p.(consumed := false, env := env)));
  }

  method VerifyStates(keys: Keys, states: map<Text, Pending>) returns (ok: bool)
    ensures ok <==> forall h <- states :: StateOpens(keys, h, states[h])
  {
    var rest := set h | h in states && !states[h].consumed;
    while rest != {}
      invariant rest <= states.Keys
      invariant forall h <- states | h !in rest :: StateOpens(keys, h, states[h])
    {
      var h :| h in rest;
      if Decrypt(keys, states[h].env, StateBinding(h, states[h])).Err? { return false; }
      rest := rest - {h};
    }
    return true;
  }

  lemma SealedOpens(keys: Keys, active: int64, nonce: Text, plain: Text, x: Binding, y: Binding)
    requires Encrypt(keys, active, nonce, plain, x).Ok? && SameRow(x, y)
    ensures Decrypt(keys, Encrypt(keys, active, nonce, plain, x).value, y) == Ok(plain)
  {
    assert x.(keyVersion := active) == y.(keyVersion := active);
  }

  lemma TransactKeepsVerified(t: Tables, keys: Keys, active: int64, nonce: Text, op: Op)
    requires Verified(keys, t) && Transact(t, keys, active, nonce, op).Ok?
    ensures Verified(keys, Transact(t, keys, active, nonce, op).value)
  {
    var t' := Transact(t, keys, active, nonce, op).value;
    match op
    case Create(_, id, provider, secret) =>
      var x := Binding(TABLE, id, KindName(ApiKey), provider, 1, 0);
      SealedOpens(keys, active, nonce, secret, x, x);
      assert BindingOf(id, t'.rows[id]) == x;
    case ReplaceKey(_, id, secret, _) =>
      var x := BindingOf(id, t'.rows[id]);
      SealedOpens(keys, active, nonce, secret, x, x);
    case Delete(_, _) =>
    case ReplaceRefs(_, _) =>
  }

  datatype Request = Request(active: int64, nonce: Text, op: Op)

  /** A refused request changes nothing. */
  function Next(t: Tables, keys: Keys, r: Request): Tables {
    match Transact(t, keys, r.active, r.nonce, r.op) case Ok(t') => t' case Err(_) => t
  }

  function After(t: Tables, keys: Keys, reqs: seq<Request>): Tables {
    if reqs == [] then t else Next(After(t, keys, reqs[..|reqs| - 1]), keys, reqs[|reqs| - 1])
  }

  /** Whatever sequence of requests ran, under whatever active key versions, the next startup check passes. */
  lemma {:induction false} RunsVerify(t: Tables, keys: Keys, reqs: seq<Request>)
    requires Verified(keys, t)
    ensures Verified(keys, After(t, keys, reqs))
    decreases |reqs|
  {
    if reqs != [] {
      var n := |reqs| - 1;
      var before, r := After(t, keys, reqs[..n]), reqs[n];
      RunsVerify(t, keys, reqs[..n]);
      if Transact(before, keys, r.active, r.nonce, r.op).Ok? {
        TransactKeepsVerified(before, keys, r.active, r.nonce, r.op);
      }
    }
  }

  // ---- What the rows hold ------------------------------------------------------------------------------------

  /** What the row's envelope opens to. */
  function SecretOf(keys: Keys, id: Text, row: Row): Result<Text, CryptoError> {
    Decrypt(keys, row.env, BindingOf(id, row))
  }

  /** An accepted Create stores a fresh API key at version 1 that opens to exactly the secret given, and touches no other row. */
  lemma CreateStores(t: Tables, keys: Keys, active: int64, nonce: Text, actor: Text, id: Text, provider: Text, secret: Text)
    requires CreateTx(t, keys, active, nonce, actor, id, provider, secret).Ok?
    ensures var t' := CreateTx(t, keys, active, nonce, actor, id, provider, secret).value;
      && id !in t.rows && id in t'.rows && t'.rows == t.rows[id := t'.rows[id]]
      && SecretOf(keys, id, t'.rows[id]) == Ok(secret)
      && t'.rows[id].kind == ApiKey && t'.rows[id].provider == provider && t'.rows[id].version == 1 && t'.rows[id].statusOk
      && t'.refs == t.refs && t'.states == t.states && t'.audit == t.audit + [Audit(id, actor, Created, 1)]
  {
    var x := Binding(TABLE, id, KindName(ApiKey), provider, 1, 0);
    SealedOpens(keys, active, nonce, secret, x, x);
  }

  /** So does an accepted Replace or Rotate, at the next version of the same key. */
  lemma ReplaceStores(t: Tables, keys: Keys, active: int64, nonce: Text, actor: Text, id: Text, secret: Text, rotate: bool)
    requires ReplaceKeyTx(t, keys, active, nonce, actor, id, secret, rotate).Ok?
    ensures var t' := ReplaceKeyTx(t, keys, active, nonce, actor, id, secret, rotate).value;
      && id in t.rows && id in t'.rows && t'.rows == t.rows[id := t'.rows[id]]
      && SecretOf(keys, id, t'.rows[id]) == Ok(secret)
      && t.rows[id].kind == t'.rows[id].kind == ApiKey && t'.rows[id].provider == t.rows[id].provider && t'.rows[id].statusOk
      && t'.rows[id].version == Wrap(t.rows[id].version + 1)
      && t'.refs == t.refs && t'.states == t.states
      && t'.audit == t.audit + [Audit(id, actor, if rotate then Rotated else Replaced, Wrap(t.rows[id].version + 1))]
  {
    var t' := ReplaceKeyTx(t, keys, active, nonce, actor, id, secret, rotate).value;
    var x := BindingOf(id, t'.rows[id]);
    SealedOpens(keys, active, nonce, secret, x, x);
  }

  /** When each request is accepted; none of it depends on the secret's value or on what other rows hold. */
  lemma AcceptedIff(t: Tables, keys: Keys, active: int64, nonce: Text, actor: Text, id: Text, provider: Text, secret: Text, rotate: bool)
    ensures CreateTx(t, keys, active, nonce, actor, id, provider, secret).Ok? <==>
      actor != [] && ValidId(id) && ValidId(provider) && secret != [] && Usable(keys, active) && id !in t.rows
    ensures ReplaceKeyTx(t, keys, active, nonce, actor, id, secret, rotate).Ok? <==>
      actor != [] && secret != [] && id in t.rows && t.rows[id].kind == ApiKey && Usable(keys, active)
    ensures DeleteTx(t, actor, id).Ok? <==> actor != [] && id in t.rows && forall r <- t.refs :: r.1 != id
  {
  }

  /** The secret the last accepted request gave the key; None once it is deleted, or if there never was one. */
  function LastSecret(t: Tables, keys: Keys, reqs: seq<Request>, id: Text): Option<Text> {
    if reqs == [] then None
    else
      var n := |reqs| - 1;
      var r := reqs[n];
      if Transact(After(t, keys, reqs[..n]), keys, r.active, r.nonce, r.op).Err? then LastSecret(t, keys, reqs[..n], id)
      else if r.op.Create? && r.op.id == id then Some(r.op.secret)
      else if r.op.ReplaceKey? && r.op.id == id then Some(r.op.secret)
      else if r.op.Delete? && r.op.id == id then None
      else LastSecret(t, keys, reqs[..n], id)
  }

  /** The row opens to this secret, or there is no row and no secret. */
  ghost predicate Holds(t: Tables, keys: Keys, id: Text, secret: Option<Text>) {
    if secret.Some? then id in t.rows && SecretOf(keys, id, t.rows[id]) == Ok(secret.value) else id !in t.rows
  }

  lemma NextHolds(t: Tables, keys: Keys, r: Request, id: Text, secret: Option<Text>)
    requires Holds(t, keys, id, secret)
    requires Transact(t, keys, r.active, r.nonce, r.op).Ok?
    ensures Holds(Next(t, keys, r), keys, id,
      if (r.op.Create? || r.op.ReplaceKey?) && r.op.id == id then Some(r.op.secret)
      else if r.op.Delete? && r.op.id == id then None else secret)
  {
    match r.op
    case Create(actor, x, provider, s) => CreateStores(t, keys, r.active, r.nonce, actor, x, provider, s);
    case ReplaceKey(actor, x, s, rotate) => ReplaceStores(t, keys, r.active, r.nonce, actor, x, s, rotate);
    case Delete(_, _) =>
    case ReplaceRefs(_, _) =>
  }

  /** From an empty store, after any requests, every key opens to the secret of its last accepted request, and no other exists. */
  lemma {:induction false} KeysHoldTheirSecrets(keys: Keys, reqs: seq<Request>, id: Text)
    ensures Holds(After(EMPTY, keys, reqs), keys, id, LastSecret(EMPTY, keys, reqs, id))
    decreases |reqs|
  {
    if reqs != [] {
      var n := |reqs| - 1;
      var t, r := After(EMPTY, keys, reqs[..n]), reqs[n];
      KeysHoldTheirSecrets(keys, reqs[..n], id);
      if Transact(t, keys, r.active, r.nonce, r.op).Ok? { NextHolds(t, keys, r, id, LastSecret(EMPTY, keys, reqs[..n], id)); }
    }
  }

  // ---- Restarts with other keys ---------------------------------------------------------------------------

  /** The key this envelope was sealed under is still in the table. */
  predicate KeyKept(keys: Keys, keys': Keys, env: Stored) {
    env.Wrapped? && env.keyVersion in keys && env.keyVersion in keys' && keys'[env.keyVersion] == keys[env.keyVersion]
  }

  lemma OpensUnderIff(keys: Keys, keys': Keys, env: Stored, x: Binding)
    requires Decrypt(keys, env, x).Ok?
    ensures Decrypt(keys', env, x).Ok? <==> KeyKept(keys, keys', env)
  {
  }

  /** A restart with another key table succeeds exactly when it keeps every key a stored envelope needs. */
  lemma RestartIff(keys: Keys, keys': Keys, t: Tables)
    requires Verified(keys, t)
    ensures Verified(keys', t) <==>
      && (forall id <- t.rows :: KeyKept(keys, keys', t.rows[id].env))
      && (forall h <- t.states | !t.states[h].consumed :: KeyKept(keys, keys', t.states[h].env))
  {
    forall id <- t.rows ensures Opens(keys', id, t.rows[id]) <==> KeyKept(keys, keys', t.rows[id].env) {
      assert Opens(keys, id, t.rows[id]);
      OpensUnderIff(keys, keys', t.rows[id].env, BindingOf(id, t.rows[id]));
    }
    forall h <- t.states | !t.states[h].consumed
      ensures StateOpens(keys', h, t.states[h]) <==> KeyKept(keys, keys', t.states[h].env)
    {
      assert StateOpens(keys, h, t.states[h]);
      OpensUnderIff(keys, keys', t.states[h].env, StateBinding(h, t.states[h]));
    }
  }

  /** One life of the process: the keys it was started with and the requests it served. */
  datatype Epoch = Epoch(keys: Keys, reqs: seq<Request>)

  function AfterRestarts(t: Tables, epochs: seq<Epoch>): Tables {
    if epochs == [] then t
    else
      var n := |epochs| - 1;
      After(AfterRestarts(t, epochs[..n]), epochs[n].keys, epochs[n].reqs)
  }

  predicate Extends(keys': Keys, keys: Keys) { forall v <- keys :: v in keys' && keys'[v] == keys[v] }

  /** Key tables only gain versions from one start to the next. */
  ghost predicate Growing(epochs: seq<Epoch>) {
    forall i :: 0 < i < |epochs| ==> Extends(epochs[i].keys, epochs[i - 1].keys)
  }

  lemma MoreKeysVerify(keys: Keys, keys': Keys, t: Tables)
    requires Verified(keys, t) && Extends(keys', keys)
    ensures Verified(keys', t)
  {
    forall id <- t.rows ensures KeyKept(keys, keys', t.rows[id].env) { assert Opens(keys, id, t.rows[id]); }
    forall h <- t.states | !t.states[h].consumed ensures KeyKept(keys, keys', t.states[h].env) {
      assert StateOpens(keys, h, t.states[h]);
    }
    RestartIff(keys, keys', t);
  }

  /** While key tables only grow, every start succeeds, whatever was served in between. */
  lemma {:induction false} EveryRestartSucceeds(t: Tables, epochs: seq<Epoch>)
    requires epochs != [] && Verified(epochs[0].keys, t) && Growing(epochs)
    ensures Verified(epochs[|epochs| - 1].keys, AfterRestarts(t, epochs[..|epochs| - 1]))
    ensures Verified(epochs[|epochs| - 1].keys, AfterRestarts(t, epochs))
    decreases |epochs|
  {
    var n := |epochs| - 1;
    if n > 0 {
      EveryRestartSucceeds(t, epochs[..n]);
      MoreKeysVerify(epochs[n - 1].keys, epochs[n].keys, AfterRestarts(t, epochs[..n]));
    } else {
      assert epochs[..0] == [];
    }
    RunsVerify(AfterRestarts(t, epochs[..n]), epochs[n].keys, epochs[n].reqs);
  }

  // ---- Envelopes stay with their rows --------------------------------------------------------------------

  lemma NamesAreShort(x: Binding)
    requires x.table == TABLE && (x.kind == KindName(ApiKey) || x.kind == KindName(OAuth))
    requires |x.id| < TWO32 && |x.provider| < TWO32
    ensures Short(x)
  {
  }

  /** A stored envelope opens under a row's identity exactly when that is the identity it was stored under. */
  lemma EnvelopeStays(keys: Keys, id: Text, row: Row, id': Text, row': Row)
    requires Opens(keys, id, row)
    requires |id| < TWO32 && |row.provider| < TWO32 && |id'| < TWO32 && |row'.provider| < TWO32
    ensures Opens(keys, id', row'.(env := row.env)) <==> BindingOf(id', row') == BindingOf(id, row)
  {
    var kv := row.env.keyVersion;
    var x, y := BindingOf(id, row).(keyVersion := kv), BindingOf(id', row').(keyVersion := kv);
    NamesAreShort(x);
    NamesAreShort(y);
    if BindAAD(x) == BindAAD(y) { BindInjective(x, y); }
    assert BindingOf(id', row'.(env := row.env)) == BindingOf(id', row');
  }

  predicate ShortNames(t: Tables) { forall id <- t.rows :: |id| < TWO32 && |t.rows[id].provider| < TWO32 }

  /** Exchanging the envelopes of two rows is caught at startup. */
  lemma SwapIsCaught(keys: Keys, t: Tables, a: Text, b: Text)
    requires Verified(keys, t) && ShortNames(t) && a in t.rows && b in t.rows && a != b
    ensures !Verified(keys, t.(rows := t.rows[a := t.rows[a].(env := t.rows[b].env)][b := t.rows[b].(env := t.rows[a].env)]))
  {
    var t' := t.(rows := t.rows[a := t.rows[a].(env := t.rows[b].env)][b := t.rows[b].(env := t.rows[a].env)]);
    assert Opens(keys, b, t.rows[b]);
    EnvelopeStays(keys, b, t.rows[b], a, t.rows[a]);
    assert t'.rows[a] == t.rows[a].(env := t.rows[b].env);
  }

  /** Putting an envelope back under a later version of its own row is caught too. */
  lemma RollbackIsCaught(t: Tables, keys: Keys, r: Request)
    requires Verified(keys, t) && ShortNames(t)
    requires r.op.ReplaceKey? && Transact(t, keys, r.active, r.nonce, r.op).Ok?
    ensures var id, t' := r.op.id, Next(t, keys, r);
      && id in t'.rows && t'.rows[id].version != t.rows[id].version
      && !Verified(keys, t'.(rows := t'.rows[id := t'.rows[id].(env := t.rows[id].env)]))
  {
    var id, t' := r.op.id, Next(t, keys, r);
    assert Opens(keys, id, t.rows[id]);
    EnvelopeStays(keys, id, t.rows[id], id, t'.rows[id]);
    var t'' := t'.(rows := t'.rows[id := t'.rows[id].(env := t.rows[id].env)]);
    assert t''.rows[id] == t'.rows[id].(env := t.rows[id].env);
  }

  /** Deleting a key and creating it again starts over at version 1, so the first envelope of the old one fits. */
  lemma RecreationStartsOver(
      t: Tables, keys: Keys, active: int64, nonce: Text, nonce': Text, actor: Text, id: Text, provider: Text,
      secret: Text, secret': Text)
    requires CreateTx(t, keys, active, nonce, actor, id, provider, secret).Ok? && !Referenced(t, id) && secret' != []
    ensures var t1 := CreateTx(t, keys, active, nonce, actor, id, provider, secret).value;
      var t2 := DeleteTx(t1, actor, id).value;
      var t3 := CreateTx(t2, keys, active, nonce', actor, id, provider, secret').value;
      Decrypt(keys, t1.rows[id].env, BindingOf(id, t3.rows[id])) == Ok(secret)
  {
    var t1 := CreateTx(t, keys, active, nonce, actor, id, provider, secret).value;
    assert DeleteTx(t1, actor, id).Ok?;
    var t2 := DeleteTx(t1, actor, id).value;
    assert CreateTx(t2, keys, active, nonce', actor, id, provider, secret').Ok?;
    var x := BindingOf(id, t1.rows[id]);
    SealedOpens(keys, active, nonce, secret, x, x);
  }

  // ---- The audit trail ------------------------------------------------------------------------------------

  /** The last entry for a credential. */
  function Last(audit: seq<Audit>, id: Text): Option<Audit> {
    if audit == [] then None
    else if audit[|audit| - 1].id == id then Some(audit[|audit| - 1])
    else Last(audit[..|audit| - 1], id)
  }

  /** Every API key's stored version is the one its last audit entry names, and a deleted one is absent. */
  ghost predicate Audited(t: Tables) {
    && (forall id <- t.rows | t.rows[id].kind == ApiKey ::
          Last(t.audit, id).Some? && Last(t.audit, id).value.version == t.rows[id].version)
    && (forall id | Last(t.audit, id).Some? :: Last(t.audit, id).value.action == Deleted <==> id !in t.rows)
  }

  lemma LastAppended(audit: seq<Audit>, a: Audit, id: Text)
    ensures Last(audit + [a], id) == if a.id == id then Some(a) else Last(audit, id)
  {
    assert (audit + [a])[..|audit|] == audit;
  }

  lemma TransactKeepsAudited(t: Tables, keys: Keys, active: int64, nonce: Text, op: Op)
    requires Audited(t) && Transact(t, keys, active, nonce, op).Ok?
    ensures Audited(Transact(t, keys, active, nonce, op).value)
  {
    var t' := Transact(t, keys, active, nonce, op).value;
    if t'.audit != t.audit {
      var a := t'.audit[|t.audit|];
      assert t'.audit == t.audit + [a];
      forall id ensures Last(t'.audit, id) == if a.id == id then Some(a) else Last(t.audit, id) {
        LastAppended(t.audit, a, id);
      }
    }
  }

  lemma {:induction false} RunsAreAudited(t: Tables, keys: Keys, reqs: seq<Request>)
    requires Audited(t)
    ensures Audited(After(t, keys, reqs))
    decreases |reqs|
  {
    if reqs != [] {
      var n := |reqs| - 1;
      RunsAreAudited(t, keys, reqs[..n]);
      NextIsAudited(After(t, keys, reqs[..n]), keys, reqs[n]);
    }
  }

  lemma NextIsAudited(t: Tables, keys: Keys, r: Request)
    requires Audited(t)
    ensures Audited(Next(t, keys, r))
  {
    if Transact(t, keys, r.active, r.nonce, r.op).Ok? { TransactKeepsAudited(t, keys, r.active, r.nonce, r.op); }
  }

  lemma NextIsShort(t: Tables, keys: Keys, r: Request)
    requires ShortNames(t)
    ensures ShortNames(Next(t, keys, r))
  {
  }

  lemma {:induction false} RunsAreShort(t: Tables, keys: Keys, reqs: seq<Request>)
    requires ShortNames(t)
    ensures ShortNames(After(t, keys, reqs))
    decreases |reqs|
  {
    if reqs != [] {
      var n := |reqs| - 1;
      RunsAreShort(t, keys, reqs[..n]);
      NextIsShort(After(t, keys, reqs[..n]), keys, reqs[n]);
    }
  }

  const EMPTY := Tables(map[], {}, [], map[])

  /**
   * From an empty store, after any requests: the startup check passes, and no envelope in the store opens under the
   * identity of any other row, or of its own row at another version.
   */
  lemma EveryRunIsSound(keys: Keys, reqs: seq<Request>, id: Text, id': Text, row': Row)
    requires id in After(EMPTY, keys, reqs).rows && ValidId(id') && ValidId(row'.provider)
    ensures var t := After(EMPTY, keys, reqs);
      && Verified(keys, t) && Audited(t)
      && (Opens(keys, id', row'.(env := t.rows[id].env)) <==> BindingOf(id', row') == BindingOf(id, t.rows[id]))
  {
    RunsVerify(EMPTY, keys, reqs);
    RunsAreAudited(EMPTY, keys, reqs);
    RunsAreShort(EMPTY, keys, reqs);
    var t := After(EMPTY, keys, reqs);
    assert Opens(keys, id, t.rows[id]);
    EnvelopeStays(keys, id, t.rows[id], id', row');
  }
}
