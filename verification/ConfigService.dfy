/** The administration service as it runs: tables rewritten by each request, then the compiled table replaced by reload. */
module ConfigService {
  import opened Common
  import opened Configuration
  import V = Vault

  /** The ids collected so far are the credentials of the providers visited, each once. */
  ghost predicate Collected(providers: map<Text, Provider>, done: set<Text>, ids: seq<Text>) {
    && V.Distinct(ids)
    && forall c :: c in ids <==> exists p <- done :: p in providers && providers[p].credential == c
  }

  lemma CollectOne(providers: map<Text, Provider>, done: set<Text>, ids: seq<Text>, p: Text)
    requires p in providers && Collected(providers, done, ids)
    ensures Collected(providers, done + {p}, if providers[p].credential in ids then ids else ids + [providers[p].credential])
  {
    var more := if providers[p].credential in ids then ids else ids + [providers[p].credential];
    forall c ensures c in more <==> exists q <- done + {p} :: q in providers && providers[q].credential == c {
      if c == providers[p].credential { assert p in done + {p}; }
      if q :| q in done && q in providers && providers[q].credential == c { assert q in done + {p}; }
    }
  }

  /** Replacing an owner's references by a list of distinct credentials. */
  lemma ReplacedBy(t: V.Tables, owner: Text, ids: seq<Text>, all: set<Text>)
    requires owner != [] && V.Distinct(ids) && forall c :: c in ids <==> c in all
    ensures V.ReplaceRefsTx(t, owner, ids) == if all <= t.rows.Keys then Ok(Refer(t, owner, all)) else Err(V.Unknown)
  {
    assert (set id <- ids :: (owner, id)) == (set id <- all :: (owner, id));
  }

  class Service {
    var db: Stored
    var mem: Memory

    ghost function S(): State
      reads this
    {
      State(db, mem)
    }

    /** New: memory is loaded from whatever is stored. */
    constructor (stored: Stored)
      ensures S() == Reload(stored) && (Consistent(stored) ==> Agrees(S()))
    {
      db, mem := stored, Memory(map[], map[]);
      new;
      var _ := Refresh();
    }

    /** reload: compile every stored route, then record which credentials the providers use. */
    method Refresh() returns (e: Option<Error>)
      modifies this
      ensures S() == Reload(old(db))
      ensures e.None? <==> Credentials(old(db).providers) <= old(db).vault.rows.Keys
      ensures Consistent(old(db)) ==> e.None? && Agrees(S())
    {
      if Consistent(db) { ReloadAgrees(db); }
      var compiled := CompileAll(db);
      mem := Memory(db.providers, compiled);
      var ids := CollectCredentials(db.providers);
      ReplacedBy(db.vault, OWNER, ids, Credentials(db.providers));
      var t := V.ReplaceRefsTx(db.vault, OWNER, ids);
      if t.Err? { return Some(Credential(t.error)); }
      db := db.(vault := t.value);
      return None;
    }

    method PutProvider(input: ProviderInput, urlOk: bool, decodes: bool) returns (e: Option<Error>)
      requires Agrees(S())
      modifies this
      ensures Agrees(S()) && S() == Next(old(S()), Serve(Op.PutProvider(input, urlOk, decodes)))
      ensures e == ProviderError(old(db), Normalize(input), urlOk, decodes)
    {
      var op := Op.PutProvider(input, urlOk, decodes);
      var p := Normalize(input);
      e := ProviderError(db, p, urlOk, decodes);
      if e.Some? { return; }
      CommitKeepsConsistent(db, op);
      db := db.(providers := db.providers[p.id := Provider(p.id, p.kind, p.baseUrl, p.credential, p.billing.billing)]);
      e := Refresh();
    }

    method DeleteProvider(id: Text) returns (e: Option<Error>)
      requires Agrees(S())
      modifies this
      ensures Agrees(S()) && S() == Next(old(S()), Serve(Op.DeleteProvider(id)))
      ensures e == match Commit(old(db), Op.DeleteProvider(id)) case Ok(_) => None case Err(x) => Some(x)
      ensures e == Some(UnknownProvider) <==> id !in old(db).providers
      ensures e == Some(ProviderInUse) <==> id in old(db).providers && SomeAttemptUses(old(db).attempts, id)
      ensures e.None? ==> db.providers == old(db).providers - {id} && db.routes == old(db).routes && db.attempts == old(db).attempts
      ensures e.None? ==> mem.routes == old(mem).routes
    {
      UsedMeans(db.attempts, id);
      if id !in db.providers { return Some(UnknownProvider); }
      var used := FindUser(db.attempts, id);
      if used { return Some(ProviderInUse); }
      CommitKeepsConsistent(db, Op.DeleteProvider(id));
      DeletionBreaksNoRoute(S(), id);
      db := db.(providers := db.providers - {id});
      e := Refresh();
    }

    method PutRoute(route: RouteInput) returns (e: Option<Error>)
      requires Agrees(S())
      modifies this
      ensures Agrees(S()) && S() == Next(old(S()), Serve(Op.PutRoute(route)))
      ensures e == Compile(route, old(db).providers).error
      ensures e.None? ==> route.name in mem.routes && mem.routes[route.name].error.None?
      ensures db == if e.Some? then old(db) else old(db).(vault := db.vault,
        routes := old(db).routes[route.name := route.row], attempts := old(db).attempts[route.name := route.attempts])
    {
      var c := CompileRoute(route, db.providers);
      if c.error.Some? { return c.error; }
      CommitKeepsConsistent(db, Op.PutRoute(route));
      StoredRouteIsUsable(S(), route);
      db := db.(routes := db.routes[route.name := route.row], attempts := db.attempts[route.name := route.attempts]);
      e := Refresh();
    }

    method DeleteRoute(name: Text) returns (e: Option<Error>)
      requires Agrees(S())
      modifies this
      ensures Agrees(S()) && S() == Next(old(S()), Serve(Op.DeleteRoute(name)))
      ensures e.None? && name !in mem.routes
      ensures db.routes == old(db).routes - {name} && db.attempts == old(db).attempts - {name} && db.providers == old(db).providers
    {
      CommitKeepsConsistent(db, Op.DeleteRoute(name));
      db := db.(routes := db.routes - {name}, attempts := db.attempts - {name});
      e := Refresh();
    }

    /** Any change to credentials, or to another owner's references; memory is not touched. */
    method ChangeCredential(keys: V.Keys, r: V.Request) returns (e: Option<V.Error>)
      requires Agrees(S()) && Foreign(CredentialOp(keys, r))
      modifies this
      ensures Agrees(S()) && S() == Next(old(S()), Serve(CredentialOp(keys, r)))
      ensures mem == old(mem)
    {
      StepAgrees(S(), Serve(CredentialOp(keys, r)));
      var t := V.Transact(db.vault, keys, r.active, r.nonce, r.op);
      if t.Err? { return Some(t.error); }
      db := db.(vault := t.value);
      return None;
    }
  }

  method CompileAll(db: Stored) returns (compiled: map<Text, Compiled>)
    ensures compiled == Load(db).routes
  {
    compiled := map[];
    var rest := db.routes.Keys;
    while rest != {}
      invariant rest <= db.routes.Keys && compiled.Keys == db.routes.Keys - rest
      invariant forall name <- compiled :: compiled[name] == Compile(InputOf(db, name), db.providers)
    {
      var name :| name in rest;
      var c := CompileRoute(InputOf(db, name), db.providers);
      compiled := compiled[name := c];
      rest := rest - {name};
    }
  }

  /** The distinct credentials, in the order the providers come. */
  method CollectCredentials(providers: map<Text, Provider>) returns (ids: seq<Text>)
    ensures V.Distinct(ids) && forall c :: c in ids <==> c in Credentials(providers)
  {
    ids := [];
    var rest := providers.Keys;
    while rest != {}
      invariant rest <= providers.Keys && Collected(providers, providers.Keys - rest, ids)
    {
      var p :| p in rest;
      CollectOne(providers, providers.Keys - rest, ids, p);
      assert providers.Keys - (rest - {p}) == (providers.Keys - rest) + {p};
      if providers[p].credential !in ids { ids := ids + [providers[p].credential]; }
      rest := rest - {p};
    }
  }

  method FindUser(attempts: map<Text, seq<AttemptInput>>, id: Text) returns (used: bool)
    ensures used <==> exists name <- attempts :: UsesProvider(attempts[name], id)
  {
    var rest := attempts.Keys;
    while rest != {}
      invariant rest <= attempts.Keys
      invariant forall name <- attempts | name !in rest :: !UsesProvider(attempts[name], id)
    {
      var name :| name in rest;
      if UsesProvider(attempts[name], id) { return true; }
      rest := rest - {name};
    }
    return false;
  }
}
