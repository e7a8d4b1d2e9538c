/** The credential store as an object: rows, references and audit entries changed in place under fixed keys. */
module VaultStore {
  import opened Common
  import opened Envelope
  import opened Vault

  class Store {
    const keys: Keys
    const active: int64
    var rows: map<Text, Row>
    var refs: set<(Text, Text)>
    var audit: seq<Audit>
    var states: map<Text, Pending>

    ghost function T(): Tables
      reads this
    {
      Tables(rows, refs, audit, states)
    }

    constructor (stored: Tables, keys: Keys, active: int64)
      ensures T() == stored && this.keys == keys && this.active == active
    {
      this.keys, this.active := keys, active;
      rows, refs, audit, states := stored.rows, stored.refs, stored.audit, stored.states;
    }

    method CreateAPIKey(nonce: Text, actor: Text, id: Text, provider: Text, secret: Text) returns (e: Option<Error>)
      modifies this
      ensures var r := CreateTx(old(T()), keys, active, nonce, actor, id, provider, secret);
        if r.Ok? then e == None && T() == r.value else e == Some(r.error) && T() == old(T())
      ensures e.None? <==> actor != [] && ValidId(id) && ValidId(provider) && secret != [] && Usable(keys, active) && id !in old(rows)
      ensures e.None? ==> id in rows && rows == old(rows)[id := rows[id]] && SecretOf(keys, id, rows[id]) == Ok(secret)
      ensures e.None? ==> rows[id].version == 1 && audit == old(audit) + [Audit(id, actor, Created, 1)]
      ensures Verified(keys, old(T())) ==> Verified(keys, T())
    {
      AcceptedIff(T(), keys, active, nonce, actor, id, provider, secret, false);
      ghost var t, op := T(), Create(actor, id, provider, secret);
      if actor == [] { return Some(NoActor); }
      if !ValidId(id) { return Some(InvalidId); }
      if !ValidId(provider) { return Some(InvalidProvider); }
      if secret == [] { return Some(InvalidSecret); }
      var env := Encrypt(keys, active, nonce, secret, Binding(TABLE, id, KindName(ApiKey), provider, 1, 0));
      if env.Err? { return Some(Crypto(env.error)); }
      if id in rows { return Some(Duplicate); }
      if Verified(keys, t) { TransactKeepsVerified(t, keys, active, nonce, op); }
      CreateStores(t, keys, active, nonce, actor, id, provider, secret);
      rows := rows[id := Row(ApiKey, provider, true, 1, env.value)];
      audit := audit + [Audit(id, actor, Created, 1)];
      return None;
    }

    /** replaceAPIKey: the version goes up by one, and the new envelope is bound to it. */
    method ReplaceAPIKey(nonce: Text, actor: Text, id: Text, secret: Text, rotate: bool) returns (e: Option<Error>)
      modifies this
      ensures var r := ReplaceKeyTx(old(T()), keys, active, nonce, actor, id, secret, rotate);
        if r.Ok? then e == None && T() == r.value else e == Some(r.error) && T() == old(T())
      ensures e.None? <==> actor != [] && secret != [] && id in old(rows) && old(rows)[id].kind == ApiKey && Usable(keys, active)
      ensures e.None? ==> id in rows && rows == old(rows)[id := rows[id]] && SecretOf(keys, id, rows[id]) == Ok(secret)
      ensures e.None? ==> rows[id].version == Wrap(old(rows)[id].version + 1)
      ensures e.None? ==> audit == old(audit) + [Audit(id, actor, if rotate then Rotated else Replaced, rows[id].version)]
      ensures Verified(keys, old(T())) ==> Verified(keys, T())
    {
      AcceptedIff(T(), keys, active, nonce, actor, id, [], secret, rotate);
      ghost var t, op := T(), ReplaceKey(actor, id, secret, rotate);
      if actor == [] { return Some(NoActor); }
      if secret == [] { return Some(InvalidSecret); }
      if id !in rows { return Some(Unknown); }
      var row := rows[id];
      if row.kind != ApiKey { return Some(KindMismatch); }
      var next := Wrap(row.version + 1);
      var env := Encrypt(keys, active, nonce, secret, Binding(TABLE, id, KindName(ApiKey), row.provider, next, 0));
      if env.Err? { return Some(Crypto(env.error)); }
      if Verified(keys, t) { TransactKeepsVerified(t, keys, active, nonce, op); }
      ReplaceStores(t, keys, active, nonce, actor, id, secret, rotate);
      rows := rows[id := row.(statusOk := true, version := next, env := env.value)];
      audit := audit + [Audit(id, actor, if rotate then Rotated else Replaced, next)];
      return None;
    }

    method Delete(actor: Text, id: Text) returns (e: Option<Error>)
      modifies this
      ensures var r := DeleteTx(old(T()), actor, id);
        if r.Ok? then e == None && T() == r.value else e == Some(r.error) && T() == old(T())
      ensures e.None? <==> actor != [] && id in old(rows) && forall r <- old(refs) :: r.1 != id
      ensures e.None? ==> rows == old(rows) - {id} && refs == old(refs) && audit == old(audit) + [Audit(id, actor, Deleted, 0)]
      ensures Verified(keys, old(T())) ==> Verified(keys, T())
    {
      if actor == [] { return Some(NoActor); }
      if id !in rows { return Some(Unknown); }
      if exists r <- refs :: r.1 == id { return Some(InUse); }
      rows := rows - {id};
      audit := audit + [Audit(id, actor, Deleted, 0)];
      return None;
    }

    /** ReplaceTx: check every id, drop the owner's old references, insert the new ones one by one. */
    method ReplaceReferences(owner: Text, ids: seq<Text>) returns (e: Option<Error>)
      modifies this
      ensures var r := ReplaceRefsTx(old(T()), owner, ids);
        if r.Ok? then e == None && T() == r.value else e == Some(r.error) && T() == old(T())
    {
      if owner == [] { return Some(EmptyOwner); }
      for n := 0 to |ids|
        invariant forall i :: 0 <= i < n ==> ids[i] in rows
      {
        if ids[n] !in rows { return Some(Unknown); }
      }
      var kept := set r <- refs | r.0 != owner;
      var added: set<(Text, Text)> := {};
      for n := 0 to |ids|
        invariant forall id :: (owner, id) in added <==> id in ids[..n]
        invariant added == set id <- ids[..n] :: (owner, id)
        invariant Distinct(ids[..n])
      {
        if (owner, ids[n]) in added {
          assert exists i :: 0 <= i < n && ids[i] == ids[n];
          return Some(Repeated);
        }
        assert ids[..n + 1] == ids[..n] + [ids[n]];
        added := added + {(owner, ids[n])};
      }
      assert ids[..|ids|] == ids;
      refs := kept + added;
      return None;
    }
  }

  /** New: no store on a bad key table, or over a row or a pending sign-in that does not open. */
  method Start(stored: Tables, keys: Keys, active: int64) returns (s: Option<Store>, e: Option<Error>)
    ensures s.Some? <==> e.None?
    ensures e.None? <==> KeysUsable(keys, if active == 0 then 1 else active) && Verified(keys, stored)
    ensures s.Some? ==> fresh(s.value) && s.value.T() == stored && s.value.keys == keys
  {
    var version := if active == 0 then 1 else active;
    if !KeysUsable(keys, version) { return None, Some(Crypto(MasterKey)); }
    var ok := VerifyAll(keys, stored);
    if !ok { return None, Some(Crypto(BadEnvelope)); }
    var store := new Store(stored, keys, version);
    return Some(store), None;
  }

  predicate KeysUsable(keys: Keys, active: int64) { active in keys && forall v <- keys :: |keys[v]| == 32 }
}
