/**
 * How a secret is bound to its row: bindAAD, appendLP, encrypt and decrypt of internal/core/credentials/crypto.go.
 *
 * Strings are bytes. The AEAD is ideal: a ciphertext opens only under the key, nonce and additional data it was
 * sealed with, and gives back exactly what was sealed.
 */
module Envelope {
  import opened Common

  const TWO32: int := 0x1_0000_0000

  // ---- Big-endian numbers ------------------------------------------------------------------------------

  function BigEndian(v: nat, k: nat): (r: seq<byte>)
    ensures |r| == k
  {
    if k == 0 then [] else BigEndian(v / 256, k - 1) + [v % 256]
  }

  function Number(s: seq<byte>): nat {
    if s == [] then 0 else 256 * Number(s[..|s| - 1]) + s[|s| - 1]
  }

  function Pow256(k: nat): nat { if k == 0 then 1 else 256 * Pow256(k - 1) }

  lemma {:induction false} NumberRoundTrip(v: nat, k: nat)
    requires v < Pow256(k)
    ensures Number(BigEndian(v, k)) == v
    decreases k
  {
    if k > 0 {
      NumberRoundTrip(v / 256, k - 1);
      assert (BigEndian(v / 256, k - 1) + [v % 256])[..k - 1] == BigEndian(v / 256, k - 1);
    }
  }

  lemma Widths()
    ensures Pow256(4) == TWO32 && Pow256(8) == TWO64
  {
    assert Pow256(1) == 256 && Pow256(2) == 0x1_0000;
    assert Pow256(3) == 0x100_0000 && Pow256(4) == TWO32;
    assert Pow256(5) == 256 * TWO32 && Pow256(6) == 0x1_0000 * TWO32;
    assert Pow256(7) == 0x100_0000 * TWO32;
  }

  function Uint64(x: int64): nat { if x < 0 then x + TWO64 else x }

  // ---- The binding ---------------------------------------------------------------------------------------

  datatype Binding = Binding(
    table: seq<byte>, id: seq<byte>, kind: seq<byte>, provider: seq<byte>, version: int64, keyVersion: int64)

  /** appendLP: the length as 32 bits, then the bytes. */
  function AppendLP(b: seq<byte>, s: seq<byte>): seq<byte> { b + LengthOf(s) + s }

  const LENGTH_BYTES: nat := 4

  function LengthOf(s: seq<byte>): (r: seq<byte>)
    ensures |r| == LENGTH_BYTES
  {
    BigEndian(|s| % TWO32, LENGTH_BYTES)
  }

  function BindAAD(x: Binding): seq<byte> {
    var b := AppendLP(AppendLP(AppendLP(AppendLP([], x.table), x.id), x.kind), x.provider);
    b + (BigEndian(Uint64(x.version), 8) + BigEndian(Uint64(x.keyVersion), 8))
  }

  predicate Short(x: Binding) { |x.table| < TWO32 && |x.id| < TWO32 && |x.kind| < TWO32 && |x.provider| < TWO32 }

  /** Two encodings that agree on what came before agree on the string and on the rest. */
  lemma PrefixDecodes(s: seq<byte>, t: seq<byte>, s': seq<byte>, t': seq<byte>)
    requires |s| < TWO32 && |s'| < TWO32
    requires AppendLP([], s) + t == AppendLP([], s') + t'
    ensures s == s' && t == t'
  {
    var n, n' := LengthOf(s), LengthOf(s');
    assert AppendLP([], s) == n + s && AppendLP([], s') == n' + s';
    SplitHead(n, s, t, n', s', t');
    LengthDecodes(s);
    LengthDecodes(s');
    SplitTail(s, t, s', t');
  }

  lemma LengthDecodes(s: seq<byte>)
    requires |s| < TWO32
    ensures Number(LengthOf(s)) == |s|
  {
    assert LengthOf(s) == BigEndian(|s|, LENGTH_BYTES) by { FitsExactly(|s|); }
    LengthWidth();
    RoundTripBelow(|s|, LENGTH_BYTES, TWO32);
  }

  lemma FitsExactly(v: nat)
    requires v < TWO32
    ensures v % TWO32 == v
  {
  }

  lemma RoundTripBelow(v: nat, k: nat, bound: nat)
    requires v < bound == Pow256(k)
    ensures Number(BigEndian(v, k)) == v
  {
    NumberRoundTrip(v, k);
  }

  lemma LengthWidth()
    ensures Pow256(LENGTH_BYTES) == TWO32
  {
    Widths();
  }

  lemma SplitHead(n: seq<byte>, s: seq<byte>, t: seq<byte>, n': seq<byte>, s': seq<byte>, t': seq<byte>)
    requires |n| == |n'| && (n + s) + t == (n' + s') + t'
    ensures n == n' && s + t == s' + t'
  {
    var x, y := (n + s) + t, (n' + s') + t';
    assert x[..|n|] == n && y[..|n|] == n';
    assert x[|n|..] == s + t && y[|n|..] == s' + t';
  }

  lemma SplitTail(s: seq<byte>, t: seq<byte>, s': seq<byte>, t': seq<byte>)
    requires |s| == |s'| && s + t == s' + t'
    ensures s == s' && t == t'
  {
    var x, y := s + t, s' + t';
    assert x[..|s|] == s && y[..|s|] == s';
    assert x[|s|..] == t && y[|s|..] == t';
  }

  lemma AppendIsPrefix(b: seq<byte>, s: seq<byte>, t: seq<byte>)
    ensures AppendLP(b, s) + t == b + (AppendLP([], s) + t)
  {
  }

  function Numbers(x: Binding): seq<byte> { BigEndian(Uint64(x.version), 8) + BigEndian(Uint64(x.keyVersion), 8) }

  /** Read from the front, the encoding is four prefixed strings and two numbers. */
  lemma BindShape(x: Binding)
    ensures BindAAD(x) == AppendLP([], x.table) + (AppendLP([], x.id)
      + (AppendLP([], x.kind) + (AppendLP([], x.provider) + Numbers(x))))
  {
    var b1 := AppendLP([], x.table);
    var b2 := AppendLP(b1, x.id);
    var b3 := AppendLP(b2, x.kind);
    AppendIsPrefix(b3, x.provider, Numbers(x));
    AppendIsPrefix(b2, x.kind, AppendLP([], x.provider) + Numbers(x));
    AppendIsPrefix(b1, x.id, AppendLP([], x.kind) + (AppendLP([], x.provider) + Numbers(x)));
  }

  /** The bytes in order: each string after its length, then the two versions, every number most significant byte first. */
  lemma BindLayout(x: Binding)
    requires Short(x)
    ensures BindAAD(x) ==
      LengthOf(x.table) + x.table + LengthOf(x.id) + x.id + LengthOf(x.kind) + x.kind + LengthOf(x.provider) + x.provider
      + BigEndian(Uint64(x.version), 8) + BigEndian(Uint64(x.keyVersion), 8)
    ensures Number(LengthOf(x.table)) == |x.table| && Number(LengthOf(x.id)) == |x.id|
    ensures Number(LengthOf(x.kind)) == |x.kind| && Number(LengthOf(x.provider)) == |x.provider|
    ensures Number(BigEndian(Uint64(x.version), 8)) == Uint64(x.version)
    ensures Number(BigEndian(Uint64(x.keyVersion), 8)) == Uint64(x.keyVersion)
  {
    LengthDecodes(x.table);
    LengthDecodes(x.id);
    LengthDecodes(x.kind);
    LengthDecodes(x.provider);
    Widths();
    NumberRoundTrip(Uint64(x.version), 8);
    NumberRoundTrip(Uint64(x.keyVersion), 8);
    JoinsUp(x);
  }

  lemma JoinsUp(x: Binding)
    ensures BindAAD(x) ==
      LengthOf(x.table) + x.table + LengthOf(x.id) + x.id + LengthOf(x.kind) + x.kind + LengthOf(x.provider) + x.provider
      + BigEndian(Uint64(x.version), 8) + BigEndian(Uint64(x.keyVersion), 8)
  {
    var b := AppendLP(AppendLP(AppendLP(AppendLP([], x.table), x.id), x.kind), x.provider);
    assert [] + LengthOf(x.table) == LengthOf(x.table);
    assert b == LengthOf(x.table) + x.table + LengthOf(x.id) + x.id + LengthOf(x.kind) + x.kind + LengthOf(x.provider) + x.provider;
  }

  lemma NumbersDecode(x: Binding, y: Binding)
    requires Numbers(x) == Numbers(y)
    ensures x.version == y.version && x.keyVersion == y.keyVersion
  {
    Widths();
    assert Numbers(x)[..8] == BigEndian(Uint64(x.version), 8) && Numbers(x)[8..] == BigEndian(Uint64(x.keyVersion), 8);
    assert Numbers(y)[..8] == BigEndian(Uint64(y.version), 8) && Numbers(y)[8..] == BigEndian(Uint64(y.keyVersion), 8);
    NumberRoundTrip(Uint64(x.version), 8);
    NumberRoundTrip(Uint64(y.version), 8);
    NumberRoundTrip(Uint64(x.keyVersion), 8);
    NumberRoundTrip(Uint64(y.keyVersion), 8);
  }

  /** No two rows, kinds, providers or versions share an encoding. */
  lemma BindInjective(x: Binding, y: Binding)
    requires Short(x) && Short(y) && BindAAD(x) == BindAAD(y)
    ensures x == y
  {
    BindShape(x);
    BindShape(y);
    var x3, y3 := AppendLP([], x.provider) + Numbers(x), AppendLP([], y.provider) + Numbers(y);
    var x2, y2 := AppendLP([], x.kind) + x3, AppendLP([], y.kind) + y3;
    var x1, y1 := AppendLP([], x.id) + x2, AppendLP([], y.id) + y2;
    PrefixDecodes(x.table, x1, y.table, y1);
    PrefixDecodes(x.id, x2, y.id, y2);
    PrefixDecodes(x.kind, x3, y.kind, y3);
    PrefixDecodes(x.provider, Numbers(x), y.provider, Numbers(y));
    NumbersDecode(x, y);
  }

  predicate Below(x: Binding, limit: nat) {
    |x.table| < limit && |x.id| < limit && |x.kind| < limit && |x.provider| < limit
  }

  function Zeros(n: nat): (r: seq<byte>)
    ensures |r| == n && forall i :: 0 <= i < n ==> r[i] == 0
  {
    seq(n, _ => 0)
  }

  lemma {:induction false} ZeroBytes(k: nat)
    ensures BigEndian(0, k) == Zeros(k)
    decreases k
  {
    if k > 0 { ZeroBytes(k - 1); }
  }

  /** A 2^32-byte string has length zero in 32 bits, so it can move from one field to the next unnoticed. */
  lemma LongStringsCollide(rest: Binding)
    ensures BindAAD(rest.(table := Zeros(TWO32), id := [])) == BindAAD(rest.(table := [], id := Zeros(TWO32)))
  {
    ZeroBytes(4);
    var z := Zeros(TWO32);
    assert AppendLP(AppendLP([], z), []) == Zeros(TWO32 + 8);
    assert AppendLP(AppendLP([], []), z) == Zeros(TWO32 + 8);
  }

  /** Bounding the strings by `limit` makes the encoding injective exactly when the length field can hold them. */
  lemma InjectiveIff(limit: nat)
    ensures (forall x, y | Below(x, limit) && Below(y, limit) && BindAAD(x) == BindAAD(y) :: x == y) <==> limit <= TWO32
  {
    if limit <= TWO32 {
      forall x, y | Below(x, limit) && Below(y, limit) && BindAAD(x) == BindAAD(y) ensures x == y {
        BindInjective(x, y);
      }
    } else {
      var rest := Binding([], [], [], [], 0, 0);
      var x, y := rest.(table := Zeros(TWO32), id := []), rest.(table := [], id := Zeros(TWO32));
      LongStringsCollide(rest);
      assert Below(x, limit) && Below(y, limit) && BindAAD(x) == BindAAD(y) && |x.id| != |y.id|;
    }
  }

  // ---- Sealing -------------------------------------------------------------------------------------------

  /** An ideal ciphertext records everything it was sealed with; anything else is junk. */
  datatype Ciphertext = Junk | Sealed(key: seq<byte>, nonce: seq<byte>, plain: seq<byte>, aad: seq<byte>)

  /** A stored envelope, or text that is not one. */
  datatype Stored = NotAnEnvelope | Wrapped(format: int, keyVersion: int64, nonce: seq<byte>, ciphertext: Ciphertext)

  datatype CryptoError = BadEnvelope | MasterKey

  const FORMAT: int := 1

  function Open(key: seq<byte>, nonce: seq<byte>, c: Ciphertext, aad: seq<byte>): Option<seq<byte>> {
    if c.Sealed? && c.key == key && c.nonce == nonce && c.aad == aad then Some(c.plain) else None
  }

  predicate Usable(keys: map<int64, seq<byte>>, v: int64) { v in keys && |keys[v]| == 32 }

  function Encrypt(keys: map<int64, seq<byte>>, active: int64, nonce: seq<byte>, plain: seq<byte>, x: Binding)
    : Result<Stored, CryptoError>
  {
    if !Usable(keys, active) then Err(MasterKey)
    else
      var aad := BindAAD(x.(keyVersion := active));
      Ok(Wrapped(FORMAT, active, nonce, Sealed(keys[active], nonce, plain, aad)))
  }

  function Decrypt(keys: map<int64, seq<byte>>, env: Stored, x: Binding): Result<seq<byte>, CryptoError> {
    if env.NotAnEnvelope? || env.format != FORMAT then Err(BadEnvelope)
    else if !Usable(keys, env.keyVersion) then Err(MasterKey)
    else
      match Open(keys[env.keyVersion], env.nonce, env.ciphertext, BindAAD(x.(keyVersion := env.keyVersion)))
      case Some(plain) => Ok(plain)
      case None => Err(BadEnvelope)
  }

  /** Whether two bindings name the same row and credential version; the key version travels with the envelope. */
  predicate SameRow(x: Binding, y: Binding) { x == y.(keyVersion := x.keyVersion) }

  /**
   * An envelope decrypts under another binding exactly when it is the same table, row, kind, provider and
   * version; and then it gives back the secret. A larger key table changes nothing.
   */
  lemma DecryptsOnlyItsOwn(
      keys: map<int64, seq<byte>>, active: int64, nonce: seq<byte>, plain: seq<byte>, x: Binding,
      keys': map<int64, seq<byte>>, y: Binding)
    requires Short(x) && Short(y)
    requires Usable(keys, active) && active in keys' && keys'[active] == keys[active]
    ensures Encrypt(keys, active, nonce, plain, x).Ok?
    ensures var r := Decrypt(keys', Encrypt(keys, active, nonce, plain, x).value, y);
      r == if SameRow(x, y) then Ok(plain) else Err(BadEnvelope)
  {
    var x', y' := x.(keyVersion := active), y.(keyVersion := active);
    if BindAAD(x') == BindAAD(y') { BindInjective(x', y'); }
  }

  /** Sealing fails only for want of a 32-byte key at the active version, and what it seals is sealed for that row. */
  lemma EncryptMeans(keys: map<int64, seq<byte>>, active: int64, nonce: seq<byte>, plain: seq<byte>, x: Binding)
    ensures var r := Encrypt(keys, active, nonce, plain, x); var usable := active in keys && |keys[active]| == 32;
      && (usable ==> r.Ok? && SealedFor(keys, r.value, x) && r.value.format == 1 && r.value.keyVersion == active)
      && (usable ==> r.value.nonce == nonce && r.value.ciphertext.plain == plain)
      && (!usable ==> r == Err(MasterKey))
  {
  }

  /** Sealed under the key of its version, with its own nonce, for this row. */
  predicate SealedFor(keys: map<int64, seq<byte>>, env: Stored, x: Binding) {
    && env.Wrapped? && env.keyVersion in keys && |keys[env.keyVersion]| == 32 && env.ciphertext.Sealed?
    && env.ciphertext.key == keys[env.keyVersion] && env.ciphertext.nonce == env.nonce
    && env.ciphertext.aad == BindAAD(x.(keyVersion := env.keyVersion))
  }

  /** Exactly what a stored envelope opens to, and why it does not. */
  lemma DecryptMeans(keys: map<int64, seq<byte>>, env: Stored, x: Binding)
    ensures var readable := env.Wrapped? && env.format == 1;
      && (Decrypt(keys, env, x) == Err(MasterKey) <==> readable && !(env.keyVersion in keys && |keys[env.keyVersion]| == 32))
      && (Decrypt(keys, env, x).Ok? <==> readable && SealedFor(keys, env, x))
      && (Decrypt(keys, env, x).Ok? ==> Decrypt(keys, env, x).value == env.ciphertext.plain)
  {
  }
}
