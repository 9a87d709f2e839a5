/** Symbolic cryptography. Every primitive is a free constructor, so it is injective,
    opening undoes sealing, and Diffie-Hellman commutes by construction. Byte-level
    formats stay real byte strings; a 32-byte value made by a primitive stands in a
    byte string as one symbol. */
module Terms {
  import opened Bytes

  datatype Option<+T> = None | Some(value: T)
  datatype Result<+T, +E> = Ok(value: T) | Err(error: E)

  /** An X25519 private scalar, an Ed25519 signing seed, an ML-KEM private key. */
  type Scalar = nat
  type SigningKey = nat
  type KemKey = nat

  datatype PublicKey = PublicKey(of: Scalar)
  datatype VerifyingKey = VerifyingKey(of: SigningKey)

  datatype Secret =
    | Fresh(id: nat)
    | Hkdf(salt: seq<Sym>, ikm: seq<Sym>, info: Str)
    | Dh(lo: Scalar, hi: Scalar)
    | KemShared(key: KemKey, coins: nat)
    | KemRejected(own: KemKey, key: KemKey, coins: nat)

  datatype Sym =
    | Octet(b: Byte)
    | Block(k: Secret)
    | Point(p: PublicKey)
    | Verifier(v: VerifyingKey)
    | KemPoint(key: KemKey)

  function Octets(s: Str): (t: seq<Sym>)
    ensures |t| == |s|
    ensures forall i | 0 <= i < |s| :: t[i] == Octet(s[i])
  {
    seq(|s|, i requires 0 <= i < |s| => Octet(s[i]))
  }

  lemma OctetsInjective(a: Str, b: Str)
    ensures Octets(a) == Octets(b) <==> a == b
  {
    if Octets(a) == Octets(b) {
      assert forall i | 0 <= i < |a| :: Octets(a)[i] == Octets(b)[i];
    }
  }

  /** X25519, normalised so that the two sides compute one term. */
  function DiffieHellman(mine: Scalar, theirs: PublicKey): (s: Secret)
    ensures s == DiffieHellmanOf(theirs.of, mine)
  {
    DiffieHellmanOf(mine, theirs.of)
  }

  function DiffieHellmanOf(a: Scalar, b: Scalar): Secret {
    if a <= b then Dh(a, b) else Dh(b, a)
  }

  // ---- authenticated encryption -------------------------------------------

  datatype Sealed<T> =
    | Sealed(key: Secret, nonce: Str, aad: Str, plain: T)
    | Junk(bytes: Str)

  function Open<T>(key: Secret, nonce: Str, aad: Str, c: Sealed<T>): (r: Option<T>)
    ensures r.Some? <==> c.Sealed? && c.key == key && c.nonce == nonce && c.aad == aad
    ensures r.Some? ==> c == Sealed(key, nonce, aad, r.value)
  {
    if c.Sealed? && c.key == key && c.nonce == nonce && c.aad == aad then Some(c.plain) else None
  }

  // ---- signatures ----------------------------------------------------------

  datatype Signature = Signed(signer: SigningKey, msg: seq<Sym>) | Malformed

  predicate Verifies(vk: VerifyingKey, msg: seq<Sym>, sig: Signature) {
    sig == Signed(vk.of, msg)
  }

  // ---- key encapsulation ---------------------------------------------------

  /** Encapsulation keys and ciphertexts come off the wire as bytes, which may have the wrong length. */
  datatype KemPublic = KemPublic(key: KemKey) | KemPublicBytes(bytes: Str)
  datatype KemCiphertext = KemCiphertext(key: KemKey, coins: nat) | KemCiphertextBytes(bytes: Str)

  /** A ciphertext for another key decapsulates to an unrelated secret. */
  function Decapsulate(own: KemKey, c: KemCiphertext): Option<Secret> {
    match c
    case KemCiphertextBytes(_) => None
    case KemCiphertext(key, coins) =>
      if key == own then Some(KemShared(key, coins)) else Some(KemRejected(own, key, coins))
  }
}
