/** One-pass key agreement: ECDH-ES and ECDH-1PU. */
module Ecdh {
  import opened Prelude
  import opened ConcatKdf
  import opened SliceWriter

  datatype KeyPair = KeyPair(public: Bytes, secret: Option<Bytes>)

  /** A Diffie-Hellman exchange: the public key of a secret key, and the secret shared with a public key. */
  datatype Exchange = Exchange(publicOf: Bytes -> Bytes, dh: (Bytes, Bytes) -> Bytes) {
    ghost predicate Commutes() {
      forall a, b :: dh(a, publicOf(b)) == dh(b, publicOf(a))
    }

    /** A secret key is needed on the own side only. */
    function Shared(own: KeyPair, other: KeyPair): Option<Bytes> {
      if own.secret.None? then None else Some(dh(own.secret.value, other.public))
    }

    function Full(s: Bytes): KeyPair {
      KeyPair(publicOf(s), Some(s))
    }

    function PublicOnly(s: Bytes): KeyPair {
      KeyPair(publicOf(s), None)
    }
  }

  datatype KdfError = OutputTooLong | TagTooLong | MissingSecretKey | BufferExceeded

  /** The names in the parameters. */
  datatype Parties = Parties(alg: Bytes, apu: Bytes, apv: Bytes)

  function KdfParams(names: Parties, pubInfo: Bytes): Params {
    Params(names.alg, names.apu, names.apv, pubInfo, [])
  }

  /** The output length in bits, then the tag, if any, under its length. */
  function PubInfo(len: nat, ccTag: Bytes): Bytes {
    BigEndian(len * 8 % U32, 4) + if ccTag == [] then [] else BigEndian(|ccTag| % U32, 4) + ccTag
  }

  // ----- what both sides are to obtain -----

  ghost function EsOutcome(d: Digest, x: Exchange, ephem: KeyPair, recip: KeyPair,
                                 names: Parties, receive: bool, len: nat): Result<Bytes, KdfError>
    requires d.Valid()
  {
    var z := if receive then x.Shared(recip, ephem) else x.Shared(ephem, recip);
    if len > 32 then Err(OutputTooLong)
    else if z.None? then Err(MissingSecretKey)
    else Ok(Derived(d, z.value, KdfParams(names, PubInfo(len, [])), len))
  }

  ghost function OnePuOutcome(d: Digest, x: Exchange, ephem: KeyPair, send: KeyPair,
                                    recip: KeyPair, names: Parties, ccTag: Bytes, receive: bool, len: nat)
    : Result<Bytes, KdfError>
    requires d.Valid()
  {
    var ze := if receive then x.Shared(recip, ephem) else x.Shared(ephem, recip);
    var zs := if receive then x.Shared(recip, send) else x.Shared(send, recip);
    if len > 32 then Err(OutputTooLong)
    else if |ccTag| > 128 then Err(TagTooLong)
    else if ze.None? || zs.None? then Err(MissingSecretKey)
    else if |ccTag| > 124 then Err(BufferExceeded)
    else Ok(Derived(d, ze.value + zs.value, KdfParams(names, PubInfo(len, ccTag)), len))
  }

  /** Sender and receiver, each holding only its own secrets, derive the same key. */
  lemma EsAgreement(d: Digest, x: Exchange, e: Bytes, r: Bytes, names: Parties, len: nat)
    requires d.Valid() && x.Commutes()
    ensures EsOutcome(d, x, x.Full(e), x.PublicOnly(r), names, false, len)
         == EsOutcome(d, x, x.PublicOnly(e), x.Full(r), names, true, len)
    ensures EsOutcome(d, x, x.Full(e), x.PublicOnly(r), names, false, len)
         == if len > 32 then Err(OutputTooLong)
            else Ok(Derived(d, x.dh(e, x.publicOf(r)),
                            Params(names.alg, names.apu, names.apv, BigEndian(8 * len, 4), []), len))
  {
    assert x.dh(e, x.publicOf(r)) == x.dh(r, x.publicOf(e));
    assert BigEndian(8 * len, 4) + [] == BigEndian(8 * len, 4);
  }

  /**
   * They do with ECDH-1PU too: the key is derived from the secret of the ephemeral key followed by
   * that of the sender's, and from the tag under its length. It comes out exactly when it is short
   * and the tag has at most 124 bytes; tags of 125 to 128 bytes pass the length check, and the
   * 132-byte buffer then refuses them.
   */
  lemma OnePuAgreement(d: Digest, x: Exchange, e: Bytes, s: Bytes, r: Bytes, names: Parties, ccTag: Bytes, len: nat)
    requires d.Valid() && x.Commutes()
    ensures OnePuOutcome(d, x, x.Full(e), x.Full(s), x.PublicOnly(r), names, ccTag, false, len)
         == OnePuOutcome(d, x, x.PublicOnly(e), x.PublicOnly(s), x.Full(r), names, ccTag, true, len)
    ensures OnePuOutcome(d, x, x.Full(e), x.Full(s), x.PublicOnly(r), names, ccTag, false, len)
         == if len > 32 then Err(OutputTooLong)
            else if |ccTag| > 128 then Err(TagTooLong)
            else if |ccTag| > 124 then Err(BufferExceeded)
            else
              var tag := if ccTag == [] then [] else BigEndian(|ccTag|, 4) + ccTag;
              Ok(Derived(d, x.dh(e, x.publicOf(r)) + x.dh(s, x.publicOf(r)),
                         Params(names.alg, names.apu, names.apv, BigEndian(8 * len, 4) + tag, []), len))
  {
    assert x.dh(e, x.publicOf(r)) == x.dh(r, x.publicOf(e));
    assert x.dh(s, x.publicOf(r)) == x.dh(r, x.publicOf(s));
  }

  /** Up to one block, the first pass is the whole derivation. */
  lemma OnePassSuffices(d: Digest, z: Bytes, p: Params, len: nat)
    requires d.Valid() && len <= d.size
    ensures Derived(d, z, p, len) == Block(d, z, p, 1)[..len]
  {
    DerivedExtends(d, z, p, 0, len);
    assert 0 * d.size + len == len;
    assert Derived(d, z, p, 0 * d.size) == [];
  }

  // ----- the derivations -----

  /** Hashes the shared secret, or reports that the own secret key is missing. */
  method WriteKeyExchange(x: Exchange, own: KeyPair, other: KeyPair, kdf: ConcatKdfHash)
    returns (ok: bool)
    modifies kdf`hasher
    ensures ok <==> x.Shared(own, other).Some?
    ensures ok ==> kdf.hasher == old(kdf.hasher) + x.Shared(own, other).value
    ensures !ok ==> kdf.hasher == old(kdf.hasher)
  {
    match own.secret
    case Some(sk) =>
      kdf.HashMessage(x.dh(sk, other.public));
      return true;
    case None =>
      return false;
  }

  /** Ends the single pass and fills the output from it. */
  method FinishInto(kdf: ConcatKdfHash, p: Params, ghost z: Bytes, output: array<bv8>)
    requires kdf.Valid() && kdf.hasher == BigEndian(1, 4) + z && output.Length <= kdf.digest.size
    modifies kdf`hasher, output
    ensures output[..] == Derived(kdf.digest, z, p, output.Length)
  {
    kdf.HashParams(p);
    var key := kdf.FinishPass();
    OnePassSuffices(kdf.digest, z, p, output.Length);
    CopyInto(output, 0, key[..output.Length]);
    assert output[..] == output[..output.Length];
  }

  method EcdhEs(d: Digest, x: Exchange, ephem: KeyPair, recip: KeyPair,
                      names: Parties, receive: bool, output: array<bv8>) returns (error: Option<KdfError>)
    requires d.Valid() && d.size == 32
    modifies output
    ensures error == if output.Length > 32 then Some(OutputTooLong)
                     else if (if receive then recip else ephem).secret.None? then Some(MissingSecretKey)
                     else None
    ensures match EsOutcome(d, x, ephem, recip, names, receive, output.Length)
            case Ok(key) => error == None && output[..] == key
            case Err(e) => error == Some(e) && output[..] == old(output[..])
  {
    if output.Length > 32 {
      return Some(OutputTooLong);
    }
    var kdf := new ConcatKdfHash(d);
    kdf.StartPass();
    var own, other := if receive then recip else ephem, if receive then ephem else recip;
    var ok := WriteKeyExchange(x, own, other, kdf);
    if !ok {
      return Some(MissingSecretKey);
    }
    ghost var z := x.Shared(own, other).value;
    assert kdf.hasher == BigEndian(1, 4) + z;
    var pubInfo := BigEndian(output.Length * 8 % U32, 4);
    assert PubInfo(output.Length, []) == pubInfo;
    FinishInto(kdf, KdfParams(names, pubInfo), z, output);
    return None;
  }

  method Ecdh1PU(d: Digest, x: Exchange, ephem: KeyPair, send: KeyPair, recip: KeyPair,
                       names: Parties, ccTag: Bytes, receive: bool, output: array<bv8>)
    returns (error: Option<KdfError>)
    requires d.Valid() && d.size == 32
    modifies output
    ensures error == if output.Length > 32 then Some(OutputTooLong)
                     else if |ccTag| > 128 then Some(TagTooLong)
                     else if if receive then recip.secret.None? else ephem.secret.None? || send.secret.None? then
                       Some(MissingSecretKey)
                     else if |ccTag| > 124 then Some(BufferExceeded)
                     else None
    ensures match OnePuOutcome(d, x, ephem, send, recip, names, ccTag, receive, output.Length)
            case Ok(key) => error == None && output[..] == key
            case Err(e) => error == Some(e) && output[..] == old(output[..])
  {
    if output.Length > 32 {
      return Some(OutputTooLong);
    }
    if |ccTag| > 128 {
      return Some(TagTooLong);
    }
    var kdf := new ConcatKdfHash(d);
    kdf.StartPass();
    var ok := false;
    if receive {
      ok := WriteKeyExchange(x, recip, ephem, kdf);
      if ok {
        ok := WriteKeyExchange(x, recip, send, kdf);
      }
    } else {
      ok := WriteKeyExchange(x, ephem, recip, kdf);
      if ok {
        ok := WriteKeyExchange(x, send, recip, kdf);
      }
    }
    if !ok {
      return Some(MissingSecretKey);
    }
    ghost var ze := if receive then x.Shared(recip, ephem) else x.Shared(ephem, recip);
    ghost var zs := if receive then x.Shared(recip, send) else x.Shared(send, recip);
    assert kdf.hasher == BigEndian(1, 4) + (ze.value + zs.value);
    var pubInfo := FillPubInfo(output.Length, ccTag);
    if pubInfo.None? {
      return Some(BufferExceeded);
    }
    FinishInto(kdf, KdfParams(names, pubInfo.value), ze.value + zs.value, output);
    return None;
  }

  /** The public information is put together in a buffer of 132 bytes. */
  method FillPubInfo(len: nat, ccTag: Bytes) returns (info: Option<Bytes>)
    ensures info == if |ccTag| > 124 then None else Some(PubInfo(len, ccTag))
  {
    var buffer := new bv8[132];
    var w := new Writer(buffer);
    var outcome := w.BufferWrite(BigEndian(len * 8 % U32, 4));
    if outcome != Done {
      return None;
    }
    if ccTag != [] {
      outcome := w.BufferWrite(BigEndian(|ccTag| % U32, 4));
      if outcome != Done {
        return None;
      }
      outcome := w.BufferWrite(ccTag);
      if outcome != Done {
        return None;
      }
    }
    assert w.Contents() == PubInfo(len, ccTag);
    return Some(w.inner[..w.pos]);
  }
}
