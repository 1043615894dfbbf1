/** Authenticated boxes between two key pairs, and boxes sealed with an ephemeral key. */
module CryptoBox {
  import opened Prelude
  import opened Buffers
  import opened Ecdh

  const NONCE_LENGTH: nat := 24
  const KEY_LENGTH: nat := 32
  const TAG_LENGTH: nat := 16

  datatype Cipherbox = Cipherbox(text: Bytes, tag: Bytes)

  /** The box primitive: key exchange, detached encryption, and the hash that makes nonces. */
  datatype Salsa = Salsa(x: Exchange, encrypt: (Bytes, Bytes, Bytes) -> Cipherbox,
                         decrypt: (Bytes, Bytes, Cipherbox) -> Option<Bytes>, hash: Bytes -> Bytes) {
    ghost predicate Valid() {
      && x.Commutes()
      && (forall s :: |x.publicOf(s)| == KEY_LENGTH)
      && (forall m :: |hash(m)| == NONCE_LENGTH)
      && (forall k, n, m :: |encrypt(k, n, m).text| == |m| && |encrypt(k, n, m).tag| == TAG_LENGTH)
      && (forall k, n, m :: decrypt(k, n, encrypt(k, n, m)) == Some(m))
      && (forall k, n, c :: decrypt(k, n, c).Some? ==> |decrypt(k, n, c).value| == |c.text|)
    }

    /** Only what was encrypted decrypts. */
    ghost predicate Authentic() {
      forall k, n, c :: decrypt(k, n, c).Some? ==> c == encrypt(k, n, decrypt(k, n, c).value)
    }
  }

  datatype BoxError = NoSecretKey | InvalidNonce | Encryption

  // ----- what boxes hold -----

  /** The tag comes first. */
  function Boxed(b: Salsa, key: Bytes, nonce: Bytes, message: Bytes): Bytes {
    var c := b.encrypt(key, nonce, message);
    c.tag + c.text
  }

  function Unboxed(b: Salsa, key: Bytes, nonce: Bytes, box: Bytes): Option<Bytes> {
    if |box| < TAG_LENGTH then None
    else b.decrypt(key, nonce, Cipherbox(box[TAG_LENGTH..], box[..TAG_LENGTH]))
  }

  function SealNonce(b: Salsa, ephem: Bytes, recip: Bytes): Bytes {
    b.hash(ephem + recip)
  }

  /** A box for the recipient under the ephemeral secret e, behind e's public key. */
  function Sealed(b: Salsa, recip: Bytes, e: Bytes, message: Bytes): Bytes {
    var ephem := b.x.publicOf(e);
    ephem + Boxed(b, b.x.dh(e, recip), SealNonce(b, ephem, recip), message)
  }

  function Opened(b: Salsa, r: Bytes, recip: Bytes, text: Bytes): Option<Bytes> {
    if |text| < KEY_LENGTH + TAG_LENGTH then None
    else
      var ephem := text[..KEY_LENGTH];
      Unboxed(b, b.x.dh(r, ephem), SealNonce(b, ephem, recip), text[KEY_LENGTH..])
  }

  /** Unboxing returns the message exactly for its box: nothing else is accepted. */
  lemma UnboxedExactly(b: Salsa, key: Bytes, nonce: Bytes, box: Bytes, message: Bytes)
    requires b.Valid() && b.Authentic()
    ensures Unboxed(b, key, nonce, box) == Some(message) <==> box == Boxed(b, key, nonce, message)
  {
    UnboxBoxed(b, key, nonce, message);
    if Unboxed(b, key, nonce, box) == Some(message) {
      assert Cipherbox(box[TAG_LENGTH..], box[..TAG_LENGTH]) == b.encrypt(key, nonce, message);
      assert box == box[..TAG_LENGTH] + box[TAG_LENGTH..];
    }
  }

  lemma UnboxBoxed(b: Salsa, key: Bytes, nonce: Bytes, message: Bytes)
    requires b.Valid()
    ensures Unboxed(b, key, nonce, Boxed(b, key, nonce, message)) == Some(message)
  {
    var c := b.encrypt(key, nonce, message);
    var box := c.tag + c.text;
    assert box[TAG_LENGTH..] == c.text && box[..TAG_LENGTH] == c.tag;
    assert c == Cipherbox(c.text, c.tag);
  }

  /** The holder of r opens what was sealed for r's public key, whatever the ephemeral key. */
  lemma OpenSealed(b: Salsa, r: Bytes, e: Bytes, message: Bytes)
    requires b.Valid()
    ensures Opened(b, r, b.x.publicOf(r), Sealed(b, b.x.publicOf(r), e, message)) == Some(message)
  {
    var recip, ephem := b.x.publicOf(r), b.x.publicOf(e);
    var key, nonce := b.x.dh(e, recip), SealNonce(b, ephem, recip);
    var box := Boxed(b, key, nonce, message);
    assert key == b.x.dh(r, ephem);
    UnboxBoxed(b, key, nonce, message);
    assert (ephem + box)[..KEY_LENGTH] == ephem && (ephem + box)[KEY_LENGTH..] == box;
  }

  /** Of the texts behind an ephemeral public key, exactly the sealed message opens as that message. */
  lemma OpenedExactly(b: Salsa, r: Bytes, e: Bytes, text: Bytes, message: Bytes)
    requires b.Valid() && b.Authentic() && b.x.publicOf(e) <= text
    ensures Opened(b, r, b.x.publicOf(r), text) == Some(message) <==> text == Sealed(b, b.x.publicOf(r), e, message)
  {
    OpenSealed(b, r, e, message);
    if Opened(b, r, b.x.publicOf(r), text) == Some(message) {
      var recip, ephem := b.x.publicOf(r), b.x.publicOf(e);
      assert text[..KEY_LENGTH] == ephem && b.x.dh(e, recip) == b.x.dh(r, ephem);
      UnboxedExactly(b, b.x.dh(r, ephem), SealNonce(b, ephem, recip), text[KEY_LENGTH..], message);
      assert text == ephem + text[KEY_LENGTH..];
    }
  }

  // ----- the operations on a buffer -----

  method Box(b: Salsa, recip: KeyPair, sender: KeyPair, buffer: OffsetWriter, nonce: Bytes)
      returns (error: Option<BoxError>)
    requires b.Valid() && buffer.Valid()
    modifies buffer.inner
    ensures buffer.Valid() && buffer.Skipped() == old(buffer.Skipped())
    ensures error == if sender.secret.None? then Some(NoSecretKey)
                     else if |nonce| != 24 then Some(InvalidNonce) else None
    ensures error.Some? ==> buffer.View() == old(buffer.View())
    ensures error.None? ==>
      var key := b.x.dh(sender.secret.value, recip.public);
      var c := b.encrypt(key, nonce, old(buffer.View()));
      buffer.View() == c.tag + c.text == Boxed(b, key, nonce, old(buffer.View()))
  {
    if sender.secret.None? {
      return Some(NoSecretKey);
    }
    if |nonce| != NONCE_LENGTH {
      return Some(InvalidNonce);
    }
    var key := b.x.dh(sender.secret.value, recip.public);
    var c := b.encrypt(key, nonce, buffer.View());
    buffer.SetView(c.text);
    var outcome := buffer.BufferInsert(0, c.tag);
    assert buffer.View() == c.tag + c.text;
    return None;
  }

  /** Afterwards the view holds the message, or, on any error, what it held before. */
  method Unbox(b: Salsa, recip: KeyPair, sender: KeyPair, buffer: OffsetWriter, nonce: Bytes)
    returns (error: Option<BoxError>)
    requires b.Valid() && buffer.Valid()
    modifies buffer.inner
    ensures buffer.Valid() && buffer.Skipped() == old(buffer.Skipped())
    ensures recip.secret.None? ==> error == Some(NoSecretKey)
    ensures recip.secret.Some? && |nonce| != 24 ==> error == Some(InvalidNonce)
    ensures recip.secret.Some? && |nonce| == 24 ==>
      match Unboxed(b, b.x.dh(recip.secret.value, sender.public), nonce, old(buffer.View()))
      case None => error == Some(Encryption)
      case Some(message) => error == None && buffer.View() == message
    ensures error.Some? ==> buffer.View() == old(buffer.View())
  {
    if recip.secret.None? {
      return Some(NoSecretKey);
    }
    if |nonce| != NONCE_LENGTH {
      return Some(InvalidNonce);
    }
    if |buffer.View()| < TAG_LENGTH {
      return Some(Encryption);
    }
    var tag := buffer.View()[..TAG_LENGTH];
    var key := b.x.dh(recip.secret.value, sender.public);
    var message := b.decrypt(key, nonce, Cipherbox(buffer.View()[TAG_LENGTH..], tag));
    if message.None? {
      return Some(Encryption);
    }
    assert |message.value| == |buffer.View()| - TAG_LENGTH;
    buffer.SetView(tag + message.value);
    var outcome := buffer.BufferRemove(0, TAG_LENGTH);
    assert buffer.View() == message.value;
    return None;
  }

  /** The ephemeral secret stands for the random key pair. */
  method Seal(b: Salsa, recip: KeyPair, message: Bytes, e: Bytes) returns (text: Bytes)
    requires b.Valid()
    ensures text == Sealed(b, recip.public, e, message) && |text| == 48 + |message|
    ensures var ephem := b.x.publicOf(e);
      var c := b.encrypt(b.x.dh(e, recip.public), b.hash(ephem + recip.public), message);
      text == ephem + (c.tag + c.text)
  {
    var ephem := b.x.Full(e);
    var buffer := new Buffer(ephem.public + message);
    var writer := new OffsetWriter(buffer, KEY_LENGTH);
    assert writer.Skipped() == ephem.public && writer.View() == message;
    var nonce := SealNonce(b, ephem.public, recip.public);
    var error := Box(b, recip, ephem, writer, nonce);
    assert buffer.data == writer.Skipped() + writer.View();
    return buffer.data;
  }

  method SealOpen(b: Salsa, recip: KeyPair, text: Bytes) returns (r: Result<Bytes, BoxError>)
    requires b.Valid()
    ensures recip.secret.None? ==> r == Err(if |text| < 48 then Encryption else NoSecretKey)
    ensures recip.secret.Some? ==>
      match Opened(b, recip.secret.value, recip.public, text)
      case None => r == Err(Encryption)
      case Some(message) => r == Ok(message)
    ensures recip.secret.Some? && |text| >= 48 ==>
      var key, nonce := b.x.dh(recip.secret.value, text[..32]), b.hash(text[..32] + recip.public);
      r.Ok? <==> b.decrypt(key, nonce, Cipherbox(text[48..], text[32..48])).Some?
  {
    if |text| < KEY_LENGTH + TAG_LENGTH {
      return Err(Encryption);
    }
    var ephem := KeyPair(text[..KEY_LENGTH], None);
    var buffer := new Buffer(text[KEY_LENGTH..]);
    var writer := new OffsetWriter(buffer, 0);
    assert writer.View() == text[KEY_LENGTH..];
    assert text[32..][16..] == text[48..] && text[32..][..16] == text[32..48];
    var nonce := SealNonce(b, ephem.public, recip.public);
    var error := Unbox(b, recip, ephem, writer, nonce);
    if error.Some? {
      return Err(error.value);
    }
    assert buffer.data == writer.View();
    return Ok(buffer.data);
  }
}
