/** Sealed bids: the payload and ciphertext layout the browser writes and the
    reveal endpoint reads back. */
module BidSealing {
  import opened Options
  import opened Bytes
  import opened Poseidon
  import opened Powers

  const SALT_BYTES := 31
  const NONCE_BYTES := 24
  const PRICE_BYTES := 8
  const EPHEMERAL_PUB_BYTES := 32
  const BOX_OVERHEAD := 16

  /** The authenticated box, taken as given. */
  datatype BoxScheme = BoxScheme(
    publicOf: seq<Byte> -> seq<Byte>,
    seal: (seq<Byte>, seq<Byte>, seq<Byte>, seq<Byte>) -> seq<Byte>,
    open: (seq<Byte>, seq<Byte>, seq<Byte>, seq<Byte>) -> Option<seq<Byte>>)

  /** Opening undoes sealing, and the sizes are the published ones. */
  ghost predicate Works(box: BoxScheme) {
    && (forall secret {:trigger box.publicOf(secret)} :: |box.publicOf(secret)| == EPHEMERAL_PUB_BYTES)
    && (forall m, nonce, mine, theirs {:trigger box.seal(m, nonce, box.publicOf(theirs), mine)} ::
          && |box.seal(m, nonce, box.publicOf(theirs), mine)| == |m| + BOX_OVERHEAD
          && box.open(box.seal(m, nonce, box.publicOf(theirs), mine), nonce, box.publicOf(mine), theirs) == Some(m))
  }

  /** setBigUint64 keeps the low 64 bits. */
  function Payload(price: int, salt: seq<Byte>): seq<Byte> {
    Pow256At8();
    ToBytes(price % TWO_64, PRICE_BYTES) + salt
  }

  lemma Pow256At8()
    ensures Pow256(8) == TWO_64
  {
    assert Pow256(4) == 0x1_0000_0000;
    assert Pow256(8) == 256 * (256 * (256 * (256 * Pow256(4))));
  }

  function Sealed(box: BoxScheme, price: int, salt: seq<Byte>, operatorPublic: seq<Byte>,
                  nonce: seq<Byte>, ephemeralSecret: seq<Byte>): seq<Byte>
  {
    nonce + box.publicOf(ephemeralSecret) + box.seal(Payload(price, salt), nonce, operatorPublic, ephemeralSecret)
  }

  /** What dst becomes when src is copied over it from an offset on. */
  function Overwritten(dst: seq<Byte>, src: seq<Byte>, offset: nat): (r: seq<Byte>)
    requires offset + |src| <= |dst|
    ensures |r| == |dst|
  {
    dst[..offset] + src + dst[offset + |src|..]
  }

  /** Three copies side by side fill a buffer with the three parts. */
  lemma SideBySide(blank: seq<Byte>, a: seq<Byte>, b: seq<Byte>, c: seq<Byte>)
    requires |blank| == |a| + |b| + |c|
    ensures Overwritten(Overwritten(Overwritten(blank, a, 0), b, |a|), c, |a| + |b|) == a + b + c
  {
  }

  /** Uint8Array.set. */
  method SetBytes(dst: array<Byte>, src: seq<Byte>, offset: nat)
    requires offset + |src| <= dst.Length
    modifies dst
    ensures dst[..] == Overwritten(old(dst[..]), src, offset)
  {
    for i := 0 to |src|
      invariant forall k :: 0 <= k < dst.Length ==>
        dst[k] == if offset <= k < offset + i then src[k - offset] else old(dst[k])
    {
      dst[offset + i] := src[i];
    }
  }

  /** The price in eight big-endian bytes, then the salt. */
  method PlainPayload(price: int, saltBytes: seq<Byte>) returns (plainPayload: array<Byte>)
    requires |saltBytes| == SALT_BYTES
    ensures fresh(plainPayload) && plainPayload[..] == Payload(price, saltBytes)
  {
    plainPayload := new Byte[PRICE_BYTES + SALT_BYTES](_ => 0);
    ghost var blank := plainPayload[..];
    var priceBytes := ToBytes(price % TWO_64, PRICE_BYTES);
    SetBytes(plainPayload, priceBytes, 0);
    SetBytes(plainPayload, saltBytes, PRICE_BYTES);
    SideBySide(blank, priceBytes, saltBytes, []);
  }

  datatype SealedBid = SealedBid(commitment: int, encryptedBid: seq<Byte>, salt: int)

  /** sealBid: commit to (price, salt, auction) and box price || salt.  Salt,
      nonce and ephemeral key are drawn by the caller. */
  method SealBid(h: Hasher, box: BoxScheme, price: int, auctionId: int, operatorPublic: seq<Byte>,
                 saltBytes: seq<Byte>, nonce: seq<Byte>, ephemeralSecret: seq<Byte>) returns (bid: SealedBid)
    requires |saltBytes| == SALT_BYTES && |nonce| == NONCE_BYTES
    ensures bid.encryptedBid == Sealed(box, price, saltBytes, operatorPublic, nonce, ephemeralSecret)
    ensures bid.salt == BigEndian(saltBytes) && bid.commitment == h.three(price, bid.salt, auctionId)
  {
    var saltValue := BytesToBigInt(saltBytes);
    var commitment := h.three(price, saltValue, auctionId);
    var plainPayload := PlainPayload(price, saltBytes);
    var ephemeralPublic := box.publicOf(ephemeralSecret);
    var boxBytes := box.seal(plainPayload[..], nonce, operatorPublic, ephemeralSecret);
    var encryptedBid := new Byte[NONCE_BYTES + |ephemeralPublic| + |boxBytes|](_ => 0);
    ghost var blank := encryptedBid[..];
    SetBytes(encryptedBid, nonce, 0);
    SetBytes(encryptedBid, ephemeralPublic, NONCE_BYTES);
    SetBytes(encryptedBid, boxBytes, NONCE_BYTES + |ephemeralPublic|);
    SideBySide(blank, nonce, ephemeralPublic, boxBytes);
    bid := SealedBid(commitment, encryptedBid[..], saltValue);
  }

  /** What decryptBid makes of a ciphertext: None when it is too short, does not
      open, or opens to a payload of another length. */
  function Decrypted(box: BoxScheme, encryptedBid: seq<Byte>, operatorSecret: seq<Byte>): Option<(int, int)> {
    if |encryptedBid| < NONCE_BYTES + EPHEMERAL_PUB_BYTES + PRICE_BYTES + SALT_BYTES then None
    else
      var nonce := encryptedBid[..NONCE_BYTES];
      var ephemeral := encryptedBid[NONCE_BYTES..NONCE_BYTES + EPHEMERAL_PUB_BYTES];
      var boxBytes := encryptedBid[NONCE_BYTES + EPHEMERAL_PUB_BYTES..];
      match box.open(boxBytes, nonce, ephemeral, operatorSecret)
      case None => None
      case Some(plain) =>
        if |plain| != PRICE_BYTES + SALT_BYTES then None
        else Some((BigEndian(plain[..PRICE_BYTES]), BigEndian(plain[PRICE_BYTES..])))
  }

  /** decryptBid. */
  method DecryptBid(box: BoxScheme, encryptedBid: seq<Byte>, operatorSecret: seq<Byte>)
    returns (r: Option<(int, int)>)
    ensures r == Decrypted(box, encryptedBid, operatorSecret)
  {
    if |encryptedBid| < NONCE_BYTES + EPHEMERAL_PUB_BYTES + PRICE_BYTES + SALT_BYTES {
      return None;
    }
    var nonce := encryptedBid[..NONCE_BYTES];
    var ephemeral := encryptedBid[NONCE_BYTES..NONCE_BYTES + EPHEMERAL_PUB_BYTES];
    var boxBytes := encryptedBid[NONCE_BYTES + EPHEMERAL_PUB_BYTES..];
    var plain := box.open(boxBytes, nonce, ephemeral, operatorSecret);
    if plain == None || |plain.value| != PRICE_BYTES + SALT_BYTES {
      return None;
    }
    var price := BytesToBigInt(plain.value[..PRICE_BYTES]);
    var salt := BytesToBigInt(plain.value[PRICE_BYTES..]);
    r := Some((price, salt));
  }

  /** A ciphertext is read if and only if it has at least 95 bytes, its box opens
      under the nonce and key in front, and the payload has 39 bytes; and then as
      price and salt, big-endian. */
  lemma DecryptedMeans(box: BoxScheme, encryptedBid: seq<Byte>, operatorSecret: seq<Byte>, price: int, salt: int)
    ensures Decrypted(box, encryptedBid, operatorSecret) == Some((price, salt))
       <==>
       && |encryptedBid| >= 95
       && var plain := box.open(encryptedBid[56..], encryptedBid[..24], encryptedBid[24..56], operatorSecret);
       && plain.Some? && |plain.value| == 39
       && BigEndian(plain.value[..8]) == price && BigEndian(plain.value[8..]) == salt
  {
  }

  /** Opening a sealed bid gives back the salt, and the price modulo 2^64: the
      bidder's own price exactly when it fits 64 bits. */
  lemma SealRoundTrip(box: BoxScheme, price: int, salt: seq<Byte>, operatorSecret: seq<Byte>,
                      nonce: seq<Byte>, ephemeralSecret: seq<Byte>)
    requires Works(box) && |salt| == SALT_BYTES && |nonce| == NONCE_BYTES
    ensures
      var sealed := Sealed(box, price, salt, box.publicOf(operatorSecret), nonce, ephemeralSecret);
      && Decrypted(box, sealed, operatorSecret) == Some((price % TWO_64, BigEndian(salt)))
      && (Decrypted(box, sealed, operatorSecret) == Some((price, BigEndian(salt))) <==> 0 <= price < TWO_64)
  {
    var payload, public := Payload(price, salt), box.publicOf(ephemeralSecret);
    var boxBytes := box.seal(payload, nonce, box.publicOf(operatorSecret), ephemeralSecret);
    assert |public| == EPHEMERAL_PUB_BYTES;
    ThreeParts(nonce, public, boxBytes);
    PayloadReadsBack(price, salt);
  }

  /** Where everything is in a sealed bid: bytes 0 to 23 the nonce, 24 to 55 the
      ephemeral key, then the box, over bytes 0 to 7 the price and 8 to 38 the
      salt. */
  lemma SealedLayout(box: BoxScheme, price: int, salt: seq<Byte>, operatorPublic: seq<Byte>, nonce: seq<Byte>,
                     ephemeralSecret: seq<Byte>) returns (plain: seq<Byte>)
    requires Works(box) && |salt| == 31 && |nonce| == 24
    ensures |plain| == 39 && BigEndian(plain[..8]) == price % TWO_64 && plain[8..] == salt
    ensures
      var sealed := Sealed(box, price, salt, operatorPublic, nonce, ephemeralSecret);
      && |sealed| >= 56 && sealed[..24] == nonce && sealed[24..56] == box.publicOf(ephemeralSecret)
      && sealed[56..] == box.seal(plain, nonce, operatorPublic, ephemeralSecret)
  {
    plain := Payload(price, salt);
    PayloadReadsBack(price, salt);
    ThreeParts(nonce, box.publicOf(ephemeralSecret), box.seal(plain, nonce, operatorPublic, ephemeralSecret));
  }

  /** What the browser sends: 24 bytes of nonce, 32 of key, 8 of price and 31 of
      salt, and 16 of the box. */
  lemma SealedSize(box: BoxScheme, price: int, salt: seq<Byte>, operatorSecret: seq<Byte>, nonce: seq<Byte>,
                   ephemeralSecret: seq<Byte>)
    requires Works(box) && |salt| == SALT_BYTES && |nonce| == NONCE_BYTES
    ensures |Sealed(box, price, salt, box.publicOf(operatorSecret), nonce, ephemeralSecret)| == 111
  {
    var payload, public := Payload(price, salt), box.publicOf(ephemeralSecret);
    var boxBytes := box.seal(payload, nonce, box.publicOf(operatorSecret), ephemeralSecret);
    assert |public| == EPHEMERAL_PUB_BYTES && |boxBytes| == |payload| + BOX_OVERHEAD;
  }

  lemma ThreeParts(a: seq<Byte>, b: seq<Byte>, c: seq<Byte>)
    ensures (a + b + c)[..|a|] == a && (a + b + c)[|a|..|a| + |b|] == b && (a + b + c)[|a| + |b|..] == c
  {
  }

  lemma PayloadReadsBack(price: int, salt: seq<Byte>)
    ensures |Payload(price, salt)| == PRICE_BYTES + |salt|
    ensures BigEndian(Payload(price, salt)[..PRICE_BYTES]) == price % TWO_64
    ensures Payload(price, salt)[PRICE_BYTES..] == salt
  {
    Pow256At8();
    var priceBytes := ToBytes(price % TWO_64, PRICE_BYTES);
    assert (priceBytes + salt)[..PRICE_BYTES] == priceBytes && (priceBytes + salt)[PRICE_BYTES..] == salt;
    BigEndianToBytes(price % TWO_64, PRICE_BYTES);
  }

  /** What the operator reveals opens the commitment made next to it exactly for
      64-bit prices, unless the two openings collide. */
  lemma RevealOpensCommitment(h: Hasher, box: BoxScheme, price: int, auctionId: int, salt: seq<Byte>,
                              operatorSecret: seq<Byte>, nonce: seq<Byte>, ephemeralSecret: seq<Byte>)
    requires Works(box) && |salt| == SALT_BYTES && |nonce| == NONCE_BYTES
    requires NoTripleCollision(h, {(price, BigEndian(salt), auctionId), (price % TWO_64, BigEndian(salt), auctionId)})
    ensures
      var revealed := Decrypted(box, Sealed(box, price, salt, box.publicOf(operatorSecret), nonce, ephemeralSecret),
                                operatorSecret);
      && revealed.Some?
      && (h.three(revealed.value.0, revealed.value.1, auctionId) == h.three(price, BigEndian(salt), auctionId)
          <==> 0 <= price < TWO_64)
  {
    SealRoundTrip(box, price, salt, operatorSecret, nonce, ephemeralSecret);
    var committed, revealed := (price, BigEndian(salt), auctionId), (price % TWO_64, BigEndian(salt), auctionId);
    if HashTriple(h, committed) == HashTriple(h, revealed) {
      assert committed == revealed;
    }
  }
}
