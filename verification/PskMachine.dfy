/** The encryptor and decryptor as the source keeps them (internal/crypto/psk.go): a
    reusable counter-mode engine, a key that rotates itself, and a decryptor with a
    live and a pre-derived key. */
module PskMachine {
  import opened Serial
  import opened FlowTypes
  import opened Psk

  /** Adding one clears the full bytes at the end and steps the byte before them. */
  lemma {:induction false} IncrementAt(ctr: Bytes, i: int)
    requires -1 <= i < |ctr| && (forall k :: i < k < |ctr| ==> ctr[k] == 255) && (i >= 0 ==> ctr[i] < 255)
    ensures forall k :: 0 <= k < |ctr| ==>
      Increment(ctr)[k] == if k < i then ctr[k] else if k == i then ctr[i] + 1 else 0
    decreases |ctr|
  {
    var n := |ctr| - 1;
    if 0 <= n && i < n { IncrementAt(ctr[..n], i); }
  }

  /** Add one to a big-endian counter, from its last byte up. */
  method IncrementCounter(ctr: array<Byte>)
    modifies ctr
    ensures ctr[..] == Increment(old(ctr[..]))
  {
    hide Increment;
    ghost var was := ctr[..];
    var i := ctr.Length - 1;
    while i >= 0
      invariant -1 <= i < ctr.Length
      invariant forall k :: 0 <= k <= i ==> ctr[k] == was[k]
      invariant forall k :: i < k < ctr.Length ==> was[k] == 255 && ctr[k] == 0
    {
      if ctr[i] < 255 {
        ctr[i] := ctr[i] + 1;
        break;
      }
      ctr[i] := 0;
      i := i - 1;
    }
    IncrementAt(was, i);
  }

  /** The counter-mode engine. */
  class CtrState {
    const cipher: Cipher
    const ctr: array<Byte>
    var block: Bytes

    constructor (cipher: Cipher)
      ensures this.cipher == cipher && fresh(ctr) && ctr.Length == 16 && block == []
    {
      this.cipher, block := cipher, [];
      ctr := new Byte[16](_ => 0);
    }

    /** Apply the keystream from iv on, appending to dst. */
    method Apply(iv: Bytes, dst: Bytes, src: Bytes) returns (out: Bytes)
      requires cipher.Valid() && |iv| == 16 && ctr.Length == 16
      modifies ctr
      ensures out == dst + Crypt(cipher, block, iv, src)
    {
      hide Crypt, XorBlock, Increment;
      for i := 0 to 16
        invariant forall k :: 0 <= k < i ==> ctr[k] == iv[k]
      {
        ctr[i] := iv[i];
      }
      assert ctr[..] == iv;
      out := dst;
      var off := 0;
      ghost var goal := dst + Crypt(cipher, block, iv, src);
      while off < |src|
        invariant 0 <= off <= |src|
        invariant out + Crypt(cipher, block, ctr[..], src[off..]) == goal
      {
        var ks := cipher.encrypt(block, ctr[..]);
        var end := off + 16;
        if end > |src| {
          end := |src|;
        }
        CryptStep(cipher, block, ctr[..], src[off..]);
        assert src[off..][..end - off] == src[off..end] && src[off..][end - off..] == src[end..];
        var piece := Mask(src[off..end], ks);
        IncrementCounter(ctr);
        out := out + piece;
        off := end;
      }
      CryptNothing(cipher, block, ctr[..]);
    }

    method Mask(src: Bytes, ks: Bytes) returns (out: Bytes)
      requires |src| <= |ks|
      ensures out == XorBlock(src, ks)
    {
      out := [];
      for j := 0 to |src|
        invariant out == XorBlock(src[..j], ks)
      {
        out := out + [XorByte(src[j], ks[j])];
        assert XorBlock(src[..j + 1], ks) == XorBlock(src[..j], ks) + [XorByte(src[j], ks[j])];
      }
      assert src[..|src|] == src;
    }
  }

  lemma CryptStep(c: Cipher, key: Bytes, ctr: Bytes, src: Bytes)
    requires c.Valid() && src != []
    ensures Crypt(c, key, ctr, src)
         == XorBlock(src[..Chunk(src)], c.encrypt(key, ctr)) + Crypt(c, key, Increment(ctr), src[Chunk(src)..])
  {
  }

  lemma CryptNothing(c: Cipher, key: Bytes, ctr: Bytes)
    requires c.Valid()
    ensures Crypt(c, key, ctr, []) == []
  {
  }

  /** The sender's key. */
  class SendKey {
    const password: Bytes
    const bits: int
    const rotation: u32
    const odd: bool
    const raw: bool
    const engine: CtrState
    var nonce: Bytes
    var used: nat

    ghost predicate Valid()
      reads this, engine
    {
      engine.cipher.Valid() && engine.ctr.Length == 16 && password != [] && KeySize(bits)
    }

    ghost function Abs(): KeyState
      reads this, engine
    {
      KeyState(password, bits, rotation, odd, raw, nonce, engine.block, used)
    }

    constructor (cipher: Cipher, password: Bytes, bits: int, rotation: u32, odd: bool, raw: bool, first: Bytes)
      requires cipher.Valid() && KeySize(bits) && password != [] && Marked(first, odd)
      ensures Valid() && fresh(engine) && fresh(engine.ctr) && engine.cipher == cipher
      ensures Keyed(cipher, Abs()) && Abs() == KeyState(password, bits, rotation, odd, raw, first, engine.block, 0)
    {
      this.password, this.bits, this.rotation, this.odd, this.raw := password, bits, rotation, odd, raw;
      engine := new CtrState(cipher);
      nonce, used := first, 0;
      new;
      engine.block := cipher.derive(password, first, bits, raw);
    }

    /** Encrypt one packet, rotating first if that is due. Without a nonce to rotate to,
        the destination is handed back and nothing changes. */
    method EncryptPacket(s: u32, dst: Bytes, src: Bytes, random: Reads) returns (out: Bytes, err: Option<Error>)
      requires Valid() && ReadsOk(random) && |random| == NONCE_ATTEMPTS
      modifies this, engine, engine.ctr
      ensures Valid()
      ensures Abs() == Encrypt(engine.cipher, old(Abs()), s, src, random).0
      ensures var made := Encrypt(engine.cipher, old(Abs()), s, src, random).1;
        if made.Some? then err == None && out == dst + made.value.bytes && nonce == made.value.nonce
        else err == Some(RandomFailed) && out == dst
    {
      hide Crypt, BuildIV, GenerateNonce;
      if used + 1 > REUSE_LIMIT || (rotation > 0 && used >= rotation) {
        var drawn := DrawNonce(random, odd);
        if drawn.None? {
          return dst, Some(RandomFailed);
        }
        engine.block := engine.cipher.derive(password, drawn.value, bits, raw);
        nonce := drawn.value;
        used := 0;
      }
      out := engine.Apply(BuildIV(s), dst, src);
      used := used + 1;
      err := None;
    }
  }

  /** Read until a nonce is not zero, then mark it. */
  method DrawNonce(random: Reads, odd: bool) returns (nonce: Option<Bytes>)
    requires ReadsOk(random) && |random| == NONCE_ATTEMPTS
    ensures nonce == GenerateNonce(random, odd)
  {
    var attempts := 0;
    while attempts < NONCE_ATTEMPTS
      invariant 0 <= attempts <= NONCE_ATTEMPTS
      invariant GenerateNonce(random[attempts..], odd) == GenerateNonce(random, odd)
    {
      var rest := random[attempts..];
      assert rest[0] == random[attempts] && rest[1..] == random[attempts + 1..];
      if random[attempts].None? {
        return None;
      }
      if !IsZero(random[attempts].value) {
        return Some(SetMarker(random[attempts].value, odd));
      }
      attempts := attempts + 1;
    }
    nonce := None;
  }

  /** The receiver's keys. */
  class ReceiveKey {
    const password: Bytes
    const raw: bool
    const engine: CtrState
    var bits: int
    var nonce: Bytes
    var hasNonce: bool
    var used: nat
    var nextNonce: Bytes
    var nextBlock: Bytes
    var nextBits: int
    var hasNext: bool

    ghost predicate Valid()
      reads this, engine
    {
      engine.cipher.Valid() && engine.ctr.Length == 16
    }

    ghost function Abs(): Decryptor
      reads this, engine
    {
      Decryptor(password, bits, raw, nonce, engine.block, hasNonce, used, nextNonce, nextBlock, nextBits, hasNext)
    }

    constructor (cipher: Cipher, password: Bytes, bits: int, raw: bool)
      requires cipher.Valid()
      ensures Valid() && fresh(engine) && fresh(engine.ctr) && engine.cipher == cipher
      ensures Abs() == NewDecryptor(password, bits, raw)
    {
      this.password, this.bits, this.raw := password, bits, raw;
      engine := new CtrState(cipher);
      nonce, hasNonce, used := [], false, 0;
      nextNonce, nextBlock, nextBits, hasNext := [], [], 0, false;
    }

    method ChangeKeyBits(keyBits: int)
      requires Valid()
      modifies this
      ensures Valid() && Abs() == SetKeyBits(old(Abs()), keyBits)
    {
      if keyBits == bits {
        return;
      }
      bits, hasNonce, hasNext := keyBits, false, false;
    }

    method PrecomputeKey(announced: Bytes, keyBits: int)
      requires Valid()
      modifies this
      ensures Valid() && Abs() == Precompute(engine.cipher, old(Abs()), announced, keyBits)
    {
      hide IsZero;
      if IsZero(announced) {
        return;
      }
      if hasNonce && announced == nonce {
        return;
      }
      var b := keyBits;
      if !KeySize(b) {
        b := bits;
      }
      if hasNext && announced == nextNonce && b == nextBits {
        return;
      }
      var k := DeriveBlock(engine.cipher, password, announced, b, raw);
      if k.Bad? {
        return;
      }
      nextNonce, nextBlock, nextBits, hasNext := announced, k.block, b, true;
    }

    /** Key on a packet's nonce: keep the key, promote the next one, or derive one. */
    method KeyOnNonce(inbound: Bytes) returns (err: Option<Error>)
      requires Valid()
      modifies this, engine`block
      ensures Valid() && (Abs(), err) == KeyOn(engine.cipher, old(Abs()), inbound)
    {
      err := None;
      if !hasNonce || inbound != nonce {
        if hasNext && inbound == nextNonce {
          nonce := inbound;
          engine.block := nextBlock;
          bits, hasNonce, used, hasNext := nextBits, true, 0, false;
        } else {
          nonce := inbound;
          var k := DeriveBlock(engine.cipher, password, nonce, bits, raw);
          if k.Bad? {
            hasNonce := false;
            return Some(k.error);
          }
          engine.block := k.block;
          hasNonce, used := true, 0;
        }
      }
    }

    /** Decrypt one packet; on any error dst comes back as it was. */
    method DecryptPacket(inbound: Bytes, s: u32, dst: Bytes, src: Bytes) returns (out: Bytes, err: Option<Error>)
      requires Valid()
      modifies this, engine, engine.ctr
      ensures Valid() && Abs() == Decrypt(engine.cipher, old(Abs()), inbound, s, src).0
      ensures match Decrypt(engine.cipher, old(Abs()), inbound, s, src).1
        case Ok(plain) => out == dst + plain && err == None
        case Err(e) => out == dst && err == Some(e)
    {
      hide Crypt, BuildIV, IsZero, KeyOn;
      if IsZero(inbound) {
        return dst, Some(ZeroNonce);
      }
      err := KeyOnNonce(inbound);
      if err.Some? {
        return dst, err;
      }
      if used > REUSE_LIMIT {
        return dst, Some(ReuseExhausted);
      }
      out := engine.Apply(BuildIV(s), dst, src);
      used := used + 1;
    }
  }

  /** Make a sender's key with its first nonce. The rotation threshold is kept in 32
      bits. */
  method NewKey(cipher: Cipher, password: Bytes, bits: int, rotation: int, odd: bool, raw: bool, random: Reads)
    returns (k: SendKey?, err: Option<Error>)
    requires cipher.Valid() && ReadsOk(random) && |random| == NONCE_ATTEMPTS
    ensures !KeySize(bits) ==> err == Some(InvalidKeySize)
    ensures KeySize(bits) && password == [] ==> err == Some(EmptyPassword)
    ensures KeySize(bits) && password != [] && rotation < 0 ==> err == Some(NegativeRotation)
    ensures KeySize(bits) && password != [] && rotation >= 0 && Chosen(random).None? ==> err == Some(RandomFailed)
    ensures err == None <==> KeySize(bits) && password != [] && rotation >= 0 && Chosen(random).Some?
    ensures err == None <==> k != null
    ensures k != null ==> k.Valid() && Keyed(cipher, k.Abs()) && k.engine.cipher == cipher
    ensures k != null ==> GenerateNonce(random, odd) == Some(k.nonce)
    ensures k != null ==>
      k.Abs() == KeyState(password, bits, rotation % 0x1_0000_0000, odd, raw, k.nonce, k.engine.block, 0)
  {
    hide GenerateNonce, Chosen;
    if !KeySize(bits) {
      return null, Some(InvalidKeySize);
    }
    if password == [] {
      return null, Some(EmptyPassword);
    }
    if rotation < 0 {
      return null, Some(NegativeRotation);
    }
    NonceIs(random, odd);
    var drawn := DrawNonce(random, odd);
    if drawn.None? {
      return null, Some(RandomFailed);
    }
    var made := new SendKey(cipher, password, bits, rotation % 0x1_0000_0000, odd, raw, drawn.value);
    return made, None;
  }

  /** Make a receiver's keys. */
  method NewReceiveKey(cipher: Cipher, password: Bytes, bits: int, raw: bool)
    returns (d: ReceiveKey?, err: Option<Error>)
    requires cipher.Valid()
    ensures !KeySize(bits) ==> err == Some(InvalidKeySize)
    ensures KeySize(bits) && password == [] ==> err == Some(EmptyPassword)
    ensures err == None <==> KeySize(bits) && password != []
    ensures err == None <==> d != null
    ensures d != null ==> d.Valid() && d.engine.cipher == cipher && InStep(cipher, d.Abs(), password, bits, raw)
  {
    if !KeySize(bits) {
      return null, Some(InvalidKeySize);
    }
    if password == [] {
      return null, Some(EmptyPassword);
    }
    var made := new ReceiveKey(cipher, password, bits, raw);
    return made, None;
  }
}
