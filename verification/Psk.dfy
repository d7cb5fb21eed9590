/** Pre-shared-key encryption (internal/crypto/psk.go): AES in counter mode under keys
    derived from a passphrase and a rotating nonce. Key derivation and the block cipher
    are arbitrary functions here; nothing below depends on what they compute, and no
    claim is made about secrecy. Decryption gives back the plaintext across rotation,
    reordering, repetition and key caching. */
module Psk {
  import opened Arith
  import opened Bits
  import opened FlowTypes
  import opened Serial

  const REUSE_LIMIT := 0xFFFF_FFFF

  /** PBKDF2 and one AES block, as functions. */
  datatype Cipher = Cipher(derive: (Bytes, Bytes, int, bool) -> Bytes, encrypt: (Bytes, Bytes) -> Bytes) {
    ghost predicate Valid() { forall k, c :: |encrypt(k, c)| == 16 }
  }

  datatype Error = InvalidKeySize | EmptyPassword | NegativeRotation | ZeroNonce | ReuseExhausted | RandomFailed

  datatype Derived = Key(block: Bytes) | Bad(error: Error)

  predicate KeySize(bits: int) { bits == 128 || bits == 192 || bits == 256 }

  function DeriveBlock(c: Cipher, password: Bytes, nonce: Bytes, bits: int, raw: bool): Derived {
    if !KeySize(bits) then Bad(InvalidKeySize)
    else if password == [] then Bad(EmptyPassword)
    else Key(c.derive(password, nonce, bits, raw))
  }

  predicate IsZero(nonce: Bytes) { forall i :: 0 <= i < |nonce| ==> nonce[i] == 0 }

  // ---- the counter ----

  /** A counter block read as a big-endian number. */
  function Value(ctr: Bytes): nat {
    if ctr == [] then 0 else 256 * Value(ctr[..|ctr| - 1]) + ctr[|ctr| - 1]
  }

  function Pow256(n: nat): nat { if n == 0 then 1 else 256 * Pow256(n - 1) }

  /** Add one, carrying upward; the top carry is lost. */
  function Increment(ctr: Bytes): (r: Bytes)
    ensures |r| == |ctr|
  {
    if ctr == [] then []
    else
      var n := |ctr| - 1;
      if ctr[n] < 255 then ctr[n := ctr[n] + 1] else Increment(ctr[..n]) + [0]
  }

  lemma {:induction false} ValueBound(ctr: Bytes)
    ensures Value(ctr) < Pow256(|ctr|)
  {
    if ctr != [] { ValueBound(ctr[..|ctr| - 1]); }
  }

  lemma {:induction false} IncrementAdds(ctr: Bytes)
    ensures Value(Increment(ctr)) == if Value(ctr) + 1 == Pow256(|ctr|) then 0 else Value(ctr) + 1
  {
    if ctr != [] {
      var n := |ctr| - 1;
      ValueBound(ctr[..n]);
      if ctr[n] < 255 {
        assert Increment(ctr)[..n] == ctr[..n];
      } else {
        IncrementAdds(ctr[..n]);
        assert Increment(ctr)[..n] == Increment(ctr[..n]);
      }
    }
  }

  /** The sequence number, then twelve zero bytes. */
  function BuildIV(s: u32): (r: Bytes)
    ensures |r| == 16
  {
    [s / 0x100_0000, s / 0x1_0000 % 256, s / 256 % 256, s % 256] + seq(12, _ => 0)
  }

  function CounterAt(iv: Bytes, j: nat): (r: Bytes)
    ensures |r| == |iv|
  {
    if j == 0 then iv else Increment(CounterAt(iv, j - 1))
  }

  lemma {:induction false} ValueZeros(ctr: Bytes, n: nat)
    requires n <= |ctr| && forall i :: n <= i < |ctr| ==> ctr[i] == 0
    ensures Value(ctr) == Value(ctr[..n]) * Pow256(|ctr| - n)
    decreases |ctr| - n
  {
    if n == |ctr| {
      assert ctr[..n] == ctr;
    } else {
      var m := |ctr| - 1;
      ValueZeros(ctr[..m], n);
      assert ctr[..m][..n] == ctr[..n];
    }
  }

  lemma IvValue(s: u32)
    ensures Value(BuildIV(s)) == s * Pow256(12)
  {
    hide Pow256;
    var iv := BuildIV(s);
    ValueZeros(iv, 4);
    HeadValue(s);
    assert iv[..4] == [s / 0x100_0000, s / 0x1_0000 % 256, s / 256 % 256, s % 256];
  }

  lemma HeadValue(s: u32)
    ensures Value([s / 0x100_0000, s / 0x1_0000 % 256, s / 256 % 256, s % 256]) == s
  {
    var (a, b, c, d) := (s / 0x100_0000, s / 0x1_0000 % 256, s / 256 % 256, s % 256);
    assert [a, b, c, d][..3] == [a, b, c] && [a, b, c][..2] == [a, b] && [a, b][..1] == [a] && [a][..0] == [];
    assert Value([a]) == a;
    assert Value([a, b]) == 256 * a + b;
    assert Value([a, b, c]) == 256 * (256 * a + b) + c;
    Digits(s);
  }

  lemma Digits(s: u32)
    ensures 256 * (256 * (256 * (s / 0x100_0000) + s / 0x1_0000 % 256) + s / 256 % 256) + s % 256 == s
  {
    var x := s / 256;
    var y := x / 256;
    assert s / 0x1_0000 == y && s / 0x100_0000 == y / 256;
    assert s == 256 * x + s % 256 && x == 256 * y + x % 256 && y == 256 * (y / 256) + y % 256;
  }

  /** Block j of packet s is encrypted under counter s * 2^96 + j. */
  lemma {:induction false} CounterValue(s: u32, j: nat)
    requires j < Pow256(12)
    ensures Value(CounterAt(BuildIV(s), j)) == s * Pow256(12) + j
    decreases j
  {
    hide Pow256;
    if j == 0 {
      IvValue(s);
    } else {
      CounterValue(s, j - 1);
      IncrementAdds(CounterAt(BuildIV(s), j - 1));
      Room(s, j);
    }
  }

  lemma Room(s: u32, j: nat)
    requires j < Pow256(12)
    ensures s * Pow256(12) + j < Pow256(16)
  {
    var p := Pow256(12);
    assert Pow256(16) == 0x1_0000_0000 * p by {
      assert Pow256(13) == 256 * p && Pow256(14) == 256 * Pow256(13) && Pow256(15) == 256 * Pow256(14);
    }
    MulMono(s + 1, 0x1_0000_0000, p);
  }

  /** No two blocks of any packets with different sequence numbers, nor two blocks of
      one packet, share a counter. */
  lemma CountersDistinct(s: u32, j: nat, t: u32, k: nat)
    requires j < Pow256(12) && k < Pow256(12) && (s != t || j != k)
    ensures CounterAt(BuildIV(s), j) != CounterAt(BuildIV(t), k)
  {
    hide Pow256, CounterAt, BuildIV, Value;
    CounterValue(s, j);
    CounterValue(t, k);
    DigitsDiffer(s, j, t, k, Pow256(12));
  }

  // ---- counter mode ----

  function XorByte(a: Byte, b: Byte): Byte {
    assert Pow2(8) == 256;
    XorBelow(a, b, 8);
    Xor(a, b)
  }

  /** src under a keystream block that is at least as long. */
  function XorBlock(src: Bytes, ks: Bytes): (r: Bytes)
    requires |src| <= |ks|
    ensures |r| == |src| && forall i :: 0 <= i < |r| ==> r[i] == XorByte(src[i], ks[i])
  {
    seq(|src|, i requires 0 <= i < |src| => XorByte(src[i], ks[i]))
  }

  lemma XorByteTwice(a: Byte, b: Byte)
    ensures XorByte(XorByte(a, b), b) == a
  {
    XorAssoc(a, b, b);
    XorSelf(b);
    XorZero(a);
  }

  lemma XorBlockTwice(src: Bytes, ks: Bytes)
    requires |src| <= |ks|
    ensures XorBlock(XorBlock(src, ks), ks) == src
  {
    hide XorByte;
    forall i | 0 <= i < |src| ensures XorBlock(XorBlock(src, ks), ks)[i] == src[i] { XorByteTwice(src[i], ks[i]); }
  }

  function Chunk(src: Bytes): nat { if |src| < 16 then |src| else 16 }

  /** Counter mode from a counter on. */
  ghost function Crypt(c: Cipher, key: Bytes, ctr: Bytes, src: Bytes): (r: Bytes)
    requires c.Valid()
    ensures |r| == |src|
    decreases |src|
  {
    if src == [] then [] else
    XorBlock(src[..Chunk(src)], c.encrypt(key, ctr)) + Crypt(c, key, Increment(ctr), src[Chunk(src)..])
  }

  /** Counter mode undoes itself. */
  lemma {:induction false} CryptTwice(c: Cipher, key: Bytes, ctr: Bytes, src: Bytes)
    requires c.Valid()
    ensures Crypt(c, key, ctr, Crypt(c, key, ctr, src)) == src
    decreases |src|
  {
    hide XorBlock, Increment;
    if src != [] {
      var n := Chunk(src);
      var ks := c.encrypt(key, ctr);
      var out := Crypt(c, key, ctr, src);
      assert out[..n] == XorBlock(src[..n], ks);
      assert out[n..] == Crypt(c, key, Increment(ctr), src[n..]);
      XorBlockTwice(src[..n], ks);
      CryptTwice(c, key, Increment(ctr), src[n..]);
    }
  }

  // ---- nonces ----

  /** A zero nonce is drawn again, this often in all. */
  const NONCE_ATTEMPTS: nat := 8

  /** What the reads of the random source give: four bytes, or an error. */
  type Reads = seq<Option<Bytes>>

  predicate ReadsOk(random: Reads) {
    forall i :: 0 <= i < |random| && random[i].Some? ==> |random[i].value| == 4
  }

  /** Clear the top bit, and set it for the odd passphrase. */
  function SetMarker(nonce: Bytes, odd: bool): Bytes
    requires |nonce| == 4
  {
    nonce[0 := nonce[0] % 128 + (if odd then 128 else 0)]
  }

  /** The first read that is not zero, marked; none if a read fails or all are zero. */
  function GenerateNonce(random: Reads, odd: bool): Option<Bytes>
    requires ReadsOk(random)
    decreases |random|
  {
    if random == [] || random[0].None? then None
    else if !IsZero(random[0].value) then Some(SetMarker(random[0].value, odd))
    else GenerateNonce(random[1..], odd)
  }

  predicate Marked(nonce: Bytes, odd: bool) { |nonce| == 4 && (nonce[0] >= 128 <==> odd) }

  /** nonce is the bytes read, but for the marker bit. */
  predicate MarkedFrom(nonce: Bytes, raw: Bytes) {
    |nonce| == |raw| == 4 && nonce[0] % 128 == raw[0] % 128 && nonce[1..] == raw[1..]
  }

  /** A read that only the marker bit keeps from being zero. */
  const MARKER_ONLY: Bytes := [128, 0, 0, 0]

  /** The read that a nonce comes from. */
  function Chosen(random: Reads): Option<Bytes>
    decreases |random|
  {
    if random == [] || random[0].None? then None
    else if !IsZero(random[0].value) then random[0]
    else Chosen(random[1..])
  }

  /** Every nonce carries its passphrase's marker. It is zero, and so refused by every
      receiver, if and only if it is for the even passphrase and the read chosen had
      nothing but the marker bit. */
  lemma {:induction false} NonceIs(random: Reads, odd: bool)
    requires ReadsOk(random)
    ensures var n := GenerateNonce(random, odd);
      && (n.Some? <==> Chosen(random).Some?)
      && (n.Some? ==> Marked(n.value, odd) && (IsZero(n.value) <==> !odd && Chosen(random) == Some(MARKER_ONLY)))
      && (n.Some? ==> MarkedFrom(n.value, Chosen(random).value))
    decreases |random|
  {
    if random != [] && random[0].Some? {
      if IsZero(random[0].value) { NonceIs(random[1..], odd); } else { MarkerZeroes(random[0].value, odd); }
    }
  }

  lemma MarkerZeroes(raw: Bytes, odd: bool)
    requires |raw| == 4 && !IsZero(raw)
    ensures Marked(SetMarker(raw, odd), odd) && MarkedFrom(SetMarker(raw, odd), raw)
    ensures IsZero(SetMarker(raw, odd)) <==> !odd && raw == MARKER_ONLY
  {
    var m := SetMarker(raw, odd);
    assert m[1] == raw[1] && m[2] == raw[2] && m[3] == raw[3];
    if IsZero(m) {
      assert m[0] == 0 && m[1] == 0 && m[2] == 0 && m[3] == 0;
      assert raw[0] != 0;
      assert raw == MARKER_ONLY;
    }
  }

  lemma EvenMarkerIsZero(rest: Reads)
    requires ReadsOk(rest)
    ensures GenerateNonce([Some(MARKER_ONLY)] + rest, false) == Some([0, 0, 0, 0])
  {
    var all := [Some(MARKER_ONLY)] + rest;
    assert all[0] == Some(MARKER_ONLY) && MARKER_ONLY[0] == 128;
    assert !IsZero(MARKER_ONLY) && SetMarker(MARKER_ONLY, false) == [0, 0, 0, 0];
  }

  // ---- the sender's key ----

  datatype KeyState = KeyState(password: Bytes, bits: int, rotation: u32, odd: bool, raw: bool,
                               nonce: Bytes, block: Bytes, used: nat)

  /** The key in force is the one derived from the nonce in force. */
  ghost predicate Keyed(c: Cipher, k: KeyState) {
    && c.Valid() && KeySize(k.bits) && k.password != [] && Marked(k.nonce, k.odd)
    && k.block == c.derive(k.password, k.nonce, k.bits, k.raw)
    && k.used <= PerNonce(k)
  }

  lemma KeyedValid(c: Cipher, k: KeyState)
    requires Keyed(c, k)
    ensures c.Valid()
  {
  }

  /** The most packets one nonce may cover. */
  function PerNonce(k: KeyState): (n: nat)
    ensures 0 < n <= REUSE_LIMIT
  {
    if 0 < k.rotation < REUSE_LIMIT then k.rotation else REUSE_LIMIT
  }

  predicate RotateDue(k: KeyState) {
    k.used + 1 > REUSE_LIMIT || (k.rotation > 0 && k.used >= k.rotation)
  }

  function Rekey(c: Cipher, k: KeyState, nonce: Bytes): KeyState {
    k.(nonce := nonce, block := c.derive(k.password, nonce, k.bits, k.raw), used := 0)
  }

  datatype Packet = Packet(nonce: Bytes, seqno: u32, bytes: Bytes)

  /** The key a packet is encrypted under; none if a nonce was needed and not found. */
  function InForce(c: Cipher, k: KeyState, random: Reads): Option<KeyState>
    requires ReadsOk(random)
  {
    if !RotateDue(k) then Some(k) else
    match GenerateNonce(random, k.odd)
    case None => None
    case Some(nonce) => Some(Rekey(c, k, nonce))
  }

  /** One packet; without a key nothing is sent and nothing changes. */
  ghost function Encrypt(c: Cipher, k: KeyState, s: u32, src: Bytes, random: Reads): (KeyState, Option<Packet>)
    requires c.Valid() && ReadsOk(random)
  {
    match InForce(c, k, random)
    case None => (k, None)
    case Some(k1) => (k1.(used := k1.used + 1), Some(Packet(k1.nonce, s, Crypt(c, k1.block, BuildIV(s), src))))
  }

  /** pkt carries plain under the given passphrase and key size. */
  ghost predicate Carries(c: Cipher, password: Bytes, bits: int, raw: bool, pkt: Packet, plain: Bytes)
    requires c.Valid()
  {
    pkt.bytes == Crypt(c, c.derive(password, pkt.nonce, bits, raw), BuildIV(pkt.seqno), plain)
  }

  predicate SameSecret(k: KeyState, k': KeyState) {
    k'.password == k.password && k'.bits == k.bits && k'.raw == k.raw && k'.odd == k.odd && k'.rotation == k.rotation
  }

  /** Encryption keeps key, nonce and marker together, and gives a packet unless a new
      nonce was due and the random source failed. */
  lemma EncryptKeeps(c: Cipher, k: KeyState, s: u32, src: Bytes, random: Reads)
    requires Keyed(c, k) && ReadsOk(random)
    ensures var (k', pkt) := Encrypt(c, k, s, src, random);
      && Keyed(c, k') && SameSecret(k, k')
      && (pkt.None? <==> RotateDue(k) && Chosen(random).None?)
      && (pkt.None? ==> k' == k)
      && (pkt.Some? ==> Carries(c, k.password, k.bits, k.raw, pkt.value, src) && pkt.value.nonce == k'.nonce)
      && (!RotateDue(k) ==> k'.nonce == k.nonce && k'.used == k.used + 1)
      && (pkt.Some? ==> k'.used >= 1)
  {
    hide Crypt, BuildIV, IsZero, GenerateNonce, Chosen;
    NonceIs(random, k.odd);
  }

  /** One call to Encrypt. */
  datatype Job = Job(seqno: u32, plain: Bytes, random: Reads)

  predicate JobsOk(jobs: seq<Job>) { forall i :: 0 <= i < |jobs| ==> ReadsOk(jobs[i].random) }

  /** The key after a list of calls, and what each made. */
  ghost function EncryptAll(c: Cipher, k: KeyState, jobs: seq<Job>): (KeyState, seq<Option<Packet>>)
    requires c.Valid() && JobsOk(jobs)
  {
    if jobs == [] then (k, []) else
    var (n, j) := (|jobs| - 1, jobs[|jobs| - 1]);
    var (k1, pkts) := EncryptAll(c, k, jobs[..n]);
    var (k2, pkt) := Encrypt(c, k1, j.seqno, j.plain, j.random);
    (k2, pkts + [pkt])
  }

  /** Across any number of rotations, each packet carries what was handed in. */
  lemma {:induction false} AllCarry(c: Cipher, k: KeyState, jobs: seq<Job>)
    requires Keyed(c, k) && JobsOk(jobs)
    ensures var (k', pkts) := EncryptAll(c, k, jobs);
      && Keyed(c, k') && SameSecret(k, k')
      && |pkts| == |jobs|
      && forall i :: 0 <= i < |pkts| && pkts[i].Some? ==> Carries(c, k.password, k.bits, k.raw, pkts[i].value, jobs[i].plain)
  {
    hide Encrypt, Carries, Keyed, ReadsOk;
    KeyedValid(c, k);
    if jobs != [] {
      var (n, j) := (|jobs| - 1, jobs[|jobs| - 1]);
      AllCarry(c, k, jobs[..n]);
      EncryptKeeps(c, EncryptAll(c, k, jobs[..n]).0, j.seqno, j.plain, j.random);
    }
  }

  // ---- how many packets a nonce covers ----

  /** The key before the i-th call. */
  ghost function KeyBefore(c: Cipher, k: KeyState, jobs: seq<Job>, i: nat): KeyState
    requires c.Valid() && JobsOk(jobs) && i <= |jobs|
  {
    EncryptAll(c, k, jobs[..i]).0
  }

  lemma KeyAfter(c: Cipher, k: KeyState, jobs: seq<Job>, i: nat)
    requires Keyed(c, k) && JobsOk(jobs) && i < |jobs|
    ensures var (before, j) := (KeyBefore(c, k, jobs, i), jobs[i]);
      && Keyed(c, before) && SameSecret(k, before)
      && KeyBefore(c, k, jobs, i + 1) == Encrypt(c, before, j.seqno, j.plain, j.random).0
      && |EncryptAll(c, k, jobs).1| == |jobs|
      && EncryptAll(c, k, jobs).1[i] == Encrypt(c, before, j.seqno, j.plain, j.random).1
  {
    hide Encrypt, Keyed, ReadsOk;
    AllCarry(c, k, jobs[..i]);
    assert jobs[..i + 1][..i] == jobs[..i] && jobs[..i + 1][i] == jobs[i];
    AllCarry(c, k, jobs);
    MadeSoFar(c, k, jobs, i + 1);
    AllCarry(c, k, jobs[..i + 1]);
  }

  lemma {:induction false} MadeSoFar(c: Cipher, k: KeyState, jobs: seq<Job>, i: nat)
    requires Keyed(c, k) && JobsOk(jobs) && i <= |jobs|
    ensures EncryptAll(c, k, jobs[..i]).1 <= EncryptAll(c, k, jobs).1
  {
    hide Encrypt, Keyed, ReadsOk;
    var n := |jobs| - 1;
    if i == |jobs| {
      assert jobs[..i] == jobs;
    } else {
      assert jobs[..n][..i] == jobs[..i];
      MadeSoFar(c, k, jobs[..n], i);
    }
  }

  /** Packets i to j - 1 were all made with no rotation due after the first: they share
      one nonce, and they are within the budget of one nonce. */
  lemma {:induction false} NonceCovers(c: Cipher, k: KeyState, jobs: seq<Job>, i: nat, j: nat)
    requires Keyed(c, k) && JobsOk(jobs) && i < j <= |jobs|
    requires |EncryptAll(c, k, jobs).1| == |jobs| && EncryptAll(c, k, jobs).1[i].Some?
    requires forall m :: i < m < j ==> !RotateDue(KeyBefore(c, k, jobs, m))
    ensures var (pkts, k') := (EncryptAll(c, k, jobs).1, KeyBefore(c, k, jobs, j));
      && j - i <= k'.used <= PerNonce(k)
      && (forall m :: i <= m < j ==> pkts[m].Some? && pkts[m].value.nonce == k'.nonce)
    decreases j
  {
    hide Encrypt, EncryptAll, Carries, ReadsOk, Chosen, RotateDue, KeyBefore;
    var last, job := KeyBefore(c, k, jobs, j - 1), jobs[j - 1];
    KeyAfter(c, k, jobs, j - 1);
    EncryptKeeps(c, last, job.seqno, job.plain, job.random);
    if i < j - 1 { NonceCovers(c, k, jobs, i, j - 1); }
  }

  /** A new nonce is drawn exactly when the one in force has covered its packets. */
  lemma RotatesWhenSpent(c: Cipher, k: KeyState, s: u32, src: Bytes, random: Reads)
    requires Keyed(c, k) && ReadsOk(random)
    ensures var (k', pkt) := Encrypt(c, k, s, src, random);
      if k.used < PerNonce(k) then pkt.Some? && pkt.value.nonce == k.nonce == k'.nonce && k'.used == k.used + 1
      else if Chosen(random).None? then pkt.None? && k' == k
      else
        && pkt.Some? && pkt.value.nonce == k'.nonce && k'.used == 1
        && Marked(k'.nonce, k.odd) && MarkedFrom(k'.nonce, Chosen(random).value)
  {
    hide Crypt, BuildIV, IsZero, GenerateNonce, Chosen, MarkedFrom;
    NonceIs(random, k.odd);
  }

  /** How many packets of its cycle of p come before packet i. */
  function Within(i: nat, p: nat): nat
    requires p > 0
  {
    i % p
  }

  /** The nonce of packet i: the one the sender started with, then one drawn at every
      PerNonce-th packet. */
  predicate NonceFor(k: KeyState, jobs: seq<Job>, i: nat, nonce: Bytes)
    requires i < |jobs|
  {
    if i < PerNonce(k) then nonce == k.nonce
    else
      var start := i - Within(i, PerNonce(k));
      && Marked(nonce, k.odd) && 0 <= start < |jobs| && Chosen(jobs[start].random).Some?
      && MarkedFrom(nonce, Chosen(jobs[start].random).value)
  }

  /** From an unused nonce, if the random source gives a nonce whenever one is due: every
      nonce covers exactly PerNonce packets, the rotation threshold or the reuse limit,
      before the next is drawn. */
  lemma {:induction false} NonceSchedule(c: Cipher, k: KeyState, jobs: seq<Job>)
    requires Keyed(c, k) && k.used == 0 && JobsOk(jobs)
    requires forall i :: 0 < i < |jobs| && Within(i, PerNonce(k)) == 0 ==> Chosen(jobs[i].random).Some?
    ensures var (k', pkts) := EncryptAll(c, k, jobs);
      && |pkts| == |jobs| && Keyed(c, k') && SameSecret(k, k')
      && (forall i :: 0 <= i < |pkts| ==> pkts[i].Some? && NonceFor(k, jobs, i, pkts[i].value.nonce))
      && k'.used == (if jobs == [] then 0 else Within(|jobs| - 1, PerNonce(k)) + 1)
      && k'.nonce == (if jobs == [] then k.nonce else pkts[|jobs| - 1].value.nonce)
  {
    hide Encrypt, Keyed, ReadsOk, Chosen, Within, PerNonce, NonceFor;
    KeyedValid(c, k);
    if jobs != [] {
      var (n, p) := (|jobs| - 1, PerNonce(k));
      var most := jobs[..n];
      forall i | 0 < i < n && Within(i, p) == 0 ensures Chosen(most[i].random).Some? { assert most[i] == jobs[i]; }
      NonceSchedule(c, k, most);
      var (k1, pkts) := EncryptAll(c, k, most);
      forall i | 0 <= i < n ensures NonceFor(k, jobs, i, pkts[i].value.nonce) { SameJobs(k, jobs, i, pkts[i].value.nonce); }
      NextNonce(c, k, k1, jobs, n);
      assert EncryptAll(c, k, jobs).1[..n] == pkts;
    }
  }

  /** One more packet: it goes on with the nonce, or starts the next cycle. */
  lemma NextNonce(c: Cipher, k: KeyState, k1: KeyState, jobs: seq<Job>, n: nat)
    requires Keyed(c, k1) && SameSecret(k, k1) && n < |jobs| && ReadsOk(jobs[n].random)
    requires n > 0 && Within(n, PerNonce(k)) == 0 ==> Chosen(jobs[n].random).Some?
    requires k1.used == if n == 0 then 0 else Within(n - 1, PerNonce(k)) + 1
    requires if n == 0 then k1.nonce == k.nonce else NonceFor(k, jobs, n - 1, k1.nonce)
    ensures var (k2, pkt) := Encrypt(c, k1, jobs[n].seqno, jobs[n].plain, jobs[n].random);
      && pkt.Some? && Keyed(c, k2) && SameSecret(k, k2) && k2.nonce == pkt.value.nonce
      && NonceFor(k, jobs, n, pkt.value.nonce) && k2.used == Within(n, PerNonce(k)) + 1
  {
    hide Encrypt, Keyed, ReadsOk, Chosen, MarkedFrom, Marked, Within;
    var p := PerNonce(k);
    RotatesWhenSpent(c, k1, jobs[n].seqno, jobs[n].plain, jobs[n].random);
    EncryptKeeps(c, k1, jobs[n].seqno, jobs[n].plain, jobs[n].random);
    CycleStep(n, p);
    if n > 0 && Within(n, p) != 0 { NonceContinues(k, jobs, n, k1.nonce); }
  }

  lemma CycleStep(n: nat, p: nat)
    requires p > 0
    ensures n > 0 ==> Within(n, p) == if Within(n - 1, p) == p - 1 then 0 else Within(n - 1, p) + 1
    ensures n < p ==> Within(n, p) == n
    ensures Within(n, p) < p && Within(n, p) <= n
  {
    if n > 0 {
      var q, k := (n - 1) / p, (n - 1) % p;
      assert n - 1 == p * q + k;
      if k == p - 1 {
        assert n == p * (q + 1);
        DivModUnique(n, p, q + 1, 0);
      } else {
        DivModUnique(n, p, q, k + 1);
      }
    }
    if n < p { DivModUnique(n, p, 0, n); }
    ModNoMore(n, p);
  }

  lemma ModNoMore(n: nat, p: nat)
    requires p > 0
    ensures n % p <= n
  {
    assert n == p * (n / p) + n % p;
    MulMono(0, n / p, p);
  }

  lemma SameJobs(k: KeyState, jobs: seq<Job>, i: nat, nonce: Bytes)
    requires i < |jobs| - 1 && NonceFor(k, jobs[..|jobs| - 1], i, nonce)
    ensures NonceFor(k, jobs, i, nonce)
  {
    hide Marked, MarkedFrom, Chosen, PerNonce, Within;
  }

  /** Within a cycle the nonce goes on from packet to packet. */
  lemma NonceContinues(k: KeyState, jobs: seq<Job>, n: nat, nonce: Bytes)
    requires 0 < n < |jobs| && Within(n, PerNonce(k)) != 0 && NonceFor(k, jobs, n - 1, nonce)
    ensures NonceFor(k, jobs, n, nonce)
  {
    hide Marked, MarkedFrom, Chosen, PerNonce, Within;
    CycleStep(n, PerNonce(k));
    CycleStep(n - 1, PerNonce(k));
  }

  // ---- the receiver's cached keys ----

  datatype Decryptor = Decryptor(password: Bytes, bits: int, raw: bool,
                                 nonce: Bytes, block: Bytes, hasNonce: bool, used: nat,
                                 nextNonce: Bytes, nextBlock: Bytes, nextBits: int, hasNext: bool)

  /** Whatever is cached is what would be derived. */
  predicate Cached(c: Cipher, d: Decryptor) {
    && d.password != []
    && (d.hasNonce ==> KeySize(d.bits) && d.block == c.derive(d.password, d.nonce, d.bits, d.raw))
    && (d.hasNext ==> KeySize(d.nextBits) && d.nextBlock == c.derive(d.password, d.nextNonce, d.nextBits, d.raw))
  }

  function SetKeyBits(d: Decryptor, bits: int): Decryptor {
    if bits == d.bits then d else d.(bits := bits, hasNonce := false, hasNext := false)
  }

  /** Derive ahead for an announced nonce. */
  function Precompute(c: Cipher, d: Decryptor, nonce: Bytes, bits: int): Decryptor {
    if IsZero(nonce) || (d.hasNonce && nonce == d.nonce) then d else
    var b := if KeySize(bits) then bits else d.bits;
    if d.hasNext && nonce == d.nextNonce && b == d.nextBits then d else
    match DeriveBlock(c, d.password, nonce, b, d.raw)
    case Bad(_) => d
    case Key(block) => d.(nextNonce := nonce, nextBlock := block, nextBits := b, hasNext := true)
  }

  datatype Plain = Ok(bytes: Bytes) | Err(error: Error)

  /** Key on the packet's nonce: keep, promote, or derive. */
  function KeyOn(c: Cipher, d: Decryptor, nonce: Bytes): (Decryptor, Option<Error>) {
    if d.hasNonce && nonce == d.nonce then (d, None)
    else if d.hasNext && nonce == d.nextNonce then
      (d.(nonce := nonce, block := d.nextBlock, bits := d.nextBits, hasNonce := true, used := 0, hasNext := false), None)
    else match DeriveBlock(c, d.password, nonce, d.bits, d.raw)
      case Bad(e) => (d.(nonce := nonce, hasNonce := false), Some(e))
      case Key(block) => (d.(nonce := nonce, block := block, hasNonce := true, used := 0), None)
  }

  ghost function Decrypt(c: Cipher, d: Decryptor, nonce: Bytes, s: u32, src: Bytes): (Decryptor, Plain)
    requires c.Valid()
  {
    if IsZero(nonce) then (d, Err(ZeroNonce)) else
    var (d1, e) := KeyOn(c, d, nonce);
    if e.Some? then (d1, Err(e.value))
    else if d1.used > REUSE_LIMIT then (d1, Err(ReuseExhausted))
    else (d1.(used := d1.used + 1), Ok(Crypt(c, d1.block, BuildIV(s), src)))
  }

  /** The key size a packet under this nonce would be decrypted with. */
  function SizeFor(d: Decryptor, nonce: Bytes): int {
    if d.hasNonce && nonce == d.nonce then d.bits
    else if d.hasNext && nonce == d.nextNonce then d.nextBits
    else d.bits
  }

  /** Every operation keeps the caches true. */
  lemma CachesStayTrue(c: Cipher, d: Decryptor, nonce: Bytes, bits: int, s: u32, src: Bytes)
    requires c.Valid() && Cached(c, d)
    ensures Cached(c, SetKeyBits(d, bits)) && Cached(c, Precompute(c, d, nonce, bits))
    ensures Cached(c, Decrypt(c, d, nonce, s, src).0)
  {
    hide Crypt, BuildIV, IsZero;
  }

  /** Decryption is a function of the passphrase, the packet and the key size alone:
      the caches never show. Only the reuse guard looks at the past. */
  lemma DecryptIgnoresCache(c: Cipher, d: Decryptor, nonce: Bytes, s: u32, src: Bytes)
    requires c.Valid() && Cached(c, d) && !IsZero(nonce)
    ensures Decrypt(c, d, nonce, s, src).1 ==
      if !KeySize(SizeFor(d, nonce)) then Err(InvalidKeySize)
      else if d.hasNonce && nonce == d.nonce && d.used > REUSE_LIMIT then Err(ReuseExhausted)
      else Ok(Crypt(c, c.derive(d.password, nonce, SizeFor(d, nonce), d.raw), BuildIV(s), src))
  {
    hide Crypt, BuildIV, IsZero;
  }

  // ---- whole runs ----

  /** The receiver holds the sender's passphrase and key size, and any announced size
      was the true one. */
  predicate InStep(c: Cipher, d: Decryptor, password: Bytes, bits: int, raw: bool) {
    && Cached(c, d) && d.password == password && d.raw == raw
    && KeySize(bits) && d.bits == bits && (d.hasNext ==> d.nextBits == bits)
  }

  datatype Op =
    | Arrives(pkt: Packet)
    | Announces(nonce: Bytes, bits: int)
    | Sizes(bits: int)

  /** Packets the sender made, true announcements, and the sender's key size. */
  ghost predicate Honest(c: Cipher, password: Bytes, bits: int, raw: bool, op: Op)
    requires c.Valid()
  {
    match op
    case Arrives(pkt) => exists plain :: Carries(c, password, bits, raw, pkt, plain)
    case Announces(_, b) => b == bits || !KeySize(b)
    case Sizes(b) => b == bits
  }

  ghost function Step(c: Cipher, d: Decryptor, op: Op): Decryptor
    requires c.Valid()
  {
    match op
    case Arrives(pkt) => Decrypt(c, d, pkt.nonce, pkt.seqno, pkt.bytes).0
    case Announces(nonce, b) => Precompute(c, d, nonce, b)
    case Sizes(b) => SetKeyBits(d, b)
  }

  lemma StepKeepsStep(c: Cipher, d: Decryptor, password: Bytes, bits: int, raw: bool, op: Op)
    requires c.Valid() && InStep(c, d, password, bits, raw) && Honest(c, password, bits, raw, op)
    ensures InStep(c, Step(c, d, op), password, bits, raw)
  {
    hide Crypt, BuildIV, IsZero, Carries;
  }

  ghost function Run(c: Cipher, d: Decryptor, ops: seq<Op>): Decryptor
    requires c.Valid()
  {
    if ops == [] then d else Step(c, Run(c, d, ops[..|ops| - 1]), ops[|ops| - 1])
  }

  lemma {:induction false} RunKeepsStep(c: Cipher, d: Decryptor, password: Bytes, bits: int, raw: bool, ops: seq<Op>)
    requires c.Valid() && InStep(c, d, password, bits, raw)
    requires forall i :: 0 <= i < |ops| ==> Honest(c, password, bits, raw, ops[i])
    ensures InStep(c, Run(c, d, ops), password, bits, raw)
  {
    hide InStep, Honest, Step;
    if ops != [] {
      RunKeepsStep(c, d, password, bits, raw, ops[..|ops| - 1]);
      StepKeepsStep(c, Run(c, d, ops[..|ops| - 1]), password, bits, raw, ops[|ops| - 1]);
    }
  }

  /** After any run of the sender's packets, in any order and any number of times,
      with announcements in between, any further packet decrypts to the plaintext it
      carries; unless its nonce is zero, or is the live one past the reuse limit. */
  lemma Transparent(c: Cipher, d: Decryptor, password: Bytes, bits: int, raw: bool, ops: seq<Op>, pkt: Packet, plain: Bytes)
    requires c.Valid() && InStep(c, d, password, bits, raw) && Carries(c, password, bits, raw, pkt, plain)
    requires forall i :: 0 <= i < |ops| ==> Honest(c, password, bits, raw, ops[i])
    ensures var e := Run(c, d, ops);
      Decrypt(c, e, pkt.nonce, pkt.seqno, pkt.bytes).1 ==
        if IsZero(pkt.nonce) then Err(ZeroNonce)
        else if e.hasNonce && e.nonce == pkt.nonce && e.used > REUSE_LIMIT then Err(ReuseExhausted)
        else Ok(plain)
  {
    hide Crypt, BuildIV, IsZero, Decrypt, Run;
    RunKeepsStep(c, d, password, bits, raw, ops);
    var e := Run(c, d, ops);
    if IsZero(pkt.nonce) { ZeroRefused(c, e, pkt.nonce, pkt.seqno, pkt.bytes); }
    else { DecryptIgnoresCache(c, e, pkt.nonce, pkt.seqno, pkt.bytes); }
    CryptTwice(c, c.derive(password, pkt.nonce, bits, raw), BuildIV(pkt.seqno), plain);
  }

  lemma ZeroRefused(c: Cipher, d: Decryptor, nonce: Bytes, s: u32, src: Bytes)
    requires c.Valid() && IsZero(nonce)
    ensures Decrypt(c, d, nonce, s, src) == (d, Err(ZeroNonce))
  {
    hide Crypt, BuildIV;
  }

  function NewDecryptor(password: Bytes, bits: int, raw: bool): Decryptor {
    Decryptor(password, bits, raw, [], [], false, 0, [], [], 0, false)
  }

  lemma NewInStep(c: Cipher, password: Bytes, bits: int, raw: bool)
    requires password != [] && KeySize(bits)
    ensures InStep(c, NewDecryptor(password, bits, raw), password, bits, raw)
  {
  }

  /** The round trip: whatever the sender encrypts, through every rotation, a receiver
      with the same passphrase random back, in whatever order it arrives; the packets of
      a zero nonce it refuses. */
  lemma RoundTrip(c: Cipher, k: KeyState, jobs: seq<Job>, d: Decryptor, ops: seq<Op>, i: nat)
    requires Keyed(c, k) && i < |jobs| && JobsOk(jobs)
    requires InStep(c, d, k.password, k.bits, k.raw)
    requires forall j :: 0 <= j < |ops| ==> ops[j].Arrives? ==> Some(ops[j].pkt) in EncryptAll(c, k, jobs).1
    requires forall j :: 0 <= j < |ops| ==> ops[j].Announces? ==> ops[j].bits == k.bits || !KeySize(ops[j].bits)
    requires forall j :: 0 <= j < |ops| ==> ops[j].Sizes? ==> ops[j].bits == k.bits
    ensures |EncryptAll(c, k, jobs).1| == |jobs|
    ensures EncryptAll(c, k, jobs).1[i].Some? ==>
      var (e, pkt) := (Run(c, d, ops), EncryptAll(c, k, jobs).1[i].value);
      Decrypt(c, e, pkt.nonce, pkt.seqno, pkt.bytes).1 ==
        if IsZero(pkt.nonce) then Err(ZeroNonce)
        else if e.hasNonce && e.nonce == pkt.nonce && e.used > REUSE_LIMIT then Err(ReuseExhausted)
        else Ok(jobs[i].plain)
  {
    hide Run, Decrypt, EncryptAll, Carries, IsZero, InStep, Keyed, ReadsOk;
    KeyedValid(c, k);
    AllCarry(c, k, jobs);
    var pkts := EncryptAll(c, k, jobs).1;
    forall j | 0 <= j < |ops| ensures Honest(c, k.password, k.bits, k.raw, ops[j]) {
      if ops[j].Arrives? {
        var n :| 0 <= n < |pkts| && pkts[n] == Some(ops[j].pkt);
        assert Carries(c, k.password, k.bits, k.raw, ops[j].pkt, jobs[n].plain);
      }
    }
    if pkts[i].Some? { Transparent(c, d, k.password, k.bits, k.raw, ops, pkts[i].value, jobs[i].plain); }
  }
}
