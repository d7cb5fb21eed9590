/** The LZ4 block codec as the source runs it (internal/lpc/lpc.go): a hash-table
    match finder that writes blocks, and a bounds-checked reader. Whatever the hash
    function, the block written decodes to exactly the input. */
module Lz4Codec {
  import opened FlowTypes
  import opened Lz4Format

  // ---- sizes ----

  lemma {:induction false} LengthSize(n: nat)
    ensures |EncodeLength(n)| == n / 255 + 1
  {
    if n >= 255 { LengthSize(n - 255); }
  }

  lemma ExtraSize(n: nat)
    ensures 255 * |Extra(n)| <= n + 255 && (n < 15 ==> Extra(n) == []) && (n >= 15 ==> 255 * |Extra(n)| <= n + 240)
  {
    if n >= 15 { LengthSize(n - 15); }
  }

  /** A sequence costs at most one byte in 255 more than it produces. */
  lemma OneSize(s: Sequence)
    requires s.Encodable()
    ensures 255 * (|EncodeOne(s)| - |s.literals| - s.matchLen) <= |s.literals|
  {
    hide Extra;
    ExtraSize(|s.literals|);
    ExtraSize(s.matchLen - 4);
  }

  lemma {:induction false} AllSize(out: Bytes, ss: seq<Sequence>)
    requires Playable(out, ss) && forall i :: 0 <= i < |ss| ==> ss[i].Encodable()
    ensures 255 * (|EncodeAll(ss)| - (|PlayAll(out, ss)| - |out|)) <= |PlayAll(out, ss)| - |out|
    decreases |ss|
  {
    hide EncodeOne, CopyBack;
    if ss != [] {
      OneSize(ss[0]);
      AllSize(Play(out, ss[0]), ss[1..]);
    }
  }

  function CompressBound(n: int): int { if n < 0 then 0 else n + n / 255 + 16 }

  /** Every well-formed block is within the bound promised for what it decodes to. */
  lemma BlockSize(block: Bytes, ss: seq<Sequence>, tail: Bytes, out: Bytes)
    requires Means(block, ss, tail, 0, out)
    ensures |block| <= |out| + |out| / 255 + 2 <= CompressBound(|out|)
  {
    hide Extra, CopyBack;
    AllSize([], ss);
    ExtraSize(|tail|);
    assert block[0..] == block;
  }

  // ---- one more sequence at the end ----

  lemma {:induction false} PlayAppend(out: Bytes, ss: seq<Sequence>, s: Sequence)
    requires Playable(out, ss) && s.Encodable() && s.offset <= |PlayAll(out, ss) + s.literals|
    ensures Playable(out, ss + [s]) && PlayAll(out, ss + [s]) == Play(PlayAll(out, ss), s)
    decreases |ss|
  {
    hide CopyBack;
    if ss == [] {
      assert (ss + [s])[1..] == [];
    } else {
      assert (ss + [s])[1..] == ss[1..] + [s];
      PlayAppend(Play(out, ss[0]), ss[1..], s);
    }
  }

  lemma {:induction false} EncodeAppend(ss: seq<Sequence>, s: Sequence)
    requires s.Encodable() && forall i :: 0 <= i < |ss| ==> ss[i].Encodable()
    ensures EncodeAll(ss + [s]) == EncodeAll(ss) + EncodeOne(s)
  {
    hide EncodeOne;
    if ss == [] {
      assert (ss + [s])[1..] == [];
    } else {
      assert (ss + [s])[1..] == ss[1..] + [s];
      EncodeAppend(ss[1..], s);
    }
  }

  /** The n bytes at ip repeat those at ref; the two stretches may overlap. */
  predicate Repeats(src: Bytes, ref: nat, ip: nat, n: nat) {
    ref < ip && ip + n <= |src| && src[ref..ref + n] == src[ip..ip + n]
  }

  lemma RepeatsMore(src: Bytes, ref: nat, ip: nat, n: nat)
    requires Repeats(src, ref, ip, n) && ip + n < |src| && src[ref + n] == src[ip + n]
    ensures Repeats(src, ref, ip, n + 1)
  {
    assert src[ref..ref + n + 1] == src[ref..ref + n] + [src[ref + n]];
    assert src[ip..ip + n + 1] == src[ip..ip + n] + [src[ip + n]];
  }

  /** Copying back from a matching place reproduces the input, overlap or not. */
  lemma {:induction false} MatchReplays(src: Bytes, ref: nat, ip: nat, n: nat)
    requires Repeats(src, ref, ip, n)
    ensures CopyBack(src[..ip], ip - ref, n) == src[..ip + n]
    decreases n
  {
    if n > 0 {
      assert src[ref] == src[ref..ref + n][0] == src[ip..ip + n][0] == src[ip];
      assert src[..ip] + [src[..ip][ref]] == src[..ip + 1];
      assert src[ref + 1..ref + n] == src[ref..ref + n][1..];
      assert src[ip + 1..ip + n] == src[ip..ip + n][1..];
      MatchReplays(src, ref + 1, ip + 1, n - 1);
    }
  }

  // ---- the compressor ----

  function Load32(b: Bytes, i: nat): nat
    requires i + 4 <= |b|
  {
    var (b0: int, b1: int, b2: int, b3: int) := (b[i], b[i + 1], b[i + 2], b[i + 3]);
    b0 + 256 * b1 + 65536 * b2 + 16777216 * b3
  }

  lemma Load32Injective(b: Bytes, i: nat, j: nat)
    requires i + 4 <= |b| && j + 4 <= |b| && Load32(b, i) == Load32(b, j)
    ensures b[i..i + 4] == b[j..j + 4]
  {
    var (x0: int, x1: int, x2: int, x3: int) := (b[i], b[i + 1], b[i + 2], b[i + 3]);
    var (y0: int, y1: int, y2: int, y3: int) := (b[j], b[j + 1], b[j + 2], b[j + 3]);
    assert x0 == y0 && x1 == y1 && x2 == y2 && x3 == y3;
    assert b[i..i + 4] == [b[i], b[i + 1], b[i + 2], b[i + 3]];
    assert b[j..j + 4] == [b[j], b[j + 1], b[j + 2], b[j + 3]];
  }

  /** The multiplicative hash: the top 12 bits of a 32-bit product. */
  function Hash(v: int): (h: int)
    ensures 0 <= h < 4096
  {
    v * 2654435761 % 0x1_0000_0000 / 0x10_0000
  }

  method AppendLength(dst: Bytes, n: nat) returns (r: Bytes)
    ensures r == dst + EncodeLength(n)
  {
    r := dst;
    var k := n;
    while k >= 255
      invariant r + EncodeLength(k) == dst + EncodeLength(n)
    {
      r := r + [255];
      k := k - 255;
      assert r + EncodeLength(k) == r[..|r| - 1] + EncodeLength(k + 255);
    }
    r := r + [k];
  }

  method EmitSequence(dst: Bytes, literals: Bytes, offset: nat, matchLen: nat) returns (r: Bytes)
    requires Sequence(literals, offset, matchLen).Encodable()
    ensures r == dst + EncodeOne(Sequence(literals, offset, matchLen))
  {
    hide EncodeLength;
    var litLen, mtok := |literals|, matchLen - 4;
    var token: int := if litLen >= 15 then 240 else 16 * litLen;
    token := token + if mtok >= 15 then 15 else mtok;
    r := dst + [token];
    if litLen >= 15 {
      r := AppendLength(r, litLen - 15);
    }
    r := r + literals;
    r := r + [offset % 256, offset / 256];
    if mtok >= 15 {
      r := AppendLength(r, mtok - 15);
    }
  }

  method EmitLastLiterals(dst: Bytes, literals: Bytes) returns (r: Bytes)
    ensures r == dst + EncodeTail(literals, 0)
  {
    hide EncodeLength;
    var litLen := |literals|;
    if litLen >= 15 {
      r := AppendLength(dst + [240], litLen - 15);
    } else {
      r := dst + [16 * litLen];
    }
    r := r + literals;
  }

  /** Extend a four-byte match forward, not past limit. */
  method ExtendMatch(src: Bytes, ip: nat, ref: nat, limit: nat) returns (mEnd: nat)
    requires ip + 4 <= limit <= |src| && Repeats(src, ref, ip, 4)
    ensures ip + 4 <= mEnd <= limit && Repeats(src, ref, ip, mEnd - ip)
    ensures mEnd < limit ==> src[mEnd] != src[ref + (mEnd - ip)]
  {
    mEnd := ip + 4;
    var rEnd := ref + 4;
    while mEnd < limit && src[mEnd] == src[rEnd]
      invariant ip + 4 <= mEnd <= limit && rEnd == ref + (mEnd - ip)
      invariant Repeats(src, ref, ip, mEnd - ip)
    {
      RepeatsMore(src, ref, ip, mEnd - ip);
      mEnd, rEnd := mEnd + 1, rEnd + 1;
    }
  }

  /** The sequences written so far account for src[..anchor]. */
  ghost predicate Written(block: Bytes, ss: seq<Sequence>, src: Bytes, anchor: nat) {
    && anchor <= |src|
    && Playable([], ss) && PlayAll([], ss) == src[..anchor]
    && (forall i :: 0 <= i < |ss| ==> ss[i].Encodable()) && block == EncodeAll(ss)
    && (ss != [] ==> |src| - anchor >= LAST_LITERALS)
  }

  lemma WriteMatch(block: Bytes, ss: seq<Sequence>, src: Bytes, anchor: nat, ref: nat, ip: nat, mEnd: nat)
    requires Written(block, ss, src, anchor) && anchor <= ip && ip - ref <= 65535
    requires ip + 4 <= mEnd <= |src| - LAST_LITERALS && Repeats(src, ref, ip, mEnd - ip)
    ensures var s := Sequence(src[anchor..ip], ip - ref, mEnd - ip);
      s.Encodable() && Written(block + EncodeOne(s), ss + [s], src, mEnd)
  {
    hide EncodeOne, CopyBack;
    var s := Sequence(src[anchor..ip], ip - ref, mEnd - ip);
    assert src[..anchor] + src[anchor..ip] == src[..ip];
    PlayAppend([], ss, s);
    EncodeAppend(ss, s);
    MatchReplays(src, ref, ip, mEnd - ip);
  }

  lemma WriteTail(block: Bytes, ss: seq<Sequence>, src: Bytes, anchor: nat)
    requires Written(block, ss, src, anchor)
    ensures anchor <= |src| && Means(block + EncodeTail(src[anchor..], 0), ss, src[anchor..], 0, src)
    ensures ss != [] ==> |src| - anchor >= LAST_LITERALS
  {
    hide EncodeTail, CopyBack;
    var b := block + EncodeTail(src[anchor..], 0);
    assert b[0..] == b && src[..anchor] + src[anchor..] == src;
  }

  /** One byte over and over. */
  predicate OneByte(src: Bytes) { forall i :: 0 <= i < |src| ==> src[i] == src[0] }

  /** The sequence a run is written as: its first byte, and one match for all but that
      byte and the closing literals. */
  function RunOf(src: Bytes): Sequence
    requires |src| >= 10
  {
    Sequence(src[..1], 1, |src| - 1 - LAST_LITERALS)
  }

  lemma SameLoads(src: Bytes)
    requires |src| >= 10 && OneByte(src)
    ensures Load32(src, 0) == Load32(src, 1)
  {
  }

  /** A hash function for a table of 4096 places. */
  ghost predicate Hashing(hash: int -> int) { forall v :: 0 <= hash(v) < 4096 }

  /** The place of the four bytes at i. */
  function Bucket(hash: int -> int, src: Bytes, i: nat): (h: int)
    requires Hashing(hash) && i + 4 <= |src|
    ensures 0 <= h < 4096
  {
    hash(Load32(src, i))
  }

  lemma SameBuckets(hash: int -> int, src: Bytes)
    requires Hashing(hash) && |src| >= 10 && OneByte(src)
    ensures Bucket(hash, src, 0) == Bucket(hash, src, 1)
  {
    hide Load32;
    SameLoads(src);
  }

  /** If src is a run, the scan is at its first step or past its one match; `slot` is what
      the table holds for its bytes. */
  ghost predicate Running(src: Bytes, slot: int, ss: seq<Sequence>, anchor: nat, ip: nat) {
    |src| >= 10 && OneByte(src) ==>
      || (ip == 1 && anchor == 0 && ss == [] && slot == 0)
      || (ip == |src| - LAST_LITERALS && ss == [RunOf(src)])
  }

  /** Write the match found at ip, and the literals before it. */
  method PutMatch(block: Bytes, src: Bytes, anchor: nat, ref: nat, ip: nat, ghost ss: seq<Sequence>)
      returns (r: Bytes, mEnd: nat)
    requires Written(block, ss, src, anchor) && anchor <= ip <= |src| - 9 && ref < ip && ip - ref <= 65535
    requires Load32(src, ref) == Load32(src, ip)
    ensures ip + 4 <= mEnd <= |src| - LAST_LITERALS
    ensures mEnd < |src| - LAST_LITERALS ==> src[mEnd] != src[ref + (mEnd - ip)]
    ensures Written(r, ss + [Sequence(src[anchor..ip], ip - ref, mEnd - ip)], src, mEnd)
  {
    hide Playable, PlayAll, EncodeAll, EncodeOne, Load32, Written;
    Load32Injective(src, ref, ip);
    mEnd := ExtendMatch(src, ip, ref, |src| - 5);
    WriteMatch(block, ss, src, anchor, ref, ip, mEnd);
    r := EmitSequence(block, src[anchor..ip], ip - ref, mEnd - ip);
  }

  /** Close the block with the literals left. */
  method PutTail(dst: Bytes, block: Bytes, src: Bytes, anchor: nat, ghost ss: seq<Sequence>) returns (r: Bytes)
    requires anchor <= |src| && Written(block, ss, src, anchor)
    ensures |dst| <= |r| && r[..|dst|] == dst && Means(r[|dst|..], ss, src[anchor..], 0, src)
    ensures ss != [] ==> |src| - anchor >= LAST_LITERALS
  {
    hide Playable, PlayAll, EncodeAll, EncodeTail, Means, Written;
    WriteTail(block, ss, src, anchor);
    var whole := EmitLastLiterals(block, src[anchor..]);
    r := dst + whole;
    assert r[|dst|..] == whole;
  }

  /** Scan for matches with any hash function. `ss` lists the sequences written;
      together with the trailing literals they mean exactly src, and no match ends
      within the last five bytes. */
  method CompressWith(dst: Bytes, src: Bytes, hash: int -> int) returns (r: Bytes, ghost ss: seq<Sequence>, ghost tail: Bytes)
    requires Hashing(hash)
    ensures |dst| <= |r| && r[..|dst|] == dst
    ensures Means(r[|dst|..], ss, tail, 0, src)
    ensures ss != [] ==> |tail| >= LAST_LITERALS
    ensures |src| >= 10 && OneByte(src) ==> ss == [RunOf(src)]
  {
    hide Load32, Means, Written, OneByte, Running, RunOf, Hashing, Bucket;
    var block: Bytes, anchor := [], 0;
    ss := [];
    NothingWritten(src);
    if |src| >= 10 {
      var table := new int[4096](_ => -1);
      var ip := 0;
      var searchLimit := |src| - 9;
      ghost var first := Bucket(hash, src, 0);
      if OneByte(src) { SameBuckets(hash, src); }
      table[Bucket(hash, src, ip)] := ip;
      ip := ip + 1;
      RunStarts(src);
      while ip <= searchLimit
        invariant 1 <= ip <= |src| && 0 <= anchor <= ip
        invariant forall h :: 0 <= h < 4096 ==> -1 <= table[h] < ip
        invariant Written(block, ss, src, anchor)
        invariant Running(src, table[first], ss, anchor, ip)
      {
        var h := Bucket(hash, src, ip);
        ghost var was := table[first];
        var ref := table[h];
        table[h] := ip;
        if ref < 0 || ip - ref > 65535 || Load32(src, ref) != Load32(src, ip) {
          RunMisses(src, was, table[first], ss, anchor, ip, ref);
          ip := ip + 1;
        } else {
          ghost var (ss', anchor', ip') := (ss, anchor, ip);
          var mEnd;
          block, mEnd := PutMatch(block, src, anchor, ref, ip, ss);
          ss := ss + [Sequence(src[anchor..ip], ip - ref, mEnd - ip)];
          ip := mEnd;
          anchor := ip;
          if ip - 1 <= searchLimit {
            table[Bucket(hash, src, ip - 1)] := ip - 1;
          }
          RunMatches(src, was, table[first], ss', anchor', ip', ref, mEnd);
        }
      }
      RunEnds(src, table[first], ss, anchor, ip);
    }
    tail := src[anchor..];
    r := PutTail(dst, block, src, anchor, ss);
  }

  lemma RunStarts(src: Bytes)
    ensures Running(src, 0, [], 0, 1)
  {
  }

  lemma RunMisses(src: Bytes, was: int, slot: int, ss: seq<Sequence>, anchor: nat, ip: nat, ref: int)
    requires Running(src, was, ss, anchor, ip) && 1 <= ip <= |src| - 9 && ref < ip
    requires OneByte(src) && ip == 1 ==> ref == was
    requires ref < 0 || ip - ref > 65535 || Load32(src, ref) != Load32(src, ip)
    ensures Running(src, slot, ss, anchor, ip + 1)
  {
    if |src| >= 10 && OneByte(src) { SameLoads(src); }
  }

  lemma RunMatches(src: Bytes, was: int, slot: int, ss: seq<Sequence>, anchor: nat, ip: nat, ref: nat, mEnd: nat)
    requires Running(src, was, ss, anchor, ip) && 1 <= ip <= |src| - 9 && ref < ip && anchor <= ip
    requires OneByte(src) && ip == 1 ==> ref == was
    requires ip + 4 <= mEnd <= |src| - LAST_LITERALS
    requires mEnd < |src| - LAST_LITERALS ==> src[mEnd] != src[ref + (mEnd - ip)]
    ensures Running(src, slot, ss + [Sequence(src[anchor..ip], ip - ref, mEnd - ip)], mEnd, mEnd)
  {
  }

  lemma RunEnds(src: Bytes, slot: int, ss: seq<Sequence>, anchor: nat, ip: nat)
    requires Running(src, slot, ss, anchor, ip) && ip > |src| - 9
    ensures |src| >= 10 && OneByte(src) ==> ss == [RunOf(src)]
  {
  }

  lemma NothingWritten(src: Bytes)
    ensures Written([], [], src, 0)
  {
  }

  /** Compress: the block decodes to src under every bound that admits it, and is
      within CompressBound. */
  method Compress(dst: Bytes, src: Bytes) returns (r: Bytes)
    ensures |dst| <= |r| && r[..|dst|] == dst
    ensures forall maxOut: nat :: Decode(r[|dst|..], maxOut) == if |src| <= maxOut then Ok(src) else Err(OutputTooLarge)
    ensures |r| - |dst| <= CompressBound(|src|)
    ensures |src| >= 10 && OneByte(src) ==> |r| - |dst| <= |src| / 255 + 11
  {
    hide Decode, BlockAt, Playable, PlayAll, OneByte;
    ghost var ss, tail;
    r, ss, tail := CompressWith(dst, src, Hash);
    BlockSize(r[|dst|..], ss, tail, src);
    if |src| >= 10 && OneByte(src) { RunSize(r[|dst|..], tail, src); }
    forall maxOut: nat ensures Decode(r[|dst|..], maxOut) == if |src| <= maxOut then Ok(src) else Err(OutputTooLarge) {
      MeansDecodes(r[|dst|..], ss, tail, src, maxOut);
    }
  }

  /** A run of n bytes takes n / 255 + 11 bytes at most. */
  lemma RunSize(block: Bytes, tail: Bytes, src: Bytes)
    requires |src| >= 10 && Means(block, [RunOf(src)], tail, 0, src)
    ensures |block| <= |src| / 255 + 11
  {
    hide Extra, CopyBack;
    var s := RunOf(src);
    PlayedOne(s, tail, src);
    ExtraSize(1);
    ExtraSize(5);
    ExtraSize(s.matchLen - 4);
    assert [s][1..] == [] && EncodeAll([s][1..]) == [] && block[0..] == block;
    assert EncodeAll([s]) == EncodeOne(s);
  }

  lemma PlayedOne(s: Sequence, tail: Bytes, out: Bytes)
    requires Playable([], [s]) && PlayAll([], [s]) + tail == out
    ensures |tail| == |out| - |s.literals| - s.matchLen
  {
    assert [s][1..] == [];
  }

  /** The round trip, for the block of any match finder. */
  lemma MeansDecodes(block: Bytes, ss: seq<Sequence>, tail: Bytes, src: Bytes, maxOut: nat)
    requires Means(block, ss, tail, 0, src)
    ensures Decode(block, maxOut) == if |src| <= maxOut then Ok(src) else Err(OutputTooLarge)
  {
    hide ReadFrom, BlockAt, Playable, PlayAll;
    BlockDecodes(block, 0, [], ss, tail, 0, maxOut);
  }

  // ---- the decompressor ----

  function Plus(field: Option<(nat, nat)>, sofar: nat): Option<(nat, nat)> {
    match field
    case None => None
    case Some((total, next)) =>
      var sum: nat := sofar + total;
      Some((sum, next))
  }

  method TakeLength(src: Bytes, start: nat) returns (total: nat, next: nat, ok: bool)
    requires start <= |src|
    ensures ok == ReadLength(src, start).Some?
    ensures ok ==> ReadLength(src, start) == Some((total, next)) && start <= next <= |src|
  {
    total, next, ok := 0, start, false;
    while true
      invariant start <= next <= |src| && !ok
      invariant ReadLength(src, start) == Plus(ReadLength(src, next), total)
      decreases |src| - next
    {
      if next == |src| {
        return;
      }
      var b: int := src[next];
      next := next + 1;
      total := total + b;
      if b != 255 {
        ok := true;
        return;
      }
    }
  }

  /** Copy one byte at a time, so that an overlapping match expands. */
  method CopyMatch(out: Bytes, offset: nat, n: nat) returns (r: Bytes)
    requires 1 <= offset <= |out|
    ensures r == CopyBack(out, offset, n)
  {
    r := out;
    var matchPos := |out| - offset;
    for i := 0 to n
      invariant |r| == |out| + i && CopyBack(r, offset, n - i) == CopyBack(out, offset, n)
    {
      r := r + [r[matchPos + i]];
    }
  }

  /** The match half of a sequence. */
  method TakeMatch(src: Bytes, start: nat, out: Bytes, nibble: nat, maxOut: nat) returns (t: Turn)
    requires start + 2 <= |src|
    ensures t == ReadMatch(src, start, out, nibble, maxOut)
  {
    hide ReadLength, CopyBack, ReadOffset;
    var offset := ReadOffset(src, start);
    var sp := start + 2;
    if offset == 0 {
      return Fail(Corrupt);
    }
    var matchLen := nibble + 4;
    if nibble == 15 {
      var extra, next, ok := TakeLength(src, sp);
      if !ok {
        return Fail(Corrupt);
      }
      matchLen := matchLen + extra;
      sp := next;
    }
    if |out| - offset < 0 {
      return Fail(Corrupt);
    }
    if |out| + matchLen > maxOut {
      return Fail(OutputTooLarge);
    }
    var copied := CopyMatch(out, offset, matchLen);
    if sp == |src| {
      return Fail(Corrupt);
    }
    return Next(sp, copied);
  }

  /** One sequence: token, literals, match. */
  method TakeOne(src: Bytes, start: nat, out: Bytes, maxOut: nat) returns (t: Turn)
    requires start < |src|
    ensures t == ReadOne(src, start, out, maxOut)
  {
    hide ReadLength, ReadMatch;
    var token, sp := src[start], start + 1;
    var litLen: int := token / 16;
    if litLen == 15 {
      var extra, next, ok := TakeLength(src, sp);
      if !ok {
        return Fail(Corrupt);
      }
      litLen := litLen + extra;
      sp := next;
    }
    if litLen > |src| - sp {
      return Fail(Corrupt);
    }
    if |out| + litLen > maxOut {
      return Fail(OutputTooLarge);
    }
    var out1 := out + src[sp..sp + litLen];
    sp := sp + litLen;
    if sp == |src| {
      return End(out1);
    }
    if sp + 2 > |src| {
      return Fail(Corrupt);
    }
    t := TakeMatch(src, sp, out1, token % 16, maxOut);
  }

  /** Decompress: on success dst is extended by the decoded bytes; on any error it is
      handed back as it was. A negative bound counts as zero. */
  method Decompress(dst: Bytes, src: Bytes, maxOut: int) returns (r: Bytes, err: Option<Error>)
    ensures match Decode(src, Max(maxOut, 0))
      case Ok(out) => r == dst + out && err == None
      case Err(e) => r == dst && err == Some(e)
  {
    hide ReadOne;
    var bound := if maxOut < 0 then 0 else maxOut;
    var sp, out := 0, [];
    while sp < |src|
      invariant sp <= |src| && ReadFrom(src, sp, out, bound) == Decode(src, bound)
    {
      ReadOneAdvances(src, sp, out, bound);
      var t := TakeOne(src, sp, out, bound);
      match t
      case Fail(e) => return dst, Some(e);
      case End(o) => return dst + o, None;
      case Next(next, o) => sp, out := next, o;
    }
    return dst + out, None;
  }
}
