/** The LZ4 block format (internal/lpc/lpc.go): what a block is, what it means, and
    what the decoder makes of any bytes. A block is a list of sequences, each some
    literals and a back-reference, ended by literals alone. */
module Lz4Format {
  import opened FlowTypes

  const LAST_LITERALS := 5

  /** Literals, then matchLen bytes copied from offset bytes back. */
  datatype Sequence = Sequence(literals: Bytes, offset: nat, matchLen: nat) {
    predicate Encodable() { 1 <= offset <= 65535 && matchLen >= 4 }
  }

  // ---- what a block means ----

  /** Append n bytes, each a copy of the one `offset` back; they may overlap. */
  function CopyBack(out: Bytes, offset: nat, n: nat): (r: Bytes)
    requires 1 <= offset <= |out|
    ensures |r| == |out| + n
    decreases n
  {
    if n == 0 then out else CopyBack(out + [out[|out| - offset]], offset, n - 1)
  }

  function Play(out: Bytes, s: Sequence): Bytes
    requires 1 <= s.offset <= |out + s.literals|
  {
    CopyBack(out + s.literals, s.offset, s.matchLen)
  }

  /** Every back-reference reaches only into what has been produced. */
  predicate Playable(out: Bytes, ss: seq<Sequence>)
    decreases |ss|
  {
    ss == [] ||
    (ss[0].Encodable() && ss[0].offset <= |out + ss[0].literals| && Playable(Play(out, ss[0]), ss[1..]))
  }

  /** What out becomes when the sequences are played after it. */
  function PlayAll(out: Bytes, ss: seq<Sequence>): Bytes
    requires Playable(out, ss)
    decreases |ss|
  {
    if ss == [] then out else PlayAll(Play(out, ss[0]), ss[1..])
  }

  // ---- how a block is written ----

  /** Continuation bytes: 255 for each whole 255, then the remainder. */
  function EncodeLength(n: nat): Bytes {
    if n >= 255 then [255] + EncodeLength(n - 255) else [n]
  }

  function Nibble(n: nat): nat { if n >= 15 then 15 else n }

  function Extra(n: nat): Bytes { if n >= 15 then EncodeLength(n - 15) else [] }

  function Token(lit: nat, rest: nat): Byte
    requires rest <= 15
  {
    16 * Nibble(lit) + rest
  }

  function LittleEndian(n: nat): Bytes
    requires n <= 65535
  {
    [n % 256, n / 256]
  }

  function EncodeOne(s: Sequence): Bytes
    requires s.Encodable()
  {
    [Token(|s.literals|, Nibble(s.matchLen - 4))] + Extra(|s.literals|) + s.literals
    + LittleEndian(s.offset) + Extra(s.matchLen - 4)
  }

  /** The closing literals; a decoder ignores the low nibble of their token. */
  function EncodeTail(tail: Bytes, low: nat): Bytes
    requires low <= 15
  {
    [Token(|tail|, low)] + Extra(|tail|) + tail
  }

  function EncodeAll(ss: seq<Sequence>): Bytes
    requires forall i :: 0 <= i < |ss| ==> ss[i].Encodable()
  {
    if ss == [] then [] else EncodeOne(ss[0]) + EncodeAll(ss[1..])
  }

  // ---- how a block is read ----

  datatype Error = Corrupt | OutputTooLarge

  datatype Result = Ok(out: Bytes) | Err(error: Error)

  /** A continuation field at sp: its total and the position after it. */
  function ReadLength(src: Bytes, sp: nat): Option<(nat, nat)>
    requires sp <= |src|
    decreases |src| - sp
  {
    if sp == |src| then None
    else if src[sp] != 255 then Some((src[sp], sp + 1))
    else match ReadLength(src, sp + 1)
      case None => None
      case Some((total, next)) => Some((255 + total, next))
  }

  /** A length whose nibble has been read, continued at sp if the nibble is full. */
  function ReadRun(src: Bytes, sp: nat, nibble: nat): Option<(nat, nat)>
    requires sp <= |src|
  {
    if nibble != 15 then Some((nibble, sp))
    else match ReadLength(src, sp)
      case None => None
      case Some((extra, next)) => Some((15 + extra, next))
  }

  lemma {:induction false} ReadLengthAdvances(src: Bytes, sp: nat)
    requires sp <= |src|
    ensures ReadLength(src, sp).Some? ==> sp < ReadLength(src, sp).value.1 <= |src|
    decreases |src| - sp
  {
    if sp < |src| { ReadLengthAdvances(src, sp + 1); }
  }

  /** Where one sequence leaves the decoder. */
  datatype Turn = Fail(error: Error) | End(out: Bytes) | Next(sp: nat, out: Bytes)

  function ReadOffset(src: Bytes, sp: nat): nat
    requires sp + 2 <= |src|
  {
    var (lo: int, hi: int) := (src[sp], src[sp + 1]);
    lo + 256 * hi
  }

  function ReadMatch(src: Bytes, sp: nat, out: Bytes, nibble: nat, maxOut: nat): Turn
    requires sp + 2 <= |src|
  {
    var offset: nat := ReadOffset(src, sp);
    if offset == 0 then Fail(Corrupt) else
    match ReadRun(src, sp + 2, nibble)
    case None => Fail(Corrupt)
    case Some((run, sp')) =>
      if |out| - offset < 0 then Fail(Corrupt)
      else if |out| + run + 4 > maxOut then Fail(OutputTooLarge)
      else if sp' == |src| then Fail(Corrupt)
      else Next(sp', CopyBack(out, offset, run + 4))
  }

  function ReadOne(src: Bytes, sp: nat, out: Bytes, maxOut: nat): Turn
    requires sp < |src|
  {
    var token := src[sp];
    match ReadRun(src, sp + 1, token / 16)
    case None => Fail(Corrupt)
    case Some((lit, sp1)) =>
      if lit > |src| - sp1 then Fail(Corrupt)
      else if |out| + lit > maxOut then Fail(OutputTooLarge)
      else
        ReadLengthAdvances(src, sp + 1);
        var out1 := out + src[sp1..sp1 + lit];
        var sp2 := sp1 + lit;
        if sp2 == |src| then End(out1)
        else if sp2 + 2 > |src| then Fail(Corrupt)
        else ReadMatch(src, sp2, out1, token % 16, maxOut)
  }

  lemma ReadOneAdvances(src: Bytes, sp: nat, out: Bytes, maxOut: nat)
    requires sp < |src|
    ensures var t := ReadOne(src, sp, out, maxOut); t.Next? ==> sp < t.sp < |src|
  {
    ReadLengthAdvances(src, sp + 1);
    var lit := ReadRun(src, sp + 1, src[sp] / 16);
    if lit.Some? && lit.value.1 + lit.value.0 + 2 <= |src| {
      ReadLengthAdvances(src, lit.value.1 + lit.value.0 + 2);
    }
  }

  /** Decode from sp on, `out` having been produced. */
  function ReadFrom(src: Bytes, sp: nat, out: Bytes, maxOut: nat): Result
    requires sp <= |src|
    decreases |src| - sp
  {
    if sp == |src| then Ok(out) else
    ReadOneAdvances(src, sp, out, maxOut);
    match ReadOne(src, sp, out, maxOut)
    case Fail(e) => Err(e)
    case End(o) => Ok(o)
    case Next(sp', o) => ReadFrom(src, sp', o, maxOut)
  }

  function Decode(src: Bytes, maxOut: nat): Result { ReadFrom(src, 0, [], maxOut) }

  // ---- reading what was written ----

  /** The bytes w stand in src at sp. */
  predicate At(src: Bytes, sp: nat, w: Bytes) {
    sp + |w| <= |src| && src[sp..sp + |w|] == w
  }

  lemma AtSplit(src: Bytes, sp: nat, a: Bytes, b: Bytes)
    ensures At(src, sp, a + b) <==> At(src, sp, a) && At(src, sp + |a|, b)
  {
    if sp + |a + b| <= |src| {
      assert src[sp..sp + |a + b|] == src[sp..sp + |a|] + src[sp + |a|..sp + |a| + |b|];
      assert (a + b)[..|a|] == a && (a + b)[|a|..] == b;
    }
  }

  lemma AtFirst(src: Bytes, sp: nat, b: Byte)
    ensures At(src, sp, [b]) <==> sp < |src| && src[sp] == b
  {
  }

  lemma {:induction false} LengthRoundTrip(src: Bytes, sp: nat, n: nat)
    requires At(src, sp, EncodeLength(n))
    ensures ReadLength(src, sp) == Some((n, sp + |EncodeLength(n)|))
    decreases n
  {
    if n >= 255 {
      AtSplit(src, sp, [255], EncodeLength(n - 255));
      AtFirst(src, sp, 255);
      LengthRoundTrip(src, sp + 1, n - 255);
    } else {
      AtFirst(src, sp, n);
    }
  }

  lemma {:induction false} LengthUnique(src: Bytes, sp: nat)
    requires sp <= |src| && ReadLength(src, sp).Some?
    ensures At(src, sp, EncodeLength(ReadLength(src, sp).value.0))
    ensures ReadLength(src, sp).value.1 == sp + |EncodeLength(ReadLength(src, sp).value.0)|
    decreases |src| - sp
  {
    var n := ReadLength(src, sp).value.0;
    AtFirst(src, sp, src[sp]);
    if src[sp] == 255 {
      LengthUnique(src, sp + 1);
      AtSplit(src, sp, [255], EncodeLength(n - 255));
    }
  }

  /** A run read back is the run written, and only a written run is read. */
  lemma RunRoundTrip(src: Bytes, sp: nat, n: nat)
    requires sp <= |src|
    ensures At(src, sp, Extra(n)) <==> ReadRun(src, sp, Nibble(n)) == Some((n, sp + |Extra(n)|))
  {
    if n >= 15 {
      if At(src, sp, Extra(n)) { LengthRoundTrip(src, sp, n - 15); }
      if ReadLength(src, sp).Some? { LengthUnique(src, sp); }
    }
  }

  lemma RunUnique(src: Bytes, sp: nat, nibble: nat)
    requires sp <= |src| && nibble <= 15 && ReadRun(src, sp, nibble).Some?
    ensures var (n, next) := ReadRun(src, sp, nibble).value;
      nibble == Nibble(n) && next == sp + |Extra(n)| && At(src, sp, Extra(n))
  {
    if nibble == 15 { LengthUnique(src, sp); }
  }

  lemma OffsetRoundTrip(src: Bytes, sp: nat, n: nat)
    requires n <= 65535 && sp + 2 <= |src|
    ensures At(src, sp, LittleEndian(n)) <==> ReadOffset(src, sp) == n
  {
    assert src[sp..sp + 2] == [src[sp], src[sp + 1]];
  }

  /** The parts of an encoded sequence, laid end to end. */
  lemma OneParts(src: Bytes, sp: nat, s: Sequence)
    requires s.Encodable()
    ensures var sp1 := sp + 1 + |Extra(|s.literals|)|;
      var sp2 := sp1 + |s.literals|;
      && (At(src, sp, EncodeOne(s)) <==>
            && sp < |src| && src[sp] == Token(|s.literals|, Nibble(s.matchLen - 4))
            && At(src, sp + 1, Extra(|s.literals|)) && At(src, sp1, s.literals)
            && At(src, sp2, LittleEndian(s.offset)) && At(src, sp2 + 2, Extra(s.matchLen - 4)))
      && sp + |EncodeOne(s)| == sp2 + 2 + |Extra(s.matchLen - 4)|
  {
    hide At, Extra, LittleEndian, Token;
    var a := [Token(|s.literals|, Nibble(s.matchLen - 4))];
    var (b, c, d, e) := (Extra(|s.literals|), s.literals, LittleEndian(s.offset), Extra(s.matchLen - 4));
    TwoBytes(s.offset);
    AtSplit(src, sp, a + b + c + d, e);
    AtSplit(src, sp, a + b + c, d);
    AtSplit(src, sp, a + b, c);
    AtSplit(src, sp, a, b);
    AtFirst(src, sp, a[0]);
  }

  lemma TwoBytes(n: nat)
    requires n <= 65535
    ensures |LittleEndian(n)| == 2
  {
  }

  lemma TokenParts(lit: nat, rest: nat)
    requires rest <= 15
    ensures Token(lit, rest) / 16 == Nibble(lit) && Token(lit, rest) % 16 == rest
  {
  }

  lemma MatchRoundTrip(src: Bytes, sp: nat, out: Bytes, s: Sequence, maxOut: nat)
    requires s.Encodable() && s.offset <= |out| && sp + 2 <= |src|
    requires At(src, sp, LittleEndian(s.offset)) && At(src, sp + 2, Extra(s.matchLen - 4))
    requires sp + 2 + |Extra(s.matchLen - 4)| < |src|
    ensures ReadMatch(src, sp, out, Nibble(s.matchLen - 4), maxOut) ==
      if |out| + s.matchLen > maxOut then Fail(OutputTooLarge)
      else Next(sp + 2 + |Extra(s.matchLen - 4)|, CopyBack(out, s.offset, s.matchLen))
  {
    hide At, Extra, ReadRun, ReadOffset, CopyBack, LittleEndian, Nibble;
    OffsetRoundTrip(src, sp, s.offset);
    RunRoundTrip(src, sp + 2, s.matchLen - 4);
  }

  /** Reading an encoded sequence plays it, or finds no room for it. */
  lemma OneRoundTrip(src: Bytes, sp: nat, out: Bytes, s: Sequence, maxOut: nat)
    requires s.Encodable() && s.offset <= |out + s.literals|
    requires At(src, sp, EncodeOne(s)) && sp + |EncodeOne(s)| < |src|
    ensures ReadOne(src, sp, out, maxOut) ==
      if |out| + |s.literals| + s.matchLen > maxOut then Fail(OutputTooLarge)
      else Next(sp + |EncodeOne(s)|, Play(out, s))
  {
    hide Extra, ReadRun, ReadMatch, Token, EncodeOne, CopyBack, LittleEndian;
    OneParts(src, sp, s);
    TwoBytes(s.offset);
    TokenParts(|s.literals|, Nibble(s.matchLen - 4));
    RunRoundTrip(src, sp + 1, |s.literals|);
    var sp1 := sp + 1 + |Extra(|s.literals|)|;
    MatchRoundTrip(src, sp1 + |s.literals|, out + s.literals, s, maxOut);
  }

  lemma TailRoundTrip(src: Bytes, sp: nat, out: Bytes, tail: Bytes, low: nat, maxOut: nat)
    requires low <= 15 && At(src, sp, EncodeTail(tail, low)) && sp + |EncodeTail(tail, low)| == |src|
    ensures ReadOne(src, sp, out, maxOut) ==
      if |out| + |tail| > maxOut then Fail(OutputTooLarge) else End(out + tail)
  {
    hide Extra, ReadRun, ReadMatch, Token;
    TailParts(src, sp, tail, low);
    TokenParts(|tail|, low);
    RunRoundTrip(src, sp + 1, |tail|);
  }

  lemma TailParts(src: Bytes, sp: nat, tail: Bytes, low: nat)
    requires low <= 15
    ensures At(src, sp, EncodeTail(tail, low)) <==>
      && sp < |src| && src[sp] == Token(|tail|, low)
      && At(src, sp + 1, Extra(|tail|)) && At(src, sp + 1 + |Extra(|tail|)|, tail)
  {
    hide At, Extra, Token;
    var a := [Token(|tail|, low)];
    AtSplit(src, sp, a + Extra(|tail|), tail);
    AtSplit(src, sp, a, Extra(|tail|));
    AtFirst(src, sp, a[0]);
  }

  /** A whole block from sp on: what remains of src is these sequences and this tail. */
  predicate BlockAt(src: Bytes, sp: nat, ss: seq<Sequence>, tail: Bytes, low: nat) {
    && low <= 15
    && (forall i :: 0 <= i < |ss| ==> ss[i].Encodable())
    && sp <= |src| && src[sp..] == EncodeAll(ss) + EncodeTail(tail, low)
  }

  lemma BlockTail(src: Bytes, sp: nat, tail: Bytes, low: nat)
    ensures BlockAt(src, sp, [], tail, low) <==>
      low <= 15 && At(src, sp, EncodeTail(tail, low)) && sp + |EncodeTail(tail, low)| == |src|
  {
    hide EncodeTail;
    if low <= 15 {
      assert [] + EncodeTail(tail, low) == EncodeTail(tail, low);
      if sp <= |src| { assert src[sp..] == src[sp..|src|]; }
    }
  }

  lemma BlockStep(src: Bytes, sp: nat, s: Sequence, rest: seq<Sequence>, tail: Bytes, low: nat)
    requires s.Encodable()
    ensures BlockAt(src, sp, [s] + rest, tail, low) <==>
      At(src, sp, EncodeOne(s)) && BlockAt(src, sp + |EncodeOne(s)|, rest, tail, low)
  {
    hide EncodeTail, EncodeOne;
    assert ([s] + rest)[1..] == rest;
    if BlockAt(src, sp, [s] + rest, tail, low) {
      assert forall i :: 0 <= i < |rest| ==> rest[i] == ([s] + rest)[i + 1];
    }
    if low <= 15 && sp <= |src| && forall i :: 0 <= i < |rest| ==> rest[i].Encodable() {
      var w, more := EncodeOne(s), EncodeAll(rest) + EncodeTail(tail, low);
      assert EncodeAll([s] + rest) + EncodeTail(tail, low) == w + more;
      AtSplit(src, sp, w, more);
      if src[sp..] == w + more { assert src[sp..] == src[sp..sp + |w + more|]; }
      if sp + |w| <= |src| { assert src[sp + |w|..] == src[sp + |w|..|src|]; }
    }
  }

  lemma {:induction false} PlayGrows(out: Bytes, ss: seq<Sequence>)
    requires Playable(out, ss)
    ensures |PlayAll(out, ss)| >= |out|
    decreases |ss|
  {
    if ss != [] { PlayGrows(Play(out, ss[0]), ss[1..]); }
  }

  lemma BlockNotEmpty(src: Bytes, sp: nat, ss: seq<Sequence>, tail: Bytes, low: nat)
    requires BlockAt(src, sp, ss, tail, low)
    ensures sp < |src|
  {
    assert |src[sp..]| >= 1;
  }

  /** Decoding a well-formed block yields what the block means, if that fits, and
      otherwise reports that it does not. */
  lemma {:induction false} BlockDecodes(src: Bytes, sp: nat, out: Bytes, ss: seq<Sequence>, tail: Bytes, low: nat, maxOut: nat)
    requires BlockAt(src, sp, ss, tail, low) && Playable(out, ss)
    ensures ReadFrom(src, sp, out, maxOut) ==
      if |PlayAll(out, ss)| + |tail| <= maxOut then Ok(PlayAll(out, ss) + tail) else Err(OutputTooLarge)
    decreases |ss|
  {
    hide ReadOne, BlockAt, EncodeTail, EncodeOne, CopyBack;
    BlockNotEmpty(src, sp, ss, tail, low);
    if ss == [] {
      BlockTail(src, sp, tail, low);
      TailRoundTrip(src, sp, out, tail, low, maxOut);
    } else {
      var s, rest := ss[0], ss[1..];
      assert ss == [s] + rest;
      BlockStep(src, sp, s, rest, tail, low);
      BlockNotEmpty(src, sp + |EncodeOne(s)|, rest, tail, low);
      OneRoundTrip(src, sp, out, s, maxOut);
      PlayGrows(Play(out, s), rest);
      if |out| + |s.literals| + s.matchLen <= maxOut {
        BlockDecodes(src, sp + |EncodeOne(s)|, Play(out, s), rest, tail, low, maxOut);
      }
    }
  }

  // ---- only well-formed blocks are accepted ----

  lemma OneUnique(src: Bytes, sp: nat, out: Bytes, maxOut: nat) returns (s: Sequence)
    requires sp < |src| && ReadOne(src, sp, out, maxOut).Next?
    ensures s.Encodable() && At(src, sp, EncodeOne(s)) && s.offset <= |out + s.literals|
    ensures ReadOne(src, sp, out, maxOut) == Next(sp + |EncodeOne(s)|, Play(out, s))
    ensures |out| + |s.literals| + s.matchLen <= maxOut
  {
    hide Extra, ReadRun, Token, EncodeOne, CopyBack, LittleEndian, ReadOffset;
    var token := src[sp];
    RunUnique(src, sp + 1, token / 16);
    var (lit, sp1) := ReadRun(src, sp + 1, token / 16).value;
    var sp2 := sp1 + lit;
    var offset := ReadOffset(src, sp2);
    RunUnique(src, sp2 + 2, token % 16);
    var (run, sp3) := ReadRun(src, sp2 + 2, token % 16).value;
    s := Sequence(src[sp1..sp2], offset, run + 4);
    OffsetBound(src, sp2);
    OffsetRoundTrip(src, sp2, offset);
    TokenWhole(token, lit, token % 16);
    OneParts(src, sp, s);
  }

  lemma OffsetBound(src: Bytes, sp: nat)
    requires sp + 2 <= |src|
    ensures ReadOffset(src, sp) <= 65535
  {
  }

  lemma TokenWhole(token: Byte, lit: nat, low: nat)
    requires token / 16 == Nibble(lit) && low == token % 16
    ensures low <= 15 && token == Token(lit, low)
  {
  }

  lemma TailUnique(src: Bytes, sp: nat, out: Bytes, maxOut: nat) returns (tail: Bytes, low: nat)
    requires sp < |src| && ReadOne(src, sp, out, maxOut).End?
    ensures BlockAt(src, sp, [], tail, low)
    ensures ReadOne(src, sp, out, maxOut) == End(out + tail) && |out + tail| <= maxOut
  {
    hide Extra, ReadRun, Token, EncodeTail, BlockAt;
    var token := src[sp];
    RunUnique(src, sp + 1, token / 16);
    var (lit, sp1) := ReadRun(src, sp + 1, token / 16).value;
    tail, low := src[sp1..sp1 + lit], token % 16;
    TokenWhole(token, lit, low);
    TailParts(src, sp, tail, low);
    TailLength(tail, low);
    BlockTail(src, sp, tail, low);
  }

  lemma TailLength(tail: Bytes, low: nat)
    requires low <= 15
    ensures |EncodeTail(tail, low)| == 1 + |Extra(|tail|)| + |tail|
  {
  }

  /** Whatever decodes is a well-formed block, and decodes to what it means. */
  lemma {:induction false} DecodedIsBlock(src: Bytes, sp: nat, out: Bytes, maxOut: nat)
    returns (ss: seq<Sequence>, tail: Bytes, low: nat)
    requires sp < |src| && ReadFrom(src, sp, out, maxOut).Ok?
    ensures BlockAt(src, sp, ss, tail, low) && Playable(out, ss)
    ensures ReadFrom(src, sp, out, maxOut) == Ok(PlayAll(out, ss) + tail)
    ensures |PlayAll(out, ss) + tail| <= maxOut
    decreases |src| - sp
  {
    hide ReadOne, BlockAt, EncodeTail, EncodeOne, CopyBack;
    ReadOneAdvances(src, sp, out, maxOut);
    var t := ReadOne(src, sp, out, maxOut);
    if t.End? {
      tail, low := TailUnique(src, sp, out, maxOut);
      ss := [];
    } else {
      var s := OneUnique(src, sp, out, maxOut);
      var rest;
      rest, tail, low := DecodedIsBlock(src, t.sp, t.out, maxOut);
      ss := [s] + rest;
      assert ss[1..] == rest;
      BlockStep(src, sp, s, rest, tail, low);
    }
  }

  /** A block, as a whole: its sequences, its tail, and what it decodes to. */
  predicate Means(src: Bytes, ss: seq<Sequence>, tail: Bytes, low: nat, out: Bytes) {
    BlockAt(src, 0, ss, tail, low) && Playable([], ss) && PlayAll([], ss) + tail == out
  }

  /** The decoder accepts exactly the well-formed blocks (and no bytes at all, which
      stand for no output), and its output is exactly what the block means. */
  lemma DecodeIff(src: Bytes, maxOut: nat, out: Bytes)
    ensures Decode(src, maxOut) == Ok(out) <==>
      || (src == [] && out == [])
      || (|out| <= maxOut && exists ss, tail, low :: Means(src, ss, tail, low, out))
  {
    hide ReadOne, BlockAt, CopyBack;
    if src != [] && Decode(src, maxOut) == Ok(out) {
      var ss, tail, low := DecodedIsBlock(src, 0, [], maxOut);
      assert Means(src, ss, tail, low, out);
    }
    forall ss, tail, low | Means(src, ss, tail, low, out) && |out| <= maxOut
      ensures Decode(src, maxOut) == Ok(out)
    {
      BlockDecodes(src, 0, [], ss, tail, low, maxOut);
    }
    if exists ss, tail, low :: Means(src, ss, tail, low, out) {
      var ss, tail, low :| Means(src, ss, tail, low, out);
      BlockNotEmpty(src, 0, ss, tail, low);
    }
  }
}
