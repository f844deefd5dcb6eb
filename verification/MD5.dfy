/** MD5 as a stream: the context, its updates and the final padding, after RFC 1321.  The
    transformation of a block (section 3.4) is any function of the state and the block. */
module MD5 {

  type Byte = b: int | 0 <= b < 256
  type Word = w: int | 0 <= w < 0x1_0000_0000
  type Transform = (seq<Word>, seq<Byte>) -> seq<Word>

  const BLOCK := 64
  const TWO32 := 0x1_0000_0000
  const TWO64 := 0x1_0000_0000_0000_0000

  /** Step 3 of section 3.3: the initial state. */
  const INITIAL: seq<Word> := [0x67452301, 0xefcdab89, 0x98badcfe, 0x10325476]

  // ---- words and bytes -------------------------------------------------------------------------

  /** The low-order byte comes first. */
  function EncodeWord(w: Word): (r: seq<Byte>)
    ensures |r| == 4
  {
    [w % 256, w / 256 % 256, w / 65536 % 256, w / 16777216 % 256]
  }

  function DecodeWord(b: seq<Byte>): Word
    requires |b| == 4
  {
    var b0: int, b1: int, b2: int, b3: int := b[0], b[1], b[2], b[3];
    b0 + 256 * b1 + 65536 * b2 + 16777216 * b3
  }

  lemma WordRoundTrip(w: Word)
    ensures DecodeWord(EncodeWord(w)) == w
  {
    assert w == w % 256 + 256 * (w / 256);
    assert w / 256 == w / 256 % 256 + 256 * (w / 65536);
    assert w / 65536 == w / 65536 % 256 + 256 * (w / 16777216);
  }

  lemma ByteRoundTrip(b: seq<Byte>)
    requires |b| == 4
    ensures EncodeWord(DecodeWord(b)) == b
  {
    ShiftBy8(b[0], b[1], b[2], b[3]);
    ShiftBy16(b[0], b[1], b[2], b[3]);
    ShiftBy24(b[0], b[1], b[2], b[3]);
    var b2: int, b3: int := b[2], b[3];
    LowByte(b[1], b2 + 256 * b3);
    LowByte(b[2], b3);
  }

  lemma LowByte(low: Byte, rest: int)
    ensures (low + 256 * rest) % 256 == low
  {
  }

  lemma ShiftBy8(b0: Byte, b1: int, b2: int, b3: int)
    ensures var w := b0 + 256 * b1 + 65536 * b2 + 16777216 * b3;
      w / 256 == b1 + 256 * b2 + 65536 * b3 && w % 256 == b0
  {
    assert b0 + 256 * b1 + 65536 * b2 + 16777216 * b3 == 256 * (b1 + 256 * b2 + 65536 * b3) + b0;
  }

  lemma ShiftBy16(b0: Byte, b1: Byte, b2: int, b3: int)
    ensures (b0 + 256 * b1 + 65536 * b2 + 16777216 * b3) / 65536 == b2 + 256 * b3
  {
    assert b0 + 256 * b1 + 65536 * b2 + 16777216 * b3 == 65536 * (b2 + 256 * b3) + (b0 + 256 * b1);
  }

  lemma ShiftBy24(b0: Byte, b1: Byte, b2: Byte, b3: int)
    ensures (b0 + 256 * b1 + 65536 * b2 + 16777216 * b3) / 16777216 == b3
  {
  }

  function Encode(ws: seq<Word>): (r: seq<Byte>)
    ensures |r| == 4 * |ws|
  {
    if ws == [] then [] else EncodeWord(ws[0]) + Encode(ws[1..])
  }

  lemma {:induction false} EncodeSnoc(ws: seq<Word>, w: Word)
    ensures Encode(ws + [w]) == Encode(ws) + EncodeWord(w)
  {
    if ws == [] {
      assert ws + [w] == [w] && [w][1..] == [];
    } else {
      assert (ws + [w])[1..] == ws[1..] + [w];
      EncodeSnoc(ws[1..], w);
    }
  }

  /** The loop of Encode. */
  method EncodeWords(ws: seq<Word>) returns (out: seq<Byte>)
    ensures out == Encode(ws)
  {
    out := [];
    for i := 0 to |ws|
      invariant out == Encode(ws[..i])
    {
      assert ws[..i + 1] == ws[..i] + [ws[i]];
      EncodeSnoc(ws[..i], ws[i]);
      out := out + EncodeWord(ws[i]);
    }
    assert ws[..|ws|] == ws;
  }

  // ---- the digest of a whole message -------------------------------------------------------------

  /** Whole blocks of the data, one after the other. */
  function Absorb(f: Transform, state: seq<Word>, data: seq<Byte>): seq<Word>
    decreases |data|
  {
    if |data| < BLOCK then state else Absorb(f, f(state, data[..BLOCK]), data[BLOCK..])
  }

  function Zeros(n: nat): (r: seq<Byte>)
    ensures |r| == n && forall i :: 0 <= i < n ==> r[i] == 0
  {
    seq(n, _ => 0)
  }

  /** How many zero bytes follow the first byte of the padding. */
  function PadZeros(n: nat): nat {
    if n % 64 < 56 then 55 - n % 64 else 119 - n % 64
  }

  /** The fewest that make the length 56 modulo 64. */
  lemma PaddingIsLeast(n: nat, k: nat)
    ensures (n + 1 + PadZeros(n)) % 64 == 56 && (n + 1 + PadZeros(n) + 8) % 64 == 0
    ensures (n + 1 + k) % 64 == 56 ==> PadZeros(n) <= k
  {
  }

  /** Sections 3.1 and 3.2: a single 1 bit, zero bits, and the number of bits of the message,
      modulo 2^64, low-order word first. */
  function Padded(m: seq<Byte>): (r: seq<Byte>)
  {
    var bits := 8 * |m| % TWO64;
    m + [0x80] + Zeros(PadZeros(|m|)) + Encode([bits % TWO32, bits / TWO32])
  }

  /** The padded message consists of whole blocks. */
  lemma PaddedIsWhole(m: seq<Byte>)
    ensures |Padded(m)| % BLOCK == 0 && m <= Padded(m)
  {
    hide PadZeros;
    PaddingIsLeast(|m|, 0);
    var bits := 8 * |m| % TWO64;
    assert |Padded(m)| == |m| + 1 + PadZeros(|m|) + 8;
    assert |Encode([bits % TWO32, bits / TWO32])| == 8;
  }

  function Digest(f: Transform, m: seq<Byte>): seq<Byte> {
    Encode(Absorb(f, INITIAL, Padded(m)))
  }

  lemma {:induction false} AbsorbConcat(f: Transform, state: seq<Word>, a: seq<Byte>, b: seq<Byte>)
    requires |a| % BLOCK == 0
    ensures Absorb(f, state, a + b) == Absorb(f, Absorb(f, state, a), b)
    decreases |a|
  {
    if a == [] {
      assert a + b == b;
    } else {
      assert (a + b)[..BLOCK] == a[..BLOCK] && (a + b)[BLOCK..] == a[BLOCK..] + b;
      AbsorbConcat(f, f(state, a[..BLOCK]), a[BLOCK..], b);
    }
  }

  lemma AbsorbBlock(f: Transform, state: seq<Word>, block: seq<Byte>)
    requires |block| == BLOCK
    ensures Absorb(f, state, block) == f(state, block)
  {
    assert block[..BLOCK] == block && |block[BLOCK..]| == 0;
  }

  // ---- the context --------------------------------------------------------------------------------

  predicate CountIs(low: Word, high: Word, n: nat) {
    8 * n % TWO64 == high * TWO32 + low
  }

  /** How many bytes of the message wait in the buffer. */
  function Rest(m: seq<Byte>): (r: nat)
    ensures r <= |m| && r < BLOCK
  {
    |m| % BLOCK
  }

  lemma IndexIs(low: Word, high: Word, m: seq<Byte>)
    requires CountIs(low, high, |m|)
    ensures low / 8 % 64 == Rest(m)
  {
    var q := CountParts(low, high, |m|);
    var k := q * TWO32 + high;
    var j := |m| - k * 0x2000_0000;
    assert low == 8 * j;
    WholeBlocks(j, k * 0x80_0000);
    assert |m| == j + 64 * (k * 0x80_0000);
  }

  lemma WholeBlocks(j: int, k: int)
    ensures (j + 64 * k) % 64 == j % 64
  {
  }

  /** The two words are added to with their carry. */
  lemma CountAdds(low: Word, high: Word, n: nat, len: nat)
    requires CountIs(low, high, n) && len < TWO32
    ensures var add := len * 8 % TWO32;
      var low' := (low + add) % TWO32;
      var high' := ((if low' < add then (high + 1) % TWO32 else high) + len / 0x2000_0000) % TWO32;
      CountIs(low', high', n + len)
  {
    var q := CountParts(low, high, n);
    var add, over := len * 8 % TWO32, len / 0x2000_0000;
    LengthParts(len);
    var carry := LowAdds(low, add);
    HighAdds(high, carry, over);
    Wraps(8 * (n + len), q, high + carry + over, (low + add) % TWO32);
  }

  lemma CountParts(low: Word, high: Word, n: nat) returns (q: int)
    requires CountIs(low, high, n)
    ensures 8 * n == q * TWO64 + high * TWO32 + low
  {
    q := 8 * n / TWO64;
  }

  lemma LengthParts(len: nat)
    ensures len * 8 == len / 0x2000_0000 * TWO32 + len * 8 % TWO32
  {
  }

  lemma LowAdds(low: Word, add: Word) returns (carry: int)
    ensures low + add == carry * TWO32 + (low + add) % TWO32
    ensures carry == if (low + add) % TWO32 < add then 1 else 0
  {
    carry := if low + add >= TWO32 then 1 else 0;
  }

  lemma HighAdds(high: Word, carry: int, over: nat)
    requires 0 <= carry <= 1
    ensures (high + carry + over) % TWO32 == ((if carry == 1 then (high + 1) % TWO32 else high) + over) % TWO32
  {
  }

  lemma Wraps(x: int, q: int, sum: int, low: Word)
    requires x == q * TWO64 + sum * TWO32 + low
    ensures x % TWO64 == sum % TWO32 * TWO32 + low
  {
    assert sum == sum / TWO32 * TWO32 + sum % TWO32;
    ModUnique(x, q + sum / TWO32, sum % TWO32 * TWO32 + low);
  }

  lemma ModUnique(x: int, q: int, r: int)
    requires x == q * TWO64 + r && 0 <= r < TWO64
    ensures x % TWO64 == r
  {
  }

  /** One more block. */
  lemma NextBlock(f: Transform, head: seq<Byte>, block: seq<Byte>)
    requires |head| % BLOCK == 0 && |block| == BLOCK
    ensures Absorb(f, INITIAL, head + block) == f(Absorb(f, INITIAL, head), block)
  {
    hide Absorb;
    AbsorbConcat(f, INITIAL, head, block);
    AbsorbBlock(f, Absorb(f, INITIAL, head), block);
  }

  /** The buffered bytes and the first of the input make a block. */
  lemma FillsUp(before: seq<Byte>, input: seq<Byte>, index: nat, block: seq<Byte>)
    requires index == Rest(before) && BLOCK - index <= |input|
    requires block == before[|before| - index..] + input[0..BLOCK - index]
    ensures |block| == BLOCK && |before[..|before| - index]| % BLOCK == 0 && (|before| + BLOCK - index) % BLOCK == 0
    ensures before[..|before| - index] + block == before + input[..BLOCK - index]
  {
    WholePart(|before|, index);
  }

  /** What is left is less than a block. */
  lemma Settled(before: seq<Byte>, input: seq<Byte>, index: nat, i: nat)
    requires i <= |input| && index + |input| - i < BLOCK
    requires if i == 0 then index == Rest(before) else index == 0 && (|before| + i) % BLOCK == 0
    ensures var m, rest := before + input, index + |input| - i;
      && Rest(m) == rest
      && m[..|m| - rest] == (if i == 0 then before[..|before| - index] else before + input[..i])
      && m[|m| - rest..] == if i == 0 then before[|before| - index..] + input else input[i..]
  {
    if i == 0 { WholePart(|before|, index); }
    RestIs(|before| + |input|, index + |input| - i);
  }

  lemma WholePart(n: nat, index: nat)
    requires index == n % BLOCK
    ensures index <= n && (n - index) % BLOCK == 0
  {
  }

  lemma RestIs(total: nat, rest: nat)
    ensures rest <= total && rest < BLOCK && (total - rest) % BLOCK == 0 ==> total % BLOCK == rest
  {
  }

  class Context {
    const transform: Transform
    var state: seq<Word>
    var count0: Word
    var count1: Word
    const buffer: array<Byte>
    /** The bytes that have been fed in. */
    ghost var message: seq<Byte>

    ghost predicate Valid()
      reads this, buffer
    {
      && buffer.Length == BLOCK
      && CountIs(count0, count1, |message|)
      && var rest := Rest(message);
      && state == Absorb(transform, INITIAL, message[..|message| - rest])
      && buffer[..rest] == message[|message| - rest..]
    }

    /** MD5Init. */
    constructor (transform: Transform)
      ensures Valid() && message == [] && this.transform == transform && fresh(buffer)
    {
      this.transform := transform;
      state, count0, count1 := INITIAL, 0, 0;
      buffer := new Byte[BLOCK];
      message := [];
    }

    method CopyToBuffer(index: nat, input: seq<Byte>, from: nat, len: nat)
      requires buffer.Length == BLOCK && index + len <= BLOCK && from + len <= |input|
      modifies buffer
      ensures buffer[..index + len] == old(buffer[..index]) + input[from..from + len]
    {
      for i := 0 to len
        invariant forall j :: 0 <= j < index ==> buffer[j] == old(buffer[j])
        invariant forall j :: index <= j < index + i ==> buffer[j] == input[from + j - index]
      {
        buffer[index + i] := input[from + i];
      }
    }

    /** MD5Update: whole blocks are transformed, the rest is buffered. */
    method Update(input: seq<Byte>)
      requires Valid() && |input| <= TWO32 - 64
      modifies this`state, this`count0, this`count1, this`message, buffer
      ensures Valid() && message == old(message) + input
    {
      hide Absorb, CountIs, Rest;
      ghost var before := message;
      IndexIs(count0, count1, before);
      var index := count0 / 8 % 64;
      AddToCount(|input|);
      var i := TransformBlocks(input, index, before);
      if i > 0 {
        index := 0;
      }
      CopyToBuffer(index, input, i, |input| - i);
      message := before + input;
      Settled(before, input, index, i);
    }

    /** The buffer is filled up and transformed, and then the blocks of the input. */
    method TransformBlocks(input: seq<Byte>, index: nat, ghost before: seq<Byte>) returns (i: nat)
      requires buffer.Length == BLOCK && index == Rest(before) && buffer[..index] == before[|before| - index..]
      requires state == Absorb(transform, INITIAL, before[..|before| - index])
      modifies this`state, buffer
      ensures i <= |input| && |input| - i < 64
      ensures i == 0 ==> index + |input| < 64 && state == old(state) && buffer[..] == old(buffer[..])
      ensures i > 0 ==> (|before| + i) % BLOCK == 0 && state == Absorb(transform, INITIAL, before + input[..i])
    {
      hide Absorb;
      var partLen := 64 - index;
      i := 0;
      if |input| >= partLen {
        CopyToBuffer(index, input, 0, partLen);
        FillsUp(before, input, index, buffer[..]);
        NextBlock(transform, before[..|before| - index], buffer[..]);
        state := transform(state, buffer[..]);
        i := partLen;
        while i + 63 < |input|
          modifies this`state
          invariant partLen <= i <= |input| && (|before| + i) % BLOCK == 0
          invariant state == Absorb(transform, INITIAL, before + input[..i])
        {
          NextBlock(transform, before + input[..i], input[i..i + 64]);
          assert (before + input[..i]) + input[i..i + 64] == before + input[..i + 64];
          state := transform(state, input[i..i + 64]);
          i := i + 64;
        }
      }
    }

    method AddToCount(len: nat)
      requires CountIs(count0, count1, |message|) && len < TWO32
      modifies this`count0, this`count1
      ensures CountIs(count0, count1, |message| + len)
    {
      CountAdds(count0, count1, |message|, len);
      var add := len * 8 % TWO32;
      count0 := (count0 + add) % TWO32;
      if count0 < add {
        count1 := (count1 + 1) % TWO32;
      }
      count1 := (count1 + len / 0x2000_0000) % TWO32;
    }

    /** MD5Final: padding and length are fed in; the state is the digest. */
    method Final() returns (digest: seq<Byte>)
      requires Valid()
      modifies this`state, this`count0, this`count1, this`message, buffer
      ensures digest == Digest(transform, old(message))
    {
      hide Absorb, CountIs, Padded, Encode, PadZeros;
      ghost var m := message;
      ghost var count := [count0, count1];
      var bits := EncodeWords([count0, count1]);
      IndexIs(count0, count1, m);
      CountWords(count0, count1, |m|);
      var index := count0 / 8 % 64;
      var padLen := if index < 56 then 56 - index else 120 - index;
      var padding := [0x80] + Zeros(63);
      Update(padding[..padLen]);
      Update(bits);
      PaddingIs(m, count, padLen);
      PaddedIsWhole(m);
      assert message[..|message| - 0] == message;
      digest := EncodeWords(state);
    }
  }

  lemma CountWords(low: Word, high: Word, n: nat)
    requires CountIs(low, high, n)
    ensures [low, high] == [8 * n % TWO64 % TWO32, 8 * n % TWO64 / TWO32]
  {
  }

  /** The bytes that Final feeds in are the padding. */
  lemma PaddingIs(m: seq<Byte>, count: seq<Word>, padLen: nat)
    requires count == [8 * |m| % TWO64 % TWO32, 8 * |m| % TWO64 / TWO32]
    requires padLen == if |m| % 64 < 56 then 56 - |m| % 64 else 120 - |m| % 64
    ensures m + ([0x80] + Zeros(63))[..padLen] + Encode(count) == Padded(m)
  {
    hide Encode;
    assert ([0x80] + Zeros(63))[..padLen] == [0x80] + Zeros(PadZeros(|m|));
  }

  function Joined(parts: seq<seq<Byte>>): seq<Byte> {
    if parts == [] then [] else Joined(parts[..|parts| - 1]) + parts[|parts| - 1]
  }

  /** However a message is split into updates, the digest is that of the whole. */
  method DigestOfParts(transform: Transform, parts: seq<seq<Byte>>) returns (digest: seq<Byte>)
    requires forall i :: 0 <= i < |parts| ==> |parts[i]| <= TWO32 - 64
    ensures digest == Digest(transform, Joined(parts))
  {
    var context := new Context(transform);
    for i := 0 to |parts|
      invariant context.Valid() && context.transform == transform && context.message == Joined(parts[..i])
      invariant fresh(context) && fresh(context.buffer)
    {
      assert parts[..i + 1][..i] == parts[..i];
      context.Update(parts[i]);
    }
    assert parts[..|parts|] == parts;
    digest := context.Final();
  }
}
