/** The streaming interface: a context that is fed a message piece by piece. */
module Sha256 {
  import opened Fips180
  import opened Sha256Words
  import opened Sha256Block

  const TWO32: nat := 0x1_0000_0000
  const TWO64: nat := 0x1_0000_0000_0000_0000

  // ------------------------------------------------------------ byte counter

  /** What one call adds to the upper counter word: one bit, decided by comparing the
      wrapped lower word with the length. */
  function Carry(total0: nat, length: nat): nat {
    if (total0 + length) % TWO64 % TWO32 < length then 1 else 0
  }

  /** The two counter words stay the true count exactly as long as the lower word and
      the length together stay below 2^33; every length below 2^32 qualifies. */
  lemma CarryIsExact(total0: nat, length: nat)
    requires total0 < TWO32
    ensures Carry(total0, length) == (total0 + length) / TWO32 <==> total0 + length < 2 * TWO32
  {
    var sum := total0 + length;
    WrapTwice(sum);
    if sum < TWO32 {
      assert sum % TWO32 == sum;
    } else if sum < 2 * TWO32 {
      assert sum % TWO32 == sum - TWO32;
    }
  }

  /** The first length that is counted wrongly from an empty context: two carries are due. */
  lemma CarryMissed()
    ensures Carry(0, 2 * TWO32) == 1 && 2 * TWO32 / TWO32 == 2
  {
    assert (0 + 2 * TWO32) % TWO64 % TWO32 == 0;
  }

  lemma WrapTwice(n: nat)
    ensures n % TWO64 % TWO32 == n % TWO32
  {
    var q := n / TWO64;
    assert n == TWO64 * q + n % TWO64;
    assert n == TWO32 * (TWO32 * q) + n % TWO64;
  }

  lemma CountAdds(n: nat, length: nat)
    requires n % TWO32 + length < 2 * TWO32
    ensures (n % TWO32 + length) % TWO64 % TWO32 == (n + length) % TWO32
    ensures n / TWO32 + Carry(n % TWO32, length) == (n + length) / TWO32
  {
    CarryIsExact(n % TWO32, length);
    WrapTwice(n % TWO32 + length);
  }

  // ----------------------------------------------------------- length field

  /** Bitwise or. */
  function BitOr(x: nat, y: nat): nat
    decreases x + y
  {
    if x == 0 && y == 0 then 0
    else 2 * BitOr(x / 2, y / 2) + (if x % 2 == 1 || y % 2 == 1 then 1 else 0)
  }

  lemma {:induction false} OrWithZero(y: nat)
    ensures BitOr(0, y) == y
  {
    if y > 0 {
      OrWithZero(y / 2);
    }
  }

  lemma OrOfDisjoint(x: nat, y: nat)
    requires x < 8
    ensures BitOr(x, 8 * y) == x + 8 * y
  {
    OrWithZero(y);
    assert BitOr(x / 2 / 2 / 2, 8 * y / 2 / 2 / 2) == y;
    assert BitOr(x / 2 / 2, 8 * y / 2 / 2) == x / 2 / 2 + 2 * y;
    assert BitOr(x / 2, 8 * y / 2) == x / 2 + 4 * y;
  }

  function PutInt(n: nat): (s: seq<Byte>)
    ensures |s| == 4
  {
    [ByteOf(n / 0x100_0000), ByteOf(n / 0x1_0000), ByteOf(n / 0x100), ByteOf(n)]
  }

  /** The eight bytes that finishing a message of n bytes appends. */
  function LengthField(total0: nat, total1: nat): (s: seq<Byte>)
    ensures |s| == 8
  {
    var high := BitOr(total0 / 0x2000_0000, total1 * 8 % TWO64);
    var low := total0 * 8;
    PutInt(high) + PutInt(low)
  }

  /** The code's length field is the bit count as a 64-bit big-endian number. */
  lemma LengthFieldIsStandard(n: nat)
    requires n < 0x2000_0000_0000_0000
    ensures LengthField(n % TWO32, n / TWO32) == LengthBytes(8 * n)
  {
    hide ByteOf, BitOr;
    var t0, t1 := n % TWO32, n / TWO32;
    OrOfDisjoint(t0 / 0x2000_0000, t1);
    var high, low, bits := t0 / 0x2000_0000 + 8 * t1, t0 * 8, 8 * n;
    assert t1 * 8 % TWO64 == 8 * t1;
    assert high == bits / TWO32;
    HighBytes(bits);
    LowBytes(low, bits, 8 * t1);
  }

  lemma HighBytes(bits: nat)
    ensures bits / TWO32 / 0x100_0000 == bits / 0x100_0000_0000_0000
    ensures bits / TWO32 / 0x1_0000 == bits / 0x1_0000_0000_0000
    ensures bits / TWO32 / 0x100 == bits / 0x100_0000_0000
  {}

  lemma ByteIgnoresMultiples(x: nat, t: nat)
    ensures ByteOf(x + 256 * t) == ByteOf(x)
  {
    assert (x + 256 * t) % 256 == x % 256;
  }

  lemma LowBytes(low: nat, bits: nat, t: nat)
    requires bits == low + t * TWO32
    ensures ByteOf(low / 0x100_0000) == ByteOf(bits / 0x100_0000)
    ensures ByteOf(low / 0x1_0000) == ByteOf(bits / 0x1_0000)
    ensures ByteOf(low / 0x100) == ByteOf(bits / 0x100)
    ensures ByteOf(low) == ByteOf(bits)
  {
    hide ByteOf;
    assert bits / 0x100_0000 == low / 0x100_0000 + 256 * t;
    ByteIgnoresMultiples(low / 0x100_0000, t);
    assert bits / 0x1_0000 == low / 0x1_0000 + 256 * (256 * t);
    ByteIgnoresMultiples(low / 0x1_0000, 256 * t);
    assert bits / 0x100 == low / 0x100 + 256 * (0x1_0000 * t);
    ByteIgnoresMultiples(low / 0x100, 0x1_0000 * t);
    ByteIgnoresMultiples(low, 0x100_0000 * t);
  }

  // -------------------------------------------------------------- the context

  lemma NextBlock(m: seq<Byte>, n: nat)
    requires 64 * (n + 1) <= |m|
    ensures Blocks(m, n + 1) == Compress(Blocks(m, n), m[64 * n..64 * n + 64])
  {
    hide Compress;
    assert 64 * (n + 1) == 64 * n + 64;
  }

  lemma LowSixBits(n: nat)
    ensures n % TWO32 % 64 == n % 64
  {
    assert n == 64 * (0x400_0000 * (n / TWO32)) + n % TWO32;
  }

  lemma BlockCount(n: nat, q: nat, r: nat)
    requires n == 64 * q + r && r < 64
    ensures q == n / 64 && r == n % 64
  {}

  class Context {
    var total0: nat
    var total1: nat
    const state: array<Long>
    const buffer: array<Byte>

    constructor ()
      ensures Sized() && fresh(state) && fresh(buffer)
    {
      state := new Long[8];
      buffer := new Byte[64];
    }

    ghost predicate Sized() {
      state.Length == 8 && buffer.Length == 64
    }

    /** n blocks of m have been compressed and the next `left` bytes are buffered. */
    ghost predicate Absorbed(m: seq<Byte>, n: nat, left: nat)
      reads state, buffer
    {
      && Sized()
      && left <= 64 && 64 * n + left <= |m|
      && StateHash(state[..]) == Blocks(m, n)
      && buffer[..left] == m[64 * n..64 * n + left]
    }

    /** The context has been fed exactly m. */
    ghost predicate Holds(m: seq<Byte>)
      reads this, state, buffer
    {
      && total0 == |m| % TWO32 && total1 == |m| / TWO32
      && Absorbed(m, |m| / 64, |m| % 64)
    }

    /** sha256_starts */
    method Starts()
      requires Sized()
      modifies this, state
      ensures Holds([])
    {
      total0 := 0;
      total1 := 0;
      state[0] := 0x6A09_E667;
      state[1] := 0xBB67_AE85;
      state[2] := 0x3C6E_F372;
      state[3] := 0xA54F_F53A;
      state[4] := 0x510E_527F;
      state[5] := 0x9B05_688C;
      state[6] := 0x1F83_D9AB;
      state[7] := 0x5BE0_CD19;
      InitialWords();
      assert state[..] == INITIAL_WORDS;
    }

    /** memcpy behind what is buffered. */
    method CopyToBuffer(left: nat, bytes: seq<Byte>, ghost m: seq<Byte>, ghost n: nat)
      requires Absorbed(m, n, left) && left + |bytes| <= 64
      requires 64 * n + left + |bytes| <= |m| && bytes == m[64 * n + left..64 * n + left + |bytes|]
      modifies buffer
      ensures Absorbed(m, n, left + |bytes|)
    {
      hide StateHash, Blocks;
      ghost var before := buffer[..left];
      forall i | 0 <= i < |bytes| {
        buffer[left + i] := bytes[i];
      }
      assert state[..] == old(state[..]);
      assert buffer[..left] == before;
      assert buffer[..left + |bytes|] == before + bytes;
      assert m[64 * n..64 * n + left] + m[64 * n + left..64 * n + left + |bytes|] == m[64 * n..64 * n + left + |bytes|];
    }

    /** Compress the block that follows what has been compressed. */
    method AbsorbBlock(block: seq<Byte>, ghost m: seq<Byte>, ghost n: nat)
      requires Absorbed(m, n, 0) && 64 * n + 64 <= |m| && block == m[64 * n..64 * n + 64]
      modifies state
      ensures Absorbed(m, n + 1, 0)
    {
      hide Compress, StateHash, Blocks;
      NextBlock(m, n);
      Process(state, block);
    }

    /** Compress the full buffer. */
    method AbsorbBuffer(ghost m: seq<Byte>, ghost n: nat)
      requires Absorbed(m, n, 64)
      modifies state
      ensures Absorbed(m, n + 1, 0)
    {
      hide Compress, StateHash, Blocks;
      assert buffer[..] == buffer[..64];
      AbsorbBlock(buffer[..], m, n);
    }

    /** Count `length` more bytes. */
    method Count(length: nat, ghost n: nat)
      requires total0 == n % TWO32 && total1 == n / TWO32
      requires total0 + length < 2 * TWO32 && n + length < TWO64
      modifies `total0, `total1
      ensures total0 == (n + length) % TWO32 && total1 == (n + length) / TWO32
    {
      CountAdds(n, length);
      total0 := (total0 + length) % TWO64;
      total0 := total0 % TWO32;
      if total0 < length {
        total1 := (total1 + 1) % TWO64;
      }
    }

    /** The loop over whole blocks of the input. */
    method Drain(input: seq<Byte>, pos0: nat, left: nat, ghost m: seq<Byte>, ghost n0: nat)
      returns (pos: nat, ghost n: nat)
      requires Absorbed(m, n0, left) && pos0 <= |input| <= |m|
      requires m[|m| - |input|..] == input && 64 * n0 + left == |m| - |input| + pos0
      requires left != 0 ==> |input| - pos0 < 64 - left
      modifies state
      ensures pos0 <= pos <= |input| && |input| - pos < 64
      ensures Absorbed(m, n, left) && 64 * n + left == |m| - |input| + pos
      ensures left != 0 ==> pos == pos0
    {
      hide Absorbed;
      pos, n := pos0, n0;
      while |input| - pos >= 64
        invariant pos0 <= pos <= |input|
        invariant Absorbed(m, n, left) && 64 * n + left == |m| - |input| + pos
        invariant left != 0 ==> pos == pos0
      {
        assert input[pos..pos + 64] == m[64 * n..64 * n + 64];
        AbsorbBlock(input[pos..pos + 64], m, n);
        pos, n := pos + 64, n + 1;
      }
    }

    /** If the input fills the partly filled buffer, compress the buffer. */
    method FillBuffer(input: seq<Byte>, left0: nat, ghost m: seq<Byte>, ghost n0: nat)
      returns (left: nat, pos: nat, ghost n: nat)
      requires Absorbed(m, n0, left0) && |input| <= |m| && left0 < 64
      requires m[|m| - |input|..] == input && 64 * n0 + left0 == |m| - |input|
      modifies state, buffer
      ensures Absorbed(m, n, left) && pos <= |input| && 64 * n + left == |m| - |input| + pos
      ensures left < 64 && (left != 0 ==> |input| - pos < 64 - left)
    {
      hide Absorbed;
      left, pos, n := left0, 0, n0;
      var fill := 64 - left;
      if left != 0 && |input| >= fill {
        assert input[..fill] == m[64 * n + left..64 * n + left + fill];
        CopyToBuffer(left, input[..fill], m, n);
        AbsorbBuffer(m, n);
        left, pos, n := 0, fill, n + 1;
      }
    }

    /** sha256_update */
    method Update(input: seq<Byte>, ghost m: seq<Byte>)
      requires Holds(m)
      requires total0 + |input| < 2 * TWO32 && |m| + |input| < TWO64
      modifies this, state, buffer
      ensures Holds(m + input)
    {
      if |input| == 0 {
        assert m + input == m;
        return;
      }
      hide Absorbed;
      var left := total0 % 64;
      LowSixBits(|m|);
      Extends(m, input);
      Count(|input|, |m|);
      UpdateData(input, left, m + input, |m| / 64);
    }

    /** The part of sha256_update that follows the counting. */
    method UpdateData(input: seq<Byte>, left0: nat, ghost m: seq<Byte>, ghost n0: nat)
      requires Absorbed(m, n0, left0) && 0 < |input| <= |m| && left0 < 64
      requires m[|m| - |input|..] == input && 64 * n0 + left0 == |m| - |input|
      modifies state, buffer
      ensures Absorbed(m, |m| / 64, |m| % 64)
    {
      hide Absorbed;
      var left, pos;
      ghost var n;
      left, pos, n := FillBuffer(input, left0, m, n0);
      pos, n := Drain(input, pos, left, m, n);
      if |input| - pos > 0 {
        assert input[pos..] == m[64 * n + left..64 * n + left + (|input| - pos)];
        CopyToBuffer(left, input[pos..], m, n);
        left := left + (|input| - pos);
      }
      BlockCount(|m|, n, left);
    }

    /** What was absorbed of m is absorbed of any extension of m. */
    lemma Extends(m: seq<Byte>, input: seq<Byte>)
      requires Absorbed(m, |m| / 64, |m| % 64)
      ensures Absorbed(m + input, |m| / 64, |m| % 64)
      ensures (m + input)[|m|..] == input
    {
      hide StateHash, Blocks;
      var n := |m| / 64;
      BlocksOfPrefix(m, input, n);
      assert m[64 * n..64 * n + |m| % 64] == (m + input)[64 * n..64 * n + |m| % 64];
    }

    /** sha256_finish */
    method Finish(ghost m: seq<Byte>) returns (digest: seq<Byte>)
      requires Holds(m) && |m| < 0x2000_0000_0000_0000
      modifies this, state, buffer
      ensures digest == Fips180.Sha256(m)
    {
      hide LengthField, LengthBytes, ZeroBytes, Absorbed, Bytes, StateHash, Blocks;
      var msglen := LengthField(total0, total1);
      LengthFieldIsStandard(|m|);
      var last := total0 % 64;
      LowSixBits(|m|);
      var padn := if last < 56 then 56 - last else 120 - last;
      PaddingParts(|m|, padn);
      var padding: seq<Byte> := [0x80] + seq(63, i => 0);
      Update(padding[..padn], m);
      Update(msglen, m + padding[..padn]);
      ghost var p := m + padding[..padn] + msglen;
      PaddingBytes(|m|, padn, padding);
      assert p == m + Padding(|m|);
      assert |p| % 64 == 0;
      FinalState(p);
      digest := StateBytes();
    }

    lemma FinalState(p: seq<Byte>)
      requires Holds(p) && |p| % 64 == 0
      ensures Sized() && StateHash(state[..]) == Blocks(p, |p| / 64)
    {}

    method StateBytes() returns (s: seq<Byte>)
      requires Sized()
      ensures s == Bytes(StateHash(state[..]))
    {
      hide Low, PutUint32, WordBytes;
      forall i | 0 <= i < 8 ensures PutUint32(state[i]) == WordBytes(Low(state[i])) {
        LowOfPut(state[i]);
      }
      s := PutUint32(state[0]) + PutUint32(state[1]) + PutUint32(state[2]) + PutUint32(state[3])
         + PutUint32(state[4]) + PutUint32(state[5]) + PutUint32(state[6]) + PutUint32(state[7]);
    }
  }

  const INITIAL_WORDS: seq<Long> := [
    0x6A09_E667, 0xBB67_AE85, 0x3C6E_F372, 0xA54F_F53A,
    0x510E_527F, 0x9B05_688C, 0x1F83_D9AB, 0x5BE0_CD19]

  lemma InitialWords()
    ensures StateHash(INITIAL_WORDS) == INITIAL
  {}

  /** The number of padding bytes the code takes from its table. */
  lemma PaddingParts(length: nat, padn: nat)
    requires padn == if length % 64 < 56 then 56 - length % 64 else 120 - length % 64
    ensures 1 <= padn <= 64 && padn == 1 + ZeroBytes(length) && (length + padn) % 64 == 56
  {
    var q, r := length / 64, length % 64;
    if r < 56 {
      assert length + padn == 64 * q + 56;
    } else {
      assert length + padn == 64 * (q + 1) + 56;
    }
  }

  lemma PaddingBytes(length: nat, padn: nat, table: seq<Byte>)
    requires padn == 1 + ZeroBytes(length) <= 64
    requires |table| == 64 && table[0] == 0x80 && forall i :: 1 <= i < 64 ==> table[i] == 0
    ensures Padding(length) == table[..padn] + LengthBytes(8 * length)
  {
    hide ZeroBytes, LengthBytes;
    assert [0x80] + seq(ZeroBytes(length), i => 0 as Byte) == table[..padn];
  }

  /** All the pieces in order. */
  function Joined(pieces: seq<seq<Byte>>): seq<Byte> {
    if pieces == [] then [] else Joined(pieces[..|pieces| - 1]) + pieces[|pieces| - 1]
  }

  lemma {:induction false} JoinedGrows(pieces: seq<seq<Byte>>, k: nat)
    requires k <= |pieces|
    ensures |Joined(pieces[..k])| <= |Joined(pieces)|
    decreases |pieces|
  {
    if k == |pieces| {
      assert pieces[..k] == pieces;
    } else {
      JoinedGrows(pieces[..|pieces| - 1], k);
      assert pieces[..|pieces| - 1][..k] == pieces[..k];
    }
  }

  /** However a message is cut into pieces, feeding the pieces gives the digest of the
      whole message. */
  method Hash(pieces: seq<seq<Byte>>) returns (digest: seq<Byte>)
    requires forall i :: 0 <= i < |pieces| ==> |pieces[i]| < TWO32
    requires |Joined(pieces)| < 0x2000_0000_0000_0000
    ensures digest == Fips180.Sha256(Joined(pieces))
  {
    var ctx := new Context();
    ctx.Starts();
    var i := 0;
    while i < |pieces|
      invariant 0 <= i <= |pieces| && fresh(ctx) && fresh(ctx.state) && fresh(ctx.buffer)
      invariant ctx.Holds(Joined(pieces[..i]))
    {
      JoinedGrows(pieces, i);
      JoinedGrows(pieces, i + 1);
      assert pieces[..i + 1][..i] == pieces[..i];
      ctx.Update(pieces[i], Joined(pieces[..i]));
      i := i + 1;
    }
    assert pieces[..i] == pieces;
    digest := ctx.Finish(Joined(pieces));
  }
}
