// SHA-256: the function of FIPS 180-4 (sections 4.1.2, 4.2.2, 5.1.1, 5.2.1 and
// 6.2.2), and the streaming object of src/sha256.cpp proved to compute it.
module Sha256 {
  import opened Bytes

  type Word = bv32

  const BLOCK: nat := 64

  function RoundConstants(): (k: seq<Word>)
    ensures |k| == 64
  {
    [0x428a2f98, 0x71374491, 0xb5c0fbcf, 0xe9b5dba5, 0x3956c25b, 0x59f111f1, 0x923f82a4, 0xab1c5ed5]
    + [0xd807aa98, 0x12835b01, 0x243185be, 0x550c7dc3, 0x72be5d74, 0x80deb1fe, 0x9bdc06a7, 0xc19bf174]
    + [0xe49b69c1, 0xefbe4786, 0x0fc19dc6, 0x240ca1cc, 0x2de92c6f, 0x4a7484aa, 0x5cb0a9dc, 0x76f988da]
    + [0x983e5152, 0xa831c66d, 0xb00327c8, 0xbf597fc7, 0xc6e00bf3, 0xd5a79147, 0x06ca6351, 0x14292967]
    + [0x27b70a85, 0x2e1b2138, 0x4d2c6dfc, 0x53380d13, 0x650a7354, 0x766a0abb, 0x81c2c92e, 0x92722c85]
    + [0xa2bfe8a1, 0xa81a664b, 0xc24b8b70, 0xc76c51a3, 0xd192e819, 0xd6990624, 0xf40e3585, 0x106aa070]
    + [0x19a4c116, 0x1e376c08, 0x2748774c, 0x34b0bcb5, 0x391c0cb3, 0x4ed8aa4a, 0x5b9cca4f, 0x682e6ff3]
    + [0x748f82ee, 0x78a5636f, 0x84c87814, 0x8cc70208, 0x90befffa, 0xa4506ceb, 0xbef9a3f7, 0xc67178f2]
  }

  function Initial(): (s: seq<Word>)
    ensures |s| == 8
  {
    [0x6a09e667, 0xbb67ae85, 0x3c6ef372, 0xa54ff53a, 0x510e527f, 0x9b05688c, 0x1f83d9ab, 0x5be0cd19]
  }

  // ---- the standard ---------------------------------------------------------

  /** Addition modulo 2^32. */
  function Add(x: Word, y: Word): Word { x + y }

  // Section 4.1.2, with ROTR as a rotation.
  function Ch(x: Word, y: Word, z: Word): Word { (x & y) ^ (!x & z) }
  function Maj(x: Word, y: Word, z: Word): Word { (x & y) ^ (x & z) ^ (y & z) }
  function BigSigma0(x: Word): Word { x.RotateRight(2) ^ x.RotateRight(13) ^ x.RotateRight(22) }
  function BigSigma1(x: Word): Word { x.RotateRight(6) ^ x.RotateRight(11) ^ x.RotateRight(25) }
  function SmallSigma0(x: Word): Word { x.RotateRight(7) ^ x.RotateRight(18) ^ (x >> 3) }
  function SmallSigma1(x: Word): Word { x.RotateRight(17) ^ x.RotateRight(19) ^ (x >> 10) }

  function BigEndianWord(b0: Byte, b1: Byte, b2: Byte, b3: Byte): Word {
    ((b0 as Word) << 24) | ((b1 as Word) << 16) | ((b2 as Word) << 8) | (b3 as Word)
  }

  function ScheduleStep(w2: Word, w7: Word, w15: Word, w16: Word): Word {
    Add(Add(Add(SmallSigma1(w2), w7), SmallSigma0(w15)), w16)
  }

  /** Section 6.2.2, step 1: the message schedule of one block. */
  function Schedule(block: seq<Byte>, t: nat): Word
    requires |block| == BLOCK
  {
    if t < 16 then BigEndianWord(block[4 * t], block[4 * t + 1], block[4 * t + 2], block[4 * t + 3])
    else ScheduleStep(Schedule(block, t - 2), Schedule(block, t - 7), Schedule(block, t - 15), Schedule(block, t - 16))
  }

  lemma ScheduleWord(block: seq<Byte>, t: nat)
    requires |block| == BLOCK
    ensures t < 16 ==>
              Schedule(block, t) == BigEndianWord(block[4 * t], block[4 * t + 1], block[4 * t + 2], block[4 * t + 3])
    ensures t >= 16 ==>
              Schedule(block, t) ==
              ScheduleStep(Schedule(block, t - 2), Schedule(block, t - 7), Schedule(block, t - 15), Schedule(block, t - 16))
  {
    hide BigEndianWord, ScheduleStep;
  }

  datatype Working = Working(a: Word, b: Word, c: Word, d: Word, e: Word, f: Word, g: Word, h: Word)

  /** Step 3, once. */
  function Round(v: Working, k: Word, w: Word): Working {
    var t1 := Add(Add(Add(Add(v.h, BigSigma1(v.e)), Ch(v.e, v.f, v.g)), k), w);
    var t2 := Add(BigSigma0(v.a), Maj(v.a, v.b, v.c));
    Working(Add(t1, t2), v.a, v.b, v.c, Add(v.d, t1), v.e, v.f, v.g)
  }

  function Rounds(v: Working, block: seq<Byte>, t: nat): Working
    requires |block| == BLOCK && t <= 64
  {
    if t == 0 then v else Round(Rounds(v, block, t - 1), RoundConstants()[t - 1], Schedule(block, t - 1))
  }

  function WorkingOf(s: seq<Word>): Working
    requires |s| == 8
  {
    Working(s[0], s[1], s[2], s[3], s[4], s[5], s[6], s[7])
  }

  /** Step 4. */
  function AddWords(s: seq<Word>, v: Working): (r: seq<Word>)
    requires |s| == 8
    ensures |r| == 8
  {
    [Add(s[0], v.a), Add(s[1], v.b), Add(s[2], v.c), Add(s[3], v.d),
     Add(s[4], v.e), Add(s[5], v.f), Add(s[6], v.g), Add(s[7], v.h)]
  }

  function Compress(s: seq<Word>, block: seq<Byte>): (r: seq<Word>)
    requires |s| == 8 && |block| == BLOCK
    ensures |r| == 8
  {
    AddWords(s, Rounds(WorkingOf(s), block, 64))
  }

  /** The hash value after all blocks of a padded message. */
  function Process(blocks: seq<Byte>): (s: seq<Word>)
    requires |blocks| % BLOCK == 0
    ensures |s| == 8
  {
    if blocks == [] then Initial()
    else Compress(Process(blocks[..|blocks| - BLOCK]), blocks[|blocks| - BLOCK..])
  }

  function Reverse(s: seq<Byte>): (r: seq<Byte>)
    ensures |r| == |s| && forall k | 0 <= k < |s| :: r[k] == s[|s| - 1 - k]
  {
    if s == [] then [] else Reverse(s[1..]) + [s[0]]
  }

  /** The 64-bit big-endian block that ends the padding; the length is taken modulo
      2^64, which the standard never reaches. */
  function LengthBlock(bytes: nat): (r: seq<Byte>)
    ensures |r| == 8
  {
    Reverse(Le(8 * bytes % U64_LIMIT, 8))
  }

  function Zeros(n: nat): (r: seq<Byte>)
    ensures |r| == n && forall k | 0 <= k < n :: r[k] == 0
  {
    seq(n, k => 0)
  }

  lemma PaddedToBlocks(n: nat)
    ensures (n + 1 + (119 - n % 64) % 64 + 8) % BLOCK == 0
  {
  }

  /** Section 5.1.1: a one bit, the fewest zero bits that leave room for the length
      in the last block, and the length. */
  function Padded(message: seq<Byte>): (r: seq<Byte>)
    ensures |r| % BLOCK == 0
  {
    PaddedToBlocks(|message|);
    message + [0x80] + Zeros((119 - |message| % 64) % 64) + LengthBlock(|message|)
  }

  function WordBytes(w: Word): (r: seq<Byte>)
    ensures |r| == 4
  {
    [((w >> 24) & 0xff) as Byte, ((w >> 16) & 0xff) as Byte, ((w >> 8) & 0xff) as Byte, (w & 0xff) as Byte]
  }

  function OutputBytes(s: seq<Word>): (r: seq<Byte>)
    ensures |r| == 4 * |s|
  {
    if s == [] then [] else OutputBytes(s[..|s| - 1]) + WordBytes(s[|s| - 1])
  }

  /** The digest of a message. */
  function Hash(message: seq<Byte>): (r: seq<Byte>)
    ensures |r| == 32
  {
    OutputBytes(Process(Padded(message)))
  }

  // ---- the program ----------------------------------------------------------

  // The sigma functions as the program writes them, with rotations as two shifts.
  function ShiftBigSigma0(x: Word): Word { ((x >> 2) | (x << 30)) ^ ((x >> 13) | (x << 19)) ^ ((x >> 22) | (x << 10)) }
  function ShiftBigSigma1(x: Word): Word { ((x >> 6) | (x << 26)) ^ ((x >> 11) | (x << 21)) ^ ((x >> 25) | (x << 7)) }
  function ShiftSmallSigma0(x: Word): Word { ((x >> 7) | (x << 25)) ^ ((x >> 18) | (x << 14)) ^ (x >> 3) }
  function ShiftSmallSigma1(x: Word): Word { ((x >> 17) | (x << 15)) ^ ((x >> 19) | (x << 13)) ^ (x >> 10) }

  lemma ShiftsRotate(x: Word)
    ensures ShiftBigSigma0(x) == BigSigma0(x) && ShiftBigSigma1(x) == BigSigma1(x)
    ensures ShiftSmallSigma0(x) == SmallSigma0(x) && ShiftSmallSigma1(x) == SmallSigma1(x)
  {
  }

  lemma ProcessNext(blocks: seq<Byte>, block: seq<Byte>)
    requires |blocks| % BLOCK == 0 && |block| == BLOCK
    ensures Process(blocks + block) == Compress(Process(blocks), block)
  {
    hide Compress;
    var both := blocks + block;
    assert both[..|both| - BLOCK] == blocks && both[|both| - BLOCK..] == block;
  }

  lemma NothingProcessed()
    ensures Process(Whole([])) == Initial() && Rest([]) == []
  {
    hide Initial;
  }

  /** What has been compressed and what is still waiting of the bytes taken in. */
  function Whole(stream: seq<Byte>): (r: seq<Byte>)
    ensures |r| % BLOCK == 0
  {
    stream[..|stream| - |stream| % BLOCK]
  }

  function Rest(stream: seq<Byte>): seq<Byte> {
    stream[|stream| - |stream| % BLOCK..]
  }

  lemma StreamGrows(stream: seq<Byte>, data: seq<Byte>)
    requires |stream| % BLOCK + |data| < BLOCK
    ensures Whole(stream + data) == Whole(stream) && Rest(stream + data) == Rest(stream) + data
  {
    assert (|stream| + |data|) % BLOCK == |stream| % BLOCK + |data|;
  }

  lemma StreamFills(stream: seq<Byte>, data: seq<Byte>)
    requires |stream| % BLOCK + |data| == BLOCK
    ensures Whole(stream + data) == Whole(stream) + (Rest(stream) + data) && Rest(stream + data) == []
  {
    assert (|stream| + |data|) % BLOCK == 0;
    assert Whole(stream) + Rest(stream) == stream;
  }

  class Hasher {
    const state: array<Word>
    const buffer: array<Byte>
    var buffered: nat
    var totalBytes: nat
    var finished: bool
    /** Every byte taken in, padding included, and the message it started with. */
    ghost var stream: seq<Byte>
    ghost var message: seq<Byte>

    /** The chaining value and the buffer account for exactly the bytes taken in. */
    ghost predicate Synced()
      reads this, state, buffer
    {
      && state.Length == 8 && buffer.Length == BLOCK && buffered == |stream| % BLOCK
      && state[..] == Process(Whole(stream)) && buffer[..buffered] == Rest(stream)
    }

    ghost predicate Valid()
      reads this, state, buffer
    {
      && Synced()
      && totalBytes == |stream| % U64_LIMIT
      && stream == if finished then Padded(message) else message
    }

    constructor ()
      ensures Valid() && !finished && message == []
      ensures fresh(state) && fresh(buffer)
    {
      hide *;
      state := new Word[8](i requires 0 <= i < 8 => Initial()[i]);
      buffer := new Byte[BLOCK](i => 0);
      buffered, totalBytes, finished := 0, 0, false;
      stream, message := [], [];
      new;
      assert state[..] == Initial();
      NothingProcessed();
      StartsSynced();
    }

    lemma StartsSynced()
      requires state.Length == 8 && buffer.Length == BLOCK && state[..] == Initial()
      requires buffered == 0 && totalBytes == 0 && !finished && stream == message == []
      ensures Valid()
    {
      NothingProcessed();
      hide Process, Initial, Padded;
    }

    static method ExpandSchedule(block: seq<Byte>) returns (w: seq<Word>)
      requires |block| == BLOCK
      ensures |w| == 64 && forall t | 0 <= t < 64 :: w[t] == Schedule(block, t)
    {
      hide BigEndianWord, ScheduleStep, Schedule;
      w := [];
      for i := 0 to 16
        invariant |w| == i && forall t | 0 <= t < i :: w[t] == Schedule(block, t)
      {
        ScheduleWord(block, i);
        w := w + [BigEndianWord(block[i * 4], block[i * 4 + 1], block[i * 4 + 2], block[i * 4 + 3])];
      }
      for i := 16 to 64
        invariant |w| == i && forall t | 0 <= t < i :: w[t] == Schedule(block, t)
      {
        ScheduleWord(block, i);
        var next := NextWord(w[i - 2], w[i - 7], w[i - 15], w[i - 16]);
        w := w + [next];
      }
    }

    static method NextWord(w2: Word, w7: Word, w15: Word, w16: Word) returns (next: Word)
      ensures next == ScheduleStep(w2, w7, w15, w16)
    {
      hide Add, SmallSigma0, SmallSigma1, ShiftSmallSigma0, ShiftSmallSigma1;
      ShiftsRotate(w2);
      ShiftsRotate(w15);
      next := Add(Add(Add(ShiftSmallSigma1(w2), w7), ShiftSmallSigma0(w15)), w16);
    }

    static method RunRounds(start: Working, block: seq<Byte>, w: seq<Word>) returns (v: Working)
      requires |block| == BLOCK && |w| == 64 && forall t | 0 <= t < 64 :: w[t] == Schedule(block, t)
      ensures v == Rounds(start, block, 64)
    {
      hide Schedule, Round, RoundConstants;
      v := start;
      for i := 0 to 64
        invariant v == Rounds(start, block, i)
      {
        v := OneRound(v, RoundConstants()[i], w[i]);
      }
    }

    /** The body of the round loop, on the eight working variables. */
    static method OneRound(v: Working, k: Word, w: Word) returns (r: Working)
      ensures r == Round(v, k, w)
    {
      hide Add, Ch, Maj, BigSigma0, BigSigma1, ShiftBigSigma0, ShiftBigSigma1;
      var a, b, c, d, e, f, g, h := v.a, v.b, v.c, v.d, v.e, v.f, v.g, v.h;
      ShiftsRotate(e);
      ShiftsRotate(a);
      var t1 := Add(Add(Add(Add(h, ShiftBigSigma1(e)), Ch(e, f, g)), k), w);
      var t2 := Add(ShiftBigSigma0(a), Maj(a, b, c));
      h := g;
      g := f;
      f := e;
      e := Add(d, t1);
      d := c;
      c := b;
      b := a;
      a := Add(t1, t2);
      r := Working(a, b, c, d, e, f, g, h);
    }

    method AddBack(v: Working)
      requires state.Length == 8
      modifies state
      ensures state[..] == AddWords(old(state[..]), v)
    {
      var sum := AddWords(state[..], v);
      hide AddWords;
      for i := 0 to 8
        invariant forall k | 0 <= k < i :: state[k] == sum[k]
      {
        state[i] := sum[i];
      }
      assert state[..] == sum;
    }

    /** src/sha256.cpp, Sha256::compress. */
    method CompressBlock(block: seq<Byte>)
      requires |block| == BLOCK && state.Length == 8
      modifies state
      ensures state[..] == Compress(old(state[..]), block)
    {
      hide Schedule, Rounds, AddWords;
      var w := ExpandSchedule(block);
      var v := Working(state[0], state[1], state[2], state[3], state[4], state[5], state[6], state[7]);
      v := RunRounds(v, block, w);
      AddBack(v);
    }

    /** src/sha256.cpp, Sha256::update. */
    method Update(data: seq<Byte>)
      requires Valid()
      modifies this, state, buffer
      ensures Valid() && finished == old(finished)
      ensures message == if finished then old(message) else old(message) + data
      ensures stream == if finished then old(stream) else old(stream) + data
    {
      hide Process, Padded, Whole, Rest;
      if finished || |data| == 0 {
        assert data == [] ==> stream + data == stream && message + data == message;
        return;
      }
      RemainderOfSum(|stream|, |data|, U64_LIMIT);
      totalBytes := (totalBytes + |data|) % U64_LIMIT;
      Absorb(data);
      message := message + data;
    }

    method Absorb(data: seq<Byte>)
      requires Synced()
      modifies this`buffered, this`stream, state, buffer
      ensures Synced() && stream == old(stream) + data
    {
      hide Synced;
      ghost var taken := stream;
      var offset := 0;
      BufferedIsRemainder();
      NoneTaken(taken, data);
      if buffered > 0 {
        var need := 64 - buffered;
        var take := if |data| < need then |data| else need;
        MoreTaken(taken, data, 0, take);
        Fill(data[0..take]);
        offset := take;
      }
      while |data| - offset >= 64
        invariant 0 <= offset <= |data| && (buffered == 0 || offset == |data|)
        invariant Synced() && stream == taken + data[..offset]
      {
        MoreTaken(taken, data, offset, offset + 64);
        TakeBlock(data[offset..offset + 64]);
        offset := offset + 64;
      }
      MoreTaken(taken, data, offset, |data|);
      if offset < |data| {
        BufferedIsRemainder();
        Fill(data[offset..|data|]);
      }
    }

    static lemma NoneTaken(taken: seq<Byte>, data: seq<Byte>)
      ensures taken + data[..0] == taken
    {
    }

    static lemma MoreTaken(taken: seq<Byte>, data: seq<Byte>, from: nat, to: nat)
      requires from <= to <= |data|
      ensures taken + data[..from] + data[from..to] == taken + data[..to]
      ensures to == |data| ==> data[..to] == data && (from == to ==> data[..from] == data)
    {
    }

    lemma BufferedIsRemainder()
      requires Synced()
      ensures buffered == |stream| % BLOCK
    {
    }

    /** A whole block straight from the input. */
    method TakeBlock(block: seq<Byte>)
      requires Synced() && buffered == 0 && |block| == BLOCK
      modifies this`stream, state
      ensures Synced() && stream == old(stream) + block
    {
      hide Process, Compress;
      CompressBlock(block);
      assert Rest(stream) + block == block;
      StreamFills(stream, block);
      ProcessNext(Whole(stream), Rest(stream) + block);
      stream := stream + block;
    }

    /** A copy into the buffer, and the compression of a full one. */
    method Fill(data: seq<Byte>)
      requires Synced() && buffered + |data| <= BLOCK
      modifies this`buffered, this`stream, state, buffer
      ensures Synced() && stream == old(stream) + data
      ensures buffered == if old(buffered) + |data| == BLOCK then 0 else old(buffered) + |data|
    {
      hide Process, Compress;
      for i := 0 to |data|
        invariant buffered == old(buffered) && stream == old(stream) && state[..] == old(state[..])
        invariant forall k | 0 <= k < i :: buffer[buffered + k] == data[k]
        invariant buffer[..buffered] == Rest(stream)
      {
        buffer[buffered + i] := data[i];
      }
      assert buffer[..buffered + |data|] == Rest(stream) + data;
      buffered := buffered + |data|;
      if buffered == 64 {
        CompressBlock(buffer[..]);
        assert buffer[..] == Rest(stream) + data;
        StreamFills(stream, data);
        ProcessNext(Whole(stream), Rest(stream) + data);
        buffered := 0;
      } else {
        StreamGrows(stream, data);
      }
      stream := stream + data;
    }

    /** src/sha256.cpp, Sha256::finish. */
    method Finish() returns (digest: seq<Byte>)
      requires Valid()
      modifies this, state, buffer
      ensures Valid() && finished && message == old(message)
      ensures digest == Hash(message)
    {
      hide Process, Compress, OutputBytes, Padded;
      if !finished {
        ghost var original := message;
        var bitLength := totalBytes * 8 % U64_LIMIT;
        var padLength := if buffered < 56 then 56 - buffered else 120 - buffered;
        var padding := [0x80] + Zeros(71);
        PaddingIsStandard(original, padLength);
        LengthAgrees(|original|);
        Update(padding[..padLength]);
        var lengthBytes := BigEndianLength(bitLength);
        Update(lengthBytes);
        finished := true;
        message := original;
      }
      assert Whole(stream) == stream;
      digest := Output();
    }

    static method BigEndianLength(bitLength: nat) returns (bytes: seq<Byte>)
      ensures bytes == Reverse(Le(bitLength, 8))
    {
      bytes := [];
      for i := 0 to 8
        invariant |bytes| == i && forall k | 0 <= k < i :: bytes[k] == Le(bitLength, 8)[7 - k]
      {
        LeDigit(bitLength, 8, 7 - i);
        bytes := bytes + [bitLength / Pow256(7 - i) % 256];
      }
    }

    method Output() returns (digest: seq<Byte>)
      requires state.Length == 8
      ensures digest == OutputBytes(state[..])
    {
      hide WordBytes;
      digest := [];
      for i := 0 to 8
        invariant digest == OutputBytes(state[..i])
      {
        assert state[..i + 1][..i] == state[..i];
        digest := digest + WordBytes(state[i]);
      }
      assert state[..8] == state[..];
    }
  }

  lemma PadLength(n: nat)
    ensures var z := (119 - n % 64) % 64;
            (if n % 64 < 56 then 56 - n % 64 else 120 - n % 64) == 1 + z
  {
  }

  lemma LengthAgrees(n: nat)
    ensures Reverse(Le(n % U64_LIMIT * 8 % U64_LIMIT, 8)) == LengthBlock(n)
  {
    hide Reverse, Le;
    RemainderOfScaled(n, 8, U64_LIMIT);
  }

  /** The padding the program appends is the standard's. */
  lemma PaddingIsStandard(message: seq<Byte>, padLength: nat)
    requires padLength == if |message| % 64 < 56 then 56 - |message| % 64 else 120 - |message| % 64
    ensures 1 <= padLength <= 64
    ensures message + ([0x80] + Zeros(71))[..padLength] + LengthBlock(|message|) == Padded(message)
  {
    PadLength(|message|);
    PadBytes(message, padLength);
    hide LengthBlock, Zeros;
  }

  lemma PadBytes(message: seq<Byte>, padLength: nat)
    requires 1 <= padLength <= 64
    ensures message + ([0x80] + Zeros(71))[..padLength] == message + [0x80] + Zeros(padLength - 1)
  {
  }

  /** Sha256::hash. */
  method HashOf(data: seq<Byte>) returns (digest: seq<Byte>)
    ensures digest == Hash(data)
  {
    hide *;
    assert [] + data == data;
    var hasher := new Hasher();
    hasher.Update(data);
    digest := hasher.Finish();
  }

  /** However a message is cut into pieces, and whatever is offered afterwards, the
      streaming digest is that of the whole message. */
  method HashInPieces(pieces: seq<seq<Byte>>, afterwards: seq<Byte>) returns (digest: seq<Byte>)
    ensures digest == Hash(Concat(pieces))
  {
    hide Hash, Padded, Process, Hasher.Synced;
    var hasher := new Hasher();
    for i := 0 to |pieces|
      invariant hasher.Valid() && !hasher.finished && fresh(hasher) && fresh(hasher.state) && fresh(hasher.buffer)
      invariant hasher.message == Concat(pieces[..i])
    {
      hasher.Update(pieces[i]);
      assert pieces[..i + 1][..i] == pieces[..i];
    }
    assert pieces[..|pieces|] == pieces;
    var first := hasher.Finish();
    hasher.Update(afterwards);
    digest := hasher.Finish();
  }

  function Concat(pieces: seq<seq<Byte>>): seq<Byte> {
    if pieces == [] then [] else Concat(pieces[..|pieces| - 1]) + pieces[|pieces| - 1]
  }
}
