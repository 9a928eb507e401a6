// The streaming SHA-256 of psha2.hpp: a 16-word schedule updated in place, four rounds per loop
// turn with renamed variables, and a message that arrives in pieces.
module Sha256 {
  import opened Arithmetic
  import opened Powers
  import opened Sha256Standard

  // The two sums the source computes in one go.
  function Step1(e: Word, f: Word, g: Word): Word {
    Add(Rotr(e, 6) ^ Rotr(e, 11) ^ Rotr(e, 25), (e & f) ^ (!e & g))
  }

  function Step2(a: Word, b: Word, c: Word): Word {
    Add(Rotr(a, 2) ^ Rotr(a, 13) ^ Rotr(a, 22), (a & b) ^ (a & c) ^ (b & c))
  }

  lemma StepsAreSigmas(x: Word, y: Word, z: Word)
    ensures Step1(x, y, z) == Add(BigSigma1(x), Ch(x, y, z))
    ensures Step2(x, y, z) == Add(BigSigma0(x), Maj(x, y, z))
  {
    hide Rotr, Add;
  }

  lemma SmallSigmasAre(a: Word, b: Word)
    ensures SmallSigma0(a) == Rotr(a, 7) ^ Rotr(a, 18) ^ (a >> 3)
    ensures SmallSigma1(b) == Rotr(b, 17) ^ Rotr(b, 19) ^ (b >> 10)
  {
    hide Rotr;
  }

  lemma AddRegroups(h: Word, s: Word, c: Word)
    ensures Add(h, Add(s, c)) == Add(Add(h, s), c)
  {
    PlusRegroups(h, s, c);
    calc {
      Add(h, Add(s, c));
      Add(h, s + c);
      h + (s + c);
      h + s + c;
      Add(h + s, c);
      Add(Add(h, s), c);
    }
  }

  lemma PlusRegroups(h: Word, s: Word, c: Word)
    ensures h + (s + c) == h + s + c
  {
  }

  lemma AddCommutes(x: Word, y: Word)
    ensures Add(x, y) == Add(y, x)
  {
  }

  // temp of the source.
  function Temp(v: Variables, k: Word, w: Word): Word {
    Add(Add(Add(v.h, Step1(v.e, v.f, v.g)), k), w)
  }

  // One of the renamed rounds: what the source assigns to h and d is the new e and the new a.
  lemma RenamedRound(v: Variables, k: Word, w: Word)
    ensures Round(v, k, w) ==
      Variables(Add(Temp(v, k, w), Step2(v.a, v.b, v.c)), v.a, v.b, v.c, Add(Temp(v, k, w), v.d), v.e, v.f, v.g)
  {
    hide Add, BigSigma0, BigSigma1, Ch, Maj, Step1, Step2;
    StepsAreSigmas(v.e, v.f, v.g);
    StepsAreSigmas(v.a, v.b, v.c);
    AddRegroups(v.h, BigSigma1(v.e), Ch(v.e, v.f, v.g));
    AddCommutes(v.d, Temp(v, k, w));
  }

  lemma NextRound(v: Variables, block: seq<Byte>, t: nat)
    requires |block| == 64 && t < 64
    ensures Rounds(v, block, t + 1) == Round(Rounds(v, block, t), K(t), W(block, t))
  {
    hide Round, W;
  }

  // Slot l of the 16-word schedule after j of its words have been advanced to the block of rounds
  // that starts at i.
  function Slot(block: seq<Byte>, i: nat, j: nat, l: nat): Word
    requires |block| == 64 && i % 16 == 0 && l < 16
  {
    if l < j then W(block, i + l) else if i >= 16 then W(block, i - 16 + l) else 0
  }

  lemma ScheduleStep(block: seq<Byte>, i: nat, j: nat)
    requires |block| == 64 && i % 16 == 0 && i >= 16 && j < 16
    ensures W(block, i + j) == Add(Slot(block, i, j, j), Add(Add(Slot(block, i, j, (j + 9) % 16),
      SmallSigma0(Slot(block, i, j, (j + 1) % 16))), SmallSigma1(Slot(block, i, j, (j + 14) % 16))))
  {
    hide SmallSigma0, SmallSigma1, ToWord, Add, W;
    var t := i + j;
    assert (j + 1) % 16 == if j == 15 then 0 else j + 1;
    assert (j + 9) % 16 == if j >= 7 then j - 7 else j + 9;
    assert (j + 14) % 16 == if j >= 2 then j - 2 else j + 14;
    ScheduleRecurrence(block, t);
  }

  lemma ScheduleRecurrence(block: seq<Byte>, t: nat)
    requires |block| == 64 && t >= 16
    ensures W(block, t) ==
      Add(W(block, t - 16), Add(Add(W(block, t - 7), SmallSigma0(W(block, t - 15))), SmallSigma1(W(block, t - 2))))
  {
    hide SmallSigma0, SmallSigma1, ToWord, Add;
    AddFour(SmallSigma1(W(block, t - 2)), W(block, t - 7), SmallSigma0(W(block, t - 15)), W(block, t - 16));
  }

  lemma AddFour(s1: Word, w7: Word, s0: Word, w16: Word)
    ensures Add(w16, Add(Add(w7, s0), s1)) == Add(Add(Add(s1, w7), s0), w16)
  {
    hide Add;
    AddCommutes(Add(w7, s0), s1);
    AddRegroups(s1, w7, s0);
    AddCommutes(w16, Add(Add(s1, w7), s0));
  }

  // Advances the schedule by 16 words.
  method UpdateW(w: array<Word>, i: nat, buffer: array<Byte>)
    requires w.Length == 16 && buffer.Length == 64 && i % 16 == 0
    requires forall l :: 0 <= l < 16 ==> w[l] == Slot(buffer[..], i, 0, l)
    modifies w
    ensures forall l :: 0 <= l < 16 ==> w[l] == W(buffer[..], i + l)
  {
    hide ToWord, W, Rotr, SmallSigma0, SmallSigma1, Add;
    ghost var block := buffer[..];
    for j: nat := 0 to 16
      invariant forall l :: 0 <= l < 16 ==> w[l] == Slot(block, i, j, l)
    {
      if i < 16 {
        FirstWords(block, j);
        w[j] := ToWord(buffer[4 * j], buffer[4 * j + 1], buffer[4 * j + 2], buffer[4 * j + 3]);
      } else {
        ScheduleStep(block, i, j);
        var a := w[(j + 1) % 16];
        var b := w[(j + 14) % 16];
        SmallSigmasAre(a, b);
        var s0 := Rotr(a, 7) ^ Rotr(a, 18) ^ (a >> 3);
        var s1 := Rotr(b, 17) ^ Rotr(b, 19) ^ (b >> 10);
        w[j] := Add(w[j], Add(Add(w[(j + 9) % 16], s0), s1));
      }
    }
  }

  lemma FirstWords(block: seq<Byte>, j: nat)
    requires |block| == 64 && j < 16
    ensures W(block, j) == ToWord(block[4 * j], block[4 * j + 1], block[4 * j + 2], block[4 * j + 3])
  {
  }

  lemma NoRounds(v: Variables, block: seq<Byte>)
    requires |block| == 64
    ensures Rounds(v, block, 0) == v
  {
  }

  lemma Sums(h: seq<Word>, v: Variables)
    requires |h| == 8
    ensures Add(h[0], v.a) == Add(v.a, h[0]) && Add(h[1], v.b) == Add(v.b, h[1]) && Add(h[2], v.c) == Add(v.c, h[2])
    ensures Add(h[3], v.d) == Add(v.d, h[3]) && Add(h[4], v.e) == Add(v.e, h[4]) && Add(h[5], v.f) == Add(v.f, h[5])
    ensures Add(h[6], v.g) == Add(v.g, h[6]) && Add(h[7], v.h) == Add(v.h, h[7])
  {
    hide Add;
    AddCommutes(h[0], v.a);
    AddCommutes(h[1], v.b);
    AddCommutes(h[2], v.c);
    AddCommutes(h[3], v.d);
    AddCommutes(h[4], v.e);
    AddCommutes(h[5], v.f);
    AddCommutes(h[6], v.g);
    AddCommutes(h[7], v.h);
  }

  lemma NextRounds(v: Variables, block: seq<Byte>, t: nat)
    requires |block| == 64 && t + 4 <= 64
    ensures Rounds(v, block, t + 4) == Round(Round(Round(Round(Rounds(v, block, t),
      K(t), W(block, t)), K(t + 1), W(block, t + 1)), K(t + 2), W(block, t + 2)), K(t + 3), W(block, t + 3))
  {
    hide *;
    NextRound(v, block, t);
    NextRound(v, block, t + 1);
    NextRound(v, block, t + 2);
    NextRound(v, block, t + 3);
  }

  lemma CountBits(l: nat)
    ensures (8 * l % LENGTH_LIMIT + 8) % LENGTH_LIMIT == 8 * (l + 1) % LENGTH_LIMIT
  {
    var q, r := 8 * l / LENGTH_LIMIT, 8 * l % LENGTH_LIMIT;
    assert 8 * (l + 1) == LENGTH_LIMIT * q + (r + 8);
  }

  lemma SmallRemainder(x: nat)
    requires x < LENGTH_LIMIT
    ensures x % LENGTH_LIMIT == x
  {
  }

  lemma HashNext(m: seq<Byte>)
    requires |m| >= 64 && |m| % 64 == 0
    ensures HashBlocks(m) == Compress(HashBlocks(m[..|m| - 64]), m[|m| - 64..])
  {
  }

  lemma SameZeros(l: nat, x: nat, y: nat)
    requires x <= y < 64 && (l + 1 + x) % 64 == 56 && (l + 1 + y) % 64 == 56
    ensures x == y
  {
  }

  lemma RemainderIs(n: nat, c: nat)
    requires c <= n && (n - c) % 64 == 0 && c < 64
    ensures c == n % 64
  {
  }

  lemma NoZeros(m: seq<Byte>)
    ensures m + Zeros(0) == m
  {
  }

  lemma MoreZeros(m: seq<Byte>, z: nat)
    ensures m + Zeros(z) + [0] == m + Zeros(z + 1)
  {
    assert Zeros(z) + [0] == Zeros(z + 1);
  }

  lemma ZeroCountIs(l: nat)
    ensures (l + 1 + ZeroCount(l)) % 64 == 56 && ZeroCount(l) < 64
  {
  }

  lemma DigestIs(m: seq<Byte>)
    requires 8 * |m| < LENGTH_LIMIT
    ensures Digest(m) == Bytes(HashBlocks(Padded(m)))
  {
  }

  // Byte i of a number, counted from the least significant one, is what the shifts pick.
  lemma {:induction false} BigEndianAt(x: nat, bytes: nat, i: nat)
    requires i < bytes
    ensures BigEndian(x, bytes)[bytes - 1 - i] == (x / Power256(i) % 256) as Byte
  {
    if i > 0 {
      BigEndianAt(x / 256, bytes - 1, i - 1);
      DivideTwice(x, Power256(i - 1));
    }
  }

  lemma NoBytes()
    ensures Bytes([]) == []
  {
  }

  lemma WordBytesAt(w: Word, j: nat)
    requires j < 4
    ensures WordBytes(w)[..4 - j] == WordBytes(w)[..3 - j] + [ByteOf(w, j)]
  {
    hide ByteOf;
  }

  lemma MoreBytes(h: seq<Word>, i: nat)
    requires i < |h|
    ensures Bytes(h[..i + 1]) == Bytes(h[..i]) + WordBytes(h[i])
  {
    assert h[..i + 1][..i] == h[..i];
  }

  // The bytes of a word determine it.
  lemma WordRoundTrip(w: Word)
    ensures ToWord(ByteOf(w, 3), ByteOf(w, 2), ByteOf(w, 1), ByteOf(w, 0)) == w
  {
  }

  // Flattened pieces of a message.
  function Flatten(chunks: seq<seq<Byte>>): seq<Byte> {
    if chunks == [] then [] else Flatten(chunks[..|chunks| - 1]) + chunks[|chunks| - 1]
  }

  lemma NoChunks(chunks: seq<seq<Byte>>)
    ensures Flatten(chunks[..0]) == []
  {
  }

  lemma MoreChunks(chunks: seq<seq<Byte>>, i: nat)
    requires i < |chunks|
    ensures Flatten(chunks[..i + 1]) == Flatten(chunks[..i]) + chunks[i]
  {
    assert chunks[..i + 1][..i] == chunks[..i];
  }

  class Hasher {
    const state: array<Word>
    var nBits: nat
    var bufferCounter: nat
    const buffer: array<Byte>
    ghost var message: seq<Byte>

    ghost predicate Valid()
      reads this, state, buffer
    {
      && state.Length == 8 && buffer.Length == 64 && bufferCounter < 64
      && nBits == 8 * |message| % LENGTH_LIMIT
      && bufferCounter <= |message| && (|message| - bufferCounter) % 64 == 0
      && buffer[..bufferCounter] == message[|message| - bufferCounter..]
      && state[..] == HashBlocks(message[..|message| - bufferCounter])
    }

    constructor ()
      ensures Valid() && message == [] && fresh(state) && fresh(buffer)
    {
      var h := new Word[8](i requires 0 <= i < 8 => INITIAL[i]);
      var b := new Byte[64](_ => 0);
      state, buffer := h, b;
      nBits, bufferCounter := 0, 0;
      message := [];
      new;
      assert state[..] == INITIAL;
    }

    // Four rounds; the variables change their roles from round to round.
    static method FourRounds(v0: Variables, k: seq<Word>, w: seq<Word>) returns (v: Variables)
      requires |k| == 4 && |w| == 4
      ensures v == Round(Round(Round(Round(v0, k[0], w[0]), k[1], w[1]), k[2], w[2]), k[3], w[3])
    {
      hide Add, Step1, Step2, Round;
      var a, b, c, d, e, f, g, h := v0.a, v0.b, v0.c, v0.d, v0.e, v0.f, v0.g, v0.h;
      RenamedRound(Variables(a, b, c, d, e, f, g, h), k[0], w[0]);
      var temp := Add(Add(Add(h, Step1(e, f, g)), k[0]), w[0]);
      h := Add(temp, d);
      d := Add(temp, Step2(a, b, c));
      RenamedRound(Variables(d, a, b, c, h, e, f, g), k[1], w[1]);
      temp := Add(Add(Add(g, Step1(h, e, f)), k[1]), w[1]);
      g := Add(temp, c);
      c := Add(temp, Step2(d, a, b));
      RenamedRound(Variables(c, d, a, b, g, h, e, f), k[2], w[2]);
      temp := Add(Add(Add(f, Step1(g, h, e)), k[2]), w[2]);
      f := Add(temp, b);
      b := Add(temp, Step2(c, d, a));
      RenamedRound(Variables(b, c, d, a, f, g, h, e), k[3], w[3]);
      temp := Add(Add(Add(e, Step1(f, g, h)), k[3]), w[3]);
      e := Add(temp, a);
      a := Add(temp, Step2(b, c, d));
      v := Variables(a, b, c, d, e, f, g, h);
    }

    // The 64 rounds on the buffered block.
    method Mix(v0: Variables) returns (v: Variables)
      requires buffer.Length == 64
      ensures v == Rounds(v0, buffer[..], 64)
    {
      hide Round, W, Rounds;
      ghost var block := buffer[..];
      var w := new Word[16](_ => 0);
      v := v0;
      NoRounds(v0, block);
      var i: nat := 0;
      while i < 64
        invariant i <= 64 && i % 16 == 0 && v == Rounds(v0, block, i)
        invariant forall l :: 0 <= l < 16 ==> w[l] == Slot(block, i, 0, l)
      {
        UpdateW(w, i, buffer);
        v := SixteenRounds(v0, v, i, w[..], block);
        i := i + 16;
      }
    }

    static method SixteenRounds(ghost v0: Variables, v1: Variables, i: nat, w: seq<Word>, ghost block: seq<Byte>)
      returns (v: Variables)
      requires |w| == 16 && |block| == 64 && i + 16 <= 64 && v1 == Rounds(v0, block, i)
      requires forall l :: 0 <= l < 16 ==> w[l] == W(block, i + l)
      ensures v == Rounds(v0, block, i + 16)
    {
      hide *;
      v := v1;
      var j: nat := 0;
      while j < 16
        invariant j <= 16 && j % 4 == 0 && v == Rounds(v0, block, i + j)
      {
        NextRounds(v0, block, i + j);
        var t := i + j;
        v := FourRounds(v, [K(t), K(t + 1), K(t + 2), K(t + 3)], [w[j], w[j + 1], w[j + 2], w[j + 3]]);
        j := j + 4;
      }
    }

    // One block.
    method Block()
      requires state.Length == 8 && buffer.Length == 64
      modifies state
      ensures state[..] == Compress(old(state[..]), buffer[..])
    {
      hide Rounds, Add;
      ghost var h := state[..];
      var v := Mix(Load(state[..]));
      Sums(h, v);
      state[0] := Add(state[0], v.a);
      state[1] := Add(state[1], v.b);
      state[2] := Add(state[2], v.c);
      state[3] := Add(state[3], v.d);
      state[4] := Add(state[4], v.e);
      state[5] := Add(state[5], v.f);
      state[6] := Add(state[6], v.g);
      state[7] := Add(state[7], v.h);
    }

    method AppendByte(byte: Byte)
      requires Valid()
      modifies this, state, buffer
      ensures Valid() && message == old(message) + [byte]
    {
      hide Compress, HashBlocks;
      ghost var start := |message| - bufferCounter;
      buffer[bufferCounter] := byte;
      bufferCounter := bufferCounter + 1;
      nBits := (nBits + 8) % LENGTH_LIMIT;
      message := message + [byte];
      CountBits(old(|message|));
      assert buffer[..bufferCounter] == message[start..];
      assert message[..start] == old(message)[..start];
      if bufferCounter == 64 {
        bufferCounter := 0;
        assert buffer[..] == message[start..];
        HashNext(message);
        Block();
        assert message[..|message|] == message;
      }
    }

    // Any piece of a message.
    method Append(src: seq<Byte>)
      requires Valid()
      modifies this, state, buffer
      ensures Valid() && message == old(message) + src
    {
      hide *;
      for i := 0 to |src|
        invariant Valid() && message == old(message) + src[..i]
      {
        AppendByte(src[i]);
        assert src[..i + 1] == src[..i] + [src[i]];
      }
      assert src[..|src|] == src;
    }

    // A message in any number of pieces.
    method AppendAll(chunks: seq<seq<Byte>>)
      requires Valid()
      modifies this, state, buffer
      ensures Valid() && message == old(message) + Flatten(chunks)
    {
      hide *;
      NoChunks(chunks);
      for i := 0 to |chunks|
        invariant Valid() && message == old(message) + Flatten(chunks[..i])
      {
        MoreChunks(chunks, i);
        Append(chunks[i]);
      }
      assert chunks[..|chunks|] == chunks;
    }

    // Zeros until 8 bytes of the block are left; the loop ends because the counter runs through all
    // values.
    method PadZeros(ghost m: seq<Byte>)
      requires Valid() && message == m + [0x80]
      modifies this, state, buffer
      ensures Valid() && message == m + [0x80] + Zeros(ZeroCount(|m|))
      ensures nBits == 8 * |message| % LENGTH_LIMIT
    {
      hide *;
      ghost var z := 0;
      CounterIs();
      NoZeros(m + [0x80]);
      ZeroCountIs(|m|);
      while bufferCounter != 64 - 8
        invariant Valid() && z <= ZeroCount(|m|) && message == m + [0x80] + Zeros(z) && |message| == |m| + 1 + z
        invariant bufferCounter == (|m| + 1 + z) % 64
        decreases ZeroCount(|m|) - z
      {
        AppendByte(0);
        MoreZeros(m + [0x80], z);
        z := z + 1;
        CounterIs();
      }
      SameZeros(|m|, z, ZeroCount(|m|));
      CounterIs();
    }

    // The number of bits, the most significant byte first.
    method PadLength(nb: nat)
      requires Valid()
      modifies this, state, buffer
      ensures Valid() && message == old(message) + BigEndian(nb, 8)
    {
      hide *;
      ghost var base, bytes := message, BigEndian(nb, 8);
      var i: nat := 8;
      while i > 0
        invariant i <= 8 && Valid() && message == base + bytes[..8 - i]
      {
        i := i - 1;
        BigEndianAt(nb, 8, i);
        AppendByte((nb / Power256(i) % 256) as Byte);
        assert bytes[..8 - i] == bytes[..7 - i] + [bytes[7 - i]];
      }
      assert bytes[..8] == bytes;
    }

    // Appends the padding.
    method Finalize()
      requires Valid() && 8 * |message| < LENGTH_LIMIT
      modifies this, state, buffer
      ensures Valid() && bufferCounter == 0 && message == Padded(old(message))
    {
      hide Compress, HashBlocks, BigEndian, ZeroCount, Zeros, Valid;
      ghost var m := message;
      SmallRemainder(8 * |m|);
      CounterIs();
      var nb := nBits;
      AppendByte(0x80);
      PadZeros(m);
      PadLength(nb);
      CounterIs();
    }

    lemma CounterIs()
      requires Valid()
      ensures bufferCounter == |message| % 64 && nBits == 8 * |message| % LENGTH_LIMIT
    {
      hide HashBlocks;
      RemainderIs(|message|, bufferCounter);
    }

    lemma HashIs()
      requires Valid() && bufferCounter == 0
      ensures state.Length == 8 && |message| % 64 == 0 && state[..] == HashBlocks(message)
    {
      hide HashBlocks;
      assert message[..|message|] == message;
    }

    // The digest of everything appended.
    method FinalizeBytes(dst: array<Byte>)
      requires Valid() && 8 * |message| < LENGTH_LIMIT && dst.Length == 32 && dst != buffer
      modifies this, state, buffer, dst
      ensures dst[..] == Digest(old(message))
    {
      hide *;
      ghost var m := message;
      Finalize();
      HashIs();
      DigestIs(m);
      ghost var h := state[..];
      var p: nat := 0;
      NoBytes();
      for i: nat := 0 to 8
        modifies dst
        invariant p == 4 * i && dst[..p] == Bytes(h[..i])
      {
        var j: nat := 4;
        while j > 0
          invariant j <= 4 && p == 4 * i + 4 - j && dst[..p] == Bytes(h[..i]) + WordBytes(h[i])[..4 - j]
        {
          j := j - 1;
          WordBytesAt(h[i], j);
          dst[p] := ByteOf(state[i], j);
          p := p + 1;
        }
        MoreBytes(h, i);
      }
      assert h[..8] == h && dst[..32] == dst[..];
    }
  }

  // However a message is cut into pieces, the result is the digest of the standard.
  method HashChunks(chunks: seq<seq<Byte>>) returns (digest: array<Byte>)
    requires 8 * |Flatten(chunks)| < LENGTH_LIMIT
    ensures digest[..] == Digest(Flatten(chunks))
  {
    hide *;
    digest := new Byte[32](_ => 0);
    var s := new Hasher();
    s.AppendAll(chunks);
    assert s.message == Flatten(chunks);
    s.FinalizeBytes(digest);
  }
}
