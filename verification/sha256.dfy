/**
 * sha256_compute of src/rnode.c against FIPS 180-4: padding (section 5.1.1), message schedule and
 * compression (section 6.2.2).
 */
module Sha256 {
  import opened Bytes

  type word = bv32

  const K: seq<word> :=
    [0x428a2f98, 0x71374491, 0xb5c0fbcf, 0xe9b5dba5, 0x3956c25b, 0x59f111f1, 0x923f82a4, 0xab1c5ed5,
     0xd807aa98, 0x12835b01, 0x243185be, 0x550c7dc3, 0x72be5d74, 0x80deb1fe, 0x9bdc06a7, 0xc19bf174] +
    [0xe49b69c1, 0xefbe4786, 0x0fc19dc6, 0x240ca1cc, 0x2de92c6f, 0x4a7484aa, 0x5cb0a9dc, 0x76f988da,
     0x983e5152, 0xa831c66d, 0xb00327c8, 0xbf597fc7, 0xc6e00bf3, 0xd5a79147, 0x06ca6351, 0x14292967] +
    [0x27b70a85, 0x2e1b2138, 0x4d2c6dfc, 0x53380d13, 0x650a7354, 0x766a0abb, 0x81c2c92e, 0x92722c85,
     0xa2bfe8a1, 0xa81a664b, 0xc24b8b70, 0xc76c51a3, 0xd192e819, 0xd6990624, 0xf40e3585, 0x106aa070] +
    [0x19a4c116, 0x1e376c08, 0x2748774c, 0x34b0bcb5, 0x391c0cb3, 0x4ed8aa4a, 0x5b9cca4f, 0x682e6ff3,
     0x748f82ee, 0x78a5636f, 0x84c87814, 0x8cc70208, 0x90befffa, 0xa4506ceb, 0xbef9a3f7, 0xc67178f2]

  // ---- padding ----

  function PaddedLength(len: nat): nat {
    ((len + 8) / 64 + 1) * 64
  }

  /** C's (uint8_t) cast. */
  function Low(n: nat): byte {
    (n % 256) as byte
  }

  /** The k low-order bytes of n, most significant first. */
  function BigEndian(n: nat, k: nat): seq<byte> {
    if k == 0 then [] else BigEndian(n / 256, k - 1) + [Low(n)]
  }

  function Zeros(n: nat): seq<byte> {
    seq(n, i => 0)
  }

  /** M || 0x80 || zeros || the bit length as 64 bits. */
  function Pad(m: seq<byte>): seq<byte>
  {
    m + [0x80] + Zeros(PaddedLength(|m|) - |m| - 9) + BigEndian(8 * |m|, 8)
  }

  lemma {:induction false} BigEndianLength(n: nat, k: nat)
    ensures |BigEndian(n, k)| == k
  {
    if k > 0 { BigEndianLength(n / 256, k - 1); }
  }

  /** The padded length is the least multiple of the block length with room for the fixed 9 bytes. */
  lemma {:induction false} PaddedLengthLeast(len: nat, n: nat)
    ensures PaddedLength(len) % 64 == 0 && PaddedLength(len) >= len + 9
    ensures n % 64 == 0 && n >= len + 9 ==> PaddedLength(len) <= n
  {
  }

  lemma {:induction false} PadLength(m: seq<byte>)
    ensures |Pad(m)| == PaddedLength(|m|)
  {
    BigEndianLength(8 * |m|, 8);
    PaddedLengthLeast(|m|, 0);
  }

  lemma {:induction false} PadAt(m: seq<byte>)
    ensures |Pad(m)| == PaddedLength(|m|) >= |m| + 9
    ensures Pad(m)[|m|] == 0x80
    ensures forall i :: |m| < i < |Pad(m)| - 8 ==> Pad(m)[i] == 0
  {
    PadLength(m);
    PaddedLengthLeast(|m|, 0);
  }

  /** Padding is injective: behind the message come 0x80 and zeros only, up to the length field. */
  lemma {:induction false} PadInjective(a: seq<byte>, b: seq<byte>)
    requires Pad(a) == Pad(b)
    ensures a == b
  {
    PadLength(a);
    PadLength(b);
    PadAt(a);
    PadAt(b);
    if |a| == |b| {
      assert a == Pad(a)[..|a|];
      assert b == Pad(b)[..|b|];
    }
  }

  // ---- schedule and compression ----

  /** Addition modulo 2^32. */
  function Add(x: word, y: word): word {
    x + y
  }

  function Shr(x: word, n: word): word
    requires n < 32
  {
    x >> n
  }

  function Shl(x: word, n: word): word
    requires n < 32
  {
    x << n
  }

  function Rotr(x: word, n: word): word
    requires 0 < n < 32
  {
    Shr(x, n) | Shl(x, 32 - n)
  }

  function Ch(x: word, y: word, z: word): word {
    (x & y) ^ (!x & z)
  }

  function Maj(x: word, y: word, z: word): word {
    (x & y) ^ (x & z) ^ (y & z)
  }

  function Ep0(x: word): word {
    Rotr(x, 2) ^ Rotr(x, 13) ^ Rotr(x, 22)
  }

  function Ep1(x: word): word {
    Rotr(x, 6) ^ Rotr(x, 11) ^ Rotr(x, 25)
  }

  function Sig0(x: word): word {
    Rotr(x, 7) ^ Rotr(x, 18) ^ Shr(x, 3)
  }

  function Sig1(x: word): word {
    Rotr(x, 17) ^ Rotr(x, 19) ^ Shr(x, 10)
  }

  function RoundConstant(i: nat): word
    requires i < 64
  {
    K[i]
  }

  /** Four bytes as a word, most significant first. */
  function Word(a: byte, b: byte, c: byte, d: byte): word {
    Shl(a as word, 24) | Shl(b as word, 16) | Shl(c as word, 8) | d as word
  }

  function WordBytes(x: word): seq<byte> {
    [(Shr(x, 24) & 0xFF) as byte, (Shr(x, 16) & 0xFF) as byte, (Shr(x, 8) & 0xFF) as byte, (x & 0xFF) as byte]
  }

  function Expand(w2: word, w7: word, w15: word, w16: word): word {
    Add(Add(Add(Sig1(w2), w7), Sig0(w15)), w16)
  }

  /** The first n words of the message schedule of the block at `at`. */
  function Schedule(b: seq<byte>, at: nat, n: nat): (w: seq<word>)
    requires at + 64 <= |b| && n <= 64
    ensures |w| == n
  {
    if n == 0 then []
    else
      var w, i := Schedule(b, at, n - 1), n - 1;
      var p := at + 4 * i;
      w + [if i < 16 then Word(b[p], b[p + 1], b[p + 2], b[p + 3])
           else Expand(w[i - 2], w[i - 7], w[i - 15], w[i - 16])]
  }

  /** The eight working variables, or the hash value. */
  datatype Regs = Regs(a: word, b: word, c: word, d: word, e: word, f: word, g: word, h: word)

  const H0: Regs := Regs(0x6a09e667, 0xbb67ae85, 0x3c6ef372, 0xa54ff53a,
                         0x510e527f, 0x9b05688c, 0x1f83d9ab, 0x5be0cd19)

  function Round(r: Regs, k: word, w: word): Regs {
    var t1 := Add(Add(Add(Add(r.h, Ep1(r.e)), Ch(r.e, r.f, r.g)), k), w);
    var t2 := Add(Ep0(r.a), Maj(r.a, r.b, r.c));
    Regs(Add(t1, t2), r.a, r.b, r.c, Add(r.d, t1), r.e, r.f, r.g)
  }

  function Rounds(r: Regs, w: seq<word>, n: nat): Regs
    requires n <= 64 && |w| == 64
  {
    if n == 0 then r else Round(Rounds(r, w, n - 1), RoundConstant(n - 1), w[n - 1])
  }

  function AddRegs(x: Regs, y: Regs): Regs {
    Regs(Add(x.a, y.a), Add(x.b, y.b), Add(x.c, y.c), Add(x.d, y.d),
         Add(x.e, y.e), Add(x.f, y.f), Add(x.g, y.g), Add(x.h, y.h))
  }

  function Compress(h: Regs, b: seq<byte>, at: nat): Regs
    requires at + 64 <= |b|
  {
    AddRegs(h, Rounds(h, Schedule(b, at, 64), 64))
  }

  /** The hash value after the first n blocks. */
  function Blocks(b: seq<byte>, n: nat): Regs
    requires 64 * n <= |b|
  {
    if n == 0 then H0 else Compress(Blocks(b, n - 1), b, 64 * (n - 1))
  }

  function RegsSeq(r: Regs): seq<word> {
    [r.a, r.b, r.c, r.d, r.e, r.f, r.g, r.h]
  }

  function AllBytes(ws: seq<word>): seq<byte> {
    if ws == [] then [] else AllBytes(ws[..|ws| - 1]) + WordBytes(ws[|ws| - 1])
  }

  function Digest(m: seq<byte>): seq<byte> {
    PadLength(m);
    PaddedLengthLeast(|m|, 0);
    AllBytes(RegsSeq(Blocks(Pad(m), |Pad(m)| / 64)))
  }

  // ---- the code, in place ----

  method PadMessage(data: seq<byte>) returns (msg: array<byte>)
    ensures fresh(msg) && msg[..] == Pad(data)
  {
    hide BigEndian;
    msg := CopyMessage(data);
    WriteLength(msg, |data| * 8, 8);
    assert msg[..] == msg[..msg.Length - 8] + msg[msg.Length - 8..];
  }

  /** calloc, memcpy and the 0x80 byte. */
  method CopyMessage(data: seq<byte>) returns (msg: array<byte>)
    ensures fresh(msg) && msg.Length == PaddedLength(|data|) >= |data| + 9
    ensures msg[..msg.Length - 8] == data + [0x80] + Zeros(msg.Length - |data| - 9)
  {
    var len := |data|;
    PaddedLengthLeast(len, 0);
    var paddedLen := ((len + 8) / 64 + 1) * 64;
    msg := new byte[paddedLen](i => 0);
    forall i | 0 <= i < len {
      msg[i] := data[i];
    }
    msg[len] := 0x80;
  }

  /** bit_len >> (8 * i). */
  function Shifted(n: nat, i: nat): nat {
    if i == 0 then n else Shifted(n, i - 1) / 256
  }

  lemma {:induction false} BigEndianStep(n: nat, k: nat, after: seq<byte>)
    requires k > 0
    ensures BigEndian(n, k) + after == BigEndian(n / 256, k - 1) + ([Low(n)] + after)
  {
  }

  /** The loop that stores the bit length, in k bytes. */
  method WriteLength(msg: array<byte>, bitLen: nat, k: nat)
    requires msg.Length >= k
    modifies msg
    ensures msg[..msg.Length - k] == old(msg[..msg.Length - k])
    ensures msg[msg.Length - k..] == BigEndian(bitLen, k)
  {
    hide Low, BigEndian;
    var n := msg.Length;
    var i := 0;
    assert msg[n..] == [];
    while i < k
      invariant 0 <= i <= k
      invariant msg[..n - k] == old(msg[..n - k])
      invariant BigEndian(bitLen, k) == BigEndian(Shifted(bitLen, i), k - i) + msg[n - i..]
    {
      var shifted := Shifted(bitLen, i);
      ghost var after := msg[n - i..];
      msg[n - 1 - i] := Low(shifted);
      assert Shifted(bitLen, i + 1) == shifted / 256;
      BigEndianStep(shifted, k - i, after);
      assert msg[n - 1 - i..] == [Low(shifted)] + after;
      i := i + 1;
    }
    BigEndianLength(Shifted(bitLen, k), 0);
  }

  /** The two loops that fill w. */
  method FillSchedule(msg: array<byte>, offset: nat, w: array<word>)
    requires offset + 64 <= msg.Length && w.Length == 64
    modifies w
    ensures w[..] == Schedule(msg[..], offset, 64)
  {
    hide Word, Expand;
    var i := 0;
    while i < 16
      invariant 0 <= i <= 16
      invariant w[..i] == Schedule(msg[..], offset, i)
    {
      var p := offset + 4 * i;
      w[i] := Word(msg[p], msg[p + 1], msg[p + 2], msg[p + 3]);
      i := i + 1;
    }
    while i < 64
      invariant 16 <= i <= 64
      invariant w[..i] == Schedule(msg[..], offset, i)
    {
      w[i] := Expand(w[i - 2], w[i - 7], w[i - 15], w[i - 16]);
      i := i + 1;
    }
    assert w[..64] == w[..];
  }

  /** The body of the 64-round loop. */
  method OneRound(r: Regs, k: word, w: word) returns (next: Regs)
    ensures next == Round(r, k, w)
  {
    hide Add, Ep0, Ep1, Ch, Maj;
    var a, b, c, d := r.a, r.b, r.c, r.d;
    var e, f, g, hh := r.e, r.f, r.g, r.h;
    var t1 := Add(Add(Add(Add(hh, Ep1(e)), Ch(e, f, g)), k), w);
    var t2 := Add(Ep0(a), Maj(a, b, c));
    hh := g; g := f; f := e; e := Add(d, t1);
    d := c; c := b; b := a; a := Add(t1, t2);
    next := Regs(a, b, c, d, e, f, g, hh);
  }

  /** What the array h holds. */
  function RegsOf(h: seq<word>): Regs
    requires |h| == 8
  {
    Regs(h[0], h[1], h[2], h[3], h[4], h[5], h[6], h[7])
  }

  /** The compression of one block, with the hash value in h. */
  method CompressBlock(h: array<word>, w: array<word>)
    requires h.Length == 8 && w.Length == 64 && h != w
    modifies h
    ensures h[..] == RegsSeq(AddRegs(RegsOf(old(h[..])), Rounds(RegsOf(old(h[..])), w[..], 64)))
  {
    hide Add, Round, RoundConstant;
    var r := Regs(h[0], h[1], h[2], h[3], h[4], h[5], h[6], h[7]);
    ghost var start := r;
    var i := 0;
    while i < 64
      invariant 0 <= i <= 64
      invariant h[..] == old(h[..]) && r == Rounds(start, w[..], i)
    {
      r := OneRound(r, RoundConstant(i), w[i]);
      i := i + 1;
    }
    assert r == Rounds(RegsOf(old(h[..])), w[..], 64);
    h[0] := Add(h[0], r.a);
    h[1] := Add(h[1], r.b);
    h[2] := Add(h[2], r.c);
    h[3] := Add(h[3], r.d);
    h[4] := Add(h[4], r.e);
    h[5] := Add(h[5], r.f);
    h[6] := Add(h[6], r.g);
    h[7] := Add(h[7], r.h);
    assert h[..] == RegsSeq(AddRegs(start, r));
  }

  method Compute(data: seq<byte>) returns (out: array<byte>)
    ensures fresh(out) && out[..] == Digest(data)
  {
    hide AddRegs, Rounds, Schedule, WordBytes;
    var h := new word[8] [0x6a09e667, 0xbb67ae85, 0x3c6ef372, 0xa54ff53a,
                          0x510e527f, 0x9b05688c, 0x1f83d9ab, 0x5be0cd19];
    var msg := PadMessage(data);
    PadLength(data);
    PaddedLengthLeast(|data|, 0);
    var w := new word[64];
    var offset := 0;
    ghost var n := 0;
    while offset < msg.Length
      invariant offset == 64 * n && offset <= msg.Length
      invariant msg[..] == Pad(data)
      invariant h[..] == RegsSeq(Blocks(msg[..], n))
    {
      FillSchedule(msg, offset, w);
      CompressBlock(h, w);
      offset := offset + 64;
      n := n + 1;
    }
    out := WriteDigest(h);
  }

  method WriteDigest(h: array<word>) returns (out: array<byte>)
    requires h.Length == 8
    ensures fresh(out) && out[..] == AllBytes(h[..])
  {
    out := new byte[32];
    var i := 0;
    while i < 8
      invariant 0 <= i <= 8
      invariant out[..4 * i] == AllBytes(h[..i])
    {
      StoreWord(out, 4 * i, h[i]);
      assert h[..i + 1][..i] == h[..i];
      i := i + 1;
    }
    assert h[..8] == h[..] && out[..32] == out[..];
  }

  method StoreWord(out: array<byte>, at: nat, x: word)
    requires at + 4 <= out.Length
    modifies out
    ensures out[..at + 4] == old(out[..at]) + WordBytes(x)
  {
    out[at] := (Shr(x, 24) & 0xFF) as byte;
    out[at + 1] := (Shr(x, 16) & 0xFF) as byte;
    out[at + 2] := (Shr(x, 8) & 0xFF) as byte;
    out[at + 3] := (x & 0xFF) as byte;
  }
}
