/** The streaming hash of src/libs/blake/blake2b.cpp against sections 3.2 and 3.3 of RFC 7693.
    The compression function is a parameter: everything holds for any function of (h, t, f, block). */
module Blake2b {
  import opened Common
  import Numerals

  const BLOCKBYTES := 128
  const OUTBYTES := 64
  const KEYBYTES := 64

  /** The chaining value: eight 64-bit words. */
  type Chain = h: seq<bv64> | |h| == 8 witness seq(8, _ => 0)
  type Block = b: seq<bv8> | |b| == BLOCKBYTES witness seq(BLOCKBYTES, _ => 0)

  /** h, t[0], t[1], f[0], f[1], block. */
  type Compression = (Chain, nat, nat, bv64, bv64, Block) -> Chain

  const IV: Chain :=
    [0x6a09e667f3bcc908, 0xbb67ae8584caa73b, 0x3c6ef372fe94f82b, 0xa54ff53a5f1d36f1,
     0x510e527fade682d1, 0x9b05688c2b3e6c1f, 0x1f83d9abfb41bd6b, 0x5be0cd19137e2179]

  const ALL_ONES: bv64 := 0xFFFF_FFFF_FFFF_FFFF

  // ---------------------------------------------------------------- the reference: RFC 7693, section 3.3

  /** Block i of the data: 128 bytes, the last one padded with zeros. */
  function DataBlock(data: seq<bv8>, i: nat): Block
    requires BLOCKBYTES * i <= |data|
  {
    if |data| - BLOCKBYTES * i >= BLOCKBYTES then data[BLOCKBYTES * i..BLOCKBYTES * (i + 1)]
    else Pad(data[BLOCKBYTES * i..])
  }

  function Pad(bytes: seq<bv8>): (b: Block)
    requires |bytes| <= BLOCKBYTES
    ensures bytes <= b && forall i :: |bytes| <= i < 128 ==> b[i] == 0
  {
    bytes + seq(BLOCKBYTES - |bytes|, _ => 0)
  }

  /** F of section 3.2 takes the offset counter as a 128-bit number and the final-block flag. */
  function F(compress: Compression, h: Chain, block: Block, t: nat, final: bool): Chain {
    compress(h, t % U64, t / U64 % U64, if final then ALL_ONES else 0, 0, block)
  }

  /** The chaining value after the first n blocks, none of them final. */
  function ProcessBlocks(compress: Compression, h: Chain, data: seq<bv8>, n: nat): Chain
    requires BLOCKBYTES * n <= |data|
  {
    if n == 0 then h
    else F(compress, ProcessBlocks(compress, h, data, n - 1), DataBlock(data, n - 1), BLOCKBYTES * n, false)
  }

  /** How many blocks come before the last one; empty data has one (zero) block. */
  function BlocksBeforeLast(n: nat): nat { if n == 0 then 0 else (n - 1) / BLOCKBYTES }

  function HashData(compress: Compression, h: Chain, data: seq<bv8>): Chain {
    var n := BlocksBeforeLast(|data|);
    F(compress, ProcessBlocks(compress, h, data, n), DataBlock(data, n), |data|, true)
  }

  /** h[0] := IV[0] ^ 0x01010000 ^ (kk << 8) ^ nn. */
  function InitialChain(kk: bv8, nn: bv8): Chain {
    IV[0 := IV[0] ^ 0x01010000 ^ ((kk as bv64) << 8) ^ (nn as bv64)]
  }

  /** The bytes of the chaining value, each word little-endian. */
  function WordBytes(w: bv64): (b: seq<bv8>)
    ensures |b| == 8
  {
    [Low(w), Low(w >> 8), Low(w >> 16), Low(w >> 24), Low(w >> 32), Low(w >> 40), Low(w >> 48), Low(w >> 56)]
  }

  /** The conversion to uint8_t. */
  function Low(w: bv64): bv8 { (w & 0xFF) as bv8 }

  function ChainBytes(h: seq<bv64>): (b: seq<bv8>)
    ensures |b| == 8 * |h|
  {
    if h == [] then [] else WordBytes(h[0]) + ChainBytes(h[1..])
  }

  /** The bytes as numbers. */
  function Numbers(b: seq<bv8>): (ns: seq<nat>)
    ensures |ns| == |b| && forall i :: 0 <= i < |b| ==> ns[i] == b[i] as nat
  {
    if b == [] then [] else [b[0] as nat] + Numbers(b[1..])
  }

  /** Eight bytes put side by side are the digits of the word. */
  lemma {:induction false} JoinedValue(
    w: bv64, a: bv8, b: bv8, c: bv8, d: bv8, e: bv8, f: bv8, g: bv8, h: bv8, v: nat)
    requires w == (a as bv64) | ((b as bv64) << 8) | ((c as bv64) << 16) | ((d as bv64) << 24)
                  | ((e as bv64) << 32) | ((f as bv64) << 40) | ((g as bv64) << 48) | ((h as bv64) << 56)
    requires v == a as int + 256 * (b as int + 256 * (c as int + 256 * (d as int
                  + 256 * (e as int + 256 * (f as int + 256 * (g as int + 256 * (h as int)))))))
    ensures w as int == v
  {
  }

  lemma {:induction false} BytesValue(p: seq<bv8>)
    requires |p| == 8
    ensures Numerals.Value(Numbers(p), Numerals.Base256)
         == p[0] as int + 256 * (p[1] as int + 256 * (p[2] as int + 256 * (p[3] as int
            + 256 * (p[4] as int + 256 * (p[5] as int + 256 * (p[6] as int + 256 * (p[7] as int)))))))
  {
    EightDigits(Numbers(p));
  }

  /** What load64 makes of eight bytes is their value in base 256, the first one least significant. */
  lemma {:induction false} LoadValue(p: seq<bv8>)
    requires |p| == 8
    ensures Load64(p) as int == Numerals.Value(Numbers(p), Numerals.Base256)
  {
    var v := Numerals.Value(Numbers(p), Numerals.Base256);
    BytesValue(p);
    JoinedValue(Load64(p), p[0], p[1], p[2], p[3], p[4], p[5], p[6], p[7], v);
  }

  /** Eight digits, least significant first. */
  lemma {:induction false} EightDigits(ns: seq<nat>)
    requires |ns| == 8
    ensures Numerals.Value(ns, Numerals.Base256)
         == ns[0] + 256 * (ns[1] + 256 * (ns[2] + 256 * (ns[3]
            + 256 * (ns[4] + 256 * (ns[5] + 256 * (ns[6] + 256 * ns[7]))))))
  {
    FourDigits(ns);
    FourDigits(ns[4..]);
  }

  lemma {:induction false} FourDigits(ns: seq<nat>)
    requires |ns| >= 4
    ensures Numerals.Value(ns, Numerals.Base256)
         == ns[0] + 256 * (ns[1] + 256 * (ns[2] + 256 * (ns[3] + 256 * Numerals.Value(ns[4..], Numerals.Base256))))
  {
    assert ns[1..][1..] == ns[2..] && ns[2..][1..] == ns[3..] && ns[3..][1..] == ns[4..];
    assert Numerals.Value(ns[3..], Numerals.Base256) == ns[3] + 256 * Numerals.Value(ns[4..], Numerals.Base256);
    assert Numerals.Value(ns[2..], Numerals.Base256) == ns[2] + 256 * Numerals.Value(ns[3..], Numerals.Base256);
    assert Numerals.Value(ns[1..], Numerals.Base256) == ns[1] + 256 * Numerals.Value(ns[2..], Numerals.Base256);
  }

  /** The eight bytes of a word, read in base 256 from the least significant one, are the word. */
  lemma {:induction false} WordBytesValue(w: bv64)
    ensures Numerals.Value(Numbers(WordBytes(w)), Numerals.Base256) == w as int
  {
    LoadStored(w);
    LoadValue(WordBytes(w));
  }

  lemma {:induction false} ChainBytesAt(h: seq<bv64>, k: nat)
    requires k < |h|
    ensures ChainBytes(h)[8 * k..8 * k + 8] == WordBytes(h[k])
  {
    if k > 0 {
      ChainBytesAt(h[1..], k - 1);
      assert ChainBytes(h)[8 * k..8 * k + 8] == ChainBytes(h[1..])[8 * (k - 1)..8 * (k - 1) + 8];
    }
  }

  /** The digest holds the words one after the other, each with its least significant byte first. */
  lemma {:induction false} ChainBytesValue(h: seq<bv64>, k: nat)
    requires k < |h|
    ensures Numerals.Value(Numbers(ChainBytes(h)[8 * k..8 * k + 8]), Numerals.Base256) == h[k] as int
  {
    ChainBytesAt(h, k);
    WordBytesValue(h[k]);
  }

  /** The first 64 bits of the fraction of the square root of p. */
  ghost predicate RootFraction(w: bv64, p: nat, whole: nat) {
    var root := whole * U64 + w as int;
    root * root <= p * U128 < (root + 1) * (root + 1)
  }

  lemma RootsOfTwoAndThree()
    ensures RootFraction(IV[0], 2, 1) && RootFraction(IV[1], 3, 1)
  {
  }

  lemma RootsOfFiveAndSeven()
    ensures RootFraction(IV[2], 5, 2) && RootFraction(IV[3], 7, 2)
  {
  }

  lemma RootsOfElevenAndThirteen()
    ensures RootFraction(IV[4], 11, 3) && RootFraction(IV[5], 13, 3)
  {
  }

  lemma RootsOfSeventeenAndNineteen()
    ensures RootFraction(IV[6], 17, 4) && RootFraction(IV[7], 19, 4)
  {
  }

  /** The constants are those of section 2.6 of RFC 7693: the square roots of the first eight primes. */
  lemma IVIsRoots()
    ensures RootFraction(IV[0], 2, 1) && RootFraction(IV[1], 3, 1)
    ensures RootFraction(IV[2], 5, 2) && RootFraction(IV[3], 7, 2)
    ensures RootFraction(IV[4], 11, 3) && RootFraction(IV[5], 13, 3)
    ensures RootFraction(IV[6], 17, 4) && RootFraction(IV[7], 19, 4)
  {
    RootsOfTwoAndThree();
    RootsOfFiveAndSeven();
    RootsOfElevenAndThirteen();
    RootsOfSeventeenAndNineteen();
  }

  /** What is hashed: a key takes a block of its own before the message. */
  function KeyedData(key: seq<bv8>, message: seq<bv8>): seq<bv8>
    requires |key| <= KEYBYTES
  {
    if key == [] then message else Pad(key) + message
  }

  /** The whole hash function: key and message to nn output bytes. */
  function Blake2bHash(compress: Compression, key: seq<bv8>, message: seq<bv8>, nn: nat): seq<bv8>
    requires |key| <= KEYBYTES && nn <= OUTBYTES
  {
    ChainBytes(HashData(compress, InitialChain(|key| as bv8, nn as bv8), KeyedData(key, message)))[..nn]
  }

  // ---------------------------------------------------------------- the state between calls

  /** What blake2b_state holds; `pending` is the filled part of the buffer. */
  datatype Snapshot = Snapshot(h: Chain, t0: nat, t1: nat, f0: bv64, f1: bv64, pending: seq<bv8>)

  ghost predicate Buffered(s: Snapshot) {
    |s.pending| <= BLOCKBYTES && s.t0 < U64 && s.t1 < U64
  }

  /** blake2b_increment_counter on two 64-bit words. */
  function IncrementCounter(s: Snapshot, inc: nat): (r: Snapshot)
    requires Buffered(s) && inc < U64
    ensures Buffered(r)
  {
    var t0 := (s.t0 + inc) % U64;
    s.(t0 := t0, t1 := (s.t1 + if t0 < inc then 1 else 0) % U64)
  }

  /** The carry into the high word makes it a 128-bit addition. */
  lemma CounterAddition(s: Snapshot, inc: nat)
    requires Buffered(s) && inc < U64
    ensures Counter(IncrementCounter(s, inc)) == (Counter(s) + inc) % (U64 * U64)
  {
    var low := s.t0 + inc;
    assert low % U64 < inc <==> low >= U64;
    assert low % U64 == if low >= U64 then low - U64 else low;
  }

  /** The counter words as one 128-bit number. */
  function Counter(s: Snapshot): nat { s.t0 + U64 * s.t1 }

  function CompressBlock(compress: Compression, s: Snapshot, block: Block): Snapshot {
    s.(h := compress(s.h, s.t0, s.t1, s.f0, s.f1, block))
  }

  /** Compresses full blocks off the front of `data` as long as something follows them; the rest, at most
      one block, stays pending. */
  function Drain(compress: Compression, s: Snapshot, data: seq<bv8>): (r: Snapshot)
    requires Buffered(s)
    ensures Buffered(r)
    decreases |data|
  {
    if |data| <= BLOCKBYTES then s.(pending := data)
    else
      Drain(compress, CompressBlock(compress, IncrementCounter(s, BLOCKBYTES), data[..BLOCKBYTES]), data[BLOCKBYTES..])
  }

  /** blake2b_update. */
  function Update(compress: Compression, s: Snapshot, input: seq<bv8>): (r: Snapshot)
    requires Buffered(s)
    ensures Buffered(r)
  {
    Drain(compress, s, s.pending + input)
  }

  function UpdateAll(compress: Compression, s: Snapshot, chunks: seq<seq<bv8>>): (r: Snapshot)
    requires Buffered(s)
    ensures Buffered(r)
    decreases |chunks|
  {
    if chunks == [] then s else UpdateAll(compress, Update(compress, s, chunks[0]), chunks[1..])
  }

  function Join(chunks: seq<seq<bv8>>): seq<bv8> {
    if chunks == [] then [] else chunks[0] + Join(chunks[1..])
  }

  lemma {:induction false} DrainTwice(compress: Compression, s: Snapshot, a: seq<bv8>, b: seq<bv8>)
    requires Buffered(s)
    ensures var mid := Drain(compress, s, a);
            Drain(compress, mid, mid.pending + b) == Drain(compress, s, a + b)
    decreases |a|
  {
    if |a| <= BLOCKBYTES {
      DrainIgnoresPending(compress, s, s.(pending := a), a + b);
    } else {
      var s' := CompressBlock(compress, IncrementCounter(s, BLOCKBYTES), a[..BLOCKBYTES]);
      DrainTwice(compress, s', a[BLOCKBYTES..], b);
      assert (a + b)[..BLOCKBYTES] == a[..BLOCKBYTES];
      assert (a + b)[BLOCKBYTES..] == a[BLOCKBYTES..] + b;
    }
  }

  lemma {:induction false} DrainIgnoresPending(compress: Compression, s: Snapshot, s': Snapshot, data: seq<bv8>)
    requires Buffered(s) && Buffered(s') && s'.(pending := s.pending) == s
    ensures Drain(compress, s, data) == Drain(compress, s', data)
    decreases |data|
  {
    if |data| > BLOCKBYTES {
      DrainIgnoresPending(compress,
        CompressBlock(compress, IncrementCounter(s, BLOCKBYTES), data[..BLOCKBYTES]),
        CompressBlock(compress, IncrementCounter(s', BLOCKBYTES), data[..BLOCKBYTES]), data[BLOCKBYTES..]);
    }
  }

  /** However a message is cut into calls, the state is that of a single call. */
  lemma {:induction false} SplitInvariance(compress: Compression, s: Snapshot, chunks: seq<seq<bv8>>)
    requires Buffered(s)
    ensures UpdateAll(compress, s, chunks) == Update(compress, s, Join(chunks))
    decreases |chunks|
  {
    if chunks == [] {
      assert s.pending + [] == s.pending;
    } else {
      var mid := Update(compress, s, chunks[0]);
      SplitInvariance(compress, mid, chunks[1..]);
      DrainTwice(compress, s, s.pending + chunks[0], Join(chunks[1..]));
      assert s.pending + chunks[0] + Join(chunks[1..]) == s.pending + Join(chunks);
    }
  }

  // ---------------------------------------------------------------- the state is the reference's fold

  /** The state after absorbing `data` from chaining value h: the last block is held back, the counter is the
      number of bytes compressed, the chaining value is the fold over the blocks before the last. */
  ghost predicate Absorbed(compress: Compression, h: Chain, data: seq<bv8>, s: Snapshot) {
    var n := BlocksBeforeLast(|data|);
    && BLOCKBYTES * n <= |data|
    && s.h == ProcessBlocks(compress, h, data, n)
    && s.pending == data[BLOCKBYTES * n..]
    && Buffered(s) && Counter(s) == BLOCKBYTES * n % (U64 * U64)
    && s.f0 == 0 && s.f1 == 0
  }

  lemma {:induction false} ProcessPrefix(compress: Compression, h: Chain, a: seq<bv8>, b: seq<bv8>, n: nat)
    requires BLOCKBYTES * n <= |a|
    ensures ProcessBlocks(compress, h, a + b, n) == ProcessBlocks(compress, h, a, n)
  {
    if n > 0 {
      ProcessPrefix(compress, h, a, b, n - 1);
      BlockOfPrefix(a, b, n - 1);
    }
  }

  lemma {:induction false} BlockOfPrefix(a: seq<bv8>, b: seq<bv8>, i: nat)
    requires BLOCKBYTES * (i + 1) <= |a|
    ensures DataBlock(a + b, i) == DataBlock(a, i)
  {
    assert (a + b)[BLOCKBYTES * i..BLOCKBYTES * (i + 1)] == a[BLOCKBYTES * i..BLOCKBYTES * (i + 1)];
  }

  /** The two counter words are what F takes for the number of bytes compressed. */
  lemma CounterWords(s: Snapshot, t: nat)
    requires Buffered(s) && Counter(s) == t % (U64 * U64)
    ensures s.t0 == t % U64 && s.t1 == t / U64 % U64
  {
  }

  lemma CounterStep(t: nat, inc: nat)
    ensures (t % (U64 * U64) + inc) % (U64 * U64) == (t + inc) % (U64 * U64)
  {
  }

  ghost predicate Midway(compress: Compression, h: Chain, data: seq<bv8>, k: nat, s: Snapshot) {
    && BLOCKBYTES * k <= |data| && (k > 0 ==> BLOCKBYTES * k < |data|)
    && Buffered(s) && s.h == ProcessBlocks(compress, h, data, k)
    && Counter(s) == BLOCKBYTES * k % (U64 * U64) && s.f0 == 0 && s.f1 == 0
  }

  lemma MidwayStep(compress: Compression, h: Chain, data: seq<bv8>, k: nat, s: Snapshot)
    requires Midway(compress, h, data, k, s) && |data| - BLOCKBYTES * k > BLOCKBYTES
    ensures var rest := data[BLOCKBYTES * k..];
            Midway(compress, h, data, k + 1,
                   CompressBlock(compress, IncrementCounter(s, BLOCKBYTES), rest[..BLOCKBYTES]))
  {
    var rest := data[BLOCKBYTES * k..];
    assert rest[..BLOCKBYTES] == DataBlock(data, k);
    CounterAddition(s, BLOCKBYTES);
    CounterStep(BLOCKBYTES * k, BLOCKBYTES);
    CounterWords(IncrementCounter(s, BLOCKBYTES), BLOCKBYTES * (k + 1));
  }

  lemma {:induction false} DrainAbsorbs(compress: Compression, h: Chain, data: seq<bv8>, k: nat, s: Snapshot)
    requires Midway(compress, h, data, k, s)
    ensures Absorbed(compress, h, data, Drain(compress, s, data[BLOCKBYTES * k..]))
    decreases |data| - BLOCKBYTES * k
  {
    var rest := data[BLOCKBYTES * k..];
    if |rest| > BLOCKBYTES {
      MidwayStep(compress, h, data, k, s);
      assert rest[BLOCKBYTES..] == data[BLOCKBYTES * (k + 1)..];
      DrainAbsorbs(compress, h, data, k + 1,
                   CompressBlock(compress, IncrementCounter(s, BLOCKBYTES), rest[..BLOCKBYTES]));
    } else {
      MidwayDone(compress, h, data, k, s);
    }
  }

  lemma MidwayDone(compress: Compression, h: Chain, data: seq<bv8>, k: nat, s: Snapshot)
    requires Midway(compress, h, data, k, s) && |data| - BLOCKBYTES * k <= BLOCKBYTES
    ensures Absorbed(compress, h, data, s.(pending := data[BLOCKBYTES * k..]))
  {
    assert k == BlocksBeforeLast(|data|);
  }

  /** Every update moves the state along the reference: what has been absorbed is the concatenation. */
  lemma {:induction false} UpdateAbsorbs(compress: Compression, h: Chain, data: seq<bv8>, s: Snapshot, input: seq<bv8>)
    requires Absorbed(compress, h, data, s)
    ensures Absorbed(compress, h, data + input, Update(compress, s, input))
  {
    var n := BlocksBeforeLast(|data|);
    assert Midway(compress, h, data + input, n, s) by { ProcessPrefix(compress, h, data, input, n); }
    assert s.pending + input == (data + input)[BLOCKBYTES * n..];
    DrainAbsorbs(compress, h, data + input, n, s);
  }

  /** blake2b_final, after its checks: count the pending bytes, set the flags, compress the padded block. */
  function Finish(compress: Compression, s: Snapshot, lastNode: bool): Snapshot
    requires Buffered(s)
  {
    var counted := IncrementCounter(s, |s.pending|);
    var flagged := counted.(f0 := ALL_ONES, f1 := if lastNode then ALL_ONES else s.f1);
    CompressBlock(compress, flagged, Pad(s.pending)).(pending := s.pending)
  }

  /** Finishing gives the block fold of section 3.3. */
  lemma {:induction false} FinishIsReference(compress: Compression, h: Chain, data: seq<bv8>, s: Snapshot)
    requires Absorbed(compress, h, data, s)
    ensures Finish(compress, s, false).h == HashData(compress, h, data)
  {
    var n := BlocksBeforeLast(|data|);
    assert DataBlock(data, n) == Pad(s.pending);
    CounterAddition(s, |s.pending|);
    CounterStep(BLOCKBYTES * n, |s.pending|);
    CounterWords(IncrementCounter(s, |s.pending|), |data|);
  }

  // ---------------------------------------------------------------- parameter block

  function Load64(p: seq<bv8>): bv64
    requires |p| == 8
  {
    (p[0] as bv64) | ((p[1] as bv64) << 8) | ((p[2] as bv64) << 16) | ((p[3] as bv64) << 24)
    | ((p[4] as bv64) << 32) | ((p[5] as bv64) << 40) | ((p[6] as bv64) << 48) | ((p[7] as bv64) << 56)
  }

  /** Loading the bytes a word is stored as gives the word. */
  lemma {:induction false} LoadStored(w: bv64)
    ensures Load64(WordBytes(w)) == w
  {
  }

  /** blake2b_param for sequential hashing: fanout and depth one, everything else zero. */
  function ParamBlock(digestLength: bv8, keyLength: bv8): (p: seq<bv8>)
    ensures |p| == 64
  {
    [digestLength, keyLength, 1, 1] + seq(60, _ => 0)
  }

  /** The first parameter word is what section 3.3 xors into h[0]. */
  lemma FirstWord(nn: bv8, kk: bv8)
    ensures Load64([nn, kk, 1, 1, 0, 0, 0, 0]) == 0x01010000 ^ ((kk as bv64) << 8) ^ (nn as bv64)
  {
    assert Load64([nn, kk, 1, 1, 0, 0, 0, 0])
        == (nn as bv64) | ((kk as bv64) << 8) | (1 << 16) | (1 << 24) | (0 << 32) | (0 << 40) | (0 << 48) | (0 << 56);
    DisjointBits(nn as bv64, kk as bv64);
  }

  lemma DisjointBits(n: bv64, k: bv64)
    requires n <= 0xFF && k <= 0xFF
    ensures n | (k << 8) | (1 << 16) | (1 << 24) | (0 << 32) | (0 << 40) | (0 << 48) | (0 << 56)
         == 0x01010000 ^ (k << 8) ^ n
  {
  }

  lemma XorAssociative(w: bv64, x: bv64, y: bv64, z: bv64)
    ensures w ^ (x ^ y ^ z) == w ^ x ^ y ^ z
  {
  }

  /** The loop of blake2b_init_param: the IV xored, word by word, with the parameter block. */
  method MixParams(p: seq<bv8>) returns (words: seq<bv64>)
    requires |p| == 64
    ensures |words| == 8 && forall k :: 0 <= k < 8 ==> words[k] == IV[k] ^ Load64(p[8 * k..8 * k + 8])
  {
    words := IV;
    for i := 0 to 8
      invariant |words| == 8
      invariant forall k :: 0 <= k < i ==> words[k] == IV[k] ^ Load64(p[8 * k..8 * k + 8])
      invariant forall k :: i <= k < 8 ==> words[k] == IV[k]
    {
      words := words[i := words[i] ^ Load64(p[8 * i..8 * i + 8])];
    }
  }

  lemma MixedIsInitial(nn: bv8, kk: bv8, words: seq<bv64>)
    requires |words| == 8
    requires forall k :: 0 <= k < 8 ==> words[k] == IV[k] ^ Load64(ParamBlock(nn, kk)[8 * k..8 * k + 8])
    ensures words == InitialChain(kk, nn)
  {
    var p := ParamBlock(nn, kk);
    assert p[0..8] == [nn, kk, 1, 1, 0, 0, 0, 0];
    FirstWord(nn, kk);
    XorAssociative(IV[0], 0x01010000, (kk as bv64) << 8, nn as bv64);
    forall k | 1 <= k < 8 ensures words[k] == IV[k] {
      assert p[8 * k..8 * k + 8] == [0, 0, 0, 0, 0, 0, 0, 0];
      NoBits(IV[k]);
    }
  }

  lemma NoBits(w: bv64)
    ensures w ^ Load64([0, 0, 0, 0, 0, 0, 0, 0]) == w
  {
  }

  // ---------------------------------------------------------------- the state object

  class State {
    const compress: Compression
    var h: Chain
    var t0: nat
    var t1: nat
    var f0: bv64
    var f1: bv64
    const buf: array<bv8>
    var buflen: nat
    const outlen: nat
    const lastNode: bool

    ghost predicate Valid()
      reads this
    {
      buf.Length == BLOCKBYTES && buflen <= BLOCKBYTES && outlen <= OUTBYTES && t0 < U64 && t1 < U64
    }

    ghost function View(): Snapshot
      requires Valid()
      reads this, buf
    {
      Snapshot(h, t0, t1, f0, f1, buf[..buflen])
    }

    /** blake2b_init_param: the IV xored, word by word, with the parameter block. */
    constructor (compress: Compression, digestLength: nat, keyLength: nat)
      requires digestLength <= OUTBYTES && keyLength <= KEYBYTES
      ensures Valid() && fresh(buf) && this.compress == compress && outlen == digestLength && !lastNode
      ensures View() == Snapshot(InitialChain(keyLength as bv8, digestLength as bv8), 0, 0, 0, 0, [])
    {
      this.compress := compress;
      outlen, lastNode := digestLength, false;
      t0, t1, f0, f1, buflen := 0, 0, 0, 0, 0;
      buf := new bv8[BLOCKBYTES](_ => 0);
      var p := ParamBlock(digestLength as bv8, keyLength as bv8);
      var words := MixParams(p);
      MixedIsInitial(digestLength as bv8, keyLength as bv8, words);
      h := words;
    }

    method IncrementCounterBy(inc: nat)
      requires Valid() && inc < U64
      modifies this`t0, this`t1
      ensures Valid() && View() == IncrementCounter(old(View()), inc)
    {
      t0 := (t0 + inc) % U64;
      t1 := (t1 + if t0 < inc then 1 else 0) % U64;
    }

    method Compress(block: Block)
      requires Valid()
      modifies this`h
      ensures Valid() && View() == CompressBlock(compress, old(View()), block)
    {
      h := compress(h, t0, t1, f0, f1, block);
    }

    method CountAndCompress(block: Block)
      requires Valid()
      modifies this`t0, this`t1, this`h
      ensures Valid() && View() == CompressBlock(compress, IncrementCounter(old(View()), BLOCKBYTES), block)
    {
      IncrementCounterBy(BLOCKBYTES);
      Compress(block);
    }

    /** memcpy into the buffer. */
    method CopyIn(at: nat, src: seq<bv8>)
      requires Valid() && at + |src| <= BLOCKBYTES
      modifies buf
      ensures buf[..at] == old(buf[..at]) && buf[at..at + |src|] == src && buf[at + |src|..] == old(buf[at + |src|..])
    {
      forall k | 0 <= k < |src| {
        buf[at + k] := src[k];
      }
    }

    /** Fills the buffer, compresses it and leaves it empty: the first step of a long update. */
    method FillAndCompress(input: seq<bv8>)
      requires Valid() && buflen + |input| == BLOCKBYTES
      modifies this, buf
      ensures Valid()
      ensures View() == CompressBlock(compress, IncrementCounter(old(View()), BLOCKBYTES), old(View()).pending + input)
                        .(pending := [])
    {
      ghost var pending := buf[..buflen];
      CopyIn(buflen, input);
      assert buf[..] == pending + input;
      CountAndCompress(buf[..]);
      buflen := 0;
    }

    /** Compresses whole blocks straight from the input, as long as something follows them. */
    method CompressBlocks(input: seq<bv8>) returns (pos: nat)
      requires Valid() && buflen == 0 && |input| > 0
      modifies this`h, this`t0, this`t1
      ensures Valid() && pos <= |input| && |input| - pos <= BLOCKBYTES
      ensures View().(pending := input[pos..]) == Drain(compress, old(View()), input)
    {
      ghost var target := Drain(compress, View(), input);
      pos := 0;
      while |input| - pos > BLOCKBYTES
        invariant Valid() && pos < |input|
        invariant Drain(compress, View(), input[pos..]) == target
      {
        CountAndCompress(input[pos..pos + BLOCKBYTES]);
        assert input[pos..][..BLOCKBYTES] == input[pos..pos + BLOCKBYTES];
        assert input[pos..][BLOCKBYTES..] == input[pos + BLOCKBYTES..];
        pos := pos + BLOCKBYTES;
      }
    }

    /** blake2b_update. */
    method Absorb(input: seq<bv8>)
      requires Valid()
      modifies this, buf
      ensures Valid() && View() == Update(compress, old(View()), input)
    {
      ghost var before := View();
      if |input| > 0 {
        var rest := input;
        if |input| > BLOCKBYTES - buflen {
          var pos := CompressAll(input);
          rest := input[pos..];
          assert View().pending + rest == rest;
        }
        Hold(rest);
      } else {
        assert before.pending + input == before.pending;
      }
    }

    /** The part of blake2b_update for input that does not fit the buffer: at most one block is left over. */
    method CompressAll(input: seq<bv8>) returns (pos: nat)
      requires Valid() && |input| > BLOCKBYTES - buflen
      modifies this, buf
      ensures Valid() && buflen == 0 && pos <= |input| && |input| - pos <= BLOCKBYTES
      ensures View().(pending := input[pos..]) == Update(compress, old(View()), input)
    {
      ghost var before := View();
      var fill := BLOCKBYTES - buflen;
      FillAndCompress(input[..fill]);
      DrainStep(compress, before, input, fill);
      var n := CompressBlocks(input[fill..]);
      pos := fill + n;
      assert input[fill..][n..] == input[pos..];
    }

    /** Puts bytes behind those that are held back. */
    method Hold(rest: seq<bv8>)
      requires Valid() && buflen + |rest| <= BLOCKBYTES
      modifies this`buflen, buf
      ensures Valid() && View() == old(View()).(pending := old(View()).pending + rest)
    {
      ghost var pending := buf[..buflen];
      CopyIn(buflen, rest);
      buflen := buflen + |rest|;
      assert buf[..buflen] == pending + rest;
    }

    /** blake2b_final: nothing for a buffer that is too small or a state already finished. */
    method Final(capacity: nat) returns (out: Option<seq<bv8>>)
      requires Valid()
      modifies this, buf
      ensures Valid()
      ensures capacity < outlen || old(f0) != 0 ==> out == None && View() == old(View())
      ensures capacity >= outlen && old(f0) == 0 ==>
                View() == Finish(compress, old(View()), lastNode) && out == Some(ChainBytes(h)[..outlen])
    {
      if capacity < outlen || f0 != 0 {
        return None;
      }
      IncrementCounterBy(buflen);
      if lastNode {
        f1 := ALL_ONES;
      }
      f0 := ALL_ONES;
      ghost var pending := buf[..buflen];
      CopyIn(buflen, seq(BLOCKBYTES - buflen, _ => 0));
      assert buf[..] == Pad(pending);
      Compress(buf[..]);
      out := Some(ChainBytes(h)[..outlen]);
    }
  }

  lemma DrainStep(compress: Compression, s: Snapshot, input: seq<bv8>, fill: nat)
    requires Buffered(s) && fill == BLOCKBYTES - |s.pending| < |input|
    ensures var filled := CompressBlock(compress, IncrementCounter(s, BLOCKBYTES), s.pending + input[..fill]);
            Drain(compress, filled.(pending := []), input[fill..]) == Update(compress, s, input)
  {
    var data := s.pending + input;
    assert data[..BLOCKBYTES] == s.pending + input[..fill] && data[BLOCKBYTES..] == input[fill..];
    var filled := CompressBlock(compress, IncrementCounter(s, BLOCKBYTES), s.pending + input[..fill]);
    DrainIgnoresPending(compress, filled.(pending := []), filled, input[fill..]);
  }

  /** blake2b: the one-call interface, with its parameter checks. */
  method Hash(compress: Compression, outlen: nat, input: seq<bv8>, key: seq<bv8>) returns (out: Option<seq<bv8>>)
    ensures out.Some? <==> 0 < outlen <= 64 && |key| <= 64
    ensures out.Some? ==> out.value == Blake2bHash(compress, key, input, outlen)
  {
    if outlen == 0 || outlen > OUTBYTES || |key| > KEYBYTES {
      return None;
    }
    var state := new State(compress, outlen, |key|);
    StreamIsReference(compress, state.View(), key, input);
    if |key| > 0 {
      state.Absorb(Pad(key));
    }
    state.Absorb(input);
    out := state.Final(outlen);
  }

  /** An initial state has absorbed nothing. */
  lemma {:induction false} NothingAbsorbed(compress: Compression, s: Snapshot)
    requires s == Snapshot(s.h, 0, 0, 0, 0, [])
    ensures Absorbed(compress, s.h, [], s)
  {
  }

  lemma {:induction false} FirstInput(compress: Compression, s: Snapshot, block: seq<bv8>)
    requires s == Snapshot(s.h, 0, 0, 0, 0, [])
    ensures Absorbed(compress, s.h, block, Update(compress, s, block))
  {
    NothingAbsorbed(compress, s);
    UpdateAbsorbs(compress, s.h, [], s, block);
    assert [] + block == block;
  }

  lemma {:induction false} FirstInputThenFinish(compress: Compression, s: Snapshot, input: seq<bv8>)
    requires s == Snapshot(s.h, 0, 0, 0, 0, [])
    ensures Update(compress, s, input).f0 == 0
    ensures Finish(compress, Update(compress, s, input), false).h == HashData(compress, s.h, input)
  {
    FirstInput(compress, s, input);
    FinishIsReference(compress, s.h, input, Update(compress, s, input));
  }

  /** From an initial state, absorbing the key block and the message and finishing is the reference fold. */
  lemma {:induction false} StreamIsReference(compress: Compression, s: Snapshot, key: seq<bv8>, input: seq<bv8>)
    requires |key| <= KEYBYTES && s == Snapshot(s.h, 0, 0, 0, 0, [])
    ensures var keyed := if key == [] then s else Update(compress, s, Pad(key));
            Update(compress, keyed, input).f0 == 0 &&
            Finish(compress, Update(compress, keyed, input), false).h == HashData(compress, s.h, KeyedData(key, input))
  {
    if key == [] {
      FirstInputThenFinish(compress, s, input);
    } else {
      FirstInput(compress, s, Pad(key));
      AbsorbThenFinish(compress, s.h, Pad(key), Update(compress, s, Pad(key)), input);
    }
  }

  lemma {:induction false} AbsorbThenFinish(
    compress: Compression, h: Chain, data: seq<bv8>, s: Snapshot, input: seq<bv8>)
    requires Absorbed(compress, h, data, s)
    ensures Update(compress, s, input).f0 == 0
    ensures Finish(compress, Update(compress, s, input), false).h == HashData(compress, h, data + input)
  {
    UpdateAbsorbs(compress, h, data, s, input);
    FinishIsReference(compress, h, data + input, Update(compress, s, input));
  }

  /** Any number of calls, cut anywhere, then finishing: the reference fold of the whole message. */
  lemma {:induction false} AnySplitHashes(compress: Compression, s: Snapshot, chunks: seq<seq<bv8>>)
    requires s == Snapshot(s.h, 0, 0, 0, 0, [])
    ensures Absorbed(compress, s.h, Join(chunks), UpdateAll(compress, s, chunks))
    ensures Finish(compress, UpdateAll(compress, s, chunks), false).h == HashData(compress, s.h, Join(chunks))
  {
    SplitInvariance(compress, s, chunks);
    FirstInput(compress, s, Join(chunks));
    FirstInputThenFinish(compress, s, Join(chunks));
  }
}
