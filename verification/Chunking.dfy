/** Content-defined chunking with a rolling Buzhash over a circular 64 byte window. */
module Chunking {
  import opened Common

  const WINDOW_SIZE: nat := 64

  /** A u32 as its bits, most significant first. */
  type Word = w: seq<bool> | |w| == 32 witness [
    false, false, false, false, false, false, false, false,
    false, false, false, false, false, false, false, false,
    false, false, false, false, false, false, false, false,
    false, false, false, false, false, false, false, false]

  function Zero(): Word {
    seq(32, _ => false)
  }

  function RotateLeft(x: Word): Word {
    x[1..] + [x[0]]
  }

  function Xor(x: Word, y: Word): Word {
    seq(32, i requires 0 <= i < 32 => x[i] != y[i])
  }

  function And(x: Word, y: Word): Word {
    seq(32, i requires 0 <= i < 32 => x[i] && y[i])
  }

  function BitsValue(bits: seq<bool>): nat {
    if bits == [] then 0
    else 2 * BitsValue(bits[..|bits| - 1]) + if bits[|bits| - 1] then 1 else 0
  }

  /** Cut parameters; the table is left open, so every result holds for any Buzhash table. */
  datatype Params = Params(
    table: seq<Word>,
    sizeMin: nat,
    sizeMax: nat,
    breakTestMask: Word,
    breakTestMinimum: nat)
  {
    predicate Valid() {
      |table| == 256 && sizeMin <= sizeMax
    }
  }

  /** The parameters for an average chunk size of 2^k bytes; u32 arithmetic wraps around. */
  function ParamsFor(table: seq<Word>, k: nat): (p: Params)
    requires |table| == 256
    ensures p.Valid()
  {
    var mask := seq(32, i => i + k >= 31);
    var minimum := (BitsValue(mask) + 0x1_0000_0000 - 2) % 0x1_0000_0000;
    Params(table, Pow2(k) / 4, Pow2(k) * 4, mask, minimum)
  }

  /** The value of m ones behind zeros. */
  lemma {:induction false} LowOnes(bits: seq<bool>, m: nat)
    requires m <= |bits| && forall i :: 0 <= i < |bits| ==> (bits[i] <==> i >= |bits| - m)
    ensures BitsValue(bits) == Pow2(m) - 1
  {
    if bits != [] {
      LowOnes(bits[..|bits| - 1], if m == 0 then 0 else m - 1);
    }
  }

  lemma Pow2Values()
    ensures Pow2(2) == 4 && Pow2(4) == 16 && Pow2(5) == 32
  {
    assert Pow2(2) == 2 * Pow2(1);
    Pow2Add(2, 2);
    Pow2Add(4, 1);
  }

  lemma Pow2At32()
    ensures Pow2(32) == 0x1_0000_0000
  {
    hide Pow2;
    Pow2Values();
    Pow2Add(4, 4);
    Pow2Add(8, 8);
    Pow2Add(16, 16);
  }

  lemma MaskMeans(k: nat)
    requires 1 <= k <= 31
    ensures BitsValue(seq(32, i => i + k >= 31)) == 2 * Pow2(k) - 1
    ensures 4 <= 2 * Pow2(k) <= 0x1_0000_0000
  {
    hide BitsValue;
    LowOnes(seq(32, i => i + k >= 31), k + 1);
    Pow2At32();
    Pow2Monotone(k + 1, 32);
    Pow2Monotone(1, k);
  }

  /** For an average of 2^k bytes, 1 <= k <= 31: chunks between a quarter and four times the average, and
      a cut on one of the three largest masked hash values, so never on a masked value of 0. The size
      limit exceeds the window if and only if the average is at least 32. */
  lemma ParamsForMean(table: seq<Word>, k: nat)
    requires |table| == 256
    ensures var p, avg := ParamsFor(table, k), Pow2(k);
            && p.sizeMax == 4 * avg && (k >= 2 ==> 4 * p.sizeMin == avg)
            && (p.sizeMax > WINDOW_SIZE <==> k >= 5)
            && (1 <= k <= 31 ==>
                  BitsValue(p.breakTestMask) == 2 * avg - 1 && p.breakTestMinimum == 2 * avg - 3 > 0)
  {
    hide BitsValue, Pow2;
    SizesForMean(k);
    if 1 <= k <= 31 {
      MaskMeans(k);
    }
  }

  lemma SizesForMean(k: nat)
    ensures k >= 2 ==> 4 * (Pow2(k) / 4) == Pow2(k)
    ensures 4 * Pow2(k) > WINDOW_SIZE <==> k >= 5
  {
    hide Pow2;
    Pow2Values();
    if k >= 2 {
      Pow2Add(2, k - 2);
    }
    if k >= 5 {
      Pow2Monotone(5, k);
    } else {
      Pow2Monotone(k, 4);
    }
  }

  lemma {:induction false} Pow2Monotone(a: nat, b: nat)
    requires a <= b
    ensures Pow2(a) <= Pow2(b)
    decreases b - a
  {
    if a < b {
      Pow2Monotone(a, b - 1);
    }
  }

  lemma {:induction false} Pow2Add(a: nat, b: nat)
    ensures Pow2(a + b) == Pow2(a) * Pow2(b)
    decreases b
  {
    if b > 0 {
      Pow2Add(a, b - 1);
    }
  }

  // ---- The hash ----

  /** Direct (non rolling) Buzhash of a byte string. */
  function Buzhash(table: seq<Word>, s: Bytes): Word
    requires |table| == 256
  {
    if s == [] then Zero()
    else Xor(RotateLeft(Buzhash(table, s[..|s| - 1])), table[s[|s| - 1]])
  }

  /** RotateLeft applied n times. */
  function RotateBy(x: Word, n: nat): Word {
    seq(32, i requires 0 <= i < 32 => x[(i + n) % 32])
  }

  lemma BuzhashSnoc(table: seq<Word>, s: Bytes, b: byte)
    requires |table| == 256
    ensures Buzhash(table, s + [b]) == Xor(RotateLeft(Buzhash(table, s)), table[b])
  {
    assert (s + [b])[..|s|] == s;
  }

  lemma RollXor(x: Word, y: Word, c: Word, n: nat)
    ensures Xor(RotateLeft(Xor(RotateBy(x, n), y)), c) == Xor(RotateBy(x, n + 1), Xor(RotateLeft(y), c))
  {
  }

  lemma RotateByNone(x: Word)
    ensures Xor(RotateBy(x, 0), Zero()) == x
  {
  }

  /** Hashing is a homomorphism up to rotation. */
  lemma {:induction false} BuzhashConcat(table: seq<Word>, x: Bytes, y: Bytes)
    requires |table| == 256
    ensures Buzhash(table, x + y) == Xor(RotateBy(Buzhash(table, x), |y|), Buzhash(table, y))
    decreases |y|
  {
    hide Xor, RotateBy, RotateLeft, Zero;
    if y == [] {
      assert x + y == x;
      RotateByNone(Buzhash(table, x));
    } else {
      var y', b := y[..|y| - 1], y[|y| - 1];
      BuzhashConcat(table, x, y');
      assert y' + [b] == y && x + y == (x + y') + [b];
      BuzhashSnoc(table, x + y', b);
      RollXor(Buzhash(table, x), Buzhash(table, y'), table[b], |y'|);
    }
  }

  lemma XorSolve(l: Word, r: Word, h: Word, e: Word)
    requires Xor(l, r) == Xor(h, e)
    ensures r == Xor(Xor(h, l), e)
  {
    forall i | 0 <= i < 32
      ensures r[i] == Xor(Xor(h, l), e)[i]
    {
      assert Xor(l, r)[i] == Xor(h, e)[i];
    }
  }

  /** Sliding a full window by one byte is one rotation and two table lookups. */
  lemma RollWindow(table: seq<Word>, w: Bytes, enter: byte)
    requires |table| == 256 && |w| == WINDOW_SIZE
    ensures Buzhash(table, w[1..] + [enter])
         == Xor(Xor(RotateLeft(Buzhash(table, w)), table[w[0]]), table[enter])
  {
    var t := w[1..] + [enter];
    assert [w[0]] + t == w + [enter];
    BuzhashConcat(table, [w[0]], t);
    BuzhashSnoc(table, [], w[0]);
    assert [] + [w[0]] == [w[0]];
    assert Xor(RotateLeft(Zero()), table[w[0]]) == table[w[0]];
    assert RotateBy(table[w[0]], WINDOW_SIZE) == table[w[0]];
    BuzhashSnoc(table, w, enter);
    XorSolve(table[w[0]], Buzhash(table, t), RotateLeft(Buzhash(table, w)), table[enter]);
  }

  // ---- Where a chunk ends ----

  predicate ShallBreak(p: Params, size: nat, h: Word) {
    if size >= p.sizeMax then true
    else if size < p.sizeMin then false
    else BitsValue(And(h, p.breakTestMask)) >= p.breakTestMinimum
  }

  /** A chunk starting at s[0] may end after n bytes; no test happens before the window is full. */
  ghost predicate CutAt(p: Params, s: Bytes, n: nat)
    requires p.Valid()
  {
    WINDOW_SIZE < n <= |s| && ShallBreak(p, n, Buzhash(p.table, s[n - WINDOW_SIZE..n]))
  }

  ghost function FirstCutFrom(p: Params, s: Bytes, n: nat): (r: nat)
    requires p.Valid()
    ensures r == 0 ==> forall k: nat :: n <= k <= |s| ==> !CutAt(p, s, k)
    ensures r != 0 ==> n <= r && CutAt(p, s, r) && forall k: nat :: n <= k < r ==> !CutAt(p, s, k)
    decreases |s| + 1 - n
  {
    if n > |s| then 0
    else if CutAt(p, s, n) then n
    else FirstCutFrom(p, s, n + 1)
  }

  /** The length of the first chunk of s, or 0 while no boundary has been seen. */
  ghost function FirstCut(p: Params, s: Bytes): (r: nat)
    requires p.Valid()
    ensures r == 0 <==> forall k: nat :: !CutAt(p, s, k)
    ensures r != 0 ==> CutAt(p, s, r) && forall k: nat :: k < r ==> !CutAt(p, s, k)
  {
    FirstCutFrom(p, s, 0)
  }

  /** A boundary depends only on the bytes before it. */
  lemma CutAtPrefix(p: Params, s: Bytes, t: Bytes)
    requires p.Valid()
    ensures forall n: nat :: n <= |s| ==> (CutAt(p, s + t, n) <==> CutAt(p, s, n))
    ensures FirstCut(p, s) != 0 ==> FirstCut(p, s + t) == FirstCut(p, s)
  {
    forall n: nat | n <= |s|
      ensures CutAt(p, s + t, n) <==> CutAt(p, s, n)
    {
      if n > WINDOW_SIZE {
        assert (s + t)[n - WINDOW_SIZE..n] == s[n - WINDOW_SIZE..n];
      }
    }
  }

  /** One more byte behind a full window: the boundary test alone decides. */
  lemma FirstCutSnoc(p: Params, s: Bytes, b: byte)
    requires p.Valid() && |s| >= WINDOW_SIZE && FirstCut(p, s) == 0
    ensures var next := s + [b];
            FirstCut(p, next) ==
              if ShallBreak(p, |next|, Buzhash(p.table, LastWindow(next))) then |next| else 0
  {
    hide LastWindow, Buzhash, ShallBreak;
    var next := s + [b];
    CutAtPrefix(p, s, [b]);
    LastWindowSnoc(s, b);
    assert CutAt(p, next, |next|) <==> ShallBreak(p, |next|, Buzhash(p.table, LastWindow(next)));
    assert forall k: nat :: k < |next| ==> !CutAt(p, next, k);
  }

  /** The reference: cut greedily from the front, whatever the input buffers looked like. */
  ghost function Chunks(p: Params, s: Bytes): seq<Bytes>
    requires p.Valid()
    decreases |s|
  {
    var n := FirstCut(p, s);
    if n != 0 then [s[..n]] + Chunks(p, s[n..])
    else if s == [] then [] else [s]
  }

  lemma {:induction false} ChunksFlatten(p: Params, s: Bytes)
    requires p.Valid()
    ensures Flatten(Chunks(p, s)) == s
    decreases |s|
  {
    var n := FirstCut(p, s);
    if n != 0 {
      ChunksFlatten(p, s[n..]);
      assert ([s[..n]] + Chunks(p, s[n..]))[1..] == Chunks(p, s[n..]);
    } else if s != [] {
      assert Flatten([s]) == s + Flatten<byte>([]);
    }
  }

  /** Any cut lies between the lower bound and the upper bound; without a cut s is short. */
  lemma FirstCutBounds(p: Params, s: Bytes)
    requires p.Valid()
    ensures var n := FirstCut(p, s);
            if n == 0 then |s| < Max(WINDOW_SIZE + 1, p.sizeMax)
            else Max(WINDOW_SIZE + 1, p.sizeMin) <= n <= Max(WINDOW_SIZE + 1, p.sizeMax)
  {
    var m := Max(WINDOW_SIZE + 1, p.sizeMax);
    if |s| >= m {
      assert CutAt(p, s, m);
    }
  }

  lemma ModStep(x: nat, p: nat, b: nat)
    requires p > 0 && b < 2
    ensures (2 * x + b) % (2 * p) == 2 * (x % p) + b
  {
    var q, r := x / p, x % p;
    Euclid(x, p);
    assert 2 * x + b == q * (2 * p) + (2 * r + b);
    DivModUnique(2 * x + b, 2 * p, q, 2 * r + b);
  }

  /** Keeping the lowest m bits is the remainder by 2^m. */
  lemma {:induction false} LowBits(bits: seq<bool>, low: seq<bool>, m: nat)
    requires |low| == |bits| && m <= |bits|
    requires forall i :: 0 <= i < |bits| ==> (low[i] <==> bits[i] && i >= |bits| - m)
    ensures BitsValue(low) == BitsValue(bits) % Pow2(m)
    decreases m
  {
    if m == 0 {
      ZeroValue(low);
    } else {
      var n := |bits| - 1;
      LowBits(bits[..n], low[..n], m - 1);
      ModStep(BitsValue(bits[..n]), Pow2(m - 1), if bits[n] then 1 else 0);
    }
  }

  /** Between the bounds the content alone decides: with an average of 2^k bytes and no boundary before n, a chunk
      ends after n bytes if and only if the hash of the last 64 bytes, modulo twice the average, is one of the
      three largest values. */
  lemma ContentCut(table: seq<Word>, k: nat, s: Bytes, n: nat)
    requires |table| == 256 && 5 <= k <= 31
    requires Max(65, Pow2(k) / 4) <= n < 4 * Pow2(k) && n <= |s|
    requires var first := FirstCut(ParamsFor(table, k), s); first == 0 || first >= n
    ensures FirstCut(ParamsFor(table, k), s) == n <==>
      BitsValue(Buzhash(table, s[n - 64..n])) % (2 * Pow2(k)) >= 2 * Pow2(k) - 3
  {
    hide BitsValue, Buzhash, Pow2, FirstCut, ParamsFor;
    var p, h := ParamsFor(table, k), Buzhash(table, s[n - 64..n]);
    ParamsForMean(table, k);
    MaskedHash(table, k, h);
    assert p.table == table && p.sizeMin == Pow2(k) / 4 by { ParamsFields(table, k); }
    assert CutAt(p, s, n) <==> BitsValue(h) % (2 * Pow2(k)) >= 2 * Pow2(k) - 3;
  }

  lemma ParamsFields(table: seq<Word>, k: nat)
    requires |table| == 256
    ensures var p := ParamsFor(table, k); p.table == table && p.sizeMin == Pow2(k) / 4
  {
  }

  lemma MaskedHash(table: seq<Word>, k: nat, h: Word)
    requires |table| == 256 && 1 <= k <= 31
    ensures BitsValue(And(h, ParamsFor(table, k).breakTestMask)) == BitsValue(h) % (2 * Pow2(k))
  {
    hide BitsValue;
    LowBits(h, And(h, ParamsFor(table, k).breakTestMask), k + 1);
  }

  /** Every chunk but the last is a real cut; the last one is a cut or falls short of the limit. */
  ghost predicate SizesWithin(p: Params, cs: seq<Bytes>) {
    var lo, hi := Max(WINDOW_SIZE + 1, p.sizeMin), Max(WINDOW_SIZE + 1, p.sizeMax);
    && (forall i :: 0 <= i < |cs| - 1 ==> lo <= |cs[i]| <= hi)
    && (|cs| > 0 ==> var last := |cs[|cs| - 1]|; 0 < last < hi || lo <= last <= hi)
  }

  lemma {:induction false} ChunkSizes(p: Params, s: Bytes)
    requires p.Valid()
    ensures SizesWithin(p, Chunks(p, s))
    decreases |s|
  {
    FirstCutBounds(p, s);
    var n := FirstCut(p, s);
    if n != 0 {
      var rest := Chunks(p, s[n..]);
      ChunkSizes(p, s[n..]);
      var cs := [s[..n]] + rest;
      assert |cs[0]| == n;
      assert forall i :: 0 < i < |cs| ==> cs[i] == rest[i - 1];
    }
  }

  /** A constant stream hashes to 0 once the window is full, so it is cut only at the size limit. */
  lemma ConstantStreamCut(p: Params, s: Bytes, b: byte)
    requires p.Valid() && p.sizeMax > WINDOW_SIZE && p.breakTestMinimum != 0
    requires forall i :: 0 <= i < |s| ==> s[i] == b
    ensures FirstCut(p, s) == if |s| < p.sizeMax then 0 else p.sizeMax
  {
    forall n: nat | WINDOW_SIZE < n < p.sizeMax && n <= |s|
      ensures !CutAt(p, s, n)
    {
      ConstantWindowHash(p.table, s[n - WINDOW_SIZE..n], b);
      ZeroValue(And(Zero(), p.breakTestMask));
    }
    if |s| >= p.sizeMax {
      assert CutAt(p, s, p.sizeMax);
    }
  }

  lemma {:induction false} ZeroValue(bits: seq<bool>)
    requires forall i :: 0 <= i < |bits| ==> !bits[i]
    ensures BitsValue(bits) == 0
  {
    if bits != [] {
      ZeroValue(bits[..|bits| - 1]);
    }
  }

  lemma ConstantWindowHash(table: seq<Word>, w: Bytes, b: byte)
    requires |table| == 256 && |w| == WINDOW_SIZE
    requires forall i :: 0 <= i < |w| ==> w[i] == b
    ensures Buzhash(table, w) == Zero()
  {
    var half := w[..32];
    assert w[32..] == half && w == half + half;
    BuzhashConcat(table, half, half);
    var h := Buzhash(table, half);
    assert RotateBy(h, 32) == h;
    assert Xor(h, h) == Zero();
  }

  // ---- The incremental scanner ----

  /** The bytes of the current chunk that the hash covers. */
  function LastWindow(s: Bytes): Bytes {
    if |s| <= WINDOW_SIZE then s else s[|s| - WINDOW_SIZE..]
  }

  /** A full window is a circular buffer whose oldest byte sits at |s| mod 64. */
  ghost predicate WindowHolds(window: Bytes, s: Bytes) {
    && |window| == WINDOW_SIZE
    && if |s| < WINDOW_SIZE then window[..|s|] == s
       else Unrolled(window, |s| % WINDOW_SIZE) == LastWindow(s)
  }

  function Unrolled(window: Bytes, at: nat): Bytes
    requires at <= |window|
  {
    window[at..] + window[..at]
  }

  lemma UnrolledReplace(window: Bytes, at: nat, b: byte)
    requires at < |window|
    ensures window[at] == Unrolled(window, at)[0]
    ensures Unrolled(window[at := b], if at == |window| - 1 then 0 else at + 1) == Unrolled(window, at)[1..] + [b]
  {
  }

  lemma LastWindowSnoc(s: Bytes, b: byte)
    requires |s| >= WINDOW_SIZE
    ensures LastWindow(s + [b]) == LastWindow(s)[1..] + [b]
    ensures LastWindow(s + [b]) == (s + [b])[|s| + 1 - WINDOW_SIZE..|s| + 1]
  {
  }

  lemma ReplaceOldest(window: Bytes, s: Bytes, b: byte)
    requires WindowHolds(window, s) && |s| >= WINDOW_SIZE
    ensures window[|s| % WINDOW_SIZE] == LastWindow(s)[0]
    ensures WindowHolds(window[|s| % WINDOW_SIZE := b], s + [b])
  {
    hide LastWindow, Unrolled;
    LastWindowSnoc(s, b);
    UnrolledReplace(window, |s| % WINDOW_SIZE, b);
  }

  lemma ShortWindow(s: Bytes)
    ensures |s| <= WINDOW_SIZE ==> LastWindow(s) == s
  {
  }

  /** No boundary lies in the first window. */
  lemma ShortScan(p: Params, s: Bytes, data: Bytes)
    requires p.Valid() && |s| < WINDOW_SIZE
    ensures forall n: nat :: n <= |data| && |s| + n <= WINDOW_SIZE ==> FirstCut(p, s + data[..n]) == 0
    ensures forall n: nat :: n <= |data| && |s| + n <= WINDOW_SIZE ==> LastWindow(s + data[..n]) == s + data[..n]
  {
  }

  lemma HoldsLength(window: Bytes, s: Bytes)
    requires WindowHolds(window, s)
    ensures |window| == WINDOW_SIZE
  {
  }

  lemma FillNext(window: Bytes, s: Bytes, b: byte)
    requires WindowHolds(window, s) && |s| < WINDOW_SIZE
    ensures WindowHolds(window[|s| := b], s + [b])
    ensures LastWindow(s + [b]) == s + [b] && LastWindow(s) == s
  {
    assert window[|s| := b][..|s| + 1] == s + [b];
    if |s| + 1 == WINDOW_SIZE {
      assert Unrolled(window[|s| := b], 0) == s + [b];
    }
  }

  /** One turn of the scan loop: slot |s| mod 64 holds the byte that leaves the window. */
  lemma RollStep(p: Params, window: Bytes, s: Bytes, enter: byte)
    requires p.Valid() && WindowHolds(window, s) && |s| >= WINDOW_SIZE
    ensures var idx := |s| % WINDOW_SIZE; var next := s + [enter];
            && WindowHolds(window[idx := enter], next)
            && Buzhash(p.table, LastWindow(next))
            == Xor(Xor(RotateLeft(Buzhash(p.table, LastWindow(s))), p.table[window[idx]]), p.table[enter])
  {
    ReplaceOldest(window, s, enter);
    LastWindowSnoc(s, enter);
    RollWindow(p.table, LastWindow(s), enter);
  }

  lemma NothingScanned(p: Params, window: Bytes)
    requires p.Valid() && |window| == WINDOW_SIZE
    ensures Buzhash(p.table, LastWindow([])) == Zero() && WindowHolds(window, []) && FirstCut(p, []) == 0
  {
  }

  class Chunker {
    const p: Params
    var h: Word
    var windowSize: nat
    var chunkSize: nat
    const window: array<byte>

    /** s is what has been scanned since the last boundary, and holds no boundary. */
    ghost predicate Scanned(s: Bytes)
      reads this, window
    {
      && p.Valid()
      && window.Length == WINDOW_SIZE
      && chunkSize == |s|
      && windowSize == Min(|s|, WINDOW_SIZE)
      && h == Buzhash(p.table, LastWindow(s))
      && WindowHolds(window[..], s)
      && FirstCut(p, s) == 0
    }

    lemma ScannedHasNoCut(s: Bytes)
      requires Scanned(s)
      ensures p.Valid() && FirstCut(p, s) == 0
    {
    }

    constructor (p: Params)
      requires p.Valid()
      ensures this.p == p && Scanned([]) && fresh(window)
    {
      this.p := p;
      h, windowSize, chunkSize := Zero(), 0, 0;
      window := new byte[WINDOW_SIZE](_ => 0);
    }

    /** First part of a scan: fill the window; no boundary can lie in these bytes. */
    method FillWindow(data: Bytes, ghost s: Bytes) returns (pos: nat)
      requires Scanned(s)
      modifies this, window
      ensures pos == Min(|data|, Max(0, WINDOW_SIZE - |s|))
      ensures Scanned(s + data[..pos])
    {
      hide Buzhash, RotateLeft, Xor, ShallBreak, FirstCut, LastWindow, WindowHolds;
      ShortWindow(s);
      if |s| < WINDOW_SIZE {
        ShortScan(p, s, data);
      }
      HoldsLength(window[..], s);
      pos := 0;
      TakeAll(s, data);
      if windowSize < WINDOW_SIZE {
        var need := WINDOW_SIZE - windowSize;
        var copyLen := if need < |data| then need else |data|;
        for i := 0 to copyLen
          invariant pos == i
          invariant windowSize == |s| + i
          invariant chunkSize == |s|
          invariant h == Buzhash(p.table, s + data[..i])
          invariant WindowHolds(window[..], s + data[..i])
        {
          var b := data[pos];
          TakeSnoc(s, data, i);
          BuzhashSnoc(p.table, s + data[..i], b);
          FillNext(window[..], s + data[..i], b);
          ghost var filled := window[..][windowSize := b];
          window[windowSize] := b;
          assert window[..] == filled;
          h := Xor(RotateLeft(h), p.table[b]);
          pos := pos + 1;
          windowSize := windowSize + 1;
        }
        chunkSize := chunkSize + copyLen;
      }
    }

    /** The body of the scan loop up to the boundary test. */
    method Roll(enter: byte, idx: nat, ghost s: Bytes)
      requires Scanned(s) && |s| >= WINDOW_SIZE && idx == chunkSize % WINDOW_SIZE
      modifies this, window
      ensures windowSize == old(windowSize) && chunkSize == |s| + 1
      ensures h == Buzhash(p.table, LastWindow(s + [enter]))
      ensures WindowHolds(window[..], s + [enter])
    {
      hide RotateLeft, Xor, Buzhash, Zero, LastWindow, WindowHolds, ShallBreak, FirstCut;
      RollStep(p, window[..], s, enter);
      ghost var rolled := window[..][idx := enter];
      var leave := window[idx];
      h := Xor(Xor(RotateLeft(h), p.table[leave]), p.table[enter]);
      chunkSize := chunkSize + 1;
      window[idx] := enter;
      assert window[..] == rolled;
    }

    /** Find the next boundary: exactly where the reference puts it, or 0 and remember the data. */
    method Scan(data: Bytes, ghost s: Bytes) returns (r: nat)
      requires Scanned(s)
      modifies this, window
      ensures r == 0 ==> FirstCut(p, s + data) == 0 && Scanned(s + data)
      ensures r != 0 ==> r <= |data| && FirstCut(p, s + data) == |s| + r && Scanned([])
    {
      hide Buzhash, RotateLeft, Xor, Zero, LastWindow, WindowHolds, ShallBreak, FirstCut;
      var pos := FillWindow(data, s);
      if windowSize < WINDOW_SIZE {
        TakeAll(s, data);
        return 0;
      }
      var idx := chunkSize % WINDOW_SIZE;
      while pos < |data|
        invariant pos <= |data| && |s| + pos >= WINDOW_SIZE
        invariant Scanned(s + data[..pos])
        invariant idx == chunkSize % WINDOW_SIZE
      {
        ghost var cur := s + data[..pos];
        TakeSnoc(s, data, pos);
        FirstCutSnoc(p, cur, data[pos]);
        Roll(data[pos], idx, cur);
        pos := pos + 1;
        if ShallBreak(p, chunkSize, h) {
          CutAtPrefix(p, s + data[..pos], data[pos..]);
          TakeDrop(s, data, pos);
          NothingScanned(p, window[..]);
          h, chunkSize, windowSize := Zero(), 0, 0;
          return pos;
        }
        idx := chunkSize % WINDOW_SIZE;
      }
      TakeAll(s, data);
      return 0;
    }
  }
}
