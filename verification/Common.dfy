/** Bytes, failure types and the concatenation function shared by every other module. */
module Common {

  type byte = x: int | 0 <= x < 256

  type Bytes = seq<byte>

  type Digest = Bytes

  type Path = string

  datatype Option<+T> = None | Some(value: T)

  datatype Result<+T> = Ok(value: T) | Err

  datatype SeekFrom = FromStart(offset: nat) | FromEnd(delta: int) | FromCurrent(delta: int)

  /** The position a seek asks for. */
  function Target(pos: SeekFrom, current: nat, size: nat): int {
    match pos
    case FromStart(offset) => offset
    case FromEnd(delta) => size + delta
    case FromCurrent(delta) => current + delta
  }

  /** The path separator. */
  const SLASH: byte := 47

  function Min(a: int, b: int): int {
    if a < b then a else b
  }

  function Max(a: int, b: int): int {
    if a < b then b else a
  }

  /** The flat content of a list of pieces. */
  function Flatten<T>(parts: seq<seq<T>>): seq<T> {
    if parts == [] then [] else parts[0] + Flatten(parts[1..])
  }

  lemma {:induction false} FlattenAppend<T>(xs: seq<seq<T>>, ys: seq<seq<T>>)
    ensures Flatten(xs + ys) == Flatten(xs) + Flatten(ys)
  {
    if xs == [] {
      assert xs + ys == ys;
    } else {
      assert (xs + ys)[1..] == xs[1..] + ys;
      FlattenAppend(xs[1..], ys);
    }
  }

  lemma FlattenSnoc<T>(xs: seq<seq<T>>, y: seq<T>)
    ensures Flatten(xs + [y]) == Flatten(xs) + y
  {
    FlattenAppend(xs, [y]);
    assert Flatten([y]) == y + Flatten<T>([]);
  }

  lemma TakeSnoc<T>(s: seq<T>, data: seq<T>, pos: nat)
    requires pos < |data|
    ensures s + data[..pos + 1] == (s + data[..pos]) + [data[pos]]
  {
  }

  lemma ConcatAssoc<T>(a: seq<T>, b: seq<T>, c: seq<T>)
    ensures a + (b + c) == (a + b) + c
  {
  }

  lemma TakeAll<T>(s: seq<T>, data: seq<T>)
    ensures s + data[..|data|] == s + data
    ensures s + data[..0] == s
  {
  }

  lemma TakeDrop<T>(s: seq<T>, data: seq<T>, pos: nat)
    requires pos <= |data|
    ensures (s + data[..pos]) + data[pos..] == s + data
  {
  }

  lemma SliceOfSlice<T>(s: seq<T>, lo: nat, hi: nat, a: nat, b: nat)
    requires lo <= hi <= |s| && a <= b <= hi - lo
    ensures s[lo..hi][a..b] == s[lo + a..lo + b]
  {
    var x, y := s[lo..hi][a..b], s[lo + a..lo + b];
    assert |x| == |y|;
    forall i | 0 <= i < |x|
      ensures x[i] == y[i]
    {
      assert x[i] == s[lo..hi][a + i];
    }
  }

  /** 2^k, the only chunk sizes the backup code accepts. */
  function Pow2(k: nat): (r: nat)
    ensures r > 0
  {
    if k == 0 then 1 else 2 * Pow2(k - 1)
  }

  // ---- Division ----

  lemma EuclidUnique(d: nat, q: nat, r: nat, q': nat, r': nat)
    requires q * d + r == q' * d + r' && r < d && r' < d
    ensures q == q' && r == r'
  {
    if q < q' {
      MulLess(q, q', d);
    } else if q' < q {
      MulLess(q', q, d);
    }
  }

  lemma {:induction false} MulLess(a: nat, b: nat, c: nat)
    requires a < b
    ensures a * c + c <= b * c
    decreases b
  {
    assert b * c == (b - 1) * c + c;
    if a < b - 1 {
      MulLess(a, b - 1, c);
    }
  }

  lemma Euclid(x: nat, d: nat)
    requires d > 0
    ensures x / d >= 0 && x == x / d * d + x % d && x % d < d
  {
  }

  lemma DivModUnique(x: nat, d: nat, q: nat, r: nat)
    requires d > 0 && x == q * d + r && r < d
    ensures x / d == q && x % d == r
  {
    Euclid(x, d);
    EuclidUnique(d, q, r, x / d, x % d);
  }

  // ---- Little endian integers ----

  function ToLe(v: nat, n: nat): Bytes {
    if n == 0 then [] else [v % 256] + ToLe(v / 256, n - 1)
  }

  function FromLe(s: Bytes): nat {
    if s == [] then 0 else s[0] + 256 * FromLe(s[1..])
  }

  lemma {:induction false} LeRoundTrip(v: nat, n: nat)
    requires v < Pow256(n)
    ensures FromLe(ToLe(v, n)) == v && |ToLe(v, n)| == n
  {
    if n > 0 {
      LeRoundTrip(v / 256, n - 1);
    }
  }

  function Pow256(n: nat): (r: nat)
    ensures r > 0
  {
    if n == 0 then 1 else 256 * Pow256(n - 1)
  }

  lemma DivDiv(v: nat, b: nat, p: nat)
    requires b > 0 && p > 0
    ensures b * p > 0 && v / b / p == v / (b * p)
  {
    var a, r := v / b, v % b;
    var q, s := a / p, a % p;
    Euclid(v, b);
    Euclid(a, p);
    MulLess(s, p, b);
    assert a * b == (q * p + s) * b == q * (b * p) + s * b;
    assert p * b == b * p;
    DivModUnique(v, b * p, q, s * b + r);
  }

  /** The least significant byte comes first. */
  lemma {:induction false} LeDigit(v: nat, n: nat, i: nat)
    requires i < n
    ensures |ToLe(v, n)| == n && ToLe(v, n)[i] == v / Pow256(i) % 256
  {
    if i == 0 {
      LeLength(v, n);
      assert v / 1 == v;
    } else {
      LeDigit(v / 256, n - 1, i - 1);
      DivDiv(v, 256, Pow256(i - 1));
    }
  }

  lemma {:induction false} LeLength(v: nat, n: nat)
    ensures |ToLe(v, n)| == n
  {
    if n > 0 {
      LeLength(v / 256, n - 1);
    }
  }

  lemma Pow256At8()
    ensures Pow256(8) == 0x1_0000_0000_0000_0000
  {
    assert Pow256(4) == 0x1_0000_0000;
    assert Pow256(8) == 256 * 256 * 256 * 256 * Pow256(4);
  }
}
