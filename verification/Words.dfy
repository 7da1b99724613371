/**
 The primitive reads and writes of the bytecode image: little-endian integers of fixed
 width and raw bytes (the _DUMP and _LOAD macros of horse64/bytecodeserialize.c).

 Writers take the bytes that follow, so that PutX(x, rest) is the image of x followed by
 rest. Loaders return what they read and the bytes that are left, or refuse.
 */
module Words {

  type Byte = n: int | 0 <= n < 256

  datatype Load<+T> = Refused | Loaded(value: T, rest: seq<Byte>) {
    predicate IsFailure() { Refused? }

    function PropagateFailure<U>(): Load<U>
      requires Refused?
    {
      Refused
    }

    function Extract(): (T, seq<Byte>)
      requires Loaded?
    {
      (value, rest)
    }
  }

  // ----------------------------------------------------------------- little endian

  function Little(width: nat, n: nat): (b: seq<Byte>)
    ensures |b| == width
  {
    if width == 0 then [] else [n % 256] + Little(width - 1, n / 256)
  }

  function FromLittle(b: seq<Byte>): nat {
    if |b| == 0 then 0 else b[0] + 256 * FromLittle(b[1..])
  }

  function Pow256(width: nat): (p: nat)
    ensures p > 0
  {
    if width == 0 then 1 else 256 * Pow256(width - 1)
  }

  lemma {:induction false} LittleRoundTrip(width: nat, n: nat)
    requires n < Pow256(width)
    ensures FromLittle(Little(width, n)) == n
  {
    if width > 0 {
      LittleRoundTrip(width - 1, n / 256);
      assert Little(width, n)[1..] == Little(width - 1, n / 256);
    }
  }

  lemma {:induction false} FromLittleRoundTrip(b: seq<Byte>)
    ensures FromLittle(b) < Pow256(|b|) && Little(|b|, FromLittle(b)) == b
  {
    if |b| > 0 {
      FromLittleRoundTrip(b[1..]);
      assert b == [b[0]] + b[1..];
      var tail: nat := FromLittle(b[1..]);
      assert (b[0] + 256 * tail) / 256 == tail && (b[0] + 256 * tail) % 256 == b[0];
    }
  }

  // ------------------------------------------------------------------ typed integers

  datatype Kind = U8 | I16 | I32 | I64

  function Width(k: Kind): nat {
    match k case U8 => 1 case I16 => 2 case I32 => 4 case I64 => 8
  }

  function Modulus(k: Kind): nat {
    match k case U8 => 0x100 case I16 => 0x1_0000 case I32 => 0x1_0000_0000 case I64 => 0x1_0000_0000_0000_0000
  }

  predicate InRange(k: Kind, n: int) {
    if k.U8? then 0 <= n < Modulus(k) else -(Modulus(k) / 2) <= n < Modulus(k) / 2
  }

  /** The two's complement image of n, cut to the width of k. */
  function Encode(k: Kind, n: int): (b: seq<Byte>)
    ensures |b| == Width(k)
  {
    Little(Width(k), n % Modulus(k))
  }

  function Decode(k: Kind, b: seq<Byte>): (n: int)
    requires |b| == Width(k)
  {
    var u: int := FromLittle(b);
    if !k.U8? && u >= Modulus(k) / 2 then u - Modulus(k) else u
  }

  lemma ModShift(u: int, m: int)
    requires 0 <= u < m
    ensures u % m == u && (u - m) % m == u
  {
  }

  lemma ModulusIsPow(k: Kind)
    ensures Modulus(k) == Pow256(Width(k))
  {
    assert Pow256(1) == 0x100 && Pow256(2) == 0x1_0000;
    assert Pow256(4) == 0x1_0000_0000;
    assert Pow256(8) == 0x1_0000_0000_0000_0000;
  }

  lemma IntRoundTrip(k: Kind, n: int)
    requires InRange(k, n)
    ensures Decode(k, Encode(k, n)) == n
  {
    hide Little, FromLittle;
    ModulusIsPow(k);
    LittleRoundTrip(Width(k), n % Modulus(k));
    ModShift(if n < 0 then n + Modulus(k) else n, Modulus(k));
  }

  lemma ImageRoundTrip(k: Kind, b: seq<Byte>)
    requires |b| == Width(k)
    ensures InRange(k, Decode(k, b)) && Encode(k, Decode(k, b)) == b
  {
    hide Little, FromLittle;
    ModulusIsPow(k);
    FromLittleRoundTrip(b);
    ModShift(FromLittle(b), Modulus(k));
  }

  lemma DivTwice(n: nat, p: nat)
    requires p > 0
    ensures n / 256 / p == n / (256 * p)
  {
    var q, r := n / 256 / p, n / 256 % p;
    assert n == 256 * (p * q + r) + n % 256 == (256 * p) * q + (256 * r + n % 256);
    DivUnique(n, 256 * p, q, 256 * r + n % 256);
  }

  lemma DivUnique(n: int, d: int, q: int, r: int)
    requires d > 0 && n == d * q + r && 0 <= r < d
    ensures n / d == q
  {
    var q', r' := n / d, n % d;
    assert d * (q - q') == r' - r by {
      assert n == d * q' + r';
      assert d * (q - q') == d * q - d * q';
    }
    TooSmall(d, q - q');
  }

  lemma TooSmall(d: int, x: int)
    requires d > 0 && -d < d * x < d
    ensures x == 0
  {
  }

  lemma {:induction false} LittleDigit(width: nat, n: nat, i: nat)
    requires i < width
    ensures Little(width, n)[i] == n / Pow256(i) % 256
  {
    if i > 0 {
      LittleDigit(width - 1, n / 256, i - 1);
      DivTwice(n, Pow256(i - 1));
    }
  }

  lemma TimesTwice(a: nat, b: nat)
    ensures 256 * (a * b) == (256 * a) * b
  {
  }

  lemma {:induction false} PowSplits(i: nat, width: nat)
    requires i < width
    ensures Pow256(width) == Pow256(i) * (256 * Pow256(width - i - 1))
  {
    if i > 0 {
      PowSplits(i - 1, width - 1);
      TimesTwice(Pow256(i - 1), 256 * Pow256(width - i - 1));
    }
  }

  /** Whole multiples of 256 times p do not show in the digit that p stands for. */
  lemma DigitOfRemainder(n: int, p: nat, c: nat)
    requires p > 0 && c > 0
    ensures n % (p * (256 * c)) / p % 256 == n / p % 256
  {
    var m := p * (256 * c);
    var t, r := n / m, n % m;
    var q := r / p;
    assert n == p * ((256 * c) * t + q) + r % p by {
      assert n == m * t + r && r == p * q + r % p;
      assert m * t == p * ((256 * c) * t);
      assert p * ((256 * c) * t + q) == p * ((256 * c) * t) + p * q;
    }
    DivUnique(n, p, (256 * c) * t + q, r % p);
    SameDigit(q, c, t);
  }

  lemma SameDigit(q: int, c: int, t: int)
    ensures ((256 * c) * t + q) % 256 == q % 256
  {
    var x := c * t;
    assert (256 * c) * t == 256 * x;
    assert (256 * x + q) % 256 == q % 256;
  }

  /**
   The bytes of an image: least significant first, byte i is digit i of the number to base 256, and a negative number
   is as if 256 to the width were added.
   */
  lemma EncodedDigit(k: Kind, n: int, i: nat)
    requires i < |Encode(k, n)|
    ensures |Encode(k, n)| == match k case U8 => 1 case I16 => 2 case I32 => 4 case I64 => 8
    ensures Encode(k, n)[i] == n / Pow256(i) % 256
  {
    hide Little;
    ModulusIsPow(k);
    LittleDigit(Width(k), n % Modulus(k), i);
    PowSplits(i, Width(k));
    DigitOfRemainder(n, Pow256(i), Pow256(Width(k) - i - 1));
  }

  // --------------------------------------------------------------- fields in a row

  ghost predicate Fit(ks: seq<Kind>, ns: seq<int>) {
    |ks| == |ns| && forall i :: 0 <= i < |ks| ==> InRange(ks[i], ns[i])
  }

  function PutFields(ks: seq<Kind>, ns: seq<int>, rest: seq<Byte>): seq<Byte>
    requires |ks| == |ns|
  {
    if |ks| == 0 then rest else Encode(ks[0], ns[0]) + PutFields(ks[1..], ns[1..], rest)
  }

  function LoadFields(ks: seq<Kind>, b: seq<Byte>): (r: Load<seq<int>>)
    ensures r.Loaded? ==> |r.value| == |ks|
  {
    if |ks| == 0 then Loaded([], b)
    else if |b| < Width(ks[0]) then Refused
    else
      var (tail, rest) :- LoadFields(ks[1..], b[Width(ks[0])..]);
      Loaded([Decode(ks[0], b[..Width(ks[0])])] + tail, rest)
  }

  /** An array of n integers of one kind. */
  function Array(k: Kind, n: nat): (ks: seq<Kind>)
    ensures |ks| == n && forall i :: 0 <= i < n ==> ks[i] == k
  {
    seq(n, _ => k)
  }

  lemma {:induction false} FieldsRoundTrip(ks: seq<Kind>, ns: seq<int>, rest: seq<Byte>)
    requires Fit(ks, ns)
    ensures LoadFields(ks, PutFields(ks, ns, rest)) == Loaded(ns, rest)
  {
    if |ks| > 0 {
      var w, tail := Width(ks[0]), PutFields(ks[1..], ns[1..], rest);
      var b := PutFields(ks, ns, rest);
      assert b[..w] == Encode(ks[0], ns[0]) && b[w..] == tail;
      IntRoundTrip(ks[0], ns[0]);
      FieldsRoundTrip(ks[1..], ns[1..], rest);
      assert ns == [ns[0]] + ns[1..];
    }
  }

  /** More bytes behind the input change neither the outcome nor what is consumed. */
  lemma {:induction false} FieldsStable(ks: seq<Kind>, b: seq<Byte>, more: seq<Byte>)
    requires LoadFields(ks, b).Loaded?
    ensures LoadFields(ks, b + more) == Loaded(LoadFields(ks, b).value, LoadFields(ks, b).rest + more)
  {
    if |ks| > 0 {
      var w := Width(ks[0]);
      assert (b + more)[..w] == b[..w] && (b + more)[w..] == b[w..] + more;
      FieldsStable(ks[1..], b[w..], more);
    }
  }

  lemma {:induction false} PutFieldsAppends(ks: seq<Kind>, ns: seq<int>, rest: seq<Byte>)
    requires |ks| == |ns|
    ensures PutFields(ks, ns, rest) == PutFields(ks, ns, []) + rest
  {
    if |ks| > 0 {
      PutFieldsAppends(ks[1..], ns[1..], rest);
      assert Encode(ks[0], ns[0]) + (PutFields(ks[1..], ns[1..], []) + rest)
          == (Encode(ks[0], ns[0]) + PutFields(ks[1..], ns[1..], [])) + rest;
    } else {
      assert [] + rest == rest;
    }
  }

  // ------------------------------------------------------------------------ raw bytes

  /** size bytes as they are; a negative size makes the allocation before the read fail. */
  function LoadRaw(size: int, b: seq<Byte>): (r: Load<seq<Byte>>)
    ensures r.Loaded? ==> |r.value| == size && b == r.value + r.rest
  {
    if size < 0 || |b| < size then Refused else Loaded(b[..size], b[size..])
  }

  lemma RawRoundTrip(data: seq<Byte>, rest: seq<Byte>)
    ensures LoadRaw(|data|, data + rest) == Loaded(data, rest)
  {
  }

  lemma RawStable(size: int, b: seq<Byte>, more: seq<Byte>)
    requires LoadRaw(size, b).Loaded?
    ensures LoadRaw(size, b + more) == Loaded(LoadRaw(size, b).value, LoadRaw(size, b).rest + more)
  {
    assert (b + more)[..size] == b[..size] && (b + more)[size..] == b[size..] + more;
  }
}
