/**
  The Adler-32 checksum of `pal::adler` (src/pal.cpp), the algorithm of
  section 2.2 of RFC 1950.  Every `adler` value is immutable: each step builds
  a new state from the previous one, so the model is a set of pure functions.

  Input characters are modelled as bytes 0..255 (an unsigned `char`).
*/
module Adler {

  /** The largest prime below 2^16 (`MOD_ADLER`). */
  const ModAdler: nat := 65521

  type Byte = b: int | 0 <= b < 256

  /** The two running sums `_a` and `_b`. */
  datatype State = State(a: nat, b: nat)

  /** Both sums are below the modulus, as every reachable state is. */
  predicate Reduced(s: State) {
    s.a < ModAdler && s.b < ModAdler
  }

  /** `adler()`: the initial state a = 1, b = 0. */
  const Initial: State := State(1, 0)

  /** `adler(last, next)`: one character folded into the sums. */
  function Step(s: State, c: Byte): (r: State)
    ensures Reduced(r)
    ensures r.a == (s.a + c) % ModAdler && r.b == (s.b + r.a) % ModAdler
  {
    var a := (s.a + c) % ModAdler;
    State(a, (s.b + a) % ModAdler)
  }

  /** Repeated single-character `<<` over a byte sequence, first byte first. */
  function Fold(s: State, data: seq<Byte>): (r: State)
    ensures Reduced(s) ==> Reduced(r)
    decreases |data|
  {
    if |data| == 0 then s else Fold(Step(s, data[0]), data[1..])
  }

  /** A C string: a buffer that holds a terminating NUL somewhere. */
  predicate Terminated(t: seq<Byte>) {
    0 in t
  }

  /** The characters of a C string, up to but excluding the first NUL. */
  function CStr(t: seq<Byte>): (r: seq<Byte>)
    requires Terminated(t)
    ensures 0 !in r && |r| < |t| && r == t[..|r|] && t[|r|] == 0
    decreases |t|
  {
    if t[0] == 0 then [] else [t[0]] + CStr(t[1..])
  }

  /** `operator<<(const char*)`: folds the characters before the first NUL. */
  function FoldStr(s: State, t: seq<Byte>): (r: State)
    requires Terminated(t)
    ensures Reduced(s) ==> Reduced(r)
    decreases |t|
  {
    if t[0] == 0 then s else FoldStr(Step(s, t[0]), t[1..])
  }

  /**
    `operator()(l, t)` as the code is written: `(*this) << t` names the
    `const char*` overload, so every round folds the whole C string starting at
    `t`, and the next round starts one character further on.
  */
  function FoldLenAsWritten(s: State, l: nat, t: seq<Byte>): State
    requires l == 0 || (l <= |t| && Terminated(t[l - 1..]))
    decreases l
  {
    if l == 0 then s
    else
      assert l - 1 > 0 ==> t[1..][l - 2..] == t[l - 1..];
      FoldLenAsWritten(FoldStr(s, t), l - 1, t[1..])
  }

  /** `operator()(l, t)` as evidently intended: `l` characters, one at a time. */
  function FoldLen(s: State, l: nat, t: seq<Byte>): State
    requires l <= |t|
    decreases l
  {
    if l == 0 then s else FoldLen(Step(s, t[0]), l - 1, t[1..])
  }

  /** `operator uint32_t`: the packed value `(_b << 16) | _a` on 32 bits. */
  function Packed(s: State): (h: nat)
    requires Reduced(s)
    ensures h == s.b * 65536 + s.a && h < 0x1_0000_0000
  {
    PackHalves(s.b, s.a);
    BitOr(ShiftLeft32(s.b, 16), s.a)
  }

  function Pow2(k: nat): (r: nat)
    ensures r >= 1
  {
    if k == 0 then 1 else 2 * Pow2(k - 1)
  }

  /** `x << k` on a 32-bit unsigned value: bits shifted past bit 31 are lost. */
  function ShiftLeft32(x: nat, k: nat): nat {
    (x * Pow2(k)) % 0x1_0000_0000
  }

  /** Bitwise `|` on non-negative integers, lowest bit first. */
  function BitOr(x: nat, y: nat): nat
    decreases x + y
  {
    if x == 0 then y
    else if y == 0 then x
    else 2 * BitOr(x / 2, y / 2) + (if x % 2 == 1 || y % 2 == 1 then 1 else 0)
  }

  /** With both halves below 2^16, `(hi << 16) | lo` is `hi * 65536 + lo`. */
  lemma PackHalves(hi: nat, lo: nat)
    requires hi < 0x1_0000 && lo < 0x1_0000
    ensures BitOr(ShiftLeft32(hi, 16), lo) == hi * 65536 + lo
  {
    Pow2Values();
    assert hi * 65536 < 0x1_0000_0000;
    assert ShiftLeft32(hi, 16) == hi * 65536;
    OrShifted(hi, lo, 16);
  }

  lemma Pow2Values()
    ensures Pow2(16) == 65536
  {
    assert Pow2(4) == 16;
    assert Pow2(8) == 256;
    assert Pow2(12) == 4096;
  }

  lemma {:induction false} OrShifted(hi: nat, lo: nat, k: nat)
    requires lo < Pow2(k)
    ensures BitOr(hi * Pow2(k), lo) == hi * Pow2(k) + lo
    decreases k
  {
    var x := hi * Pow2(k);
    if k == 0 {
      assert lo == 0;
    } else if x == 0 || lo == 0 {
    } else {
      var h := hi * Pow2(k - 1);
      assert x == 2 * h;
      assert x / 2 == h && x % 2 == 0;
      assert lo / 2 < Pow2(k - 1);
      OrShifted(hi, lo / 2, k - 1);
      assert BitOr(x, lo) == 2 * BitOr(h, lo / 2) + lo % 2;
    }
  }

  /** `adler::sum`: the packed hash of a state. */
  datatype Sum = Sum(hash: nat)

  /** `sum(const char*)`: the packed value of `adler() << text`. */
  function SumOfText(text: seq<Byte>): (r: Sum)
    requires Terminated(text)
    ensures r.hash == Packed(Fold(Initial, CStr(text)))
  {
    FoldStrIsFold(Initial, text);
    Sum(Packed(FoldStr(Initial, text)))
  }

  /** `sum(const adler&)`: the packed value of the given state. */
  function SumOfState(s: State): (r: Sum)
    requires Reduced(s)
    ensures r.hash == s.b * 65536 + s.a
  {
    Sum(Packed(s))
  }

  /** The six comparison operators the `pal_adler_sum_operator` macro expands to. */
  datatype Op = Eq | Ne | Le | Ge | Lt | Gt

  /** What each operator means on two unsigned hashes. */
  predicate Holds(op: Op, x: nat, y: nat) {
    match op
    case Eq => x == y
    case Ne => x != y
    case Le => x <= y
    case Ge => x >= y
    case Lt => x < y
    case Gt => x > y
  }

  /** `sum::operator OP(const char* text)`: this hash against the hash of `text`. */
  function Compare(sum: Sum, op: Op, text: seq<Byte>): (r: bool)
    requires Terminated(text)
    ensures r <==> Holds(op, sum.hash, Packed(Fold(Initial, CStr(text))))
  {
    Holds(op, sum.hash, SumOfText(text).hash)
  }

  // ---- properties

  /** Folding a concatenation is folding the parts in turn. */
  lemma {:induction false} FoldAppend(s: State, x: seq<Byte>, y: seq<Byte>)
    ensures Fold(s, x + y) == Fold(Fold(s, x), y)
    decreases |x|
  {
    if |x| == 0 {
      assert x + y == y;
    } else {
      assert (x + y)[1..] == x[1..] + y;
      FoldAppend(Step(s, x[0]), x[1..], y);
    }
  }

  /** `<< text` is repeated single-character `<<` over the characters before the NUL. */
  lemma {:induction false} FoldStrIsFold(s: State, t: seq<Byte>)
    requires Terminated(t)
    ensures FoldStr(s, t) == Fold(s, CStr(t))
    decreases |t|
  {
    if t[0] != 0 {
      FoldStrIsFold(Step(s, t[0]), t[1..]);
      assert ([t[0]] + CStr(t[1..]))[1..] == CStr(t[1..]);
    }
  }

  /** The intended `operator()(l, t)` folds exactly the first `l` characters. */
  lemma {:induction false} FoldLenIsPrefix(s: State, l: nat, t: seq<Byte>)
    requires l <= |t|
    ensures FoldLen(s, l, t) == Fold(s, t[..l])
    ensures l == 0 ==> FoldLen(s, l, t) == s
    decreases l
  {
    if l > 0 {
      FoldLenIsPrefix(Step(s, t[0]), l - 1, t[1..]);
      assert t[..l][1..] == t[1..][..l - 1];
    }
  }

  /** The empty string hashes to 1: a = 1, b = 0. */
  lemma EmptyHashIsOne()
    ensures SumOfText([0]).hash == 1
  {
    assert CStr([0]) == [];
  }

  // ---- the definition of section 2.2 of RFC 1950, as an independent reference

  /** D1 + D2 + ... + Dn, unreduced. */
  function ByteSum(d: seq<Byte>): nat
    decreases |d|
  {
    if |d| == 0 then 0 else ByteSum(d[..|d| - 1]) + d[|d| - 1]
  }

  /** (1 + D1) + (1 + D1 + D2) + ... + (1 + D1 + ... + Dn): the sum of every A, unreduced. */
  function SumOfAs(d: seq<Byte>): nat
    decreases |d|
  {
    if |d| == 0 then 0 else SumOfAs(d[..|d| - 1]) + 1 + ByteSum(d)
  }

  /** Reducing before or after adding gives the same remainder. */
  lemma ModAdd(x: nat, y: nat)
    ensures (x % ModAdler + y) % ModAdler == (x + y) % ModAdler
  {
    var q := x / ModAdler;
    assert x == q * ModAdler + x % ModAdler;
    assert x + y == q * ModAdler + (x % ModAdler + y);
    ModMultiple(q, x % ModAdler + y);
  }

  lemma ModMultiple(q: nat, r: nat)
    ensures (q * ModAdler + r) % ModAdler == r % ModAdler
  {
    var k := r / ModAdler;
    assert r == k * ModAdler + r % ModAdler;
    assert q * ModAdler + r == (q + k) * ModAdler + r % ModAdler;
  }

  /** RFC 1950: A is 1 plus the byte sum, B the sum of all A values, both modulo 65521. */
  lemma {:induction false} FoldMatchesRfc(d: seq<Byte>)
    ensures Fold(Initial, d) == State((1 + ByteSum(d)) % ModAdler, SumOfAs(d) % ModAdler)
    decreases |d|
  {
    if |d| > 0 {
      var n := |d|;
      var init, c := d[..n - 1], d[n - 1];
      assert d == init + [c];
      FoldMatchesRfc(init);
      FoldAppend(Initial, init, [c]);
      var s := Fold(Initial, init);
      assert Fold(s, [c]) == Step(s, c);
      ModAdd(1 + ByteSum(init), c);
      assert ByteSum(d) == ByteSum(init) + c;
      var a := (1 + ByteSum(d)) % ModAdler;
      assert Step(s, c).a == a;
      ModAdd(SumOfAs(init), a);
      ModAdd(1 + ByteSum(d), SumOfAs(init));
      assert SumOfAs(d) == SumOfAs(init) + 1 + ByteSum(d);
    }
  }

  // ---- `operator()(l, t)` as written versus as intended

  /** What the code as written folds: the whole C string at each of the first `l` offsets. */
  lemma {:induction false} FoldLenAsWrittenFoldsSuffixes(s: State, l: nat, t: seq<Byte>)
    requires l > 0 && l <= |t| && Terminated(t[l - 1..])
    ensures FoldLenAsWritten(s, l, t) == FoldLenAsWritten(Fold(s, CStr(t)), l - 1, t[1..])
  {
    FoldStrIsFold(s, t);
  }

  /** The string "ab": `operator()(1, "ab")` folds both characters instead of one. */
  lemma FoldLenAsWrittenOverreads()
    ensures FoldLenAsWritten(Initial, 1, [97, 98, 0]) == State(196, 294)
    ensures FoldLen(Initial, 1, [97, 98, 0]) == State(98, 98)
  {
    var t: seq<Byte> := [97, 98, 0];
    assert CStr(t[2..]) == [];
    assert CStr(t[1..]) == [98];
    assert CStr(t) == [97, 98];
    FoldStrIsFold(Initial, t);
    assert Fold(Initial, [97, 98]) == Fold(Step(Initial, 97), [98]);
    assert Step(Initial, 97) == State(98, 98);
    assert Step(State(98, 98), 98) == State(196, 294);
  }
}
