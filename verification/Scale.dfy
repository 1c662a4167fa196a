/** The SCALE encodings that event records are made of: fixed-width little-endian numbers,
    compact numbers, and vectors of fixed-width items. */
module Scale {
  import opened Integers

  type Input = seq<u8>

  const U32_MODULUS: nat := 0x1_0000_0000

  datatype Decoded<+T> = Ok(value: T, rest: Input) | Fail

  function U32Bytes(n: nat): (b: Input)
    requires n < U32_MODULUS
    ensures |b| == 4
  {
    [n % 0x100, n / 0x100 % 0x100, n / 0x1_0000 % 0x100, n / 0x100_0000]
  }

  function U32Value(b: Input): (n: nat)
    requires |b| >= 4
    ensures n < U32_MODULUS
  {
    U16Value(b) + 0x1_0000 * U16Value(b[2..])
  }

  function U16Value(b: Input): (n: nat)
    requires |b| >= 2
    ensures n < 0x1_0000
  {
    var low: int, high: int := b[0], b[1];
    low + 0x100 * high
  }

  function DecodeU32(input: Input): Decoded<nat> {
    if |input| < 4 then Fail else Ok(U32Value(input), input[4..])
  }

  /** The shortest of the four forms that fits. */
  function CompactBytes(n: nat): (b: Input)
    requires n < U32_MODULUS
    ensures 1 <= |b| <= 5
  {
    if n < 0x40 then [4 * n]
    else if n < 0x4000 then [(4 * n + 1) % 0x100, (4 * n + 1) / 0x100]
    else if n < 0x4000_0000 then U32Bytes(4 * n + 2)
    else [3] + U32Bytes(n)
  }

  /** Numbers that a shorter form could hold are refused. */
  function DecodeCompact(input: Input): (out: Decoded<nat>)
    ensures out.Ok? ==> |out.rest| < |input|
  {
    if input == [] then Fail
    else if input[0] % 4 == 0 then Ok(input[0] / 4, input[1..])
    else if input[0] % 4 == 1 then
      if |input| < 2 then Fail
      else
        var x := U16Value(input) / 4;
        if x > 0x3f then Ok(x, input[2..]) else Fail
    else if input[0] % 4 == 2 then
      if |input| < 4 then Fail
      else
        var x := U32Value(input) / 4;
        if x > 0x3fff then Ok(x, input[4..]) else Fail
    else if input[0] / 4 != 0 || |input| < 5 then Fail
    else
      var x := U32Value(input[1..]);
      if x > 0x3fff_ffff then Ok(x, input[5..]) else Fail
  }

  lemma U32RoundTrip(n: nat, tail: Input)
    requires n < U32_MODULUS
    ensures DecodeU32(U32Bytes(n) + tail) == Ok(n, tail)
  {
    var a, b, c := n / 0x100, n / 0x1_0000, n / 0x100_0000;
    assert a / 0x100 == b && b / 0x100 == c;
    assert n == 0x100 * a + n % 0x100 && a == 0x100 * b + a % 0x100 && b == 0x100 * c + b % 0x100;
    assert (U32Bytes(n) + tail)[4..] == tail;
  }

  lemma LowDigit(q: nat, r: nat)
    requires r < 0x100
    ensures (r + 0x100 * q) % 0x100 == r && (r + 0x100 * q) / 0x100 == q
  {
  }

  lemma Digits(a: nat, b: nat, c: nat, d: nat)
    requires a < 0x100 && b < 0x100 && c < 0x100 && d < 0x100
    ensures
      var n := a + 0x100 * b + 0x1_0000 * (c + 0x100 * d);
      n % 0x100 == a && n / 0x100 % 0x100 == b && n / 0x1_0000 % 0x100 == c && n / 0x100_0000 == d
  {
    var high := c + 0x100 * d;
    var n := a + 0x100 * b + 0x1_0000 * high;
    LowDigit(b + 0x100 * high, a);
    LowDigit(high, b);
    LowDigit(d, c);
    assert n == a + 0x100 * (b + 0x100 * high);
    assert n / 0x1_0000 == high;
    assert n / 0x100_0000 == d;
  }

  lemma U32Canonical(input: Input)
    requires |input| >= 4
    ensures U32Bytes(U32Value(input)) == input[..4]
  {
    Digits(input[0], input[1], input[2], input[3]);
  }

  /** Decoding undoes encoding, whatever follows. */
  lemma CompactRoundTrip(n: nat, tail: Input)
    requires n < U32_MODULUS
    ensures DecodeCompact(CompactBytes(n) + tail) == Ok(n, tail)
  {
    var input := CompactBytes(n) + tail;
    if n < 0x40 {
      assert input[1..] == tail;
    } else if n < 0x4000 {
      assert input[2..] == tail;
    } else if n < 0x4000_0000 {
      CompactRoundTrip4(n, tail);
    } else {
      U32RoundTrip(n, tail);
      assert input[1..] == U32Bytes(n) + tail;
      assert input[5..] == tail;
    }
  }

  lemma CompactRoundTrip4(n: nat, tail: Input)
    requires 0x4000 <= n < 0x4000_0000
    ensures DecodeCompact(U32Bytes(4 * n + 2) + tail) == Ok(n, tail)
  {
    hide U32Bytes, U32Value;
    var input := U32Bytes(4 * n + 2) + tail;
    U32RoundTrip(4 * n + 2, tail);
    LowBits(input);
    assert U32Value(input) == 4 * n + 2 && input[4..] == tail;
  }

  /** Only canonical encodings decode. */
  lemma CompactCanonical(input: Input)
    requires DecodeCompact(input).Ok?
    ensures
      var Ok(n, rest) := DecodeCompact(input);
      n < U32_MODULUS && input == CompactBytes(n) + rest
  {
    if input[0] % 4 == 0 {
    } else if input[0] % 4 == 1 {
      CompactCanonical2(input);
    } else if input[0] % 4 == 2 {
      CompactCanonical4(input);
    } else {
      U32Canonical(input[1..]);
      assert input == [3] + input[1..5] + input[5..];
    }
  }

  lemma CompactCanonical2(input: Input)
    requires |input| >= 2 && input[0] % 4 == 1 && U16Value(input) / 4 > 0x3f
    ensures CompactBytes(U16Value(input) / 4) == input[..2]
  {
    var y, low: int := U16Value(input), input[0];
    assert y % 4 == low % 4 && y == 4 * (y / 4) + 1;
  }

  lemma LowBits(input: Input)
    requires |input| >= 4
    ensures U32Value(input) % 4 == input[0] % 4
  {
    var low: int, second: int := input[0], input[1];
    assert U32Value(input) == low + 4 * (0x40 * second + 0x4000 * U16Value(input[2..]));
  }

  lemma CompactCanonical4(input: Input)
    requires |input| >= 4 && input[0] % 4 == 2 && U32Value(input) / 4 > 0x3fff
    ensures U32Value(input) / 4 < 0x4000_0000
    ensures CompactBytes(U32Value(input) / 4) == input[..4]
  {
    LowBits(input);
    var y := U32Value(input);
    assert y == 4 * (y / 4) + 2;
    U32Canonical(input);
  }

  // ---- vectors of fixed-width items ----

  function Concat(parts: seq<Input>): Input {
    if parts == [] then [] else Concat(parts[..|parts| - 1]) + parts[|parts| - 1]
  }

  lemma Associates<T>(a: seq<T>, b: seq<T>, c: seq<T>)
    ensures (a + b) + c == a + (b + c)
  {
  }

  lemma SplitAt<T>(s: seq<T>, i: nat)
    requires i < |s|
    ensures s[..i + 1] == s[..i] + [s[i]] && s == (s[..i] + [s[i]]) + s[i + 1..]
  {
  }

  lemma ConcatSnoc(parts: seq<Input>, last: Input)
    ensures Concat(parts + [last]) == Concat(parts) + last
  {
    assert (parts + [last])[..|parts|] == parts;
  }

  lemma {:induction false} ConcatAppend(a: seq<Input>, b: seq<Input>)
    ensures Concat(a + b) == Concat(a) + Concat(b)
    decreases |b|
  {
    if b == [] {
      assert a + b == a;
    } else {
      var init, last := b[..|b| - 1], b[|b| - 1];
      assert b == init + [last];
      ConcatAppend(a, init);
      Associates(a, init, [last]);
      ConcatSnoc(a + init, last);
      Associates(Concat(a), Concat(init), last);
    }
  }

  /** Where part `i` is found in the concatenation. */
  lemma ConcatAt(parts: seq<Input>, i: nat)
    requires i < |parts|
    ensures Concat(parts[..i + 1]) == Concat(parts[..i]) + parts[i]
    ensures Concat(parts) == Concat(parts[..i]) + (parts[i] + Concat(parts[i + 1..]))
  {
    var before, after := parts[..i], parts[i + 1..];
    SplitAt(parts, i);
    ConcatSnoc(before, parts[i]);
    ConcatAppend(before + [parts[i]], after);
    Associates(Concat(before), parts[i], Concat(after));
  }

  /** The first `count` items of `width` bytes each. */
  function Items(count: nat, width: nat, input: Input): (out: Decoded<seq<Input>>)
    ensures out.Ok? ==> |out.rest| <= |input|
  {
    if count == 0 then Ok([], input)
    else
      match Items(count - 1, width, input)
      case Fail => Fail
      case Ok(items, rest) => if |rest| < width then Fail else Ok(items + [rest[..width]], rest[width..])
  }

  function DecodeVec(width: nat, input: Input): (out: Decoded<seq<Input>>)
    ensures out.Ok? ==> |out.rest| < |input|
  {
    match DecodeCompact(input)
    case Fail => Fail
    case Ok(count, rest) => Items(count, width, rest)
  }

  predicate AllWide(items: seq<Input>, width: nat) {
    forall i :: 0 <= i < |items| ==> |items[i]| == width
  }

  function VecBytes(items: seq<Input>): Input
    requires |items| < U32_MODULUS
  {
    CompactBytes(|items|) + Concat(items)
  }

  lemma {:induction false} ItemsRoundTrip(items: seq<Input>, width: nat, tail: Input)
    requires AllWide(items, width)
    ensures Items(|items|, width, Concat(items) + tail) == Ok(items, tail)
    decreases |items|
  {
    if items != [] {
      var n := |items| - 1;
      ItemsRoundTrip(items[..n], width, items[n] + tail);
      Associates(Concat(items[..n]), items[n], tail);
      assert (items[n] + tail)[..width] == items[n] && (items[n] + tail)[width..] == tail;
      assert items[..n] + [items[n]] == items;
    } else {
      assert Concat(items) + tail == tail;
    }
  }

  lemma ConcatNothing()
    ensures Concat([]) == []
  {
  }

  lemma {:induction false} ItemsCanonical(count: nat, width: nat, input: Input)
    requires Items(count, width, input).Ok?
    ensures
      var Ok(items, rest) := Items(count, width, input);
      |items| == count && AllWide(items, width) && input == Concat(items) + rest
    decreases count
  {
    hide Concat, DecodeU32;
    ConcatNothing();
    if count > 0 {
      ItemsCanonical(count - 1, width, input);
      var Ok(items, rest) := Items(count - 1, width, input);
      var last := rest[..width];
      ConcatSnoc(items, last);
      assert rest == last + rest[width..];
      Associates(Concat(items), last, rest[width..]);
    }
  }

  lemma VecRoundTrip(items: seq<Input>, width: nat, tail: Input)
    requires AllWide(items, width) && |items| < U32_MODULUS
    ensures DecodeVec(width, VecBytes(items) + tail) == Ok(items, tail)
  {
    Associates(CompactBytes(|items|), Concat(items), tail);
    CompactRoundTrip(|items|, Concat(items) + tail);
    ItemsRoundTrip(items, width, tail);
  }

  lemma VecCanonical(width: nat, input: Input)
    requires DecodeVec(width, input).Ok?
    ensures
      var Ok(items, rest) := DecodeVec(width, input);
      |items| < U32_MODULUS && AllWide(items, width) && input == VecBytes(items) + rest
  {
    CompactCanonical(input);
    var Ok(count, after) := DecodeCompact(input);
    ItemsCanonical(count, width, after);
    var Ok(items, rest) := DecodeVec(width, input);
    Associates(CompactBytes(count), Concat(items), rest);
  }

  // ---- the encoding in numbers ----

  /** The number that bytes stand for, the lowest first. */
  function LittleEndian(b: Input): nat {
    if b == [] then 0
    else
      var low: nat := b[0];
      low + 0x100 * LittleEndian(b[1..])
  }

  lemma U32IsLittleEndian(b: Input)
    requires |b| >= 4
    ensures U32Value(b) == LittleEndian(b[..4])
  {
    assert b[..4] == [b[0], b[1], b[2], b[3]];
    FourBytes(b[0], b[1], b[2], b[3]);
  }

  lemma FourBytes(a: u8, b: u8, c: u8, d: u8)
    ensures
      var low: nat, second: nat, third: nat, high: nat := a, b, c, d;
      LittleEndian([a, b, c, d]) == low + 0x100 * second + 0x1_0000 * third + 0x100_0000 * high
  {
    assert [a, b, c, d][1..] == [b, c, d] && [b, c, d][1..] == [c, d] && [c, d][1..] == [d] && [d][1..] == [];
    assert LittleEndian([d]) == d;
    var third: nat, high: nat := c, d;
    assert LittleEndian([c, d]) == third + 0x100 * high;
  }

  lemma U32BytesAreLittleEndian(n: nat)
    requires n < U32_MODULUS
    ensures LittleEndian(U32Bytes(n)) == n
  {
    U32RoundTrip(n, []);
    assert U32Bytes(n) + [] == U32Bytes(n) == U32Bytes(n)[..4];
    U32IsLittleEndian(U32Bytes(n));
  }

  /** The lowest two bits of a compact number tell its form, which is the shortest: one, two or four
      bytes with the number above those bits, or a byte and then four more. */
  lemma CompactForms(n: nat)
    requires n < U32_MODULUS
    ensures
      var b := CompactBytes(n);
      if n < 0x40 then |b| == 1 && LittleEndian(b) == 4 * n
      else if n < 0x4000 then |b| == 2 && LittleEndian(b) == 4 * n + 1
      else if n < 0x4000_0000 then |b| == 4 && LittleEndian(b) == 4 * n + 2
      else |b| == 5 && b[0] == 3 && LittleEndian(b[1..]) == n
  {
    var b := CompactBytes(n);
    if n < 0x40 {
      assert b[1..] == [];
    } else if n < 0x4000 {
      assert b[1..] == [b[1]] && b[1..][1..] == [];
      assert LittleEndian(b[1..]) == b[1];
    } else if n < 0x4000_0000 {
      U32BytesAreLittleEndian(4 * n + 2);
    } else {
      U32BytesAreLittleEndian(n);
      assert b[1..] == U32Bytes(n);
    }
  }
}
