/** UTF-8 as the decoder checks it, and the scalar values it stands for. */
module Unicode {
  import opened Words

  // ----- byte sequences, as table 3-7 of the Unicode Standard lists them

  predicate Trails(b: u8) {
    0x80 <= b <= 0xBF
  }

  /** The length of the scalar value that opens `b`, or 0 when none does. */
  function ScalarLength(b: seq<u8>): (n: nat)
    requires b != []
    ensures n <= |b|
  {
    if b[0] <= 0x7F then 1
    else if |b| >= 2 && 0xC2 <= b[0] <= 0xDF && Trails(b[1]) then 2
    else if |b| >= 3 && 0xE0 <= b[0] <= 0xEF && Trails(b[1]) && Trails(b[2])
         && (b[0] == 0xE0 ==> b[1] >= 0xA0) && (b[0] == 0xED ==> b[1] <= 0x9F) then 3
    else if |b| >= 4 && 0xF0 <= b[0] <= 0xF4 && Trails(b[1]) && Trails(b[2]) && Trails(b[3])
         && (b[0] == 0xF0 ==> b[1] >= 0x90) && (b[0] == 0xF4 ==> b[1] <= 0x8F) then 4
    else 0
  }

  predicate Utf8(b: seq<u8>)
    decreases |b|
  {
    b == [] || (ScalarLength(b) > 0 && Utf8(b[ScalarLength(b)..]))
  }

  // ----- scalar values

  /** A code point that is not a surrogate. */
  type Scalar = c: int | 0 <= c < 0xD800 || 0xE000 <= c < 0x110000

  /** The bytes of a scalar value: its base-64 digits under a lead byte that tells how many there are. */
  function ScalarBytes(c: Scalar): (b: seq<u8>)
    ensures 0 < |b| <= 4
  {
    var n: int := c / 64;
    var h: int := n / 64;
    if c < 0x80 then [c as int]
    else if c < 0x800 then [0xC0 + n, 0x80 + c % 64]
    else if c < 0x10000 then [0xE0 + h, 0x80 + n % 64, 0x80 + c % 64]
    else [0xF0 + h / 64, 0x80 + h % 64, 0x80 + n % 64, 0x80 + c % 64]
  }

  function TextOf(scalars: seq<Scalar>): seq<u8> {
    if scalars == [] then [] else ScalarBytes(scalars[0]) + TextOf(scalars[1..])
  }

  /** Every scalar value opens the text it begins, whatever follows. */
  lemma ScalarOpens(c: Scalar, rest: seq<u8>)
    ensures ScalarLength(ScalarBytes(c) + rest) == |ScalarBytes(c)|
    ensures (ScalarBytes(c) + rest)[|ScalarBytes(c)|..] == rest
  {
    var n := c / 64;
    var h := n / 64;
    assert c == 64 * n + c % 64 && n == 64 * h + n % 64;
    if c >= 0x10000 {
      assert h == 64 * (h / 64) + h % 64;
    }
  }

  /** A scalar value in front neither makes nor breaks a text. */
  lemma Utf8Front(c: Scalar, rest: seq<u8>)
    ensures Utf8(ScalarBytes(c) + rest) <==> Utf8(rest)
  {
    ScalarOpens(c, rest);
  }

  lemma LastDigit(c: int, n: int, low: int)
    requires c == 64 * n + low && 0 <= low < 64
    ensures c / 64 == n && c % 64 == low
  {
  }

  lemma TwoBytes(c: Scalar, n: int, low: int)
    requires c == 64 * n + low && 0 <= low < 64 && 2 <= n < 32
    ensures ScalarBytes(c) == [0xC0 + n, 0x80 + low]
  {
    LastDigit(c, n, low);
  }

  lemma ThreeBytes(c: Scalar, n: int, h: int, mid: int, low: int)
    requires n == 64 * h + mid && c == 64 * n + low && 0 <= low < 64 && 0 <= mid < 64 && 0 <= h < 16 && 32 <= n
    ensures ScalarBytes(c) == [0xE0 + h, 0x80 + mid, 0x80 + low]
  {
    LastDigit(c, n, low);
    LastDigit(n, h, mid);
  }

  lemma FourBytes(c: Scalar, n: int, h: int, top: int, high: int, mid: int, low: int)
    requires h == 64 * top + high && n == 64 * h + mid && c == 64 * n + low && 16 <= h
    requires 0 <= low < 64 && 0 <= mid < 64 && 0 <= high < 64 && 0 <= top <= 4
    ensures ScalarBytes(c) == [0xF0 + top, 0x80 + high, 0x80 + mid, 0x80 + low]
  {
    LastDigit(c, n, low);
    LastDigit(n, h, mid);
    LastDigit(h, top, high);
  }

  /** Whatever opens a text is the bytes of a scalar value. */
  lemma ScalarRead(b: seq<u8>) returns (c: Scalar)
    requires b != [] && ScalarLength(b) > 0
    ensures b[..ScalarLength(b)] == ScalarBytes(c)
  {
    var lead: int := b[0];
    if lead <= 0x7F {
      c := lead;
    } else if lead <= 0xDF {
      var n, low: int := lead - 0xC0, b[1] - 0x80;
      c := 64 * n + low;
      TwoBytes(c, n, low);
    } else if lead <= 0xEF {
      var h, mid: int, low: int := lead - 0xE0, b[1] - 0x80, b[2] - 0x80;
      var n := 64 * h + mid;
      c := 64 * n + low;
      ThreeBytes(c, n, h, mid, low);
    } else {
      var top, high: int, mid: int, low: int := lead - 0xF0, b[1] - 0x80, b[2] - 0x80, b[3] - 0x80;
      var h := 64 * top + high;
      var n := 64 * h + mid;
      c := 64 * n + low;
      FourBytes(c, n, h, top, high, mid, low);
    }
  }

  /** The bytes of scalar values are a text. */
  lemma {:induction false} TextIsUtf8(scalars: seq<Scalar>)
    ensures Utf8(TextOf(scalars))
  {
    if scalars != [] {
      TextIsUtf8(scalars[1..]);
      Utf8Front(scalars[0], TextOf(scalars[1..]));
    }
  }

  /** Every text is the bytes of some scalar values. */
  lemma {:induction false} Utf8IsText(b: seq<u8>) returns (scalars: seq<Scalar>)
    requires Utf8(b)
    ensures TextOf(scalars) == b
    decreases |b|
  {
    if b == [] {
      scalars := [];
    } else {
      var n := ScalarLength(b);
      var c := ScalarRead(b);
      var rest := Utf8IsText(b[n..]);
      scalars := [c] + rest;
      assert b == b[..n] + b[n..] && scalars[1..] == rest;
    }
  }

  /** Different scalar values have different bytes, neither the start of the other. */
  lemma ScalarsApart(c: Scalar, d: Scalar, rest: seq<u8>, other: seq<u8>)
    requires ScalarBytes(c) + rest == ScalarBytes(d) + other
    ensures c == d && rest == other
  {
    ScalarOpens(c, rest);
    ScalarOpens(d, other);
    var b := ScalarBytes(c) + rest;
    assert b[..|ScalarBytes(c)|] == ScalarBytes(c) && b[..|ScalarBytes(d)|] == ScalarBytes(d);
  }

  /** A text has one reading. */
  lemma {:induction false} OneReading(a: seq<Scalar>, b: seq<Scalar>)
    requires TextOf(a) == TextOf(b)
    ensures a == b
  {
    if a != [] && b != [] {
      ScalarsApart(a[0], b[0], TextOf(a[1..]), TextOf(b[1..]));
      OneReading(a[1..], b[1..]);
      assert a == [a[0]] + a[1..] && b == [b[0]] + b[1..];
    }
  }

  ghost predicate Spelled(text: seq<u8>) {
    exists scalars :: TextOf(scalars) == text
  }

  /** The texts the decoder accepts are exactly the bytes of scalar values. */
  lemma Utf8Exactly(b: seq<u8>)
    ensures Utf8(b) <==> Spelled(b)
  {
    if Utf8(b) {
      var scalars := Utf8IsText(b);
    }
    if scalars :| TextOf(scalars) == b {
      TextIsUtf8(scalars);
    }
  }
}
