/**
 * Eight-bit-per-channel colour arithmetic: the integer clamp helpers, the
 * saturating channel-wise addition (`Color::operator+`), the scaled
 * multiplication by a float (`Color::operator*`, "truncate, then clamp") and
 * the brightness metric.
 */
module Colors {

  /** An unsigned 8-bit integer, `uint8_t`. */
  newtype byte = x: int | 0 <= x < 256

  /** The largest channel value, also the upper clamp bound of every colour operation. */
  const ChannelMax: int := 255

  datatype Color = Color(r: byte, g: byte, b: byte)

  /** `Color()`: every channel zero. */
  const Black := Color(0, 0, 0)
  const White := Color(255, 255, 255)

  function Min(a: int, b: int): int { if a <= b then a else b }

  function Max(a: int, b: int): int { if a <= b then b else a }

  /** Channel-wise order: every channel of `a` is at most the same channel of `b`. */
  predicate Below(a: Color, b: Color) {
    a.r <= b.r && a.g <= b.g && a.b <= b.b
  }

  /** `Clamp<int>`: `lo` below the range, `hi` above it, `v` inside it. */
  function Clamp(v: int, lo: int, hi: int): (r: int)
    ensures lo <= hi ==> lo <= r <= hi
    ensures lo <= hi ==> r == Max(lo, Min(v, hi))
    ensures lo <= v <= hi ==> r == v
  {
    if v < lo then lo else if v > hi then hi else v
  }

  /** Clamping twice is clamping once. */
  lemma ClampIdempotent(v: int, lo: int, hi: int)
    requires lo <= hi
    ensures Clamp(Clamp(v, lo, hi), lo, hi) == Clamp(v, lo, hi)
  {
  }

  /**
   * `ClampUint8`: clamp, then `static_cast<uint8_t>`, which keeps the value
   * modulo 256. Within byte bounds the cast loses nothing.
   */
  function ClampUint8(v: int, lo: int, hi: int): (r: byte)
    ensures 0 <= lo <= hi <= ChannelMax ==> r as int == Clamp(v, lo, hi)
  {
    (Clamp(v, lo, hi) % 256) as byte
  }

  /** `static_cast<int>` of a floating-point value: truncation toward zero. */
  function Truncate(x: real): (n: int)
    ensures 0.0 <= x ==> n as real <= x < n as real + 1.0
    ensures x < 0.0 ==> n as real - 1.0 < x <= n as real
  {
    if 0.0 <= x then x.Floor else -((-x).Floor)
  }

  /** A scaled channel value made a channel again: truncated toward zero, then clamped to a byte. */
  function ChannelOf(p: real): (r: byte)
    ensures p <= 0.0 ==> r == 0
    ensures 0.0 <= p ==> r as int == Min(p.Floor, ChannelMax)
  {
    ClampUint8(Truncate(p), 0, ChannelMax)
  }

  /** A larger value never gives a smaller channel. */
  lemma ChannelOfMonotone(p: real, q: real)
    requires p <= q
    ensures ChannelOf(p) <= ChannelOf(q)
  {
    if 0.0 <= p {
      assert p.Floor <= q.Floor;
    }
  }

  /** A channel value is its own channel. */
  lemma ChannelOfByte(ch: byte)
    ensures ChannelOf(ch as real) == ch
  {
    assert (ch as real).Floor == ch as int;
  }

  /** The exact product `ch * s`, with where it lands for each range of `s`. */
  function Product(ch: byte, s: real): (p: real)
    ensures s <= 0.0 ==> p <= 0.0
    ensures 0.0 <= s <= 1.0 ==> 0.0 <= p <= ch as real
    ensures 1.0 <= s ==> ch as real <= p
  {
    var c := ch as real;
    ProductBounds(c, s);
    c * s
  }

  /** Where a non-negative value lands when scaled by `s`. */
  lemma ProductBounds(c: real, s: real)
    requires 0.0 <= c
    ensures s <= 0.0 ==> c * s <= 0.0
    ensures 0.0 <= s <= 1.0 ==> 0.0 <= c * s <= c
    ensures 1.0 <= s ==> c <= c * s
  {
    if s <= 1.0 {
      assert c * s <= c * 1.0;
    } else {
      assert c * 1.0 <= c * s;
    }
  }

  /** A larger factor never gives a smaller product. */
  lemma ProductMonotone(ch: byte, s1: real, s2: real)
    requires s1 <= s2
    ensures Product(ch, s1) <= Product(ch, s2)
  {
    var c := ch as real;
    assert c * s2 - c * s1 == c * (s2 - s1);
    NonNegativeProduct(c, s2 - s1);
  }

  lemma NonNegativeProduct(a: real, b: real)
    requires 0.0 <= a && 0.0 <= b
    ensures 0.0 <= a * b
  {
  }

  /** One channel of `Color::operator*`. */
  function ScaleChannel(ch: byte, s: real): (r: byte)
    ensures s <= 0.0 ==> r == 0
  {
    ChannelOf(Product(ch, s))
  }

  lemma ChannelOfAtMost(p: real, ch: byte)
    requires p <= ch as real
    ensures ChannelOf(p) <= ch
  {
    ChannelOfMonotone(p, ch as real);
    ChannelOfByte(ch);
  }

  lemma ChannelOfAtLeast(p: real, ch: byte)
    requires ch as real <= p
    ensures ch <= ChannelOf(p)
  {
    ChannelOfMonotone(ch as real, p);
    ChannelOfByte(ch);
  }

  /** A factor in [0, 1] never brightens a channel, a factor of at least 1 never darkens it. */
  lemma ScaleChannelBounds(ch: byte, s: real)
    ensures 0.0 <= s <= 1.0 ==> ScaleChannel(ch, s) <= ch
    ensures 1.0 <= s ==> ch <= ScaleChannel(ch, s)
  {
    if 0.0 <= s <= 1.0 {
      ChannelOfAtMost(Product(ch, s), ch);
    }
    if 1.0 <= s {
      ChannelOfAtLeast(Product(ch, s), ch);
    }
  }

  /** `Color::operator*(float s)`, with `s` taken as an exact real. */
  function Scale(c: Color, s: real): (r: Color)
    ensures s <= 0.0 ==> r == Black
    ensures 0.0 <= s <= 1.0 ==> Below(r, c)
    ensures 1.0 <= s ==> Below(c, r)
    ensures s == 1.0 ==> r == c
  {
    ScaleChannelBounds(c.r, s);
    ScaleChannelBounds(c.g, s);
    ScaleChannelBounds(c.b, s);
    Color(ScaleChannel(c.r, s), ScaleChannel(c.g, s), ScaleChannel(c.b, s))
  }

  /** A larger non-negative factor never gives a darker channel. */
  lemma ScaleChannelMonotone(ch: byte, s1: real, s2: real)
    requires 0.0 <= s1 <= s2
    ensures ScaleChannel(ch, s1) <= ScaleChannel(ch, s2)
  {
    ProductMonotone(ch, s1, s2);
    ChannelOfMonotone(Product(ch, s1), Product(ch, s2));
  }

  lemma ScaleMonotone(c: Color, s1: real, s2: real)
    requires 0.0 <= s1 <= s2
    ensures Below(Scale(c, s1), Scale(c, s2))
  {
    ScaleChannelMonotone(c.r, s1, s2);
    ScaleChannelMonotone(c.g, s1, s2);
    ScaleChannelMonotone(c.b, s1, s2);
  }

  /** One channel of `Color::operator+`: the sum, saturated at 255. */
  function AddChannel(a: byte, b: byte): (r: byte)
    ensures r as int == Min(a as int + b as int, ChannelMax)
  {
    ClampUint8(a as int + b as int, 0, ChannelMax)
  }

  /** `Color::operator+`: saturating channel-wise addition; it never wraps. */
  function Add(a: Color, b: Color): (r: Color)
    ensures r.r as int == Min(a.r as int + b.r as int, ChannelMax)
    ensures r.g as int == Min(a.g as int + b.g as int, ChannelMax)
    ensures r.b as int == Min(a.b as int + b.b as int, ChannelMax)
    ensures Below(a, r) && Below(b, r)
  {
    Color(AddChannel(a.r, b.r), AddChannel(a.g, b.g), AddChannel(a.b, b.b))
  }

  lemma AddCommutative(a: Color, b: Color)
    ensures Add(a, b) == Add(b, a)
  {
  }

  /** Saturation of non-negative values is associative: overshoot is lost, never remembered. */
  lemma AddAssociative(a: Color, b: Color, c: Color)
    ensures Add(Add(a, b), c) == Add(a, Add(b, c))
  {
  }

  lemma AddIdentity(a: Color)
    ensures Add(a, Black) == a && Add(Black, a) == a
  {
  }

  /** Adding to a darker colour never gives a brighter result. */
  lemma AddMonotone(a: Color, a': Color, b: Color)
    requires Below(a, a')
    ensures Below(Add(a, b), Add(a', b))
  {
  }

  /** The sum of the three channels, 0 to 765. */
  function ChannelSum(c: Color): (n: int)
    ensures 0 <= n <= 3 * ChannelMax
  {
    c.r as int + c.g as int + c.b as int
  }

  /** `Color::brightness`: the mean channel value normalised to [0, 1]. */
  function Brightness(c: Color): (v: real)
    ensures 0.0 <= v <= 1.0
    ensures c == Black ==> v == 0.0
    ensures c == White ==> v == 1.0
  {
    ChannelSum(c) as real / (3.0 * ChannelMax as real)
  }
}
