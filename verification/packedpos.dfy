/** Minecraft's BlockPos.asLong / BlockPos.fromLong packing, used by the
    persistent registries: x in the top 26 bits, z in the next 26 bits and y
    in the low 12 bits of a signed 64-bit long, each field two's-complement. */
module PackedPos {
  import opened Common

  const XBits := 26
  const ZBits := 26
  const YBits := 12

  const Two12 := 0x1000
  const Two26 := 0x400_0000
  const Two38 := 0x40_0000_0000
  const Two64 := 0x1_0000_0000_0000_0000

  /** The positions asLong represents without loss. */
  predicate Packable(p: Pos) {
    && -Two26 / 2 <= p.x < Two26 / 2
    && -Two12 / 2 <= p.y < Two12 / 2
    && -Two26 / 2 <= p.z < Two26 / 2
  }

  /** Reads an unsigned n-bit field as two's complement. */
  function SignExtend(v: int, half: int): (r: int)
    requires 0 < half && 0 <= v < 2 * half
    ensures -half <= r < half
    ensures v == if r < 0 then r + 2 * half else r
  {
    if v >= half then v - 2 * half else v
  }

  /** asLong: the masked fields OR-ed into place (the fields do not overlap,
      so OR is addition), then read as a signed long. */
  function AsLong(p: Pos): (l: int)
    ensures IsInt64(l)
  {
    var u := (p.x % Two26) * Two38 + (p.z % Two26) * Two12 + p.y % Two12;
    if u >= Two64 / 2 then u - Two64 else u
  }

  /** fromLong: x is l >> 38, z is bits 12..37 and y bits 0..11, each sign
      extended. */
  function FromLong(l: int): (p: Pos)
    ensures Packable(p) || !IsInt64(l)
  {
    var z := SignExtend((l / Two12) % Two26, Two26 / 2);
    var y := SignExtend(l % Two12, Two12 / 2);
    Pos(l / Two38, y, z)
  }

  lemma MulMono(a: int, b: int, d: int)
    requires a <= b && d >= 0
    ensures a * d <= b * d
  {
  }

  /** Euclidean division is determined by quotient and remainder. */
  lemma DivModOf(n: int, d: int, q: int, r: int)
    requires d > 0 && 0 <= r < d && n == q * d + r
    ensures n / d == q && n % d == r
  {
    var q' := n / d;
    if q' > q {
      MulMono(q + 1, q', d);
      assert false;
    } else if q' < q {
      MulMono(q' + 1, q, d);
      assert false;
    }
  }

  /** The packed long is x * 2^38 plus the unsigned z and y fields: the
      wrap to a signed long undoes exactly the masking of a negative x. */
  lemma AsLongFields(p: Pos)
    requires Packable(p)
    ensures AsLong(p) == p.x * Two38 + (p.z % Two26) * Two12 + p.y % Two12
  {
    if p.x < 0 {
      assert p.x % Two26 == p.x + Two26;
    }
  }

  lemma PackRoundTrip(p: Pos)
    requires Packable(p)
    ensures FromLong(AsLong(p)) == p
  {
    var uz := p.z % Two26;
    var uy := p.y % Two12;
    var l := AsLong(p);
    AsLongFields(p);
    DivModOf(l, Two38, p.x, uz * Two12 + uy);
    DivModOf(l, Two12, p.x * Two26 + uz, uy);
    DivModOf(p.x * Two26 + uz, Two26, p.x, uz);
    assert SignExtend(uz, Two26 / 2) == p.z;
    assert SignExtend(uy, Two12 / 2) == p.y;
  }

  /** Distinct packable positions get distinct longs. */
  lemma AsLongInjective(p: Pos, q: Pos)
    requires Packable(p) && Packable(q) && AsLong(p) == AsLong(q)
    ensures p == q
  {
    PackRoundTrip(p);
    PackRoundTrip(q);
  }
}
