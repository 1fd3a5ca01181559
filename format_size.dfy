/** format_size: a byte count rendered for people, as the two download
    samples print it. The same function appears in both: the first range
    whose upper bound exceeds the size gives the scale and the unit, and the
    number is the size divided by the scale with C++'s truncating division. */
module SizeFormat {
  import opened Text

  const KiB: int := 1024
  const MiB: int := 1024 * KiB
  const GiB: int := 1024 * MiB
  const TiB: int := 1024 * GiB
  const PiB: int := 1024 * TiB

  /** An element of the ranges table: sizes below maxValue are shown in
      units of scale. */
  datatype RangeDefinition = RangeDefinition(maxValue: int, scale: int, units: string)

  const Ranges: seq<RangeDefinition> := [
    RangeDefinition(KiB, 1, "Bytes"), RangeDefinition(MiB, KiB, "KiB"), RangeDefinition(GiB, MiB, "MiB"),
    RangeDefinition(TiB, GiB, "GiB"), RangeDefinition(PiB, TiB, "TiB")
  ]

  /** C++ integer division of a by a positive b: the quotient truncated
      toward zero. */
  function TruncDiv(a: int, b: int): (q: int)
    requires b > 0
    ensures a >= 0 ==> q == a / b
    ensures a < 0 ==> q == -((-a) / b)
  {
    if a >= 0 then a / b else -((-a) / b)
  }

  /** The scan of the table from position k, with the PiB fallback. */
  function FormatFrom(size: int, k: nat): string
    requires k <= |Ranges|
    decreases |Ranges| - k
  {
    if k == |Ranges| then IntToDecimal(TruncDiv(size, PiB)) + "PiB"
    else if size < Ranges[k].maxValue then IntToDecimal(TruncDiv(size, Ranges[k].scale)) + Ranges[k].units
    else FormatFrom(size, k + 1)
  }

  function FormatSize(size: int): string
  {
    FormatFrom(size, 0)
  }

  /** The scale and unit format_size picks, stated without the table. */
  function ScaleOf(size: int): (s: int)
    ensures s > 0
  {
    if size < KiB then 1
    else if size < MiB then KiB
    else if size < GiB then MiB
    else if size < TiB then GiB
    else if size < PiB then TiB
    else PiB
  }

  function UnitsOf(size: int): string
  {
    if size < KiB then "Bytes"
    else if size < MiB then "KiB"
    else if size < GiB then "MiB"
    else if size < TiB then "GiB"
    else if size < PiB then "TiB"
    else "PiB"
  }

  /** format_size is the truncated quotient by the scale of the first range
      the size falls below, immediately followed by that range's unit. */
  lemma FormatSizeSpec(size: int)
    ensures FormatSize(size) == IntToDecimal(TruncDiv(size, ScaleOf(size))) + UnitsOf(size)
  {
    assert Ranges[0] == RangeDefinition(KiB, 1, "Bytes");
    assert Ranges[1] == RangeDefinition(MiB, KiB, "KiB");
    assert Ranges[2] == RangeDefinition(GiB, MiB, "MiB");
    assert Ranges[3] == RangeDefinition(TiB, GiB, "GiB");
    assert Ranges[4] == RangeDefinition(PiB, TiB, "TiB");
  }

  /** Sizes below 1 KiB, negative ones included, are shown as they are. */
  lemma SmallSizesInBytes(size: int)
    requires size < KiB
    ensures FormatSize(size) == IntToDecimal(size) + "Bytes"
  {
    FormatSizeSpec(size);
  }

  /** The number shown reads back as the size in the chosen unit rounded
      down, and, below 1 PiB, it lies in [1, 1024) for every unit but
      Bytes. */
  lemma FormatSizeReadsBack(size: int)
    requires size >= 0
    ensures var v := ParseLeadingInteger(FormatSize(size));
      v.Some? && v.value * ScaleOf(size) <= size < (v.value + 1) * ScaleOf(size)
    ensures var v := ParseLeadingInteger(FormatSize(size)).value;
      size < PiB ==> v < 1024 && (size >= KiB ==> v >= 1)
  {
    FormatSizeSpec(size);
    var u := UnitsOf(size);
    assert !IsDigit(u[0]);
    IntDecimalThen(TruncDiv(size, ScaleOf(size)), u);
    QuotientBounds(size);
  }

  /** The quotient by the chosen scale, one range at a time. */
  lemma QuotientBounds(size: int)
    requires size >= 0
    ensures var q := size / ScaleOf(size);
      q * ScaleOf(size) <= size < (q + 1) * ScaleOf(size)
      && (size < PiB ==> q < 1024 && (size >= KiB ==> q >= 1))
  {
    if size < KiB {
    } else if size < MiB {
      DivBounds(size, KiB);
    } else if size < GiB {
      DivBounds(size, MiB);
    } else if size < TiB {
      DivBounds(size, GiB);
    } else if size < PiB {
      DivBounds(size, TiB);
    } else {
      DivBounds(size, PiB);
    }
  }

  lemma DivBounds(a: int, b: int)
    requires a >= 0 && b > 0
    ensures (a / b) * b <= a < (a / b + 1) * b
    ensures a >= b ==> a / b >= 1
    ensures a < 1024 * b ==> a / b < 1024
  {
    var q := a / b;
    assert a == q * b + a % b;
    if a >= b && q < 1 {
      assert false;
    }
    if a < 1024 * b && q >= 1024 {
      assert false;
    }
  }
}
