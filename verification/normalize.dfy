/** Fixed-point decoding of the pool's raw on-chain quantities (weETH-USDC.py:7-12
    and the four calls at weETH-USDC.py:115-118). */
module Normalize {
  import opened Wrappers

  /** A raw fixed-point field as the pool index reports it: either something that
      converts to a number, or a value the conversion rejects. */
  datatype RawField = Numeric(value: int) | NonNumeric

  /** The pool record returned by the pool index at one block. The token decimal
      counts it also carries are never used by the driver and are not modelled. */
  datatype RawPool = RawPool(
    lpInvariant: RawField,
    lpBorrowedInvariant: RawField,
    lastPrice: RawField,
    totalSupply: RawField)

  /** The four fields of a pool record after normalisation, as decimal quantities. */
  datatype Sample = Sample(
    lpInvariant: real,
    lpBorrowedInvariant: real,
    lastPrice: real,
    totalSupply: real)

  /** The hardcoded scales: both invariants and the supply at 12 decimals, the
      price at 6, whatever the pool's tokens actually use. */
  const InvariantDecimals: nat := 12
  const BorrowedInvariantDecimals: nat := 12
  const PriceDecimals: nat := 6
  const SupplyDecimals: nat := 12

  function Pow10(d: nat): (p: nat)
    ensures p >= 1
  {
    if d == 0 then 1 else 10 * Pow10(d - 1)
  }

  /** Multiplies a decimal quantity back up to its fixed-point representation. */
  function Scale(x: real, decimals: nat): real {
    x * Pow10(decimals) as real
  }

  /** Divides a raw fixed-point value by 10^decimals; a value that is not numeric
      gives None instead of an exception. */
  function NormalizeValue(v: RawField, decimals: nat): (r: Option<real>)
    ensures r.Some? <==> v.Numeric?
    ensures r.Some? ==> Scale(r.value, decimals) == v.value as real
  {
    match v
    case Numeric(n) => Some(n as real / Pow10(decimals) as real)
    case NonNumeric => None
  }

  /** Normalisation is the only decimal quantity that scales back to the raw value,
      so a sample determines its raw record and vice versa. */
  lemma NormalizeUnique(n: int, decimals: nat, x: real)
    requires Scale(x, decimals) == n as real
    ensures NormalizeValue(Numeric(n), decimals) == Some(x)
  {
    var y := NormalizeValue(Numeric(n), decimals).value;
    var p := Pow10(decimals) as real;
    assert x * p == y * p;
    assert (x - y) * p == 0.0;
  }

  /** True when every field of `s` scales back to the matching raw field of `raw`
      at the hardcoded decimals. */
  predicate Decodes(raw: RawPool, s: Sample) {
    && raw.lpInvariant.Numeric? && Scale(s.lpInvariant, InvariantDecimals) == raw.lpInvariant.value as real
    && raw.lpBorrowedInvariant.Numeric? && Scale(s.lpBorrowedInvariant, BorrowedInvariantDecimals) == raw.lpBorrowedInvariant.value as real
    && raw.lastPrice.Numeric? && Scale(s.lastPrice, PriceDecimals) == raw.lastPrice.value as real
    && raw.totalSupply.Numeric? && Scale(s.totalSupply, SupplyDecimals) == raw.totalSupply.value as real
  }

  /** Normalises the four fields of a pool record; None as soon as one of them is
      not numeric. */
  function NormalizePool(raw: RawPool): (r: Option<Sample>)
    ensures r.Some? <==>
      raw.lpInvariant.Numeric? && raw.lpBorrowedInvariant.Numeric? &&
      raw.lastPrice.Numeric? && raw.totalSupply.Numeric?
    ensures r.Some? ==> Decodes(raw, r.value)
  {
    var lpInvariant := NormalizeValue(raw.lpInvariant, InvariantDecimals);
    var lpBorrowedInvariant := NormalizeValue(raw.lpBorrowedInvariant, BorrowedInvariantDecimals);
    var lastPrice := NormalizeValue(raw.lastPrice, PriceDecimals);
    var totalSupply := NormalizeValue(raw.totalSupply, SupplyDecimals);
    if lpInvariant.Some? && lpBorrowedInvariant.Some? && lastPrice.Some? && totalSupply.Some? then
      Some(Sample(lpInvariant.value, lpBorrowedInvariant.value, lastPrice.value, totalSupply.value))
    else
      None
  }

  /** The converse of NormalizePool's decoding property: a sample that scales back
      to a raw record is exactly the normalisation of that record. */
  lemma DecodesOnlyNormalized(raw: RawPool, s: Sample)
    requires Decodes(raw, s)
    ensures NormalizePool(raw) == Some(s)
  {
  }
}
