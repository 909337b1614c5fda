/**
 * The wire shapes of the listing endpoint (types.go) and Go's 64-bit integers,
 * whose addition wraps around.
 */
module Types {
  const Int64Min: int := -0x8000_0000_0000_0000
  const Int64Bound: int := 0x8000_0000_0000_0000

  newtype int64 = x: int | -0x8000_0000_0000_0000 <= x < 0x8000_0000_0000_0000

  /** Two's-complement wrap-around of an unbounded integer into int64. */
  function Wrap(x: int): (r: int64)
    ensures Int64Min <= x < Int64Bound ==> r as int == x
    ensures (r as int - x) % (2 * Int64Bound) == 0
  {
    ((x - Int64Min) % (2 * Int64Bound) + Int64Min) as int64
  }

  /**
   * Go's `a + b` on int64: exact unless it overflows; the sum of two int64 values is off
   * the range by less than 2^64, so one correction brings it back.
   */
  function Add64(a: int64, b: int64): (r: int64)
    ensures Int64Min <= a as int + b as int < Int64Bound ==> r as int == a as int + b as int
    ensures a as int + b as int >= Int64Bound ==> r as int == a as int + b as int - 2 * Int64Bound
    ensures a as int + b as int < Int64Min ==> r as int == a as int + b as int + 2 * Int64Bound
  {
    var s := a as int + b as int;
    if s >= Int64Bound then (s - 2 * Int64Bound) as int64
    else if s < Int64Min then (s + 2 * Int64Bound) as int64
    else s as int64
  }

  /** The addition agrees with two's-complement wrap-around of the exact sum. */
  lemma Add64Wraps(a: int64, b: int64)
    ensures Add64(a, b) == Wrap(a as int + b as int)
  {
    var s := a as int + b as int;
    var r := Wrap(s);
    assert -4 * Int64Bound < r as int - s < 4 * Int64Bound;
  }

  /** One element of `Data`: a monitored source as the internal API lists it. */
  datatype Source = Source(availabilityStatus: string, id: string, tenant: string, orgId: string)

  /** The pagination metadata `Meta` of one listing page. */
  datatype Meta = Meta(count: int64, limit: int64, offset: int64)

  /** One decoded listing page. */
  datatype SourceResponse = SourceResponse(data: seq<Source>, meta: Meta)
}
