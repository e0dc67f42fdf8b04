/**
 * The byte formatter of the dashboard: a byte count becomes an amount in
 * one of the base-1024 units B, KiB, MiB, GiB or TiB. Bytes are shown as a
 * whole number, every larger unit with one decimal; a missing, non-numeric
 * or negative input yields the "N/A" sentinel instead of an error. (A NaN
 * passes the formatter's guard and then fails its integer conversion; the
 * model's sizes are exact reals, so it has no NaN.)
 *
 * The textual rendering itself (rounding to one decimal) is abstract: the
 * model keeps the scaled amount and the unit it is shown in.
 */
module ByteFormat {

  /** The unit labels, indexed 0 to 4 as in the formatter's label table. */
  datatype Unit = B | KiB | MiB | GiB | TiB

  /** Index of the largest unit; the loop stops there whatever the size. */
  const LastUnit: nat := 4

  /** One step of scaling. */
  const Base: real := 1024.0

  function UnitAt(n: nat): (u: Unit)
    requires n <= LastUnit
    ensures UnitIndex(u) == n
  {
    match n
    case 0 => B
    case 1 => KiB
    case 2 => MiB
    case 3 => GiB
    case _ => TiB
  }

  function UnitIndex(u: Unit): (n: nat)
    ensures n <= LastUnit
  {
    match u
    case B => 0
    case KiB => 1
    case MiB => 2
    case GiB => 3
    case TiB => 4
  }

  /** What the formatter may be handed: nothing, something that is not a number, or a number. */
  datatype SizeArg = Missing | NonNumeric | Number(x: real)

  /** What the formatter shows. */
  datatype HumanBytes =
    | NotAvailable                      // the "N/A" sentinel
    | WholeBytes(count: int)            // "<count> B"
    | OneDecimal(amount: real, unit: Unit)  // "<amount to one decimal> <unit>"

  /** 1024 raised to the n-th power: the number of bytes in one unit of index n. */
  function Scale(n: nat): (p: real)
    ensures p >= 1.0
  {
    if n == 0 then 1.0 else Base * Scale(n - 1)
  }

  /**
   * Reference choice of unit, written as a cascade of thresholds rather than
   * as the formatter's loop: the largest unit that holds at least one whole
   * unit of the size, capped at TiB.
   */
  function UnitFor(x: real): (n: nat)
    requires x >= 0.0
    ensures n <= LastUnit
  {
    if x < Scale(1) then 0
    else if x < Scale(2) then 1
    else if x < Scale(3) then 2
    else if x < Scale(4) then 3
    else 4
  }

  /** Reference definition of what the formatter shows for a size. */
  function Humanize(size: SizeArg): (r: HumanBytes)
    ensures r.NotAvailable? <==> !(size.Number? && size.x >= 0.0)
    ensures r.WholeBytes? ==> 0.0 <= size.x < Base && r.count == size.x.Floor
    ensures r.OneDecimal? ==> r.unit != B && r.amount * Scale(UnitIndex(r.unit)) == size.x
  {
    match size
    case Missing => NotAvailable
    case NonNumeric => NotAvailable
    case Number(x) =>
      if x < 0.0 then NotAvailable
      else
        var n := UnitFor(x);
        if n == 0 then WholeBytes(x.Floor)
        else OneDecimal(x / Scale(n), UnitAt(n))
  }

  lemma ScaleStrictlyIncreasing(m: nat, n: nat)
    requires m < n
    ensures Scale(m) < Scale(n)
    decreases n
  {
    if m < n - 1 {
      ScaleStrictlyIncreasing(m, n - 1);
    }
  }

  /**
   * The unit index is the only one whose unit holds the size: at least one
   * whole unit (unless bytes) and less than 1024 units (unless TiB).
   */
  lemma {:induction false} UnitForUnique(x: real, n: nat)
    requires x >= 0.0 && n <= LastUnit
    requires n > 0 ==> Scale(n) <= x
    requires n < LastUnit ==> x < Scale(n + 1)
    ensures UnitFor(x) == n
  {
    var k := UnitFor(x);
    if k + 1 < n {
      ScaleStrictlyIncreasing(k + 1, n);
    } else if n + 1 < k {
      ScaleStrictlyIncreasing(n + 1, k);
    }
  }

  /**
   * The formatter as the dashboard runs it: divide by 1024 while the value
   * is at least 1024 and a larger unit remains.
   */
  method FormatBytes(size: SizeArg) returns (r: HumanBytes)
    ensures r == Humanize(size)
  {
    if !size.Number? || size.x < 0.0 {
      return NotAvailable;
    }
    var x := size.x;
    var value := x;
    var n: nat := 0;
    while value >= Base && n < LastUnit
      invariant n <= LastUnit
      invariant value * Scale(n) == x
      invariant n > 0 ==> Scale(n) <= x
    {
      value := value / Base;
      n := n + 1;
    }
    assert n < LastUnit ==> x < Scale(n + 1) by {
      if n < LastUnit {
        assert value < Base;
        assert x == value * Scale(n);
        assert Scale(n + 1) == Base * Scale(n);
      }
    }
    UnitForUnique(x, n);
    if n == 0 {
      r := WholeBytes(value.Floor);
    } else {
      r := OneDecimal(value, UnitAt(n));
    }
  }

  /**
   * Bounds of what is shown: bytes are shown for sizes under 1024 only and
   * as a whole number in [0, 1024); any larger unit shows an amount of at
   * least 1, and below 1024 unless the unit is TiB.
   */
  lemma HumanizeBounds(x: real)
    requires x >= 0.0
    ensures Humanize(Number(x)).WholeBytes? <==> x < Base
    ensures Humanize(Number(x)).WholeBytes? ==> 0 <= Humanize(Number(x)).count < 1024
    ensures Humanize(Number(x)).OneDecimal? ==>
      var r := Humanize(Number(x));
      1.0 <= r.amount && (r.unit != TiB ==> r.amount < Base)
  {
    var r := Humanize(Number(x));
    var n := UnitFor(x);
    if n > 0 {
      assert r.amount * Scale(n) == x;
      assert Scale(n) <= x;
      if n < LastUnit {
        assert x < Scale(n + 1) == Base * Scale(n);
      }
    }
  }

  /** A larger size is never shown in a smaller unit. */
  lemma UnitMonotone(x: real, y: real)
    requires 0.0 <= x <= y
    ensures UnitFor(x) <= UnitFor(y)
  {
  }

  /** "0 B", "1.5 KiB", and the sentinel for a negative size. */
  lemma HumanizeExamples()
    ensures Humanize(Number(0.0)) == WholeBytes(0)
    ensures Humanize(Number(1536.0)) == OneDecimal(1.5, KiB)
    ensures Humanize(Number(-5.0)) == NotAvailable
    ensures Humanize(Number(1023.9)) == WholeBytes(1023)
    ensures Humanize(Number(Scale(5))) == OneDecimal(Base, TiB)
  {
    assert Scale(1) == 1024.0;
    assert Scale(5) == Base * Scale(4);
  }
}
