/**
 * The software-tracked register cell of the simulator: one 64-bit field that
 * is read back as its low 32 bits, interpreted as a signed int (Java's
 * `Long.intValue`). The same truncation is what Java's `(int)` cast and
 * 32-bit `int` addition do, so the execution controller uses `Low32` for those
 * too.
 */
module SimpleRegisters {

  const TWO_31: int := 0x8000_0000
  const TWO_32: int := 0x1_0000_0000
  const TWO_63: int := 0x8000_0000_0000_0000

  /** A value of Java's `int` type. */
  predicate IsInt32(x: int) {
    -TWO_31 <= x < TWO_31
  }

  /** A value of Java's `long` type. */
  type Int64 = x: int | -TWO_63 <= x < TWO_63

  /**
   * The low 32 bits of `v`, read as a two's-complement signed int: the unique
   * int that is congruent to `v` modulo 2^32.
   */
  function Low32(v: int): (r: int)
    ensures IsInt32(r)
    ensures (v - r) % TWO_32 == 0
  {
    var m := v % TWO_32;
    if m < TWO_31 then m else m - TWO_32
  }

  /** Two ints that are congruent modulo 2^32 are the same int. */
  lemma Int32CongruentEqual(r1: int, r2: int)
    requires IsInt32(r1) && IsInt32(r2)
    requires (r1 - r2) % TWO_32 == 0
    ensures r1 == r2
  {
    var d := r1 - r2;
    assert d == TWO_32 * (d / TWO_32);
  }

  /** Truncation only depends on the value modulo 2^32. */
  lemma {:induction false} Low32Congruent(x: int, y: int)
    requires (x - y) % TWO_32 == 0
    ensures Low32(x) == Low32(y)
  {
    var rx, ry := Low32(x), Low32(y);
    var qx, qy, q := (x - rx) / TWO_32, (y - ry) / TWO_32, (x - y) / TWO_32;
    assert x - rx == TWO_32 * qx;
    assert y - ry == TWO_32 * qy;
    assert x - y == TWO_32 * q;
    assert rx - ry == TWO_32 * (q - qx + qy);
    assert (rx - ry) % TWO_32 == 0;
    Int32CongruentEqual(rx, ry);
  }

  /** An int already in the signed 32-bit range comes back unchanged. */
  lemma Low32OfInt32(v: int)
    requires IsInt32(v)
    ensures Low32(v) == v
  {
    Int32CongruentEqual(Low32(v), v);
  }

  /**
   * Java `int` addition after an `(int)` cast wraps around exactly like the
   * truncation of the exact sum: `(int)a + k` and `(int)(a + k)` agree.
   */
  lemma {:induction false} Low32AddLow32(a: int, k: int)
    ensures Low32(Low32(a) + k) == Low32(a + k)
  {
    var q := (a - Low32(a)) / TWO_32;
    assert a - Low32(a) == TWO_32 * q;
    assert (Low32(a) + k) - (a + k) == TWO_32 * (-q);
    Low32Congruent(Low32(a) + k, a + k);
  }

  /**
   * A register cell backed by one 64-bit field. `value` is what was stored
   * last; reads see its low 32 bits only.
   */
  class SimpleRegister {
    var value: Int64

    /** What `getValue` returns. */
    function Read(): (r: int)
      reads this
      ensures IsInt32(r) && (value - r) % TWO_32 == 0
    {
      Low32(value)
    }

    /** The default constructor: the cell holds 0. */
    constructor ()
      ensures value == 0 && Read() == 0
    {
      value := 0;
    }

    /** Construction with an initial `long` value. */
    constructor Init(v: Int64)
      ensures value == v && Read() == Low32(v)
    {
      value := v;
    }

    /** Reads the low 32 bits as a signed int; the cell is not changed. */
    method GetValue() returns (r: int)
      ensures r == Low32(value)
      ensures IsInt32(r)
    {
      r := Low32(value);
    }

    /** Overwrites the cell: the last write wins. */
    method SetValue(v: Int64)
      modifies this
      ensures value == v && Read() == Low32(v)
      ensures IsInt32(v) ==> Read() == v
    {
      value := v;
      if IsInt32(v) {
        Low32OfInt32(v);
      }
    }
  }

  /** Reading twice gives the same value: `getValue` changes nothing. */
  method ReadTwice(cell: SimpleRegister) returns (first: int, second: int)
    ensures first == second == cell.Read()
  {
    first := cell.GetValue();
    second := cell.GetValue();
  }
}
