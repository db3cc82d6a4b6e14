/** Table cells and the cell-wise conversions of the transform: numeric
    coercion (`astype`), the gender remap (`replace`), timestamp parsing
    (`to_datetime` with `errors='coerce'`), date/time extraction (`.dt`) and
    string concatenation (`+` on object columns). */
module Cells {
  import opened Wrappers
  import opened Numbers
  import opened Timestamps

  /** One value of a table. `Null` is pandas' missing value (NaN/NaT);
      `Float` holds the value of a float64 cell. */
  datatype Cell =
    | Null
    | Int(i: int)
    | Float(x: real)
    | Str(s: string)
    | Date(year: int, month: int, day: int)
    | Time(hour: int, minute: int, second: int)
    | Stamp(ts: Timestamp)

  /** The two targets of `astype`. */
  datatype NumericType = Float64 | Int64

  /** `astype(float)` / `astype(int)` on one cell; `None` is the
      ValueError/TypeError that aborts the whole batch. */
  function Coerce(ty: NumericType, c: Cell): (r: Option<Cell>)
    ensures ty == Float64 && r.Some? ==> r.value.Float? || r.value.Null?
    ensures ty == Int64 && r.Some? ==> r.value.Int? && InInt64(r.value.i)
    ensures ty == Int64 && c.Null? ==> r.None?
    ensures ty == Float64 && c.Null? ==> r == Some(Null)
  {
    match (ty, c)
    case (Float64, Null) => Some(Null)
    case (Float64, Int(n)) => Some(Float(n as real))
    case (Float64, Float(_)) => Some(c)
    case (Float64, Str(s)) =>
      (match ParseDecimal(s)
       case None => None
       case Some(x) => Some(Float(x)))
    case (Int64, Int(n)) => if InInt64(n) then Some(c) else None
    case (Int64, Float(x)) => if InInt64(Trunc(x)) then Some(Int(Trunc(x))) else None
    case (Int64, Str(s)) =>
      (match ParseInteger(s)
       case Some(n) => if InInt64(n) then Some(Int(n)) else None
       case None => None)
    case _ => None
  }

  /** Coercing an already coerced value changes nothing: `astype` is
      idempotent. */
  lemma CoerceIdempotent(ty: NumericType, c: Cell)
    requires Coerce(ty, c).Some?
    ensures Coerce(ty, Coerce(ty, c).value) == Coerce(ty, c)
  {
    if ty == Int64 && c.Float? {
      var n := Trunc(c.x);
      assert Trunc(n as real) == n;
    }
  }

  /** A numeral's canonical text coerces to the number itself. */
  lemma CoerceNumeral(n: int)
    requires InInt64(n)
    ensures Coerce(Int64, Str(FormatInteger(n))) == Some(Int(n))
    ensures Coerce(Float64, Str(FormatInteger(n))) == Some(Float(n as real))
  {
    IntegerRoundTrip(n);
    DecimalExtendsInteger(FormatInteger(n), n);
  }

  /** `replace({'M': 0, 'F': 1})` on one cell. */
  function RemapGender(c: Cell): Cell {
    if c == Str("M") then Int(0) else if c == Str("F") then Int(1) else c
  }

  /** `to_datetime(..., format='%d/%m/%Y %H:%M', errors='coerce')` on one
      cell, as pandas 2.x runs it: a string is parsed and becomes null when
      it does not parse; a date becomes its midnight, or null when that lies
      outside the representable range; a number is rendered as text (which
      never contains `/`) and so becomes null; a timestamp is kept when it
      lies in the representable range and becomes null otherwise (the
      out-of-bounds error that `errors='coerce'` turns into NaT). */
  function ParseCell(c: Cell): (r: Cell)
    ensures r.Null? || r.Stamp?
    ensures c.Stamp? ==> r == (if Valid(c.ts) then c else Null)
    ensures r.Stamp? ==> Valid(r.ts)
    ensures c.Str? ==> (r.Stamp? <==> ParseStamp(c.s).Some?)
    ensures c.Str? && r.Stamp? ==> ParseStamp(c.s) == Some(r.ts)
    ensures c.Date? ==> (r.Stamp? <==> Valid(Timestamp(c.year, c.month, c.day, 0, 0)))
    ensures c.Date? && r.Stamp? ==> r.ts == Timestamp(c.year, c.month, c.day, 0, 0)
    ensures c.Null? || c.Int? || c.Float? || c.Time? ==> r.Null?
  {
    match c
    case Str(s) =>
      (match ParseStamp(s)
       case Some(ts) => Stamp(ts)
       case None => Null)
    case Date(y, m, d) =>
      var midnight := Timestamp(y, m, d, 0, 0);
      if Valid(midnight) then Stamp(midnight) else Null
    case Stamp(ts) => if Valid(ts) then c else Null
    case _ => Null
  }

  /** A timestamp before 1677 or a non-calendar timestamp is NaT after
      parsing, just as the date of the same day is. */
  lemma OutOfRangeStampIsMissing()
    ensures ParseCell(Stamp(Timestamp(1500, 1, 1, 0, 0))) == Null
    ensures ParseCell(Date(1500, 1, 1)) == Null
    ensures ParseCell(Stamp(Timestamp(2024, 13, 45, 0, 0))) == Null
  {
  }

  /** `.dt.date` on one cell: NaT gives NaT, and the date of a valid
      timestamp is a calendar date. */
  function DatePart(c: Cell): (r: Cell)
    ensures r.Date? <==> c.Stamp?
    ensures c.Stamp? && Valid(c.ts) ==> 1 <= r.month <= 12 && 1 <= r.day <= DaysInMonth(r.year, r.month)
  {
    if c.Stamp? then Date(c.ts.year, c.ts.month, c.ts.day) else Null
  }

  /** `.dt.time` on one cell: NaT gives NaT, and the time of a valid
      timestamp is a time of day whose seconds are zero. */
  function TimePart(c: Cell): (r: Cell)
    ensures r.Time? <==> c.Stamp?
    ensures c.Stamp? && Valid(c.ts) ==> 0 <= r.hour <= 23 && 0 <= r.minute <= 59 && r.second == 0
  {
    if c.Stamp? then Time(c.ts.hour, c.ts.minute, 0) else Null
  }

  /** The date part and the time part of a timestamp together give back
      the timestamp: the split into `trans_date` and `trans_time` loses
      nothing at minute precision. */
  lemma PartsRecombine(c: Cell)
    requires c.Stamp?
    ensures var d, h := DatePart(c), TimePart(c);
      Timestamp(d.year, d.month, d.day, h.hour, h.minute) == c.ts
  {
  }

  /** `+` on two object cells: a missing operand gives a missing result,
      two strings are concatenated, anything else is a TypeError. */
  function Concat(a: Cell, b: Cell): (r: Option<Cell>)
    ensures r.Some? ==> r.value.Null? || r.value.Str?
    ensures r.Some? && r.value.Str? <==> a.Str? && b.Str?
    ensures r.Some? && r.value.Str? ==> r.value.s == a.s + b.s
    ensures r.None? <==> !a.Null? && !b.Null? && !(a.Str? && b.Str?)
  {
    if a.Null? || b.Null? then Some(Null)
    else if a.Str? && b.Str? then Some(Str(a.s + b.s))
    else None
  }

  /** All-or-nothing: the cells if every conversion succeeded, otherwise
      nothing (one bad cell aborts the whole column). */
  function Collect(s: seq<Option<Cell>>): (r: Option<seq<Cell>>)
    ensures r.Some? <==> forall k :: 0 <= k < |s| ==> s[k].Some?
    ensures r.Some? ==> |r.value| == |s| && forall k :: 0 <= k < |s| ==> r.value[k] == s[k].value
  {
    if s == [] then Some([])
    else match (s[0], Collect(s[1..]))
      case (Some(c), Some(rest)) => Some([c] + rest)
      case _ => None
  }

  /** `astype` on a whole column. */
  function CoerceCells(ty: NumericType, col: seq<Cell>): (r: Option<seq<Cell>>)
    ensures r.Some? <==> forall k :: 0 <= k < |col| ==> Coerce(ty, col[k]).Some?
    ensures r.Some? ==> |r.value| == |col| && forall k :: 0 <= k < |col| ==> r.value[k] == Coerce(ty, col[k]).value
  {
    var converted := seq(|col|, k requires 0 <= k < |col| => Coerce(ty, col[k]));
    assert forall k :: 0 <= k < |col| ==> converted[k] == Coerce(ty, col[k]);
    Collect(converted)
  }

  /** `+` on two columns of equal length. */
  function ConcatCells(a: seq<Cell>, b: seq<Cell>): (r: Option<seq<Cell>>)
    requires |a| == |b|
    ensures r.Some? <==> forall k :: 0 <= k < |a| ==> Concat(a[k], b[k]).Some?
    ensures r.Some? ==> |r.value| == |a| && forall k :: 0 <= k < |a| ==> r.value[k] == Concat(a[k], b[k]).value
  {
    var joined := seq(|a|, k requires 0 <= k < |a| => Concat(a[k], b[k]));
    assert forall k :: 0 <= k < |a| ==> joined[k] == Concat(a[k], b[k]);
    Collect(joined)
  }
}
