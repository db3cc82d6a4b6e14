/** `transform_data`: the fixed sequence of column steps that turns the raw
    fraud-transaction table into the encoded training table. Every step is
    a pure function from a table to a table or to the error that aborts the
    whole batch; `Transform` composes them in the source's order. */
module Pipeline {
  import opened Wrappers
  import opened Cells
  import opened Encoding
  import opened Tables

  /** Why a batch is aborted. */
  datatype Error =
    | MissingColumn(name: Name)     // KeyError: a column the step reads or drops is absent
    | DuplicateColumn(name: Name)   // the fraud flag would be renamed onto an existing column
    | NotCoercible(name: Name)      // astype raised on a cell of this column
    | NotDatetime(name: Name)       // the .dt accessor on a column that is not datetime-like
    | NotConcatenable(name: Name)   // string + raised on a cell of this column
    | MixedTypes(name: Name)        // the label encoder could not sort this column

  const IsFraud: Name := "is_fraud"
  const TargetName: Name := "Target"
  const Gender: Name := "gender"
  const TimestampName: Name := "trans_date_trans_time"
  const Dob: Name := "dob"
  const TransDate: Name := "trans_date"
  const TransTime: Name := "trans_time"
  const City: Name := "city"
  const State: Name := "state"
  const Location: Name := "location"
  const Separator: string := ", "

  /** A list of distinct column names, as every column list of the transform is. */
  type Columns = s: seq<Name> | Distinct(s) witness []

  const FloatColumns: Columns := ["amt", "merch_lat", "merch_long", "lat", "long"]
  const IntColumns: Columns := ["zip", Gender, "city_pop", "unix_time", TargetName]
  const DroppedColumns: Columns := [TimestampName, "_c0", "city_pop", City, State]
  const EncodedColumns: Columns := ["job", "cc_num", "merchant", "street", "category", Location]

  /** The column the `Target` column is read from: the fraud flag when the
      table has one, otherwise an existing `Target` column. */
  function TargetSource(schema: seq<Name>): Name {
    if IsFraud in schema then IsFraud else TargetName
  }

  /** Step 1, `rename(columns={'is_fraud': 'Target'})`. A table without the
      fraud flag is left as it is. */
  function RenameTarget(t: Table): (r: Result<Table, Error>)
    requires t.Valid()
    ensures r.Success? <==> !(IsFraud in t.schema && TargetName in t.schema)
    ensures r.Success? ==> r.value.Valid() && r.value.height == t.height
    ensures r.Success? ==> r.value.schema == (if IsFraud in t.schema then Replace(t.schema, IsFraud, TargetName) else t.schema)
    ensures r.Success? ==> IsFraud !in r.value.schema
    ensures r.Success? ==> (TargetName in r.value.schema <==> TargetSource(t.schema) in t.schema)
    ensures r.Success? && TargetName in r.value.schema ==> ColumnOf(r.value, TargetName) == ColumnOf(t, TargetSource(t.schema))
    ensures r.Success? ==> forall d :: d != IsFraud && d != TargetName ==> Agree(t, r.value, d)
  {
    if IsFraud !in t.schema then Success(t)
    else if TargetName in t.schema then Failure(DuplicateColumn(TargetName))
    else Success(Rename(t, IsFraud, TargetName))
  }

  lemma SetOtherColumn(t: Table, t': Table, cols: seq<Name>, col: seq<Cell>)
    requires t.Valid() && Distinct(cols) && |cols| > 0 && cols[0] in t.schema
    requires |col| == t.height && t' == SetColumn(t, cols[0], col)
    ensures Distinct(cols[1..]) && cols[0] !in cols[1..]
    ensures t'.schema == t.schema
    ensures forall c :: c in cols[1..] && c in t.schema ==> ColumnOf(t', c) == ColumnOf(t, c)
    ensures forall c :: c in cols ==> c == cols[0] || c in cols[1..]
  {
    assert forall c :: c in cols[1..] ==> c != cols[0] && c in cols;
    forall c | c in cols[1..] && c in t.schema ensures ColumnOf(t', c) == ColumnOf(t, c) {
      assert Agree(t, t', c);
    }
  }

  /** Converts the listed columns one after another; all are known present. */
  function CoerceEach(t: Table, cols: seq<Name>, ty: NumericType): (r: Result<Table, Error>)
    requires t.Valid() && Distinct(cols)
    requires forall c :: c in cols ==> c in t.schema
    ensures r.Success? <==> forall c :: c in cols ==> CoerceCells(ty, ColumnOf(t, c)).Some?
    ensures r.Success? ==> r.value.Valid() && r.value.height == t.height && r.value.schema == t.schema
    ensures r.Success? ==> forall c :: c in cols ==> ColumnOf(r.value, c) == CoerceCells(ty, ColumnOf(t, c)).value
    ensures r.Success? ==> forall d :: d !in cols ==> Agree(t, r.value, d)
    decreases |cols|
  {
    if cols == [] then Success(t)
    else
      match CoerceCells(ty, ColumnOf(t, cols[0]))
      case None => Failure(NotCoercible(cols[0]))
      case Some(col) =>
        var t' := SetColumn(t, cols[0], col);
        SetOtherColumn(t, t', cols, col);
        CoerceEach(t', cols[1..], ty)
  }

  /** Steps 2 and 4, `df[cols] = df[cols].astype(ty)`: selecting the columns
      raises a KeyError unless all are present; one cell that does not
      convert aborts the batch. */
  function CoerceColumns(t: Table, cols: seq<Name>, ty: NumericType): (r: Result<Table, Error>)
    requires t.Valid() && Distinct(cols)
    ensures r.Success? <==> forall c :: c in cols ==> c in t.schema && CoerceCells(ty, ColumnOf(t, c)).Some?
    ensures r.Success? ==> r.value.Valid() && r.value.height == t.height && r.value.schema == t.schema
    ensures r.Success? ==> forall c :: c in cols ==> ColumnOf(r.value, c) == CoerceCells(ty, ColumnOf(t, c)).value
    ensures r.Success? ==> forall d :: d !in cols ==> Agree(t, r.value, d)
  {
    match FirstMissing(t.schema, cols)
    case Some(c) => Failure(MissingColumn(c))
    case None => CoerceEach(t, cols, ty)
  }

  /** The gender remap on a column. */
  function RemapCells(col: seq<Cell>): (r: seq<Cell>)
    ensures |r| == |col|
    ensures forall k :: 0 <= k < |col| && col[k] == Str("M") ==> r[k] == Int(0)
    ensures forall k :: 0 <= k < |col| && col[k] == Str("F") ==> r[k] == Int(1)
    ensures forall k :: 0 <= k < |col| && col[k] != Str("M") && col[k] != Str("F") ==> r[k] == col[k]
  {
    seq(|col|, k requires 0 <= k < |col| => RemapGender(col[k]))
  }

  /** Step 3, `df['gender'].replace({'M': 0, 'F': 1})`. */
  function RemapStep(t: Table): (r: Result<Table, Error>)
    requires t.Valid()
    ensures r.Success? <==> Gender in t.schema
    ensures r.Success? ==> r.value.Valid() && r.value.height == t.height && r.value.schema == t.schema
    ensures r.Success? ==> ColumnOf(r.value, Gender) == RemapCells(ColumnOf(t, Gender))
    ensures r.Success? ==> forall d :: d != Gender ==> Agree(t, r.value, d)
  {
    if Gender !in t.schema then Failure(MissingColumn(Gender))
    else Success(SetColumn(t, Gender, RemapCells(ColumnOf(t, Gender))))
  }

  /** Timestamp parsing on a column. */
  function ParseCells(col: seq<Cell>): (r: seq<Cell>)
    ensures |r| == |col|
    ensures forall k :: 0 <= k < |col| ==> r[k] == ParseCell(col[k])
  {
    seq(|col|, k requires 0 <= k < |col| => ParseCell(col[k]))
  }

  /** Step 5, `to_datetime` on the transaction timestamp with
      `errors='coerce'`, then on `dob`. A value that does not parse becomes
      null in its own row and never aborts the batch; `dob` is read (so it
      must exist) and left as it is. */
  function ParseStep(t: Table): (r: Result<Table, Error>)
    requires t.Valid()
    ensures r.Success? <==> TimestampName in t.schema && Dob in t.schema
    ensures r.Success? ==> r.value.Valid() && r.value.height == t.height && r.value.schema == t.schema
    ensures r.Success? ==> ColumnOf(r.value, TimestampName) == ParseCells(ColumnOf(t, TimestampName))
    ensures r.Success? ==> forall d :: d != TimestampName ==> Agree(t, r.value, d)
  {
    if TimestampName !in t.schema then Failure(MissingColumn(TimestampName))
    else
      var t' := SetColumn(t, TimestampName, ParseCells(ColumnOf(t, TimestampName)));
      if Dob !in t'.schema then Failure(MissingColumn(Dob)) else Success(t')
  }

  /** Every cell is a timestamp or missing: what the `.dt` accessor accepts. */
  predicate AllDatetime(col: seq<Cell>) {
    forall k :: 0 <= k < |col| ==> col[k].Null? || col[k].Stamp?
  }

  function DateParts(col: seq<Cell>): (r: seq<Cell>)
    ensures |r| == |col|
    ensures forall k :: 0 <= k < |col| ==> r[k] == DatePart(col[k])
  {
    seq(|col|, k requires 0 <= k < |col| => DatePart(col[k]))
  }

  function TimeParts(col: seq<Cell>): (r: seq<Cell>)
    ensures |r| == |col|
    ensures forall k :: 0 <= k < |col| ==> r[k] == TimePart(col[k])
  {
    seq(|col|, k requires 0 <= k < |col| => TimePart(col[k]))
  }

  /** Step 6, `df['trans_date'] = ts.dt.date` and `df['trans_time'] = ts.dt.time`. */
  function SplitStep(t: Table): (r: Result<Table, Error>)
    requires t.Valid()
    ensures r.Success? <==> TimestampName in t.schema && AllDatetime(ColumnOf(t, TimestampName))
    ensures r.Success? ==> r.value.Valid() && r.value.height == t.height
    ensures r.Success? ==> r.value.schema == WithName(WithName(t.schema, TransDate), TransTime)
    ensures r.Success? ==> TransDate in r.value.schema && ColumnOf(r.value, TransDate) == DateParts(ColumnOf(t, TimestampName))
    ensures r.Success? ==> TransTime in r.value.schema && ColumnOf(r.value, TransTime) == TimeParts(ColumnOf(t, TimestampName))
    ensures r.Success? ==> forall d :: d != TransDate && d != TransTime ==> Agree(t, r.value, d)
  {
    if TimestampName !in t.schema then Failure(MissingColumn(TimestampName))
    else
      var stamps := ColumnOf(t, TimestampName);
      if !AllDatetime(stamps) then Failure(NotDatetime(TimestampName))
      else
        var t1 := SetColumn(t, TransDate, DateParts(stamps));
        var t2 := SetColumn(t1, TransTime, TimeParts(stamps));
        Success(t2)
  }

  /** `city + ', '` on a column. */
  function CityPrefix(city: seq<Cell>): (r: Option<seq<Cell>>)
    ensures r.Some? <==> forall k :: 0 <= k < |city| ==> city[k].Null? || city[k].Str?
    ensures r.Some? ==> |r.value| == |city|
    ensures r.Some? ==> forall k :: 0 <= k < |city| ==>
      r.value[k] == (if city[k].Str? then Str(city[k].s + Separator) else Null)
  {
    ConcatCells(city, seq(|city|, _ => Str(Separator)))
  }

  /** Step 7, `df['location'] = df['city'] + ', ' + df['state']`. */
  function LocationStep(t: Table): (r: Result<Table, Error>)
    requires t.Valid()
    ensures r.Success? <==>
      && City in t.schema && CityPrefix(ColumnOf(t, City)).Some?
      && State in t.schema && ConcatCells(CityPrefix(ColumnOf(t, City)).value, ColumnOf(t, State)).Some?
    ensures r.Success? ==> r.value.Valid() && r.value.height == t.height
    ensures r.Success? ==> r.value.schema == WithName(t.schema, Location)
    ensures r.Success? ==> Location in r.value.schema
    ensures r.Success? ==>
      ColumnOf(r.value, Location) == ConcatCells(CityPrefix(ColumnOf(t, City)).value, ColumnOf(t, State)).value
    ensures r.Success? ==> forall d :: d != Location ==> Agree(t, r.value, d)
  {
    if City !in t.schema then Failure(MissingColumn(City))
    else match CityPrefix(ColumnOf(t, City))
      case None => Failure(NotConcatenable(City))
      case Some(left) =>
        if State !in t.schema then Failure(MissingColumn(State))
        else match ConcatCells(left, ColumnOf(t, State))
          case None => Failure(NotConcatenable(State))
          case Some(location) => Success(SetColumn(t, Location, location))
  }

  /** Step 8, `drop(['trans_date_trans_time', '_c0', 'city_pop', 'city', 'state'], axis=1)`. */
  function DropStep(t: Table): (r: Result<Table, Error>)
    requires t.Valid()
    ensures r.Success? <==> forall c :: c in DroppedColumns ==> c in t.schema
    ensures r.Success? ==> r.value.Valid() && r.value.height == t.height
    ensures r.Success? ==> r.value.schema == Without(t.schema, set c | c in DroppedColumns)
    ensures r.Success? ==> forall c :: c in DroppedColumns ==> c !in r.value.schema
    ensures r.Success? ==> forall d :: d !in DroppedColumns ==> Agree(t, r.value, d)
  {
    match Drop(t, DroppedColumns)
    case Failure(c) => Failure(MissingColumn(c))
    case Success(t') => Success(t')
  }

  /** Step 9, one fresh `LabelEncoder().fit_transform` per listed column, in
      order; reading a column raises a KeyError when it is absent. */
  function EncodeEach(t: Table, cols: seq<Name>): (r: Result<Table, Error>)
    requires t.Valid() && Distinct(cols)
    ensures r.Success? <==> forall c :: c in cols ==> c in t.schema && Encodable(ColumnOf(t, c))
    ensures r.Success? ==> r.value.Valid() && r.value.height == t.height && r.value.schema == t.schema
    ensures r.Success? ==> forall c :: c in cols ==> ColumnOf(r.value, c) == EncodeCells(ColumnOf(t, c)).value
    ensures r.Success? ==> forall d :: d !in cols ==> Agree(t, r.value, d)
    decreases |cols|
  {
    if cols == [] then Success(t)
    else if cols[0] !in t.schema then Failure(MissingColumn(cols[0]))
    else
      match EncodeCells(ColumnOf(t, cols[0]))
      case None => Failure(MixedTypes(cols[0]))
      case Some(codes) =>
        var t' := SetColumn(t, cols[0], codes);
        SetOtherColumn(t, t', cols, codes);
        EncodeEach(t', cols[1..])
  }

  /** The schema after step 1. */
  function RenamedSchema(schema: seq<Name>): seq<Name> {
    if IsFraud in schema then Replace(schema, IsFraud, TargetName) else schema
  }

  /** The columns steps 1 to 4 read or write. */
  predicate Typed(c: Name) {
    c == IsFraud || c in FloatColumns || c in IntColumns
  }

  /** The integer columns other than gender and the target, which are
      converted from their raw values. */
  const PlainIntColumns: Columns := ["zip", "city_pop", "unix_time"]

  /** Steps 1 to 4 accept the table. */
  predicate TypesOk(t: Table)
    requires t.Valid()
  {
    && !(IsFraud in t.schema && TargetName in t.schema)
    && (forall c :: c in FloatColumns ==> c in t.schema && CoerceCells(Float64, ColumnOf(t, c)).Some?)
    && Gender in t.schema && CoerceCells(Int64, RemapCells(ColumnOf(t, Gender))).Some?
    && (forall c :: c in PlainIntColumns ==> c in t.schema && CoerceCells(Int64, ColumnOf(t, c)).Some?)
    && TargetSource(t.schema) in t.schema
    && CoerceCells(Int64, ColumnOf(t, TargetSource(t.schema))).Some?
  }

  /** Steps 1 to 4: rename the fraud flag, convert the float columns, remap
      gender, convert the integer columns. */
  function TypeColumns(t: Table): Result<Table, Error>
    requires t.Valid()
  {
    var t1 :- RenameTarget(t);
    var t2 :- CoerceColumns(t1, FloatColumns, Float64);
    var t3 :- RemapStep(t2);
    CoerceColumns(t3, IntColumns, Int64)
  }

  /** Steps 1 to 4 abort exactly when a rename clashes, a column they read is
      missing or one cell of a converted column does not convert; on success
      every converted column holds the conversion of its raw cells, the
      target holds the converted fraud flag, and nothing else changes. */
  lemma TypeColumnsSpec(t: Table)
    requires t.Valid()
    ensures TypeColumns(t).Success? <==> TypesOk(t)
    ensures TypeColumns(t).Success? ==> TypedBy(t, TypeColumns(t).value)
  {
    var r1 := RenameTarget(t);
    if r1.Failure? {
      assert TypeColumns(t).Failure?;
      return;
    }
    var t1 := r1.value;
    var r2 := CoerceColumns(t1, FloatColumns, Float64);
    if r2.Failure? {
      FloatColumnsApart();
      FloatsFailing(t, t1, FloatColumns);
      assert TypeColumns(t).Failure?;
      return;
    }
    var t2 := r2.value;
    TypedNamesApart();
    var r3 := RemapStep(t2);
    if r3.Failure? {
      assert Agree(t, t1, Gender);
      assert TypeColumns(t).Failure?;
      return;
    }
    var t3 := r3.value;
    var r4 := CoerceColumns(t3, IntColumns, Int64);
    assert TypeColumns(t) == r4;
    if r4.Success? {
      TypedResult(t, t1, t2, t3, r4.value);
      TypedByOk(t, r4.value);
    } else {
      IntColumnsSplit();
      PlainColumnsApart();
      IntsFailing(t, t1, t2, t3, FloatColumns, IntColumns, PlainIntColumns);
    }
  }

  /** Name facts, each proved away from the table context where comparing
      string literals is costly. */
  lemma FloatIsFloat(c: Name)
    requires c in FloatColumns
    ensures c != IsFraud && c != TargetName && c != Gender && c !in IntColumns && c !in PlainIntColumns
  {
  }

  lemma PlainIsPlain(c: Name)
    requires c in PlainIntColumns
    ensures c != IsFraud && c != TargetName && c !in FloatColumns && c != Gender && c in IntColumns
  {
  }

  lemma UntypedIsApart(d: Name)
    requires !Typed(d)
    ensures d != IsFraud && d != TargetName && d != Gender && d !in FloatColumns && d !in IntColumns
    ensures d !in PlainIntColumns
  {
  }

  lemma TypedNamesApart()
    ensures Gender != IsFraud && Gender != TargetName && TargetName != IsFraud
    ensures Gender in IntColumns && Gender !in FloatColumns
    ensures TargetName in IntColumns && TargetName !in FloatColumns
  {
  }

  lemma FloatColumnsApart()
    ensures forall c :: c in FloatColumns ==> c != IsFraud && c != TargetName
  {
  }

  lemma IntColumnsSplit()
    ensures forall c :: c in IntColumns ==> c == Gender || c == TargetName || c in PlainIntColumns
  {
  }

  lemma PlainColumnsApart()
    ensures forall c :: c in PlainIntColumns ==> c != IsFraud && c != TargetName && c != Gender && c !in FloatColumns
  {
  }

  /** The lemmas below follow one column through steps 1 to 4 for any lists
      of float and integer columns, so that no list of literal names enters
      their proofs. */
  lemma FloatsFailing(t: Table, t1: Table, floats: seq<Name>)
    requires t.Valid() && RenameTarget(t) == Success(t1)
    requires Distinct(floats) && CoerceColumns(t1, floats, Float64).Failure?
    requires forall c :: c in floats ==> c != IsFraud && c != TargetName
    ensures !(forall c :: c in floats ==> c in t.schema && CoerceCells(Float64, ColumnOf(t, c)).Some?)
  {
    var c :| c in floats && !(c in t1.schema && CoerceCells(Float64, ColumnOf(t1, c)).Some?);
    assert Agree(t, t1, c);
  }

  lemma IntsFailing(t: Table, t1: Table, t2: Table, t3: Table, floats: seq<Name>, ints: seq<Name>, plain: seq<Name>)
    requires t.Valid() && RenameTarget(t) == Success(t1)
    requires Distinct(floats) && CoerceColumns(t1, floats, Float64) == Success(t2)
    requires RemapStep(t2) == Success(t3)
    requires Distinct(ints) && CoerceColumns(t3, ints, Int64).Failure?
    requires forall c :: c in ints ==> c == Gender || c == TargetName || c in plain
    requires forall c :: c in plain ==> c != IsFraud && c != TargetName && c != Gender && c !in floats
    requires Gender !in floats && TargetName !in floats
    ensures !(&& Gender in t.schema && CoerceCells(Int64, RemapCells(ColumnOf(t, Gender))).Some?
              && (forall c :: c in plain ==> c in t.schema && CoerceCells(Int64, ColumnOf(t, c)).Some?)
              && TargetSource(t.schema) in t.schema
              && CoerceCells(Int64, ColumnOf(t, TargetSource(t.schema))).Some?)
  {
    var c :| c in ints && !(c in t3.schema && CoerceCells(Int64, ColumnOf(t3, c)).Some?);
    if c == Gender {
      assert Agree(t, t1, Gender) && Agree(t1, t2, Gender);
    } else if c == TargetName {
      assert Agree(t1, t2, TargetName) && Agree(t2, t3, TargetName);
    } else {
      assert c in plain;
      assert Agree(t, t1, c) && Agree(t1, t2, c) && Agree(t2, t3, c);
    }
  }

  lemma FloatThroughTyping(t: Table, t1: Table, t2: Table, t3: Table, t4: Table,
                           floats: seq<Name>, ints: seq<Name>, c: Name)
    requires t.Valid() && RenameTarget(t) == Success(t1)
    requires Distinct(floats) && CoerceColumns(t1, floats, Float64) == Success(t2)
    requires RemapStep(t2) == Success(t3)
    requires Distinct(ints) && CoerceColumns(t3, ints, Int64) == Success(t4)
    requires c in floats && c !in ints && c != IsFraud && c != TargetName && c != Gender
    ensures c in t.schema && c in t4.schema && CoerceCells(Float64, ColumnOf(t, c)) == Some(ColumnOf(t4, c))
  {
    assert Agree(t, t1, c) && Agree(t2, t3, c) && Agree(t3, t4, c);
  }

  lemma PlainThroughTyping(t: Table, t1: Table, t2: Table, t3: Table, t4: Table,
                           floats: seq<Name>, ints: seq<Name>, c: Name)
    requires t.Valid() && RenameTarget(t) == Success(t1)
    requires Distinct(floats) && CoerceColumns(t1, floats, Float64) == Success(t2)
    requires RemapStep(t2) == Success(t3)
    requires Distinct(ints) && CoerceColumns(t3, ints, Int64) == Success(t4)
    requires c in ints && c !in floats && c != IsFraud && c != TargetName && c != Gender
    ensures c in t.schema && c in t4.schema && CoerceCells(Int64, ColumnOf(t, c)) == Some(ColumnOf(t4, c))
  {
    assert Agree(t, t1, c) && Agree(t1, t2, c) && Agree(t2, t3, c);
  }

  lemma GenderThroughTyping(t: Table, t1: Table, t2: Table, t3: Table, t4: Table,
                            floats: seq<Name>, ints: seq<Name>)
    requires t.Valid() && RenameTarget(t) == Success(t1)
    requires Distinct(floats) && CoerceColumns(t1, floats, Float64) == Success(t2)
    requires RemapStep(t2) == Success(t3)
    requires Distinct(ints) && CoerceColumns(t3, ints, Int64) == Success(t4)
    requires Gender in ints && Gender !in floats
    ensures Gender in t.schema && Gender in t4.schema
    ensures CoerceCells(Int64, RemapCells(ColumnOf(t, Gender))) == Some(ColumnOf(t4, Gender))
  {
    assert Agree(t, t1, Gender) && Agree(t1, t2, Gender);
  }

  lemma TargetThroughTyping(t: Table, t1: Table, t2: Table, t3: Table, t4: Table,
                            floats: seq<Name>, ints: seq<Name>)
    requires t.Valid() && RenameTarget(t) == Success(t1)
    requires Distinct(floats) && CoerceColumns(t1, floats, Float64) == Success(t2)
    requires RemapStep(t2) == Success(t3)
    requires Distinct(ints) && CoerceColumns(t3, ints, Int64) == Success(t4)
    requires TargetName in ints && TargetName !in floats
    ensures TargetSource(t.schema) in t.schema && TargetName in t4.schema
    ensures CoerceCells(Int64, ColumnOf(t, TargetSource(t.schema))) == Some(ColumnOf(t4, TargetName))
  {
    assert Agree(t1, t2, TargetName) && Agree(t2, t3, TargetName);
  }

  lemma OtherThroughTyping(t: Table, t1: Table, t2: Table, t3: Table, t4: Table,
                           floats: seq<Name>, ints: seq<Name>, d: Name)
    requires t.Valid() && RenameTarget(t) == Success(t1)
    requires Distinct(floats) && CoerceColumns(t1, floats, Float64) == Success(t2)
    requires RemapStep(t2) == Success(t3)
    requires Distinct(ints) && CoerceColumns(t3, ints, Int64) == Success(t4)
    requires d != IsFraud && d != TargetName && d != Gender && d !in floats && d !in ints
    ensures Agree(t, t4, d)
  {
    assert Agree(t, t1, d) && Agree(t1, t2, d) && Agree(t2, t3, d) && Agree(t3, t4, d);
  }

  lemma TypedByOk(t: Table, r: Table)
    requires t.Valid() && TypedBy(t, r) && !(IsFraud in t.schema && TargetName in t.schema)
    ensures TypesOk(t)
  {
  }

  lemma TypedResult(t: Table, t1: Table, t2: Table, t3: Table, t4: Table)
    requires t.Valid() && RenameTarget(t) == Success(t1)
    requires CoerceColumns(t1, FloatColumns, Float64) == Success(t2)
    requires RemapStep(t2) == Success(t3)
    requires CoerceColumns(t3, IntColumns, Int64) == Success(t4)
    ensures TypedBy(t, t4)
  {
    TypedNamesApart();
    GenderThroughTyping(t, t1, t2, t3, t4, FloatColumns, IntColumns);
    TargetThroughTyping(t, t1, t2, t3, t4, FloatColumns, IntColumns);
    TypedFloats(t, t1, t2, t3, t4);
    TypedPlain(t, t1, t2, t3, t4);
    TypedOthers(t, t1, t2, t3, t4);
  }

  lemma TypedFloats(t: Table, t1: Table, t2: Table, t3: Table, t4: Table)
    requires t.Valid() && RenameTarget(t) == Success(t1)
    requires CoerceColumns(t1, FloatColumns, Float64) == Success(t2)
    requires RemapStep(t2) == Success(t3)
    requires CoerceColumns(t3, IntColumns, Int64) == Success(t4)
    ensures forall c :: c in FloatColumns ==>
      c in t.schema && c in t4.schema && CoerceCells(Float64, ColumnOf(t, c)) == Some(ColumnOf(t4, c))
  {
    forall c | c in FloatColumns
      ensures c in t.schema && c in t4.schema && CoerceCells(Float64, ColumnOf(t, c)) == Some(ColumnOf(t4, c))
    {
      FloatIsFloat(c);
      FloatThroughTyping(t, t1, t2, t3, t4, FloatColumns, IntColumns, c);
    }
  }

  lemma TypedPlain(t: Table, t1: Table, t2: Table, t3: Table, t4: Table)
    requires t.Valid() && RenameTarget(t) == Success(t1)
    requires CoerceColumns(t1, FloatColumns, Float64) == Success(t2)
    requires RemapStep(t2) == Success(t3)
    requires CoerceColumns(t3, IntColumns, Int64) == Success(t4)
    ensures forall c :: c in PlainIntColumns ==>
      c in t.schema && c in t4.schema && CoerceCells(Int64, ColumnOf(t, c)) == Some(ColumnOf(t4, c))
  {
    forall c | c in PlainIntColumns
      ensures c in t.schema && c in t4.schema && CoerceCells(Int64, ColumnOf(t, c)) == Some(ColumnOf(t4, c))
    {
      PlainIsPlain(c);
      PlainThroughTyping(t, t1, t2, t3, t4, FloatColumns, IntColumns, c);
    }
  }

  lemma TypedOthers(t: Table, t1: Table, t2: Table, t3: Table, t4: Table)
    requires t.Valid() && RenameTarget(t) == Success(t1)
    requires CoerceColumns(t1, FloatColumns, Float64) == Success(t2)
    requires RemapStep(t2) == Success(t3)
    requires CoerceColumns(t3, IntColumns, Int64) == Success(t4)
    ensures forall d :: !Typed(d) ==> Agree(t, t4, d)
  {
    forall d | !Typed(d) ensures Agree(t, t4, d) {
      UntypedIsApart(d);
      OtherThroughTyping(t, t1, t2, t3, t4, FloatColumns, IntColumns, d);
    }
  }

  /** What steps 1 to 4 promise of their result `r` on table `t`. */
  ghost predicate TypedBy(t: Table, r: Table)
    requires t.Valid()
  {
    && r.Valid() && r.height == t.height
    && r.schema == RenamedSchema(t.schema)
    && (forall c :: c in FloatColumns ==>
          c in t.schema && c in r.schema && CoerceCells(Float64, ColumnOf(t, c)) == Some(ColumnOf(r, c)))
    && (forall c :: c in PlainIntColumns ==>
          c in t.schema && c in r.schema && CoerceCells(Int64, ColumnOf(t, c)) == Some(ColumnOf(r, c)))
    && Gender in t.schema && Gender in r.schema
    && CoerceCells(Int64, RemapCells(ColumnOf(t, Gender))) == Some(ColumnOf(r, Gender))
    && TargetSource(t.schema) in t.schema && TargetName in r.schema
    && CoerceCells(Int64, ColumnOf(t, TargetSource(t.schema))) == Some(ColumnOf(r, TargetName))
    && (forall d :: !Typed(d) ==> Agree(t, r, d))
  }

  /** The location column step 7 builds from city and state. */
  function LocationColumn(t: Table): Option<seq<Cell>>
    requires t.Valid() && City in t.schema && State in t.schema
  {
    match CityPrefix(ColumnOf(t, City))
    case None => None
    case Some(left) => ConcatCells(left, ColumnOf(t, State))
  }

  /** The columns steps 5 to 8 read, write or drop. */
  predicate Derived(c: Name) {
    c == TransDate || c == TransTime || c == Location || c in DroppedColumns
  }

  /** The schema after step 8. */
  function DerivedSchema(schema: seq<Name>): seq<Name> {
    Without(WithName(WithName(WithName(schema, TransDate), TransTime), Location), set c | c in DroppedColumns)
  }

  /** Steps 5 to 8 accept the table. */
  predicate DerivationOk(t: Table)
    requires t.Valid()
  {
    && TimestampName in t.schema && Dob in t.schema
    && City in t.schema && State in t.schema && LocationColumn(t).Some?
    && "_c0" in t.schema && "city_pop" in t.schema
  }

  /** Steps 5 to 8: parse the timestamp, split it into date and time,
      build the location, drop the consumed columns. */
  function DeriveColumns(t: Table): Result<Table, Error>
    requires t.Valid()
  {
    var t5 :- ParseStep(t);
    var t6 :- SplitStep(t5);
    var t7 :- LocationStep(t6);
    DropStep(t7)
  }

  /** What steps 5 to 8 promise of their result `r` on table `t`. */
  ghost predicate DerivedBy(t: Table, r: Table)
    requires t.Valid()
  {
    && r.Valid() && r.height == t.height
    && r.schema == DerivedSchema(t.schema)
    && TimestampName in t.schema && Dob in t.schema
    && TransDate in r.schema && ColumnOf(r, TransDate) == DateParts(ParseCells(ColumnOf(t, TimestampName)))
    && TransTime in r.schema && ColumnOf(r, TransTime) == TimeParts(ParseCells(ColumnOf(t, TimestampName)))
    && City in t.schema && State in t.schema
    && Location in r.schema && LocationColumn(t) == Some(ColumnOf(r, Location))
    && (forall d :: !Derived(d) ==> Agree(t, r, d))
  }

  /** The names steps 5 to 8 write are apart from the ones they read or drop. */
  lemma DerivedNamesApart()
    ensures TransDate != TransTime && TransDate != Location && TransTime != Location
    ensures TransDate !in DroppedColumns && TransTime !in DroppedColumns && Location !in DroppedColumns
    ensures TimestampName != TransDate && TimestampName != TransTime && TimestampName != Location
    ensures City != TransDate && City != TransTime && City != Location
    ensures State != TransDate && State != TransTime && State != Location
    ensures "_c0" != TransDate && "_c0" != TransTime && "_c0" != Location
    ensures "city_pop" != TransDate && "city_pop" != TransTime && "city_pop" != Location
    ensures Dob != TimestampName
  {
  }

  /** Parsed timestamps are always accepted by the `.dt` accessor. */
  lemma ParsedAreDatetime(col: seq<Cell>)
    ensures AllDatetime(ParseCells(col))
  {
  }

  lemma SplitAfterParse(t: Table, t5: Table)
    requires t.Valid() && ParseStep(t) == Success(t5)
    ensures SplitStep(t5).Success?
  {
    ParsedAreDatetime(ColumnOf(t, TimestampName));
  }

  lemma LocationAfterSplit(t: Table, t5: Table, t6: Table)
    requires t.Valid() && ParseStep(t) == Success(t5) && SplitStep(t5) == Success(t6)
    ensures Agree(t, t6, City) && Agree(t, t6, State)
    ensures LocationStep(t6).Success? <==> City in t.schema && State in t.schema && LocationColumn(t).Some?
    ensures LocationStep(t6).Success? ==> LocationColumn(t) == Some(ColumnOf(LocationStep(t6).value, Location))
  {
    DerivedNamesApart();
    assert Agree(t, t5, City) && Agree(t5, t6, City);
    assert Agree(t, t5, State) && Agree(t5, t6, State);
  }

  lemma DroppedKept(t: Table, t5: Table, t6: Table, t7: Table, c: Name)
    requires t.Valid() && ParseStep(t) == Success(t5) && SplitStep(t5) == Success(t6)
    requires LocationStep(t6) == Success(t7)
    requires c in DroppedColumns
    ensures c in t7.schema <==> c in t.schema
  {
    DerivedNamesApart();
  }

  lemma DropAfterLocation(t: Table, t5: Table, t6: Table, t7: Table)
    requires t.Valid() && ParseStep(t) == Success(t5) && SplitStep(t5) == Success(t6)
    requires LocationStep(t6) == Success(t7)
    ensures DropStep(t7).Success? <==> "_c0" in t.schema && "city_pop" in t.schema
  {
    LocationAfterSplit(t, t5, t6);
    forall c | c in DroppedColumns ensures c in t7.schema <==> c in t.schema {
      DroppedKept(t, t5, t6, t7, c);
    }
    DroppedPresent(t.schema);
  }

  lemma DroppedPresent(schema: seq<Name>)
    ensures (forall c :: c in DroppedColumns ==> c in schema) <==>
      TimestampName in schema && "_c0" in schema && "city_pop" in schema && City in schema && State in schema
  {
  }

  lemma DerivedColumnsOf(t: Table, t5: Table, t6: Table, t7: Table, t8: Table)
    requires t.Valid() && ParseStep(t) == Success(t5) && SplitStep(t5) == Success(t6)
    requires LocationStep(t6) == Success(t7) && DropStep(t7) == Success(t8)
    ensures TransDate in t8.schema && ColumnOf(t8, TransDate) == DateParts(ParseCells(ColumnOf(t, TimestampName)))
    ensures TransTime in t8.schema && ColumnOf(t8, TransTime) == TimeParts(ParseCells(ColumnOf(t, TimestampName)))
    ensures Location in t8.schema && LocationColumn(t) == Some(ColumnOf(t8, Location))
  {
    DerivedNamesApart();
    LocationAfterSplit(t, t5, t6);
    assert Agree(t6, t7, TransDate) && Agree(t7, t8, TransDate);
    assert Agree(t6, t7, TransTime) && Agree(t7, t8, TransTime);
    assert Agree(t7, t8, Location);
  }

  lemma OtherAfterDerive(t: Table, t5: Table, t6: Table, t7: Table, t8: Table, d: Name)
    requires t.Valid() && ParseStep(t) == Success(t5) && SplitStep(t5) == Success(t6)
    requires LocationStep(t6) == Success(t7) && DropStep(t7) == Success(t8)
    requires !Derived(d)
    ensures Agree(t, t8, d)
  {
    assert Agree(t, t5, d) && Agree(t5, t6, d) && Agree(t6, t7, d) && Agree(t7, t8, d);
  }

  lemma DerivedResult(t: Table, t5: Table, t6: Table, t7: Table, t8: Table)
    requires t.Valid() && ParseStep(t) == Success(t5) && SplitStep(t5) == Success(t6)
    requires LocationStep(t6) == Success(t7) && DropStep(t7) == Success(t8)
    ensures DerivedBy(t, t8)
  {
    LocationAfterSplit(t, t5, t6);
    DerivedColumnsOf(t, t5, t6, t7, t8);
    forall d | !Derived(d) ensures Agree(t, t8, d) {
      OtherAfterDerive(t, t5, t6, t7, t8, d);
    }
  }

  /** Steps 5 to 8 abort exactly when a column they read or drop is missing or
      the location cannot be concatenated; a timestamp that does not parse
      never aborts them. On success the date and time columns hold the parts
      of the parsed timestamps, the location holds city, separator and state,
      and every column they do not touch is unchanged. */
  lemma DeriveColumnsSpec(t: Table)
    requires t.Valid()
    ensures DeriveColumns(t).Success? <==> DerivationOk(t)
    ensures DeriveColumns(t).Success? ==> DerivedBy(t, DeriveColumns(t).value)
  {
    var r5 := ParseStep(t);
    if r5.Failure? {
      return;
    }
    var t5 := r5.value;
    SplitAfterParse(t, t5);
    var t6 := SplitStep(t5).value;
    LocationAfterSplit(t, t5, t6);
    var r7 := LocationStep(t6);
    if r7.Failure? {
      assert DeriveColumns(t).Failure?;
      return;
    }
    var t7 := r7.value;
    DropAfterLocation(t, t5, t6, t7);
    var r8 := DropStep(t7);
    assert DeriveColumns(t) == r8;
    if r8.Success? {
      DerivedResult(t, t5, t6, t7, r8.value);
    }
  }

  /** `transform_data`: the nine steps in the source's order; the first
      failing step aborts the batch and no partial table is returned. */
  function Transform(t: Table): (r: Result<Table, Error>)
    requires t.Valid()
    ensures r.Success? ==> r.value.Valid() && r.value.height == t.height
  {
    TypeColumnsSpec(t);
    var typed :- TypeColumns(t);
    DeriveColumnsSpec(typed);
    var derived :- DeriveColumns(typed);
    EncodeEach(derived, EncodedColumns)
  }
}
