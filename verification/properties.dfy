/** End-to-end properties of `transform_data`: exactly which tables it
    accepts, and what each column of its result holds in terms of the raw
    input table. */
module Properties {
  import opened Wrappers
  import opened Cells
  import opened Encoding
  import opened Tables
  import opened Pipeline
  import Numbers

  /** The encoded columns that are read straight from the raw table. */
  const RawEncodedColumns: Columns := ["job", "cc_num", "merchant", "street", "category"]

  /** The location one row gets from its city and state cells, written out
      case by case: a missing city or state gives a missing location, two
      strings are joined with the separator, anything else cannot be
      concatenated. */
  function LocationOf(city: Cell, state: Cell): Option<Cell> {
    if city.Null? then Some(Null)
    else if !city.Str? then None
    else if state.Null? then Some(Null)
    else if state.Str? then Some(Str(city.s + Separator + state.s))
    else None
  }

  /** The whole transform accepts the table: steps 1 to 4 accept it, the
      columns later steps read are present, city and state concatenate, and
      every raw encoded column can be sorted. */
  predicate Accepts(t: Table)
    requires t.Valid()
  {
    TypesOk(t) && ReadsPresent(t) && AllEncodable(t, RawEncodedColumns)
  }

  /** The columns steps 5 to 8 read are present and city and state
      concatenate. */
  predicate ReadsPresent(t: Table)
    requires t.Valid()
  {
    && TimestampName in t.schema && Dob in t.schema && "_c0" in t.schema
    && City in t.schema && State in t.schema && LocationColumn(t).Some?
  }

  /** Every listed column is present and can be sorted. */
  predicate AllEncodable(t: Table, cols: seq<Name>)
    requires t.Valid()
  {
    forall c :: c in cols ==> c in t.schema && Encodable(ColumnOf(t, c))
  }

  // Name facts, each proved away from the table context where comparing
  // string literals is costly.

  lemma RawIsUntouched(c: Name)
    requires c in RawEncodedColumns
    ensures !Typed(c) && !Derived(c) && c != Location && c in EncodedColumns
  {
  }

  lemma ReadNamesUntyped()
    ensures !Typed(TimestampName) && !Typed(Dob) && !Typed("_c0") && !Typed(City) && !Typed(State)
    ensures "city_pop" in PlainIntColumns
  {
  }

  lemma RawColumnsUntouched()
    ensures forall c :: c in RawEncodedColumns ==> !Typed(c) && !Derived(c)
  {
  }

  lemma EncodedSplit()
    ensures forall c :: c in EncodedColumns <==> c in RawEncodedColumns || c == Location
  {
  }

  lemma DobIsUntouched()
    ensures !Typed(Dob) && !Derived(Dob) && Dob !in EncodedColumns
  {
  }

  lemma ReadsNotTimestamp()
    ensures forall c :: Typed(c) ==> c != TimestampName
    ensures forall c :: c in RawEncodedColumns ==> c != TimestampName
    ensures City != TimestampName && State != TimestampName
  {
  }

  lemma KeptNames()
    ensures !Derived(TargetName) && !Derived(Gender) && TargetName !in EncodedColumns && Gender !in EncodedColumns
    ensures TargetName !in DroppedColumns && TransDate !in DroppedColumns && TransTime !in DroppedColumns
    ensures Location !in DroppedColumns
    ensures TransDate !in EncodedColumns && TransTime !in EncodedColumns && Location in EncodedColumns
    ensures !Derived(Dob) && Dob !in EncodedColumns
  {
  }

  lemma FloatKept(c: Name)
    requires c in FloatColumns
    ensures !Derived(c) && c !in EncodedColumns
  {
  }

  lemma PlainKept(c: Name)
    requires c in PlainIntColumns && c !in DroppedColumns
    ensures !Derived(c) && c !in EncodedColumns
  {
  }

  /** Every cell of the location column is a string or missing, so the
      encoder can always sort it. */
  lemma LocationEncodable(col: seq<Cell>)
    requires forall k :: 0 <= k < |col| ==> col[k].Null? || col[k].Str?
    ensures Encodable(col)
  {
    assert forall v :: v in Values(col) ==> v.Null? || v.Str?;
  }

  /** The location column step 7 builds is, row by row, `LocationOf` the
      row's city and state, and it exists exactly when every row has one. */
  lemma LocationCells(t: Table)
    requires t.Valid() && City in t.schema && State in t.schema
    ensures LocationColumn(t).Some? <==>
      forall k :: 0 <= k < t.height ==> LocationOf(ColumnOf(t, City)[k], ColumnOf(t, State)[k]).Some?
    ensures LocationColumn(t).Some? ==> |LocationColumn(t).value| == t.height
    ensures LocationColumn(t).Some? ==> forall k :: 0 <= k < t.height ==>
      Some(LocationColumn(t).value[k]) == LocationOf(ColumnOf(t, City)[k], ColumnOf(t, State)[k])
  {
    var city := ColumnOf(t, City);
    var state := ColumnOf(t, State);
    match CityPrefix(city)
    case None =>
      var k :| 0 <= k < |city| && !(city[k].Null? || city[k].Str?);
      assert LocationOf(city[k], state[k]).None?;
    case Some(left) =>
      forall k | 0 <= k < t.height
        ensures Concat(left[k], state[k]) == LocationOf(city[k], state[k])
      {
        if city[k].Str? && state[k].Str? {
          assert left[k] == Str(city[k].s + Separator);
          assert (city[k].s + Separator) + state[k].s == city[k].s + Separator + state[k].s;
        }
      }
  }

  /** The location cells are strings or missing. */
  lemma LocationIsText(t: Table)
    requires t.Valid() && City in t.schema && State in t.schema && LocationColumn(t).Some?
    ensures forall k :: 0 <= k < |LocationColumn(t).value| ==>
      LocationColumn(t).value[k].Null? || LocationColumn(t).value[k].Str?
  {
  }

  /** What step 9 promises of its result `out` on table `derived`. */
  ghost predicate EncodedBy(derived: Table, out: Table)
    requires derived.Valid()
  {
    && out.Valid() && out.height == derived.height && out.schema == derived.schema
    && (forall c :: c in EncodedColumns ==>
          c in derived.schema && EncodeCells(ColumnOf(derived, c)) == Some(ColumnOf(out, c)))
    && (forall d :: d !in EncodedColumns ==> Agree(derived, out, d))
  }

  /** The tables between the phases of a transform that produced `out`. */
  ghost predicate Chain(t: Table, typed: Table, derived: Table, out: Table) {
    t.Valid() && TypedBy(t, typed) && DerivedBy(typed, derived) && EncodedBy(derived, out)
  }

  lemma EncodedByEach(derived: Table, out: Table)
    requires derived.Valid() && EncodeEach(derived, EncodedColumns) == Success(out)
    ensures EncodedBy(derived, out)
  {
  }

  lemma Stages(t: Table) returns (typed: Table, derived: Table, out: Table)
    requires t.Valid() && Transform(t).Success?
    ensures Chain(t, typed, derived, out) && Transform(t) == Success(out)
  {
    TypeColumnsSpec(t);
    typed := TypeColumns(t).value;
    DeriveColumnsSpec(typed);
    derived := DeriveColumns(typed).value;
    out := Transform(t).value;
    EncodedByEach(derived, out);
  }

  /** After steps 1 to 4 the columns later steps read are the raw ones. */
  lemma TypedKeepsReads(t: Table, typed: Table)
    requires t.Valid() && TypedBy(t, typed)
    ensures Agree(t, typed, TimestampName) && Agree(t, typed, Dob) && Agree(t, typed, "_c0")
    ensures Agree(t, typed, City) && Agree(t, typed, State)
    ensures City in t.schema && State in t.schema ==> LocationColumn(typed) == LocationColumn(t)
    ensures "city_pop" in typed.schema
  {
    ReadNamesUntyped();
  }

  lemma DerivationOkIff(t: Table, typed: Table)
    requires t.Valid() && TypedBy(t, typed)
    ensures DerivationOk(typed) <==> ReadsPresent(t)
  {
    TypedKeepsReads(t, typed);
  }

  lemma RawColumnsThrough(t: Table, typed: Table, derived: Table, cols: seq<Name>)
    requires t.Valid() && TypedBy(t, typed) && DerivedBy(typed, derived)
    requires forall c :: c in cols ==> !Typed(c) && !Derived(c)
    ensures forall c :: c in cols ==> Agree(t, derived, c)
  {
    forall c | c in cols ensures Agree(t, derived, c) {
      AgreeTrans(t, typed, derived, c);
    }
  }

  lemma LocationThrough(t: Table, typed: Table, derived: Table)
    requires t.Valid() && TypedBy(t, typed) && DerivedBy(typed, derived)
    ensures City in t.schema && State in t.schema && Location in derived.schema
    ensures LocationColumn(t) == Some(ColumnOf(derived, Location))
  {
    TypedKeepsReads(t, typed);
  }

  /** Step 9 succeeds exactly when the raw columns it encodes can be
      sorted, once the location is known to be sortable. */
  lemma EncodeOkWhen(t: Table, derived: Table, raw: seq<Name>, encoded: seq<Name>)
    requires t.Valid() && derived.Valid() && Distinct(encoded)
    requires forall c :: c in encoded <==> c in raw || c == Location
    requires forall c :: c in raw ==> Agree(t, derived, c)
    requires Location in derived.schema && Encodable(ColumnOf(derived, Location))
    ensures EncodeEach(derived, encoded).Success? <==> AllEncodable(t, raw)
  {
    if AllEncodable(t, raw) {
      forall c | c in encoded ensures c in derived.schema && Encodable(ColumnOf(derived, c)) {
        if c != Location {
          assert Agree(t, derived, c);
        }
      }
    }
  }

  lemma EncodeOkIff(t: Table, typed: Table, derived: Table)
    requires t.Valid() && TypedBy(t, typed) && DerivedBy(typed, derived)
    ensures EncodeEach(derived, EncodedColumns).Success? <==> AllEncodable(t, RawEncodedColumns)
  {
    LocationThrough(t, typed, derived);
    LocationIsText(t);
    LocationEncodable(ColumnOf(derived, Location));
    RawColumnsUntouched();
    RawColumnsThrough(t, typed, derived, RawEncodedColumns);
    EncodedSplit();
    EncodeOkWhen(t, derived, RawEncodedColumns, EncodedColumns);
  }

  lemma RejectedByTyping(t: Table)
    requires t.Valid() && !TypesOk(t)
    ensures Transform(t).Failure? && !Accepts(t)
  {
    TypeColumnsSpec(t);
  }

  lemma RejectedByDerivation(t: Table, typed: Table)
    requires t.Valid() && TypeColumns(t) == Success(typed) && TypedBy(t, typed) && !DerivationOk(typed)
    ensures Transform(t).Failure? && !Accepts(t)
  {
    DeriveColumnsSpec(typed);
    DerivationOkIff(t, typed);
  }

  lemma DecidedByEncoding(t: Table, typed: Table, derived: Table)
    requires t.Valid() && TypesOk(t) && TypeColumns(t) == Success(typed) && TypedBy(t, typed)
    requires DeriveColumns(typed) == Success(derived) && DerivedBy(typed, derived) && DerivationOk(typed)
    ensures Transform(t).Success? <==> Accepts(t)
  {
    TransformIsEncoding(t, typed, derived);
    DerivationOkIff(t, typed);
    EncodeOkIff(t, typed, derived);
  }

  lemma TransformIsEncoding(t: Table, typed: Table, derived: Table)
    requires t.Valid() && TypeColumns(t) == Success(typed) && DeriveColumns(typed) == Success(derived)
    ensures derived.Valid() && Transform(t) == EncodeEach(derived, EncodedColumns)
  {
    TypeColumnsSpec(t);
    DeriveColumnsSpec(typed);
  }

  /** The transform succeeds exactly on the tables it accepts; a table
      outside them aborts the batch. */
  lemma TransformSucceedsIff(t: Table)
    requires t.Valid()
    ensures Transform(t).Success? <==> Accepts(t)
  {
    TypeColumnsSpec(t);
    if !TypesOk(t) {
      RejectedByTyping(t);
    } else {
      var typed := TypeColumns(t).value;
      DeriveColumnsSpec(typed);
      if !DerivationOk(typed) {
        RejectedByDerivation(t, typed);
      } else {
        DecidedByEncoding(t, typed, DeriveColumns(typed).value);
      }
    }
  }

  /** The names in the schema after steps 1 to 8. */
  lemma DerivedMembers(s: seq<Name>, c: Name)
    requires TargetSource(s) in s
    ensures c in DerivedSchema(RenamedSchema(s)) <==>
      || c == TargetName || c == TransDate || c == TransTime || c == Location
      || (c in s && c != IsFraud && c !in DroppedColumns)
  {
    KeptNames();
    if IsFraud in s {
      ReplaceMembers(s, IsFraud, TargetName, c);
    }
  }

  lemma SchemaThrough(t: Table, typed: Table, derived: Table, out: Table)
    requires Chain(t, typed, derived, out)
    ensures out.schema == DerivedSchema(RenamedSchema(t.schema))
    ensures forall c :: c in out.schema <==>
      || c == TargetName || c == TransDate || c == TransTime || c == Location
      || (c in t.schema && c != IsFraud && c !in DroppedColumns)
  {
    forall c ensures c in out.schema <==>
      || c == TargetName || c == TransDate || c == TransTime || c == Location
      || (c in t.schema && c != IsFraud && c !in DroppedColumns)
    {
      DerivedMembers(t.schema, c);
    }
  }

  /** The result's columns: the fraud flag renamed to `Target`, the
      consumed columns dropped, the date, time and location added. */
  lemma OutputSchema(t: Table)
    requires t.Valid() && Transform(t).Success?
    ensures Transform(t).value.schema == DerivedSchema(RenamedSchema(t.schema))
    ensures forall c :: c in Transform(t).value.schema <==>
      || c == TargetName || c == TransDate || c == TransTime || c == Location
      || (c in t.schema && c != IsFraud && c !in DroppedColumns)
  {
    var typed, derived, out := Stages(t);
    SchemaThrough(t, typed, derived, out);
  }

  /** A column steps 5 to 9 leave alone has, in the result, its cells after
      step 4. */
  lemma KeptThrough(t: Table, typed: Table, derived: Table, out: Table, c: Name)
    requires Chain(t, typed, derived, out)
    requires !Derived(c) && c !in EncodedColumns
    ensures Agree(typed, out, c)
  {
    assert Agree(typed, derived, c) && Agree(derived, out, c);
  }

  lemma TargetThrough(t: Table, typed: Table, derived: Table, out: Table)
    requires Chain(t, typed, derived, out)
    ensures TargetSource(t.schema) in t.schema && TargetName in out.schema
    ensures CoerceCells(Int64, ColumnOf(t, TargetSource(t.schema))) == Some(ColumnOf(out, TargetName))
  {
    KeptNames();
    KeptThrough(t, typed, derived, out, TargetName);
  }

  /** Each `Target` cell is the integer conversion of the raw fraud flag (or
      of an existing `Target` column when there is no fraud flag). */
  lemma TargetColumn(t: Table)
    requires t.Valid() && Transform(t).Success?
    ensures TargetSource(t.schema) in t.schema && TargetName in Transform(t).value.schema
    ensures CoerceCells(Int64, ColumnOf(t, TargetSource(t.schema))) == Some(ColumnOf(Transform(t).value, TargetName))
  {
    var typed, derived, out := Stages(t);
    TargetThrough(t, typed, derived, out);
  }

  lemma GenderThrough(t: Table, typed: Table, derived: Table, out: Table)
    requires Chain(t, typed, derived, out)
    ensures Gender in t.schema && Gender in out.schema
    ensures CoerceCells(Int64, RemapCells(ColumnOf(t, Gender))) == Some(ColumnOf(out, Gender))
  {
    KeptNames();
    KeptThrough(t, typed, derived, out, Gender);
  }

  /** Each gender cell is 0 for `M`, 1 for `F`, and otherwise the integer
      conversion of the raw cell. */
  lemma GenderColumn(t: Table)
    requires t.Valid() && Transform(t).Success?
    ensures Gender in t.schema && Gender in Transform(t).value.schema
    ensures CoerceCells(Int64, RemapCells(ColumnOf(t, Gender))) == Some(ColumnOf(Transform(t).value, Gender))
    ensures forall k :: 0 <= k < t.height && ColumnOf(t, Gender)[k] == Str("M") ==>
      ColumnOf(Transform(t).value, Gender)[k] == Int(0)
    ensures forall k :: 0 <= k < t.height && ColumnOf(t, Gender)[k] == Str("F") ==>
      ColumnOf(Transform(t).value, Gender)[k] == Int(1)
  {
    var typed, derived, out := Stages(t);
    GenderThrough(t, typed, derived, out);
    GenderCodes(ColumnOf(t, Gender), ColumnOf(out, Gender));
  }

  /** The gender remap followed by the integer conversion sends `M` to 0
      and `F` to 1. */
  lemma GenderCodes(col: seq<Cell>, out: seq<Cell>)
    requires CoerceCells(Int64, RemapCells(col)) == Some(out)
    ensures |out| == |col|
    ensures forall k :: 0 <= k < |col| && col[k] == Str("M") ==> out[k] == Int(0)
    ensures forall k :: 0 <= k < |col| && col[k] == Str("F") ==> out[k] == Int(1)
  {
  }

  lemma FloatThrough(t: Table, typed: Table, derived: Table, out: Table, c: Name)
    requires Chain(t, typed, derived, out) && c in FloatColumns
    ensures c in t.schema && c in out.schema
    ensures CoerceCells(Float64, ColumnOf(t, c)) == Some(ColumnOf(out, c))
  {
    FloatKept(c);
    KeptThrough(t, typed, derived, out, c);
  }

  /** Each float column holds the float conversion of its raw cells. */
  lemma FloatColumn(t: Table, c: Name)
    requires t.Valid() && Transform(t).Success? && c in FloatColumns
    ensures c in t.schema && c in Transform(t).value.schema
    ensures CoerceCells(Float64, ColumnOf(t, c)) == Some(ColumnOf(Transform(t).value, c))
  {
    var typed, derived, out := Stages(t);
    FloatThrough(t, typed, derived, out, c);
  }

  lemma IntThrough(t: Table, typed: Table, derived: Table, out: Table, c: Name)
    requires Chain(t, typed, derived, out) && c in PlainIntColumns && c !in DroppedColumns
    ensures c in t.schema && c in out.schema
    ensures CoerceCells(Int64, ColumnOf(t, c)) == Some(ColumnOf(out, c))
  {
    PlainKept(c);
    KeptThrough(t, typed, derived, out, c);
  }

  /** Each integer column that is kept holds the integer conversion of its
      raw cells. */
  lemma IntColumn(t: Table, c: Name)
    requires t.Valid() && Transform(t).Success? && c in PlainIntColumns && c !in DroppedColumns
    ensures c in t.schema && c in Transform(t).value.schema
    ensures CoerceCells(Int64, ColumnOf(t, c)) == Some(ColumnOf(Transform(t).value, c))
  {
    var typed, derived, out := Stages(t);
    IntThrough(t, typed, derived, out, c);
  }

  lemma DateTimeThrough(t: Table, typed: Table, derived: Table, out: Table)
    requires Chain(t, typed, derived, out)
    ensures TimestampName in t.schema && TransDate in out.schema && TransTime in out.schema
    ensures forall k :: 0 <= k < t.height ==>
      ColumnOf(out, TransDate)[k] == DatePart(ParseCell(ColumnOf(t, TimestampName)[k]))
    ensures forall k :: 0 <= k < t.height ==>
      ColumnOf(out, TransTime)[k] == TimePart(ParseCell(ColumnOf(t, TimestampName)[k]))
  {
    KeptNames();
    TypedKeepsReads(t, typed);
    assert Agree(derived, out, TransDate) && Agree(derived, out, TransTime);
  }

  /** The date and time columns hold the parts of the parsed timestamp; a
      timestamp that does not parse gives missing parts in its own row. */
  lemma DateTimeColumns(t: Table)
    requires t.Valid() && Transform(t).Success?
    ensures TimestampName in t.schema && TransDate in Transform(t).value.schema && TransTime in Transform(t).value.schema
    ensures forall k :: 0 <= k < t.height ==>
      ColumnOf(Transform(t).value, TransDate)[k] == DatePart(ParseCell(ColumnOf(t, TimestampName)[k]))
    ensures forall k :: 0 <= k < t.height ==>
      ColumnOf(Transform(t).value, TransTime)[k] == TimePart(ParseCell(ColumnOf(t, TimestampName)[k]))
  {
    var typed, derived, out := Stages(t);
    DateTimeThrough(t, typed, derived, out);
  }

  lemma LocationCodesThrough(t: Table, typed: Table, derived: Table, out: Table)
    requires Chain(t, typed, derived, out)
    ensures City in t.schema && State in t.schema && LocationColumn(t).Some? && Location in out.schema
    ensures EncodeCells(LocationColumn(t).value) == Some(ColumnOf(out, Location))
  {
    KeptNames();
    LocationThrough(t, typed, derived);
  }

  /** The location column holds the label codes of the joined city and
      state. */
  lemma LocationColumnCodes(t: Table)
    requires t.Valid() && Transform(t).Success?
    ensures City in t.schema && State in t.schema && LocationColumn(t).Some?
    ensures Location in Transform(t).value.schema
    ensures EncodeCells(LocationColumn(t).value) == Some(ColumnOf(Transform(t).value, Location))
  {
    var typed, derived, out := Stages(t);
    LocationCodesThrough(t, typed, derived, out);
  }

  /** Two rows get the same location code exactly when their city and
      state join to the same location. */
  lemma LocationCodesMatch(t: Table, i: int, j: int)
    requires t.Valid() && Transform(t).Success? && 0 <= i < t.height && 0 <= j < t.height
    ensures City in t.schema && State in t.schema && Location in Transform(t).value.schema
    ensures ColumnOf(Transform(t).value, Location)[i] == ColumnOf(Transform(t).value, Location)[j] <==>
      LocationOf(ColumnOf(t, City)[i], ColumnOf(t, State)[i]) == LocationOf(ColumnOf(t, City)[j], ColumnOf(t, State)[j])
  {
    LocationColumnCodes(t);
    LocationCells(t);
  }

  lemma RawEncodedThrough(t: Table, typed: Table, derived: Table, out: Table, c: Name)
    requires Chain(t, typed, derived, out)
    requires !Typed(c) && !Derived(c) && c in EncodedColumns
    ensures c in t.schema && c in out.schema
    ensures EncodeCells(ColumnOf(t, c)) == Some(ColumnOf(out, c))
  {
    AgreeTrans(t, typed, derived, c);
  }

  /** The other encoded columns hold the label codes of their raw cells. */
  lemma RawEncodedColumn(t: Table, c: Name)
    requires t.Valid() && Transform(t).Success? && c in RawEncodedColumns
    ensures c in t.schema && c in Transform(t).value.schema
    ensures EncodeCells(ColumnOf(t, c)) == Some(ColumnOf(Transform(t).value, c))
  {
    var typed, derived, out := Stages(t);
    RawIsUntouched(c);
    RawEncodedThrough(t, typed, derived, out, c);
  }

  lemma UntouchedThrough(t: Table, typed: Table, derived: Table, out: Table, d: Name)
    requires Chain(t, typed, derived, out)
    requires !Typed(d) && !Derived(d) && d !in EncodedColumns
    ensures Agree(t, out, d)
  {
    assert Agree(t, typed, d);
    KeptThrough(t, typed, derived, out, d);
    AgreeTrans(t, typed, out, d);
  }

  /** A column the transform does not mention, `dob` among them, reaches
      the result unchanged. */
  lemma UntouchedColumn(t: Table, d: Name)
    requires t.Valid() && Transform(t).Success?
    requires !Typed(d) && !Derived(d) && d !in EncodedColumns
    ensures Agree(t, Transform(t).value, d)
  {
    var typed, derived, out := Stages(t);
    UntouchedThrough(t, typed, derived, out, d);
  }

  lemma DobUnchanged(t: Table)
    requires t.Valid() && Transform(t).Success?
    ensures Dob in t.schema && Dob in Transform(t).value.schema
    ensures ColumnOf(Transform(t).value, Dob) == ColumnOf(t, Dob)
  {
    var typed, derived, out := Stages(t);
    DobIsUntouched();
    UntouchedThrough(t, typed, derived, out, Dob);
  }

  lemma ReencodeThrough(t: Table, typed: Table, derived: Table, out: Table)
    requires Chain(t, typed, derived, out)
    ensures EncodeEach(out, EncodedColumns) == Success(out)
  {
    Reencode(derived, out, EncodedColumns);
  }

  /** Encoding columns that already hold codes leaves them as they are. */
  lemma Reencode(derived: Table, out: Table, cols: seq<Name>)
    requires derived.Valid() && out.Valid() && Distinct(cols)
    requires out.schema == derived.schema && out.height == derived.height
    requires forall c :: c in cols ==> c in derived.schema && EncodeCells(ColumnOf(derived, c)) == Some(ColumnOf(out, c))
    ensures EncodeEach(out, cols) == Success(out)
  {
    forall c | c in cols ensures c in out.schema && EncodeCells(ColumnOf(out, c)) == Some(ColumnOf(out, c)) {
      EncodeIdempotent(ColumnOf(derived, c));
    }
    var again := EncodeEach(out, cols).value;
    forall c | c in out.schema ensures ColumnOf(again, c) == ColumnOf(out, c) {
      if c !in cols {
        assert Agree(out, again, c);
      }
    }
    TableExtensionality(again, out);
  }

  /** The result is a fixed point of the encoding step: every encoded
      column already holds the codes `0 .. k-1` in sorted order. */
  lemma OutputReencodes(t: Table)
    requires t.Valid() && Transform(t).Success?
    ensures EncodeEach(Transform(t).value, EncodedColumns) == Transform(t)
  {
    var typed, derived, out := Stages(t);
    ReencodeThrough(t, typed, derived, out);
  }

  /** The text of the transaction timestamps never decides whether the
      batch is accepted: unparsable timestamps only become missing values. */
  lemma TimestampTextIrrelevant(t: Table, u: Table)
    requires t.Valid() && u.Valid() && t.schema == u.schema
    requires forall d :: d != TimestampName ==> Agree(t, u, d)
    ensures Transform(t).Success? <==> Transform(u).Success?
  {
    TransformSucceedsIff(t);
    TransformSucceedsIff(u);
    AcceptsIgnoresTimestamp(t, u);
  }

  /** Steps 1 to 4 only look at the columns they convert. */
  lemma TypesOkAgree(t: Table, u: Table, skip: Name)
    requires t.Valid() && u.Valid() && t.schema == u.schema
    requires forall d :: d != skip ==> Agree(t, u, d)
    requires !Typed(skip)
    ensures TypesOk(t) <==> TypesOk(u)
  {
    UntypedIsApart(skip);
    AgreeOutside(t, u, skip, FloatColumns);
    AgreeOutside(t, u, skip, PlainIntColumns);
    assert Agree(t, u, TargetSource(t.schema)) && Agree(t, u, Gender);
  }

  lemma AgreeOutside(t: Table, u: Table, skip: Name, cols: seq<Name>)
    requires t.Valid() && u.Valid()
    requires forall d :: d != skip ==> Agree(t, u, d)
    requires skip !in cols
    ensures forall c :: c in cols ==> Agree(t, u, c)
  {
  }

  /** Tables that agree on the listed columns agree on whether those
      columns can be sorted. */
  lemma EncodableAgree(t: Table, u: Table, cols: seq<Name>)
    requires t.Valid() && u.Valid()
    requires forall c :: c in cols ==> Agree(t, u, c)
    ensures AllEncodable(t, cols) <==> AllEncodable(u, cols)
  {
  }

  lemma AcceptsIgnoresTimestamp(t: Table, u: Table)
    requires t.Valid() && u.Valid() && t.schema == u.schema
    requires forall d :: d != TimestampName ==> Agree(t, u, d)
    ensures Accepts(t) <==> Accepts(u)
  {
    ReadsNotTimestamp();
    ReadNamesUntyped();
    TypesOkAgree(t, u, TimestampName);
    EncodableAgree(t, u, RawEncodedColumns);
    assert Agree(t, u, City) && Agree(t, u, State);
  }

  /** One cell that does not convert makes the conversion of its column
      fail. */
  lemma BadCellFails(ty: NumericType, col: seq<Cell>, k: int)
    requires 0 <= k < |col| && Coerce(ty, col[k]).None?
    ensures CoerceCells(ty, col).None?
  {
  }

  /** A missing gender aborts the batch: `astype(int)` cannot convert it. */
  lemma MissingGenderRejected(t: Table, k: int)
    requires t.Valid() && Gender in t.schema && 0 <= k < t.height && ColumnOf(t, Gender)[k] == Null
    ensures Transform(t).Failure?
  {
    BadCellFails(Int64, RemapCells(ColumnOf(t, Gender)), k);
    RejectedByTyping(t);
  }

  /** A gender other than `M` or `F` that is not an integer literal
      survives the remap as text and aborts the batch at `astype(int)`. */
  lemma UnmappedGenderRejected(t: Table, k: int)
    requires t.Valid() && Gender in t.schema && 0 <= k < t.height
    requires ColumnOf(t, Gender)[k].Str? && ColumnOf(t, Gender)[k] != Str("M") && ColumnOf(t, Gender)[k] != Str("F")
    requires Numbers.ParseInteger(ColumnOf(t, Gender)[k].s).None?
    ensures Transform(t).Failure?
  {
    BadCellFails(Int64, RemapCells(ColumnOf(t, Gender)), k);
    RejectedByTyping(t);
  }

  /** An amount that is not a decimal number aborts the batch. */
  lemma BadAmountRejected(t: Table, k: int)
    requires t.Valid() && "amt" in t.schema && 0 <= k < t.height
    requires ColumnOf(t, "amt")[k].Str? && Numbers.ParseDecimal(ColumnOf(t, "amt")[k].s).None?
    ensures Transform(t).Failure?
  {
    BadCellFails(Float64, ColumnOf(t, "amt"), k);
    FloatIsFloat("amt");
    assert "amt" in FloatColumns;
    RejectedByTyping(t);
  }
}
