/** A fully materialised table: a schema of distinct column names and, for
    each of them, a column holding one cell per row. The column
    operations here are the pandas primitives the transform is built from:
    reading a column, assigning one (`df[c] = ...`), renaming one and
    dropping several. */
module Tables {
  import opened Wrappers
  import opened Cells

  type Name = string

  predicate Distinct(s: seq<Name>) {
    forall i, j :: 0 <= i < j < |s| ==> s[i] != s[j]
  }

  /** A table as pandas stores it, column by column: the column names in
      order, the cells of each column top to bottom, and the number of
      rows. */
  datatype Table = Table(schema: seq<Name>, columns: map<Name, seq<Cell>>, height: nat) {
    ghost predicate Valid() {
      && Distinct(schema)
      && (forall c :: c in columns <==> c in schema)
      && (forall c :: c in columns ==> |columns[c]| == height)
    }
  }

  /** The cells of column `c`, top to bottom. */
  function ColumnOf(t: Table, c: Name): (col: seq<Cell>)
    requires t.Valid() && c in t.schema
    ensures |col| == t.height
  {
    t.columns[c]
  }

  /** Column `c` is present in both tables or in neither, with the same cells. */
  predicate Agree(a: Table, b: Table, c: Name)
    requires a.Valid() && b.Valid()
  {
    && (c in a.schema <==> c in b.schema)
    && (c in a.schema ==> ColumnOf(a, c) == ColumnOf(b, c))
  }

  /** Agreement on a column chains through an intermediate table. */
  lemma AgreeTrans(a: Table, b: Table, c: Table, d: Name)
    requires a.Valid() && b.Valid() && c.Valid() && Agree(a, b, d) && Agree(b, c, d)
    ensures Agree(a, c, d)
  {
  }

  /** A table is determined by its schema, its height and its columns. */
  lemma TableExtensionality(a: Table, b: Table)
    requires a.Valid() && b.Valid() && a.schema == b.schema && a.height == b.height
    requires forall c :: c in a.schema ==> ColumnOf(a, c) == ColumnOf(b, c)
    ensures a == b
  {
    assert a.columns.Keys == b.columns.Keys;
  }

  /** The schema after assigning column `c`: an existing column keeps its
      place, a new one is appended. */
  function WithName(s: seq<Name>, c: Name): seq<Name> {
    if c in s then s else s + [c]
  }

  /** `df[c] = col`: replaces the cells of column `c`, or appends the column. */
  function SetColumn(t: Table, c: Name, col: seq<Cell>): (r: Table)
    requires t.Valid() && |col| == t.height
    ensures r.Valid()
    ensures r.height == t.height
    ensures r.schema == WithName(t.schema, c)
    ensures c in r.schema && ColumnOf(r, c) == col
    ensures forall d :: d != c ==> Agree(t, r, d)
  {
    Table(WithName(t.schema, c), t.columns[c := col], t.height)
  }

  /** The schema with name `a` replaced by `b` where it stands. */
  function Replace(s: seq<Name>, a: Name, b: Name): (r: seq<Name>)
    ensures |r| == |s|
    ensures forall k :: 0 <= k < |s| ==> r[k] == (if s[k] == a then b else s[k])
  {
    seq(|s|, k requires 0 <= k < |s| => if s[k] == a then b else s[k])
  }

  lemma ReplaceMembers(s: seq<Name>, a: Name, b: Name, c: Name)
    requires a in s
    ensures c in Replace(s, a, b) <==> c == b || (c in s && c != a)
  {
    var r := Replace(s, a, b);
    if c in r {
      var k :| 0 <= k < |r| && r[k] == c;
    }
    if c == b {
      var k :| 0 <= k < |s| && s[k] == a;
      assert r[k] == b;
    } else if c in s && c != a {
      var k :| 0 <= k < |s| && s[k] == c;
      assert r[k] == c;
    }
  }

  /** `rename(columns={a: b})` for a present column `a` and an unused name
      `b`: the column keeps its place and its cells. */
  function Rename(t: Table, a: Name, b: Name): (r: Table)
    requires t.Valid() && a in t.schema && b !in t.schema
    ensures r.Valid()
    ensures r.height == t.height
    ensures r.schema == Replace(t.schema, a, b)
    ensures a !in r.schema && b in r.schema && ColumnOf(r, b) == ColumnOf(t, a)
    ensures forall d :: d != a && d != b ==> Agree(t, r, d)
  {
    var r := Table(Replace(t.schema, a, b), (t.columns - {a})[b := t.columns[a]], t.height);
    forall c ensures c in r.schema <==> c == b || (c in t.schema && c != a) {
      ReplaceMembers(t.schema, a, b, c);
    }
    r
  }

  /** The schema without the names in `gone`, in its original order. */
  function Without(s: seq<Name>, gone: set<Name>): (r: seq<Name>)
    ensures forall c :: c in r <==> c in s && c !in gone
    ensures Distinct(s) ==> Distinct(r)
    ensures |r| <= |s|
  {
    if s == [] then []
    else
      var rest := Without(s[1..], gone);
      assert forall c :: c in s[1..] ==> c in s;
      if s[0] in gone then rest
      else
        assert Distinct(s) ==> s[0] !in s[1..];
        [s[0]] + rest
  }

  /** The first name of `cols` that the schema lacks. */
  function FirstMissing(schema: seq<Name>, cols: seq<Name>): (r: Option<Name>)
    ensures r.None? <==> forall c :: c in cols ==> c in schema
    ensures r.Some? ==> r.value in cols && r.value !in schema
  {
    if cols == [] then None
    else if cols[0] !in schema then Some(cols[0])
    else
      assert forall c :: c in cols ==> c == cols[0] || c in cols[1..];
      FirstMissing(schema, cols[1..])
  }

  /** `drop(cols, axis=1)`: a KeyError unless every listed column is
      present; otherwise the remaining columns keep their order and cells. */
  function Drop(t: Table, cols: seq<Name>): (r: Result<Table, Name>)
    requires t.Valid()
    ensures r.Success? <==> forall c :: c in cols ==> c in t.schema
    ensures r.Failure? ==> r.error in cols && r.error !in t.schema
    ensures r.Success? ==> r.value.Valid() && r.value.height == t.height
    ensures r.Success? ==> r.value.schema == Without(t.schema, set c | c in cols)
    ensures r.Success? ==> forall c :: c in cols ==> c !in r.value.schema
    ensures r.Success? ==> forall d :: d !in cols ==> Agree(t, r.value, d)
  {
    match FirstMissing(t.schema, cols)
    case Some(c) => Failure(c)
    case None =>
      var gone := set c | c in cols;
      Success(Table(Without(t.schema, gone), t.columns - gone, t.height))
  }
}
