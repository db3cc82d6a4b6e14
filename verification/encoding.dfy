/** sklearn's `LabelEncoder.fit_transform` on one column: every distinct
    value gets the number of distinct values that sort before it, so the
    codes are exactly `0..k-1` for `k` distinct values, in sorted order,
    with the missing value last. */
module Encoding {
  import opened Wrappers
  import opened Cells

  /** Python's string ordering: lexicographic by code point. */
  predicate StrLess(a: string, b: string) {
    if |a| == 0 then |b| > 0
    else if |b| == 0 then false
    else if a[0] != b[0] then a[0] < b[0]
    else StrLess(a[1..], b[1..])
  }

  lemma {:induction false} StrLessIrreflexive(a: string)
    ensures !StrLess(a, a)
  {
    if |a| > 0 {
      StrLessIrreflexive(a[1..]);
    }
  }

  lemma {:induction false} StrLessTransitive(a: string, b: string, c: string)
    requires StrLess(a, b) && StrLess(b, c)
    ensures StrLess(a, c)
  {
    if |a| > 0 && |b| > 0 && |c| > 0 && a[0] == b[0] && b[0] == c[0] {
      StrLessTransitive(a[1..], b[1..], c[1..]);
    }
  }

  lemma {:induction false} StrLessTotal(a: string, b: string)
    requires a != b
    ensures StrLess(a, b) || StrLess(b, a)
  {
    if |a| > 0 && |b| > 0 && a[0] == b[0] {
      assert a == [a[0]] + a[1..] && b == [b[0]] + b[1..];
      StrLessTotal(a[1..], b[1..]);
    }
  }

  /** The order the encoder sorts by: strings, integers and floats among
      themselves, and the missing value after everything else. */
  predicate Less(a: Cell, b: Cell) {
    match (a, b)
    case (Str(x), Str(y)) => StrLess(x, y)
    case (Int(x), Int(y)) => x < y
    case (Float(x), Float(y)) => x < y
    case (_, Null) => !a.Null?
    case _ => false
  }

  /** The columns the model encodes: one kind among strings, integers and
      floats, plus missing values. A string beside a number makes the
      encoder's sort raise a TypeError. Integers beside floats, and columns
      of dates, times or timestamps, are not modelled and are rejected. */
  predicate SameKind(vals: set<Cell>) {
    || (forall v :: v in vals ==> v.Null? || v.Str?)
    || (forall v :: v in vals ==> v.Null? || v.Int?)
    || (forall v :: v in vals ==> v.Null? || v.Float?)
  }

  function Values(col: seq<Cell>): (vals: set<Cell>)
    ensures forall k :: 0 <= k < |col| ==> col[k] in vals
    ensures forall v :: v in vals ==> exists k :: 0 <= k < |col| && col[k] == v
  {
    set k | 0 <= k < |col| :: col[k]
  }

  /** The values of `vals` that sort before `v`. */
  function Below(vals: set<Cell>, v: Cell): set<Cell> {
    set u | u in vals && Less(u, v)
  }

  /** The code of `v`: how many distinct values sort before it. */
  function Rank(vals: set<Cell>, v: Cell): nat {
    |Below(vals, v)|
  }

  lemma LessIrreflexive(a: Cell)
    ensures !Less(a, a)
  {
    if a.Str? {
      StrLessIrreflexive(a.s);
    }
  }

  lemma LessTransitive(a: Cell, b: Cell, c: Cell)
    requires Less(a, b) && Less(b, c)
    ensures Less(a, c)
  {
    if a.Str? && b.Str? && c.Str? {
      StrLessTransitive(a.s, b.s, c.s);
    }
  }

  lemma LessTotal(vals: set<Cell>, a: Cell, b: Cell)
    requires SameKind(vals) && a in vals && b in vals && a != b
    ensures Less(a, b) || Less(b, a)
  {
    if a.Str? && b.Str? {
      StrLessTotal(a.s, b.s);
    }
  }

  lemma SubsetCard<T>(a: set<T>, b: set<T>)
    requires a <= b
    ensures |a| <= |b|
    ensures a < b ==> |a| < |b|
  {
    assert b == a + (b - a);
    assert a * (b - a) == {};
  }

  /** A code is below the number of distinct values. */
  lemma RankBound(vals: set<Cell>, v: Cell)
    requires v in vals
    ensures Rank(vals, v) < |vals|
  {
    LessIrreflexive(v);
    assert Below(vals, v) < vals;
    SubsetCard(Below(vals, v), vals);
  }

  /** Codes follow the sort order. */
  lemma RankMonotone(vals: set<Cell>, u: Cell, v: Cell)
    requires u in vals && Less(u, v)
    ensures Rank(vals, u) < Rank(vals, v)
  {
    forall w | w in Below(vals, u) ensures w in Below(vals, v) {
      LessTransitive(w, u, v);
    }
    LessIrreflexive(u);
    assert u in Below(vals, v) - Below(vals, u);
    SubsetCard(Below(vals, u), Below(vals, v));
  }

  /** Distinct values get distinct codes. */
  lemma RankInjective(vals: set<Cell>, u: Cell, v: Cell)
    requires SameKind(vals) && u in vals && v in vals && u != v
    ensures Rank(vals, u) != Rank(vals, v)
  {
    LessTotal(vals, u, v);
    if Less(u, v) {
      RankMonotone(vals, u, v);
    } else {
      RankMonotone(vals, v, u);
    }
  }

  /** The cells `Int(0) .. Int(n-1)`. */
  function Codes(n: nat): set<Cell> {
    set j | 0 <= j < n :: Int(j)
  }

  lemma {:induction false} CodesCard(n: nat)
    ensures |Codes(n)| == n
  {
    if n > 0 {
      CodesCard(n - 1);
      assert Codes(n) == Codes(n - 1) + {Int(n - 1)};
    }
  }

  /** An injective map does not shrink a set. */
  lemma {:induction false} InjectiveImageCard(vals: set<Cell>, f: Cell -> Cell)
    requires forall u, v :: u in vals && v in vals && u != v ==> f(u) != f(v)
    ensures |set v | v in vals :: f(v)| == |vals|
  {
    if vals != {} {
      var x :| x in vals;
      var rest := vals - {x};
      InjectiveImageCard(rest, f);
      assert (set v | v in vals :: f(v)) == (set v | v in rest :: f(v)) + {f(x)};
      assert f(x) !in (set v | v in rest :: f(v));
    }
  }

  /** Every code in `0..k-1` is used by some value. */
  lemma RankOnto(vals: set<Cell>, j: int)
    requires SameKind(vals) && 0 <= j < |vals|
    ensures exists v :: v in vals && Rank(vals, v) == j
  {
    var f := v => Int(Rank(vals, v));
    forall u, v | u in vals && v in vals && u != v ensures f(u) != f(v) {
      RankInjective(vals, u, v);
    }
    InjectiveImageCard(vals, f);
    var image := set v | v in vals :: f(v);
    forall c | c in image ensures c in Codes(|vals|) {
      var v :| v in vals && f(v) == c;
      RankBound(vals, v);
    }
    CodesCard(|vals|);
    SubsetCard(image, Codes(|vals|));
    assert image == Codes(|vals|);
    assert Int(j) in image;
  }

  /** The column is one the encoder can sort. */
  predicate Encodable(col: seq<Cell>) {
    SameKind(Values(col))
  }

  /** `fit_transform` on a column: `None` is the encoder's TypeError. */
  function EncodeCells(col: seq<Cell>): (r: Option<seq<Cell>>)
    ensures r.Some? <==> Encodable(col)
    ensures r.Some? ==> |r.value| == |col|
    ensures r.Some? ==> forall k :: 0 <= k < |col| ==> r.value[k].Int? && 0 <= r.value[k].i < |Values(col)|
    ensures r.Some? ==> forall k, l :: 0 <= k < |col| && 0 <= l < |col| ==> (r.value[k] == r.value[l] <==> col[k] == col[l])
    ensures r.Some? ==> forall k, l :: 0 <= k < |col| && 0 <= l < |col| && Less(col[k], col[l]) ==> r.value[k].i < r.value[l].i
    ensures r.Some? ==> forall j :: 0 <= j < |Values(col)| ==> exists k :: 0 <= k < |col| && r.value[k] == Int(j)
  {
    if !Encodable(col) then None
    else
      var vals := Values(col);
      var codes := seq(|col|, k requires 0 <= k < |col| => Int(Rank(vals, col[k])));
      assert forall k :: 0 <= k < |col| ==> codes[k] == Int(Rank(vals, col[k]));
      EncodeFacts(col, codes);
      Some(codes)
  }

  lemma EncodeFacts(col: seq<Cell>, codes: seq<Cell>)
    requires Encodable(col) && |codes| == |col|
    requires forall k :: 0 <= k < |col| ==> codes[k] == Int(Rank(Values(col), col[k]))
    ensures forall k :: 0 <= k < |col| ==> codes[k].Int? && 0 <= codes[k].i < |Values(col)|
    ensures forall k, l :: 0 <= k < |col| && 0 <= l < |col| ==> (codes[k] == codes[l] <==> col[k] == col[l])
    ensures forall k, l :: 0 <= k < |col| && 0 <= l < |col| && Less(col[k], col[l]) ==> codes[k].i < codes[l].i
    ensures forall j :: 0 <= j < |Values(col)| ==> exists k :: 0 <= k < |col| && codes[k] == Int(j)
  {
    var vals := Values(col);
    forall k | 0 <= k < |col| ensures 0 <= codes[k].i < |vals| {
      RankBound(vals, col[k]);
    }
    forall k, l | 0 <= k < |col| && 0 <= l < |col| && col[k] != col[l] ensures codes[k] != codes[l] {
      RankInjective(vals, col[k], col[l]);
    }
    forall k, l | 0 <= k < |col| && 0 <= l < |col| && Less(col[k], col[l]) ensures codes[k].i < codes[l].i {
      RankMonotone(vals, col[k], col[l]);
    }
    forall j | 0 <= j < |vals| ensures exists k :: 0 <= k < |col| && codes[k] == Int(j) {
      RankOnto(vals, j);
      var v :| v in vals && Rank(vals, v) == j;
      var k :| 0 <= k < |col| && col[k] == v;
      assert codes[k] == Int(j);
    }
  }

  lemma BelowCodes(n: nat, r: nat)
    requires r <= n
    ensures Below(Codes(n), Int(r)) == Codes(r)
  {
    forall c | c in Below(Codes(n), Int(r)) ensures c in Codes(r) {
      assert c.Int? && c.i < r;
    }
  }

  lemma EncodeIsRank(col: seq<Cell>, k: int)
    requires EncodeCells(col).Some? && 0 <= k < |col|
    ensures EncodeCells(col).value[k] == Int(Rank(Values(col), col[k]))
  {
  }

  /** `cls` is strictly increasing in the encoder's order. */
  predicate StrictlySorted(cls: seq<Cell>) {
    forall i, j :: 0 <= i < j < |cls| ==> Less(cls[i], cls[j])
  }

  /** `cls` is the encoder's `classes_` for `vals`: every value once, in
      increasing order. */
  predicate IsClasses(cls: seq<Cell>, vals: set<Cell>) {
    && StrictlySorted(cls)
    && (forall v :: v in cls ==> v in vals)
    && (forall v :: v in vals ==> v in cls)
  }

  /** The value of `vals` whose code is `j`. */
  ghost function ClassAt(vals: set<Cell>, j: nat): (v: Cell)
    requires SameKind(vals) && j < |vals|
    ensures v in vals && Rank(vals, v) == j
  {
    RankOnto(vals, j);
    var v :| v in vals && Rank(vals, v) == j;
    v
  }

  /** Every sortable set of values has its `classes_` listing. */
  ghost function Classes(vals: set<Cell>): (cls: seq<Cell>)
    requires SameKind(vals)
    ensures |cls| == |vals| && IsClasses(cls, vals)
  {
    var cls := seq(|vals|, j requires 0 <= j < |vals| => ClassAt(vals, j));
    ClassesFacts(vals, cls);
    cls
  }

  lemma ClassesFacts(vals: set<Cell>, cls: seq<Cell>)
    requires SameKind(vals) && |cls| == |vals|
    requires forall j :: 0 <= j < |cls| ==> cls[j] == ClassAt(vals, j)
    ensures IsClasses(cls, vals)
  {
    forall i, j | 0 <= i < j < |cls| ensures Less(cls[i], cls[j]) {
      LessTotal(vals, cls[i], cls[j]);
      if Less(cls[j], cls[i]) {
        RankMonotone(vals, cls[j], cls[i]);
      }
    }
    forall v | v in vals ensures v in cls {
      RankBound(vals, v);
      var r := Rank(vals, v);
      if cls[r] != v {
        RankInjective(vals, cls[r], v);
      }
    }
  }

  /** The first `p` entries of a strictly sorted sequence are `p` distinct values. */
  lemma {:induction false} SortedPrefixCard(cls: seq<Cell>, p: nat)
    requires StrictlySorted(cls) && p <= |cls|
    ensures |set i | 0 <= i < p :: cls[i]| == p
  {
    if p > 0 {
      SortedPrefixCard(cls, p - 1);
      var before := set i | 0 <= i < p - 1 :: cls[i];
      assert (set i | 0 <= i < p :: cls[i]) == before + {cls[p - 1]};
      forall i | 0 <= i < p - 1 ensures cls[i] != cls[p - 1] {
        LessIrreflexive(cls[i]);
      }
    }
  }

  /** The values sorting before entry `p` of a `classes_` listing are the
      entries in front of it. */
  lemma BelowIsPrefix(vals: set<Cell>, cls: seq<Cell>, p: nat)
    requires IsClasses(cls, vals) && p < |cls|
    ensures Below(vals, cls[p]) == set i | 0 <= i < p :: cls[i]
  {
    forall u | u in Below(vals, cls[p]) ensures u in set i | 0 <= i < p :: cls[i] {
      var q :| 0 <= q < |cls| && cls[q] == u;
      if q == p {
        LessIrreflexive(u);
      } else if q > p {
        LessTransitive(cls[p], cls[q], cls[p]);
        LessIrreflexive(cls[p]);
      }
    }
  }

  /** sklearn's reading of the codes: the code of row `k` is the index of
      its value in `classes_`, so `classes_[code] == col[k]`. */
  lemma EncodeIsClassIndex(col: seq<Cell>, cls: seq<Cell>, k: int)
    requires EncodeCells(col).Some? && IsClasses(cls, Values(col)) && 0 <= k < |col|
    ensures 0 <= EncodeCells(col).value[k].i < |cls| && cls[EncodeCells(col).value[k].i] == col[k]
  {
    var vals := Values(col);
    assert col[k] in vals;
    assert col[k] in cls;
    var p :| 0 <= p < |cls| && cls[p] == col[k];
    BelowIsPrefix(vals, cls, p);
    SortedPrefixCard(cls, p);
    EncodeIsRank(col, k);
  }

  /** The encoded column holds exactly the codes `0..k-1`. */
  lemma EncodedValues(col: seq<Cell>)
    requires EncodeCells(col).Some?
    ensures Values(EncodeCells(col).value) == Codes(|Values(col)|)
  {
    var codes := EncodeCells(col).value;
    var n := |Values(col)|;
    forall c | c in Values(codes) ensures c in Codes(n) {
      var k :| 0 <= k < |codes| && codes[k] == c;
    }
    forall c | c in Codes(n) ensures c in Values(codes) {
      var j :| 0 <= j < n && c == Int(j);
      var k :| 0 <= k < |col| && codes[k] == Int(j);
    }
  }

  /** Encoding an encoded column gives the same codes again: the codes
      `0..k-1` are their own sorted ranks. */
  lemma EncodeIdempotent(col: seq<Cell>)
    requires EncodeCells(col).Some?
    ensures EncodeCells(EncodeCells(col).value) == EncodeCells(col)
  {
    var codes := EncodeCells(col).value;
    var n := |Values(col)|;
    EncodedValues(col);
    assert Encodable(codes);
    var again := EncodeCells(codes).value;
    forall k | 0 <= k < |codes| ensures again[k] == codes[k] {
      EncodeIsRank(codes, k);
      BelowCodes(n, codes[k].i);
      CodesCard(codes[k].i);
    }
    assert again == codes;
  }
}
