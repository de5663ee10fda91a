/** What the compiled path looks like, proved from the definitions in
    `QueryCompiler`: when RANGE fails, what a RANGE block is for distinct
    bounds, that the alternatives block can be cut back into its items, that
    single-value operators read one value only, that the whole list compiles
    exactly when every constraint does, and the examples the program's own
    driver uses. */
module CompilerLaws {
  import opened Results
  import opened Text
  import opened Vocabulary
  import opened QueryCompiler

  /** A RANGE block fails exactly when the number of values is odd and the
      dangling last value does not occur earlier. */
  lemma RangeFailsExactly(values: seq<string>)
    ensures RangeBlock(values).Err? <==>
      |values| % 2 == 1 && Find(values, values[|values| - 1]) == |values| - 1
  {
    if |values| % 2 == 1 && Find(values, values[|values| - 1]) == |values| - 1 {
      DanglingBoundFails(values);
    }
    if RangeBlock(values).Err? {
      FailureIsDangling(values);
    }
  }

  lemma DanglingBoundFails(values: seq<string>)
    requires |values| % 2 == 1 && Find(values, values[|values| - 1]) == |values| - 1
    ensures RangeBlock(values).Err?
  {
    var lows := EveryOther(values);
    var k := |values| / 2;
    assert |values| == 2 * k + 1;
    assert lows[k] == values[|values| - 1];
    assert !HasUpperBound(values, lows[k]);
  }

  lemma FailureIsDangling(values: seq<string>)
    requires RangeBlock(values).Err?
    ensures |values| % 2 == 1 && Find(values, values[|values| - 1]) == |values| - 1
  {
    var lows := EveryOther(values);
    assert !forall k :: 0 <= k < |lows| ==> HasUpperBound(values, lows[k]);
    var k :| 0 <= k < |lows| && !HasUpperBound(values, lows[k]);
    assert lows[k] == values[2 * k];
    FindIsFirst(values, 2 * k);
    var f := Find(values, values[2 * k]);
    assert 0 <= f <= 2 * k < |values| && f + 1 >= |values|;
    assert |values| == 2 * k + 1;
    Odd(|values|, k);
    assert values[|values| - 1] == values[2 * k];
  }

  lemma Odd(n: int, k: int)
    requires n == 2 * k + 1
    ensures n % 2 == 1
  {
  }

  /** With pairwise-distinct values and an even count, the block is the
      comma-joined `low--high` pairs taken two by two. */
  lemma RangeDistinct(values: seq<string>)
    requires |values| % 2 == 0
    requires forall p, q :: 0 <= p < q < |values| ==> values[p] != values[q]
    ensures RangeBlock(values) ==
      Ok(Join(seq(|values| / 2, k requires 0 <= k < |values| / 2 => values[2 * k] + "--" + values[2 * k + 1])))
  {
    var lows := EveryOther(values);
    var n := |values| / 2;
    assert |values| == 2 * n && |lows| == n;
    forall k | 0 <= k < |lows|
      ensures Find(values, lows[k]) == 2 * k
    {
      FindDistinct(values, 2 * k);
    }
    assert RangePairs(values, lows) ==
      seq(|values| / 2, k requires 0 <= k < |values| / 2 => values[2 * k] + "--" + values[2 * k + 1]);
  }

  /** Upper-casing leaves commas where they are, so it never adds one. */
  lemma UpperKeepsCommas(s: string)
    ensures (',' in Upper(s)) <==> (',' in s)
  {
    if ',' in s {
      var i :| 0 <= i < |s| && s[i] == ',';
      assert Upper(s)[i] == ',';
    }
    if ',' in Upper(s) {
      var i :| 0 <= i < |s| && Upper(s)[i] == ',';
      assert s[i] == ',';
    }
  }

  /** The EQUAL / LIKE block lists one alternative per value: cutting it at
      its commas gives back every value, upper-cased and prefixed, in order,
      as long as no value holds a comma itself. */
  lemma AlternativesSplit(op: Operator, values: seq<string>)
    requires op == Equal || op == Like
    requires values != []
    requires forall k :: 0 <= k < |values| ==> ',' !in values[k]
    ensures Split(AlternativesBlock(OperatorValue(op), values)) == Alternatives(OperatorValue(op), values)
    ensures forall k :: 0 <= k < |values| ==>
      Alternatives(OperatorValue(op), values)[k] == OperatorValue(op) + Upper(values[k])
  {
    var items := Alternatives(OperatorValue(op), values);
    forall k | 0 <= k < |items|
      ensures ',' !in items[k]
    {
      UpperKeepsCommas(values[k]);
    }
    SplitJoin(items);
  }

  /** GREATER_THAN, LESS_THAN and NOT_EQUAL read the first value only, as it
      is (no upper-casing), and fail when there is none. */
  lemma SingleValueOperators(f: Field, op: Operator, v: string, rest: seq<string>)
    requires op == GreaterThan || op == LessThan || op == NotEqual
    ensures Segment(Constraint(f, op, [v] + rest)) == Ok("/" + FieldValue(f) + "/" + OperatorValue(op) + v)
    ensures Segment(Constraint(f, op, [])) == Err(OperandIndexError)
  {
  }

  lemma {:induction false} CollectOkExactly(rs: seq<Result<string, CompileError>>)
    ensures Collect(rs).Ok? <==> forall i :: 0 <= i < |rs| ==> rs[i].Ok?
  {
    if rs != [] {
      var init := rs[..|rs| - 1];
      CollectOkExactly(init);
      assert forall i :: 0 <= i < |init| ==> init[i] == rs[i];
    }
  }

  /** The list compiles exactly when every constraint does. */
  lemma SegmentsOkExactly(cs: seq<Constraint>)
    ensures Segments(cs).Ok? <==> forall i :: 0 <= i < |cs| ==> Segment(cs[i]).Ok?
  {
    CollectOkExactly(SegmentResults(cs));
    forall i | 0 <= i < |cs|
      ensures SegmentResults(cs)[i] == Segment(cs[i])
    {
      SegmentResultsAt(cs, i);
    }
  }

  /** The error reported is that of the first constraint that fails. */
  lemma SegmentsFirstFailure(cs: seq<Constraint>, i: nat)
    requires i < |cs|
    requires Segment(cs[i]).Err?
    requires forall j :: 0 <= j < i ==> Segment(cs[j]).Ok?
    ensures Segments(cs) == Segment(cs[i])
  {
    var rs := SegmentResults(cs);
    forall j | 0 <= j <= i
      ensures rs[j] == Segment(cs[j])
    {
      SegmentResultsAt(cs, j);
    }
    CollectOkExactly(rs[..i]);
    CollectStopAtFailure(rs, i);
  }

  /** Compiling a concatenation of constraint lists concatenates their paths,
      in order; a failure in the first list is the failure of the whole. */
  lemma SegmentsAppend(a: seq<Constraint>, b: seq<Constraint>)
    ensures Segments(a + b) == Then(Segments(a), Segments(b))
  {
    var ra, rb, rab := SegmentResults(a), SegmentResults(b), SegmentResults(a + b);
    forall i | 0 <= i < |a + b|
      ensures rab[i] == (ra + rb)[i]
    {
      SegmentResultsAt(a + b, i);
      if i < |a| {
        SegmentResultsAt(a, i);
      } else {
        SegmentResultsAt(b, i - |a|);
      }
    }
    assert rab == ra + rb;
    CollectAppend(ra, rb);
  }

  /** The dataset argument has no influence on the link. */
  lemma LinkIgnoresDataset(cs: seq<Constraint>, d1: DatasetArg, d2: DatasetArg, orderBy: Field, ascSort: int, limit: Limit)
    ensures Link(cs, d1, orderBy, ascSort, limit) == Link(cs, d2, orderBy, ascSort, limit)
  {
  }

  /** The sort direction is `asc` exactly for `asc_sort == 1`; the limit
      suffix appears for an `int` limit only, and its number reads back as
      the limit. */
  lemma SortLimitSuffix(orderBy: Field, ascSort: int, limit: Limit)
    ensures SortLimit(orderBy, ascSort, limit) ==
      "/orderby/" + FieldValue(orderBy) + (if ascSort == 1 then " asc" else " desc")
      + (if limit.IntLimit? then "/limit/" + IntToString(limit.n) + "/format/json" else "")
    ensures limit.IntLimit? ==> ParseInt(IntToString(limit.n)) == limit.n
    ensures !limit.IntLimit? ==> SortLimit(orderBy, ascSort, limit) == SortLimit(orderBy, ascSort, NoLimit)
  {
    if limit.IntLimit? {
      IntToStringRoundTrip(limit.n);
    }
    var f := "/orderby/" + FieldValue(orderBy);
    assert f + " " + "asc" == f + " asc";
    assert f + " " + "desc" == f + " desc";
  }
  /** An empty value list gives an empty value block for RANGE, EQUAL and LIKE. */
  lemma EmptyValueBlock(f: Field, op: Operator)
    requires op == Range || op == Equal || op == Like
    ensures Segment(Constraint(f, op, [])) == Ok("/" + FieldValue(f) + "/")
  {
    assert "/" + FieldValue(f) + "/" + "" == "/" + FieldValue(f) + "/";
  }

  lemma UpperIs(s: string, u: string)
    requires |s| == |u| && forall i :: 0 <= i < |s| ==> u[i] == UpperChar(s[i])
    ensures Upper(s) == u
  {
  }

  /** A one-item block is the item itself. */
  lemma JoinOne(item: string)
    ensures Join([item]) == item
  {
  }

  /** A two-item block is the items around one comma. */
  lemma JoinTwo(a: string, b: string)
    ensures Join([a, b]) == a + "," + b
  {
    assert [a, b][1..] == [b];
  }

  /** The EQUAL block of the driver's catalog number. */
  lemma DriverEqualBlock(values: seq<string>)
    requires values == ["25544"]
    ensures AlternativesBlock(OperatorValue(Equal), values) == "25544"
  {
    UpperIs(values[0], "25544");
    var a := Alternatives(OperatorValue(Equal), values);
    assert a[0] == "" + "25544" == "25544";
    assert a == ["25544"];
    JoinOne("25544");
  }

  /** `(NORAD_CAT_ID, EQUAL, 25544)` from the program's driver. */
  lemma DriverEqualSegment(values: seq<string>)
    requires values == ["25544"]
    ensures Segment(Constraint(NoradCatId, Equal, values)) == Ok("/NORAD_CAT_ID/25544")
  {
    DriverEqualBlock(values);
    assert "/" + "NORAD_CAT_ID" + "/" + "25544" == "/NORAD_CAT_ID/25544";
  }

  lemma UpperExamples(a: string, b: string)
    requires a == "iss" && b == "zarya"
    ensures Upper(a) == "ISS" && Upper(b) == "ZARYA"
  {
    UpperIs(a, "ISS");
    UpperIs(b, "ZARYA");
  }

  /** The EQUAL block of two lower-case alternatives. */
  lemma UpperCasedBlock(values: seq<string>)
    requires values == ["iss", "zarya"]
    ensures AlternativesBlock(OperatorValue(Equal), values) == "ISS,ZARYA"
  {
    UpperExamples(values[0], values[1]);
    var a := Alternatives(OperatorValue(Equal), values);
    assert a[0] == "" + "ISS" == "ISS";
    assert a[1] == "" + "ZARYA" == "ZARYA";
    assert a == ["ISS", "ZARYA"];
    JoinTwo("ISS", "ZARYA");
    assert "ISS" + "," + "ZARYA" == "ISS,ZARYA";
  }

  /** EQUAL with two alternatives: both upper-cased, comma-joined, no symbol. */
  lemma UpperCasedAlternatives(values: seq<string>)
    requires values == ["iss", "zarya"]
    ensures Segment(Constraint(ObjectName, Equal, values)) == Ok("/OBJECT_NAME/ISS,ZARYA")
  {
    UpperCasedBlock(values);
    assert "/" + "OBJECT_NAME" + "/" + "ISS,ZARYA" == "/OBJECT_NAME/ISS,ZARYA";
  }

  /** The RANGE block of the driver's epoch interval. */
  lemma DriverRangeBlock(values: seq<string>)
    requires values == ["2010-01-01", "2010-12-01"]
    ensures RangeBlock(values) == Ok("2010-01-01--2010-12-01")
  {
    var lows := EveryOther(values);
    assert lows == [values[0]];
    FindAt(values, values[0], 0);
    assert HasUpperBound(values, lows[0]);
    var pairs := RangePairs(values, lows);
    assert pairs == [values[0] + "--" + values[1]];
    JoinOne(pairs[0]);
    assert "2010-01-01" + "--" + "2010-12-01" == "2010-01-01--2010-12-01";
  }

  /** `(EPOCH, RANGE, "2010-01-01", "2010-12-01")` from the program's driver. */
  lemma DriverRangeSegment(values: seq<string>)
    requires values == ["2010-01-01", "2010-12-01"]
    ensures Segment(Constraint(Epoch, Range, values)) == Ok("/EPOCH/2010-01-01--2010-12-01")
  {
    DriverRangeBlock(values);
    assert "/" + "EPOCH" + "/" + "2010-01-01--2010-12-01" == "/EPOCH/2010-01-01--2010-12-01";
  }

  /** `str(50)` is `"50"`. */
  lemma Fifty(fifty: int)
    requires fifty == 50
    ensures IntToString(fifty) == "50"
  {
    assert NatToString(5) == "5";
  }

  /** The sort suffixes of the documented cases: ascending for `asc_sort == 1`,
      descending otherwise, and the limit block for an `int` limit. */
  lemma SortLimitExamples(fifty: int)
    requires fifty == 50
    ensures SortLimit(Epoch, 1, NoLimit) == "/orderby/EPOCH" + " asc"
    ensures SortLimit(Epoch, 0, NoLimit) == "/orderby/EPOCH" + " desc"
    ensures SortLimit(Epoch, 1, IntLimit(fifty)) == "/orderby/EPOCH" + " asc" + "/limit/50/format/json"
  {
    Fifty(fifty);
    SortLimitSuffix(Epoch, 1, NoLimit);
    SortLimitSuffix(Epoch, 0, NoLimit);
    SortLimitSuffix(Epoch, 1, IntLimit(fifty));
    assert "/orderby/" + "EPOCH" == "/orderby/EPOCH";
    assert "/limit/" + "50" + "/format/json" == "/limit/50/format/json";
  }

  /** One constraint compiles to its own segment. */
  lemma SegmentsOne(c: Constraint)
    ensures Segments([c]) == Segment(c)
  {
    var rs := SegmentResults([c]);
    assert [c][..0] == [];
    assert rs == [Segment(c)];
    assert rs[..0] == [];
    assert Segments([c]) == Then(Collect([]), Segment(c));
    if Segment(c).Ok? {
      assert "" + Segment(c).value == Segment(c).value;
    }
  }

  /** Two constraints compile to their two segments, in order. */
  lemma SegmentsOfTwo(c: Constraint, d: Constraint)
    ensures Segments([c, d]) == Then(Segment(c), Segment(d))
  {
    SegmentsAppend([c], [d]);
    assert [c] + [d] == [c, d];
    SegmentsOne(c);
    SegmentsOne(d);
  }

  /** The constraint part of the driver's link. */
  lemma DriverSegments(cs: seq<Constraint>, dates: seq<string>, id: seq<string>)
    requires id == ["25544"] && dates == ["2010-01-01", "2010-12-01"]
    requires cs == [Constraint(NoradCatId, Equal, id), Constraint(Epoch, Range, dates)]
    ensures Segments(cs) == Ok("/NORAD_CAT_ID/25544" + "/EPOCH/2010-01-01--2010-12-01")
  {
    DriverEqualSegment(id);
    DriverRangeSegment(dates);
    SegmentsOfTwo(cs[0], cs[1]);
  }

  /** The complete link the program's driver requests. */
  lemma DriverLink(cs: seq<Constraint>, dates: seq<string>, id: seq<string>)
    requires id == ["25544"] && dates == ["2010-01-01", "2010-12-01"]
    requires cs == [Constraint(NoradCatId, Equal, id), Constraint(Epoch, Range, dates)]
    ensures Link(cs, Table(HistRecords), Epoch, 1, NoLimit) ==
      Ok("https://www.space-track.org" + "/basicspacedata/query/class/" + "gp_history"
         + ("/NORAD_CAT_ID/25544" + "/EPOCH/2010-01-01--2010-12-01") + ("/orderby/EPOCH" + " asc"))
  {
    DriverSegments(cs, dates, id);
    SortLimitExamples(50);
  }
}
