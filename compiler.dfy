/** The query-path compiler of `DataExtractor.SpaceTrackQuery`: an ordered list
    of constraints, a sort field, a sort direction and an optional row limit
    become the `basicspacedata` request URL. The functions state what the URL
    is; `CompileLink` builds it the way the original loop does. */
module QueryCompiler {
  import opened Results
  import opened Text
  import opened Vocabulary

  /** One `[Field, Operator, value, ...]` list; the values are kept as the
      strings `str()` makes of them. */
  datatype Constraint = Constraint(field: Field, op: Operator, values: seq<string>)

  /** The `limit` argument: `None`, an `int`, or any other value (a `bool`, a
      `float`, a string), which `type(limit) is int` turns away. */
  datatype Limit = NoLimit | IntLimit(n: int) | NonIntLimit

  /** The `IndexError` the encoding loop raises: a RANGE value with nothing
      after its first occurrence, or a single-value operator with no value. */
  datatype CompileError = RangeIndexError | OperandIndexError

  const Urlbase := "https://www.space-track.org"
  const QueryClassPath := "/basicspacedata/query/class/"

  /** `Constraint.index(val) + 1` still indexes the constraint list. The
      constraint's field and operator never equal a value, so the search in
      the list `[field, op] + values` lands where it lands in `values`. */
  predicate HasUpperBound(values: seq<string>, v: string)
  {
    0 <= Find(values, v) && Find(values, v) + 1 < |values|
  }

  /** `f"{val}--{NextValue}"`, where `NextValue` follows the first occurrence
      of `val`. */
  function RangePair(values: seq<string>, v: string): string
    requires HasUpperBound(values, v)
  {
    v + OperatorValue(Range) + values[Find(values, v) + 1]
  }

  /** The pair texts for the given lower bounds, in order. */
  function RangePairs(values: seq<string>, lows: seq<string>): (r: seq<string>)
    requires forall k :: 0 <= k < |lows| ==> HasUpperBound(values, lows[k])
    ensures |r| == |lows|
    ensures forall k :: 0 <= k < |lows| ==> r[k] == RangePair(values, lows[k])
  {
    if lows == [] then []
    else RangePairs(values, lows[..|lows| - 1]) + [RangePair(values, lows[|lows| - 1])]
  }

  /** The items of a RANGE value block: one pair per value at an even offset,
      or the `IndexError` when one of them has no upper bound. */
  function RangeItems(values: seq<string>): Result<seq<string>, CompileError>
  {
    var lows := EveryOther(values);
    if forall k :: 0 <= k < |lows| ==> HasUpperBound(values, lows[k])
    then Ok(RangePairs(values, lows))
    else Err(RangeIndexError)
  }

  /** The RANGE value block: the pairs, comma-joined. */
  function RangeBlock(values: seq<string>): Result<string, CompileError>
  {
    match RangeItems(values)
    case Ok(items) => Ok(Join(items))
    case Err(e) => Err(e)
  }

  /** The items of an EQUAL or LIKE value block: every value upper-cased and
      prefixed with the operator's symbol. */
  function Alternatives(symbol: string, values: seq<string>): (r: seq<string>)
    ensures |r| == |values|
    ensures forall k :: 0 <= k < |values| ==> r[k] == symbol + Upper(values[k])
  {
    if values == [] then []
    else Alternatives(symbol, values[..|values| - 1]) + [symbol + Upper(values[|values| - 1])]
  }

  /** The EQUAL or LIKE value block: the alternatives, comma-joined. */
  function AlternativesBlock(symbol: string, values: seq<string>): string
  {
    Join(Alternatives(symbol, values))
  }

  /** The path segment one constraint contributes. */
  function Segment(c: Constraint): Result<string, CompileError>
  {
    var head := "/" + FieldValue(c.field) + "/";
    match c.op
    case Range =>
      (match RangeBlock(c.values)
       case Ok(block) => Ok(head + block)
       case Err(e) => Err(e))
    case Equal => Ok(head + AlternativesBlock(OperatorValue(c.op), c.values))
    case Like => Ok(head + AlternativesBlock(OperatorValue(c.op), c.values))
    case GreaterThan => if c.values == [] then Err(OperandIndexError) else Ok(head + OperatorValue(c.op) + c.values[0])
    case LessThan => if c.values == [] then Err(OperandIndexError) else Ok(head + OperatorValue(c.op) + c.values[0])
    case NotEqual => if c.values == [] then Err(OperandIndexError) else Ok(head + OperatorValue(c.op) + c.values[0])
  }

  /** The segment of every constraint, in input order. */
  function SegmentResults(cs: seq<Constraint>): (rs: seq<Result<string, CompileError>>)
    ensures |rs| == |cs|
  {
    if cs == [] then [] else SegmentResults(cs[..|cs| - 1]) + [Segment(cs[|cs| - 1])]
  }

  /** Encoding results glued together left to right: the texts concatenated,
      or the first failure. */
  function Collect(rs: seq<Result<string, CompileError>>): Result<string, CompileError>
  {
    if rs == [] then Ok("") else Then(Collect(rs[..|rs| - 1]), rs[|rs| - 1])
  }

  /** `LinkConstraints`: the segments in input order, or the error of the first
      constraint that fails. */
  function Segments(cs: seq<Constraint>): Result<string, CompileError>
  {
    Collect(SegmentResults(cs))
  }

  /** Two encodings one after the other: the first failure, or both texts. */
  function Then(x: Result<string, CompileError>, y: Result<string, CompileError>): Result<string, CompileError>
  {
    match x
    case Err(_) => x
    case Ok(s) =>
      match y
      case Err(_) => y
      case Ok(t) => Ok(s + t)
  }

  lemma ThenAssociative(x: Result<string, CompileError>, y: Result<string, CompileError>, z: Result<string, CompileError>)
    ensures Then(Then(x, y), z) == Then(x, Then(y, z))
  {
    if x.Ok? && y.Ok? && z.Ok? {
      assert x.value + (y.value + z.value) == (x.value + y.value) + z.value;
    }
  }

  /** `LinkSortLimit`. */
  function SortLimit(orderBy: Field, ascSort: int, limit: Limit): string
  {
    "/orderby/" + FieldValue(orderBy) + " " + (if ascSort == 1 then "asc" else "desc")
    + (if limit.IntLimit? then "/limit/" + IntToString(limit.n) + "/format/json" else "")
  }

  /** `CompleteLink`: every request goes to the historical table, and the
      link exists exactly when every constraint could be encoded. */
  function Link(cs: seq<Constraint>, database: DatasetArg, orderBy: Field, ascSort: int, limit: Limit)
    : (r: Result<string, CompileError>)
    ensures r.Ok? <==> Segments(cs).Ok?
    ensures r.Err? ==> r == Err(Segments(cs).error)
    ensures r.Ok? ==> r.value == Urlbase + QueryClassPath + "gp_history"
                                 + Segments(cs).value + SortLimit(orderBy, ascSort, limit)
  {
    match Segments(cs)
    case Err(e) => Err(e)
    case Ok(s) =>
      var requestCmdAction := QueryClassPath + DatasetArgValue(ResolveDataset(database));
      Ok(Urlbase + requestCmdAction + s + SortLimit(orderBy, ascSort, limit))
  }

  /** The RANGE branch of the encoding loop: for each value at an even offset,
      `f"{val}--{NextValue},"` is appended, and the last character is cut off
      at the end; a value with nothing after its first occurrence raises. */
  method EncodeRange(values: seq<string>) returns (block: Result<string, CompileError>)
    ensures block == RangeBlock(values)
  {
    var value := "";
    var lows := EveryOther(values);
    for k := 0 to |lows|
      invariant forall j :: 0 <= j < k ==> HasUpperBound(values, lows[j])
      invariant value == Trailing(RangePairs(values, lows[..k]))
    {
      var val := lows[k];
      var next := Find(values, val) + 1;
      if next >= |values| {
        RangeStepFails(values, k);
        return Err(RangeIndexError);
      }
      RangeStep(values, lows, k);
      var pair := val + OperatorValue(Range) + values[next];
      value := value + pair + ",";
    }
    RangeDone(values, lows);
    block := Ok(DropLast(value));
  }

  /** A lower bound whose first occurrence is the last value makes the whole
      RANGE block fail. */
  lemma RangeStepFails(values: seq<string>, k: nat)
    requires k < |EveryOther(values)|
    requires Find(values, EveryOther(values)[k]) + 1 >= |values|
    ensures RangeBlock(values) == Err(RangeIndexError)
  {
    assert !HasUpperBound(values, EveryOther(values)[k]);
  }

  /** One more pair extends the accumulated text by that pair and a comma. */
  lemma RangeStep(values: seq<string>, lows: seq<string>, k: nat)
    requires k < |lows|
    requires forall j :: 0 <= j <= k ==> HasUpperBound(values, lows[j])
    ensures Trailing(RangePairs(values, lows[..k + 1]))
         == Trailing(RangePairs(values, lows[..k])) + RangePair(values, lows[k]) + ","
  {
    assert lows[..k + 1][..k] == lows[..k];
    TrailingSnoc(RangePairs(values, lows[..k]), RangePair(values, lows[k]));
  }

  /** When every lower bound had a partner, cutting the final comma gives the block. */
  lemma RangeDone(values: seq<string>, lows: seq<string>)
    requires lows == EveryOther(values)
    requires forall j :: 0 <= j < |lows| ==> HasUpperBound(values, lows[j])
    ensures forall v :: v == Trailing(RangePairs(values, lows[..|lows|])) ==> RangeBlock(values) == Ok(DropLast(v))
  {
    assert lows[..|lows|] == lows;
    DropLastTrailing(RangePairs(values, lows));
  }

  /** The EQUAL / LIKE branch of the encoding loop: `f"{symbol}{val.upper()},"`
      for every value, then the last character cut off. */
  method EncodeAlternatives(symbol: string, values: seq<string>) returns (block: string)
    ensures block == AlternativesBlock(symbol, values)
  {
    var value := "";
    for k := 0 to |values|
      invariant value == Trailing(Alternatives(symbol, values[..k]))
    {
      assert values[..k + 1][..k] == values[..k];
      var alternative := symbol + Upper(values[k]);
      TrailingSnoc(Alternatives(symbol, values[..k]), alternative);
      value := value + alternative + ",";
    }
    assert values[..|values|] == values;
    DropLastTrailing(Alternatives(symbol, values));
    block := DropLast(value);
  }

  /** One pass of the encoding loop: the segment `/{field}/{value block}`, where
      the single-value operators use the first value only. */
  method EncodeConstraint(c: Constraint) returns (segment: Result<string, CompileError>)
    ensures segment == Segment(c)
  {
    var head := "/" + FieldValue(c.field) + "/";
    if c.op == Range {
      var block := EncodeRange(c.values);
      if block.Err? {
        return Err(block.error);
      }
      segment := Ok(head + block.value);
    } else if c.op == Like || c.op == Equal {
      var block := EncodeAlternatives(OperatorValue(c.op), c.values);
      segment := Ok(head + block);
    } else {
      if |c.values| == 0 {
        return Err(OperandIndexError);
      }
      var value := c.values[0];
      segment := Ok(head + OperatorValue(c.op) + value);
    }
  }

  /** The sort and limit suffix: `/orderby/{field} asc|desc`, then
      `/limit/{n}/format/json` only for an `int` limit. */
  method EncodeSortLimit(orderBy: Field, ascSort: int, limit: Limit) returns (suffix: string)
    ensures suffix == SortLimit(orderBy, ascSort, limit)
  {
    suffix := "/orderby/" + FieldValue(orderBy) + " " + (if ascSort == 1 then "asc" else "desc");
    if limit.IntLimit? {
      suffix := suffix + "/limit/" + IntToString(limit.n) + "/format/json";
    }
  }

  /** The encoding loop: the segments appended in input order to
      `LinkConstraints`; the first failing constraint ends the call. */
  method EncodeConstraints(constraints: seq<Constraint>) returns (linkConstraints: Result<string, CompileError>)
    ensures linkConstraints == Segments(constraints)
  {
    var text := "";
    ghost var results := SegmentResults(constraints);
    for i := 0 to |constraints|
      invariant Collect(results[..i]) == Ok(text)
    {
      var segment := EncodeConstraint(constraints[i]);
      SegmentResultsAt(constraints, i);
      if segment.Err? {
        CollectStopAtFailure(results, i);
        return Err(segment.error);
      }
      CollectStep(results, i);
      text := text + segment.value;
    }
    assert results[..|constraints|] == results;
    linkConstraints := Ok(text);
  }

  /** Builds the request URL: the dataset is normalised, the constraints are
      encoded, then the sort and limit suffix follows. */
  method CompileLink(constraints: seq<Constraint>, database: DatasetArg, orderBy: Field, ascSort: int, limit: Limit)
    returns (link: Result<string, CompileError>)
    ensures link == Link(constraints, database, orderBy, ascSort, limit)
  {
    var db := database;
    if db != Table(LatestRecords) || db != Table(HistRecords) {
      db := Table(HistRecords);
    }
    var requestCmdAction := QueryClassPath + DatasetArgValue(db);
    var linkConstraints := EncodeConstraints(constraints);
    if linkConstraints.Err? {
      return Err(linkConstraints.error);
    }
    var linkSortLimit := EncodeSortLimit(orderBy, ascSort, limit);
    assert db == ResolveDataset(database);
    link := Ok(Urlbase + requestCmdAction + linkConstraints.value + linkSortLimit);
  }

  /** The i-th result is the segment of the i-th constraint. */
  lemma {:induction false} SegmentResultsAt(cs: seq<Constraint>, i: nat)
    requires i < |cs|
    ensures SegmentResults(cs)[i] == Segment(cs[i])
  {
    if i < |cs| - 1 {
      SegmentResultsAt(cs[..|cs| - 1], i);
    }
  }

  /** One more good result extends the collected text by its text. */
  lemma CollectStep(rs: seq<Result<string, CompileError>>, i: nat)
    requires i < |rs|
    requires Collect(rs[..i]).Ok? && rs[i].Ok?
    ensures Collect(rs[..i + 1]) == Ok(Collect(rs[..i]).value + rs[i].value)
  {
    assert rs[..i + 1][..i] == rs[..i];
  }

  /** Collecting a concatenation collects both parts, the first failure winning. */
  lemma {:induction false} CollectAppend(a: seq<Result<string, CompileError>>, b: seq<Result<string, CompileError>>)
    ensures Collect(a + b) == Then(Collect(a), Collect(b))
  {
    if b == [] {
      assert a + b == a;
      if Collect(a).Ok? {
        assert Collect(a).value + "" == Collect(a).value;
      }
    } else {
      var init := b[..|b| - 1];
      assert (a + b)[..|a + b| - 1] == a + init;
      assert (a + b)[|a + b| - 1] == b[|b| - 1];
      CollectAppend(a, init);
      ThenAssociative(Collect(a), Collect(init), b[|b| - 1]);
    }
  }

  /** A failure after a run of good results is the result of the whole. */
  lemma CollectStopAtFailure(rs: seq<Result<string, CompileError>>, i: nat)
    requires i < |rs|
    requires Collect(rs[..i]).Ok? && rs[i].Err?
    ensures Collect(rs) == rs[i]
  {
    assert rs[..i + 1][..i] == rs[..i];
    CollectAppend(rs[..i + 1], rs[i + 1..]);
    assert rs[..i + 1] + rs[i + 1..] == rs;
  }
}
