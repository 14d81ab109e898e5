/** The result serializers of the Bridge's reports: the validator of a computer's property list
    (`ComputerDataField`), the verdict and unknown summaries (`VerdictsSerializerRO`) and the
    merge of marks and reports (`DecisionResultsSerializerRO`). Query results are inputs. */
module Serializers {
  import opened Wrappers
  import opened Ordering

  // ---- ComputerDataField ----

  /** The Python values a request body can carry. `bool` is a subclass of `int` in Python, so
      both pass the property check; `OtherMapping` is a mapping that is not a `dict`. */
  datatype Value =
    | Null
    | Bool(b: bool)
    | Int(i: int)
    | Float(f: real)
    | Str(s: string)
    | List(items: seq<Value>)
    /** A `dict`, as its items in order; as in Python, no key occurs twice. */
    | Dict(entries: seq<(Value, Value)>)
    | OtherMapping(typeName: string, entries: seq<(Value, Value)>)

  /** `type(v).__name__`. */
  function TypeName(v: Value): string {
    match v
    case Null => "NoneType"
    case Bool(_) => "bool"
    case Int(_) => "int"
    case Float(_) => "float"
    case Str(_) => "str"
    case List(_) => "list"
    case Dict(_) => "dict"
    case OtherMapping(name, _) => name
  }

  const PropWrong: string := "Computer property has wrong format."

  function NotAListMessage(typeName: string): string {
    "Expected a list of items but got type \"" + typeName + "\"."
  }

  /** A validated property: `[key, value]`. */
  type Property = (Value, Value)

  /** The failures of the field: a value that is not a list, or the messages of the failing
      items keyed by their position. */
  datatype FieldError =
    | NotAList(message: string)
    | ItemErrors(errors: seq<(nat, seq<string>)>)

  /** `isinstance(v, (str, int))`. */
  predicate IsScalar(v: Value) {
    v.Str? || v.Int? || v.Bool?
  }

  /** `__validate_property`: a dictionary of exactly one entry whose value is a string or an
      integer becomes that entry; anything else fails with `prop_wrong`. */
  function ValidateProperty(prop: Value): (r: Result<Property, string>)
    ensures r.Ok? <==> prop.Dict? && |prop.entries| == 1 && IsScalar(prop.entries[0].1)
    ensures r.Ok? ==> r.value == prop.entries[0] && IsScalar(r.value.1)
    ensures r.Err? ==> r.error == PropWrong
  {
    if !prop.Dict? || |prop.entries| != 1 then Err(PropWrong)
    else
      var (key, value) := prop.entries[0];
      if !IsScalar(value) then Err(PropWrong) else Ok((key, value))
  }

  /** The positions, below `n` and ascending, of the items that fail validation. */
  function FailingIndices(data: seq<Value>, n: nat): (r: seq<nat>)
    requires n <= |data|
    ensures forall j :: j in r <==> 0 <= j < n && ValidateProperty(data[j]).Err?
    ensures forall a, b :: 0 <= a < b < |r| ==> r[a] < r[b]
  {
    if n == 0 then []
    else
      var prev := FailingIndices(data, n - 1);
      assert forall a :: 0 <= a < |prev| ==> prev[a] < n - 1 by {
        forall a | 0 <= a < |prev|
          ensures prev[a] < n - 1
        {
          assert prev[a] in prev;
        }
      }
      if ValidateProperty(data[n - 1]).Err? then prev + [n - 1] else prev
  }

  /** The validated pairs of the items below `n` that pass, in input order. */
  function ValidatedPrefix(data: seq<Value>, n: nat): seq<Property>
    requires n <= |data|
  {
    if n == 0 then []
    else
      var prev := ValidatedPrefix(data, n - 1);
      var v := ValidateProperty(data[n - 1]);
      if v.Ok? then prev + [v.value] else prev
  }

  /** With no failure below `n`, the validated pairs are exactly the first `n` items' entries. */
  lemma {:induction false} ValidatedPrefixAll(data: seq<Value>, n: nat)
    requires n <= |data|
    requires FailingIndices(data, n) == []
    ensures |ValidatedPrefix(data, n)| == n
    ensures forall j :: 0 <= j < n ==> ValidatedPrefix(data, n)[j] == data[j].entries[0]
  {
    if n > 0 {
      var prev := FailingIndices(data, n - 1);
      assert ValidateProperty(data[n - 1]).Ok? by {
        assert (n - 1) !in FailingIndices(data, n);
      }
      ValidatedPrefixAll(data, n - 1);
    }
  }

  /** The outcome of `run_child_validation` on `data`: every pair in order when no item fails,
      otherwise one `prop_wrong` message for each failing position, in ascending order. */
  ghost predicate ChildValidation(data: seq<Value>, r: Result<seq<Property>, FieldError>) {
    if forall i :: 0 <= i < |data| ==> ValidateProperty(data[i]).Ok? then
      r.Ok? && |r.value| == |data| && forall i :: 0 <= i < |data| ==> r.value[i] == data[i].entries[0]
    else
      r.Err? && r.error.ItemErrors?
      && (forall k :: 0 <= k < |r.error.errors| ==> r.error.errors[k].1 == [PropWrong])
      && (forall j :: (exists k :: 0 <= k < |r.error.errors| && r.error.errors[k].0 == j)
                        <==> 0 <= j < |data| && ValidateProperty(data[j]).Err?)
      && (forall a, b :: 0 <= a < b < |r.error.errors| ==> r.error.errors[a].0 < r.error.errors[b].0)
  }

  /** The errors listed for the failing positions, in order, are the errors the field
      reports. */
  lemma ErrorsOfFailing(data: seq<Value>, errors: seq<(nat, seq<string>)>)
    requires |errors| == |FailingIndices(data, |data|)| > 0
    requires forall k :: 0 <= k < |errors| ==> errors[k] == (FailingIndices(data, |data|)[k], [PropWrong])
    ensures ChildValidation(data, Err(ItemErrors(errors)))
  {
    var failing := FailingIndices(data, |data|);
    assert failing[0] in failing;
    assert ValidateProperty(data[failing[0]]).Err?;
    forall j
      ensures (exists k :: 0 <= k < |errors| && errors[k].0 == j) <==> 0 <= j < |data| && ValidateProperty(data[j]).Err?
    {
      if j in failing {
        var k :| 0 <= k < |failing| && failing[k] == j;
        assert errors[k].0 == j;
      }
    }
  }

  /** With no failing position every item passes and the pairs are the items' entries. */
  lemma NoFailures(data: seq<Value>)
    requires FailingIndices(data, |data|) == []
    ensures ChildValidation(data, Ok(ValidatedPrefix(data, |data|)))
  {
    ValidatedPrefixAll(data, |data|);
    forall i | 0 <= i < |data|
      ensures ValidateProperty(data[i]).Ok?
    {
      assert i !in FailingIndices(data, |data|);
    }
  }

  /** `run_child_validation`. */
  method RunChildValidation(data: seq<Value>) returns (r: Result<seq<Property>, FieldError>)
    ensures ChildValidation(data, r)
  {
    var result: seq<Property> := [];
    var errors: seq<(nat, seq<string>)> := [];
    ghost var failing: seq<nat> := [];
    for idx := 0 to |data|
      invariant result == ValidatedPrefix(data, idx)
      invariant failing == FailingIndices(data, idx)
      invariant |errors| == |failing|
      invariant forall k :: 0 <= k < |errors| ==> errors[k] == (failing[k], [PropWrong])
    {
      var v := ValidateProperty(data[idx]);
      if v.Ok? {
        result := result + [v.value];
      } else {
        errors := errors + [(idx, [v.error])];
        failing := failing + [idx];
      }
    }
    if errors == [] {
      NoFailures(data);
      return Ok(result);
    }
    ErrorsOfFailing(data, errors);
    return Err(ItemErrors(errors));
  }

  /** `to_internal_value`: anything but a list fails with `not_a_list` naming its type; a list
      is validated item by item. */
  method ToInternalValue(data: Value) returns (r: Result<seq<Property>, FieldError>)
    ensures !data.List? ==> r == Err(NotAList(NotAListMessage(TypeName(data))))
    ensures data.List? ==> ChildValidation(data.items, r)
  {
    if !data.List? {
      return Err(NotAList(NotAListMessage(TypeName(data))));
    }
    r := RunChildValidation(data.items);
  }

  // ---- VerdictsSerializerRO ----

  /** A leaf report with its cached verdict and the number of its confirmed marks. */
  datatype CachedReport = CachedReport(verdict: string, marksConfirmed: nat)

  /** One row of the verdict summary. */
  datatype VerdictRow = VerdictRow(verdict: string, total: nat, confirmed: nat)

  /** Whether `x` is counted: every report, or with `confirmedOnly` those with a confirmed mark. */
  predicate Counted(x: CachedReport, confirmedOnly: bool) {
    !confirmedOnly || x.marksConfirmed > 0
  }

  /** The number of counted reports with verdict `v`. */
  function CountOf(reports: seq<CachedReport>, v: string, confirmedOnly: bool): nat {
    if reports == [] then 0
    else
      var x := reports[|reports| - 1];
      CountOf(reports[..|reports| - 1], v, confirmedOnly) + (if x.verdict == v && Counted(x, confirmedOnly) then 1 else 0)
  }

  /** The number of counted reports. */
  function CountAll(reports: seq<CachedReport>, confirmedOnly: bool): (r: nat)
    ensures !confirmedOnly ==> r == |reports|
  {
    if reports == [] then 0
    else CountAll(reports[..|reports| - 1], confirmedOnly) + (if Counted(reports[|reports| - 1], confirmedOnly) then 1 else 0)
  }

  function VerdictsOf(reports: seq<CachedReport>): (r: set<string>)
    ensures forall v :: v in r <==> exists i :: 0 <= i < |reports| && reports[i].verdict == v
  {
    set i | 0 <= i < |reports| :: reports[i].verdict
  }

  /** The query's rows: one per verdict of `vs`, with its count and its confirmed count. */
  function GroupRows(reports: seq<CachedReport>, vs: seq<string>): (r: seq<VerdictRow>)
    ensures |r| == |vs|
    ensures forall i :: 0 <= i < |vs| ==> r[i] == VerdictRow(vs[i], CountOf(reports, vs[i], false), CountOf(reports, vs[i], true))
  {
    seq(|vs|, i requires 0 <= i < |vs| => VerdictRow(vs[i], CountOf(reports, vs[i], false), CountOf(reports, vs[i], true)))
  }

  function SumTotals(rows: seq<VerdictRow>): nat {
    if rows == [] then 0 else rows[0].total + SumTotals(rows[1..])
  }

  function SumConfirmed(rows: seq<VerdictRow>): nat {
    if rows == [] then 0 else rows[0].confirmed + SumConfirmed(rows[1..])
  }

  /** The verdict rows of `reports`: one row per verdict that occurs, in strictly ascending
      verdict order, each holding the number of reports with that verdict and the number of
      them with a confirmed mark. */
  ghost predicate VerdictRowsOf(reports: seq<CachedReport>, rows: seq<VerdictRow>) {
    && |rows| == |VerdictsOf(reports)|
    && (forall i, j :: 0 <= i < j < |rows| ==> StrLe(rows[i].verdict, rows[j].verdict) && rows[i].verdict != rows[j].verdict)
    && (forall i :: 0 <= i < |rows| ==> rows[i].verdict in VerdictsOf(reports) && rows[i].total > 0)
    && (forall v :: v in VerdictsOf(reports) ==> exists i :: 0 <= i < |rows| && rows[i].verdict == v)
    && (forall i :: 0 <= i < |rows| ==>
          rows[i].total == CountOf(reports, rows[i].verdict, false)
          && rows[i].confirmed == CountOf(reports, rows[i].verdict, true))
  }

  /** `__verdicts_data`: the rows in ascending verdict order, then a "total" row of their sums. */
  function VerdictsData(reports: seq<CachedReport>): (r: seq<VerdictRow>)
    ensures |r| >= 1 && VerdictRowsOf(reports, r[..|r| - 1])
    ensures r[|r| - 1] == VerdictRow("total", |reports|, CountAll(reports, true))
  {
    var rows := GroupRows(reports, SortStrings(VerdictsOf(reports)));
    VerdictRowsFacts(reports);
    var r := rows + [VerdictRow("total", SumTotals(rows), SumConfirmed(rows))];
    assert r[..|r| - 1] == rows;
    r
  }

  /** What the query rows of `__verdicts_data` hold: the verdict rows of the reports, adding
      up to every report and every confirmed report. */
  lemma VerdictRowsFacts(reports: seq<CachedReport>)
    ensures var rows := GroupRows(reports, SortStrings(VerdictsOf(reports)));
            && VerdictRowsOf(reports, rows)
            && SumTotals(rows) == |reports| && SumConfirmed(rows) == CountAll(reports, true)
  {
    var vs := SortStrings(VerdictsOf(reports));
    GroupRowsOf(reports, vs);
    SumsOfRows(reports, vs);
    SumCountsAll(reports, vs, false);
    SumCountsAll(reports, vs, true);
  }

  /** The group rows of the occurring verdicts in strictly ascending order are the verdict rows. */
  lemma GroupRowsOf(reports: seq<CachedReport>, vs: seq<string>)
    requires |vs| == |VerdictsOf(reports)|
    requires forall v :: v in vs <==> v in VerdictsOf(reports)
    requires forall i, j :: 0 <= i < j < |vs| ==> StrLe(vs[i], vs[j]) && vs[i] != vs[j]
    ensures VerdictRowsOf(reports, GroupRows(reports, vs))
  {
    GroupRowsCover(reports, vs);
  }

  /** The group rows of the verdicts that occur, each once, have positive counts and leave
      out no verdict. */
  lemma GroupRowsCover(reports: seq<CachedReport>, vs: seq<string>)
    requires forall v :: v in vs <==> v in VerdictsOf(reports)
    ensures forall i :: 0 <= i < |vs| ==> GroupRows(reports, vs)[i].total > 0
    ensures forall v :: v in VerdictsOf(reports) ==> exists i :: 0 <= i < |vs| && GroupRows(reports, vs)[i].verdict == v
  {
    var rows := GroupRows(reports, vs);
    forall i | 0 <= i < |rows|
      ensures rows[i].total > 0
    {
      assert vs[i] in VerdictsOf(reports);
      CountOfPositive(reports, vs[i]);
    }
    forall v | v in VerdictsOf(reports)
      ensures exists i :: 0 <= i < |rows| && rows[i].verdict == v
    {
      var i :| 0 <= i < |vs| && vs[i] == v;
      assert rows[i].verdict == v;
    }
  }

  /** A verdict that occurs has a positive count. */
  lemma {:induction false} CountOfPositive(reports: seq<CachedReport>, v: string)
    requires v in VerdictsOf(reports)
    ensures CountOf(reports, v, false) > 0
  {
    var last := reports[|reports| - 1];
    if last.verdict != v {
      var i :| 0 <= i < |reports| && reports[i].verdict == v;
      assert reports[..|reports| - 1][i] == reports[i];
      CountOfPositive(reports[..|reports| - 1], v);
    }
  }

  /** The counts of the verdicts of `vs`, added up. */
  function SumCounts(reports: seq<CachedReport>, vs: seq<string>, confirmedOnly: bool): nat {
    if vs == [] then 0 else CountOf(reports, vs[0], confirmedOnly) + SumCounts(reports, vs[1..], confirmedOnly)
  }

  /** How many times `w` occurs in `vs`. */
  function Hits(vs: seq<string>, w: string): nat {
    if vs == [] then 0 else (if vs[0] == w then 1 else 0) + Hits(vs[1..], w)
  }

  /** The sums of the group rows are sums of the counts. */
  lemma {:induction false} SumsOfRows(reports: seq<CachedReport>, vs: seq<string>)
    ensures SumTotals(GroupRows(reports, vs)) == SumCounts(reports, vs, false)
    ensures SumConfirmed(GroupRows(reports, vs)) == SumCounts(reports, vs, true)
  {
    if vs != [] {
      SumsOfRows(reports, vs[1..]);
      assert GroupRows(reports, vs)[1..] == GroupRows(reports, vs[1..]);
    }
  }

  /** Adding a report adds one to the sum when its verdict is listed once and it is counted. */
  lemma {:induction false} SumCountsSnoc(p: seq<CachedReport>, x: CachedReport, vs: seq<string>, confirmedOnly: bool)
    ensures SumCounts(p + [x], vs, confirmedOnly)
            == SumCounts(p, vs, confirmedOnly) + (if Counted(x, confirmedOnly) then Hits(vs, x.verdict) else 0)
  {
    if vs != [] {
      SumCountsSnoc(p, x, vs[1..], confirmedOnly);
      assert (p + [x])[..|p + [x]| - 1] == p;
    }
  }

  /** A verdict listed once in a list without repetition is hit once. */
  lemma {:induction false} HitsOnce(vs: seq<string>, w: string)
    requires forall i, j :: 0 <= i < j < |vs| ==> vs[i] != vs[j]
    requires w in vs
    ensures Hits(vs, w) == 1
  {
    if vs[0] == w {
      HitsNone(vs[1..], w);
    } else {
      HitsOnce(vs[1..], w);
    }
  }

  lemma {:induction false} HitsNone(vs: seq<string>, w: string)
    requires w !in vs
    ensures Hits(vs, w) == 0
  {
    if vs != [] {
      HitsNone(vs[1..], w);
    }
  }

  /** Summed over all verdicts, each once, the counts make up every counted report: the
      "total" row counts every report and every report with a confirmed mark. */
  lemma {:induction false} SumCountsAll(reports: seq<CachedReport>, vs: seq<string>, confirmedOnly: bool)
    requires forall i, j :: 0 <= i < j < |vs| ==> vs[i] != vs[j]
    requires forall i :: 0 <= i < |reports| ==> reports[i].verdict in vs
    ensures SumCounts(reports, vs, confirmedOnly) == CountAll(reports, confirmedOnly)
  {
    if reports == [] {
      SumCountsEmpty(vs, confirmedOnly);
    } else {
      var p := reports[..|reports| - 1];
      var x := reports[|reports| - 1];
      assert reports == p + [x];
      SumCountsAll(p, vs, confirmedOnly);
      SumCountsSnoc(p, x, vs, confirmedOnly);
      HitsOnce(vs, x.verdict);
    }
  }

  lemma {:induction false} SumCountsEmpty(vs: seq<string>, confirmedOnly: bool)
    ensures SumCounts([], vs, confirmedOnly) == 0
  {
    if vs != [] {
      SumCountsEmpty(vs[1..], confirmedOnly);
    }
  }

  // ---- VerdictsSerializerRO.get_unknowns ----

  /** A row of the unknowns query: component, problem of a mark association (`None` when the
      report has none), number of reports and whether the association is unconfirmed. */
  datatype UnknownRow = UnknownRow(component: string, problem: Option<string>, number: nat, unconfirmed: bool)

  /** One row of the unknown summary. */
  datatype UnknownsEntry = UnknownsEntry(component: string, problem: string, number: nat)

  const WithoutMarks: string := "Without marks"
  const TotalProblem: string := "Total"

  /** The key a row is counted under: its problem, or "Without marks" when it has none or the
      association is unconfirmed. */
  function DataKey(row: UnknownRow): (string, string) {
    (row.component, if row.problem.None? || row.unconfirmed then WithoutMarks else row.problem.value)
  }

  /** The dictionary the loop builds over `rows`. */
  function Grouped(rows: seq<UnknownRow>): map<(string, string), nat> {
    if rows == [] then map[]
    else
      var prev := Grouped(rows[..|rows| - 1]);
      var k := DataKey(rows[|rows| - 1]);
      prev[k := (if k in prev then prev[k] else 0) + rows[|rows| - 1].number]
  }

  /** The numbers of all rows counted under `k`, added up. */
  function SumFor(rows: seq<UnknownRow>, k: (string, string)): nat {
    if rows == [] then 0
    else SumFor(rows[..|rows| - 1], k) + (if DataKey(rows[|rows| - 1]) == k then rows[|rows| - 1].number else 0)
  }

  /** The dictionary holds the keys of the rows, each with the sum of its rows' numbers. */
  lemma {:induction false} GroupedSums(rows: seq<UnknownRow>)
    ensures forall k :: k in Grouped(rows) <==> exists i :: 0 <= i < |rows| && DataKey(rows[i]) == k
    ensures forall k :: k in Grouped(rows) ==> Grouped(rows)[k] == SumFor(rows, k)
  {
    if rows != [] {
      var p := rows[..|rows| - 1];
      GroupedSums(p);
      forall k | k in Grouped(p) || DataKey(rows[|rows| - 1]) == k
        ensures exists i :: 0 <= i < |rows| && DataKey(rows[i]) == k
      {
        if k in Grouped(p) {
          var i :| 0 <= i < |p| && DataKey(p[i]) == k;
          assert DataKey(rows[i]) == k;
        } else {
          assert DataKey(rows[|rows| - 1]) == k;
        }
      }
      forall k | exists i :: 0 <= i < |rows| && DataKey(rows[i]) == k
        ensures k in Grouped(rows)
      {
        var i :| 0 <= i < |rows| && DataKey(rows[i]) == k;
        if i < |p| {
          assert DataKey(p[i]) == k;
        }
      }
      forall k | k in Grouped(rows)
        ensures Grouped(rows)[k] == SumFor(rows, k)
      {
        if k !in Grouped(p) {
          SumForAbsent(p, k);
        }
      }
    }
  }

  lemma {:induction false} SumForAbsent(rows: seq<UnknownRow>, k: (string, string))
    requires forall i :: 0 <= i < |rows| ==> DataKey(rows[i]) != k
    ensures SumFor(rows, k) == 0
  {
    if rows != [] {
      SumForAbsent(rows[..|rows| - 1], k);
    }
  }

  /** The `setdefault` loop of `get_unknowns`. */
  method GroupUnknowns(rows: seq<UnknownRow>) returns (counts: map<(string, string), nat>)
    ensures counts == Grouped(rows)
  {
    counts := map[];
    for i := 0 to |rows|
      invariant counts == Grouped(rows[..i])
    {
      assert rows[..i + 1][..i] == rows[..i];
      var key := DataKey(rows[i]);
      if key !in counts {
        counts := counts[key := 0];
      }
      counts := counts[key := counts[key] + rows[i].number];
    }
    assert rows[..|rows|] == rows;
  }

  /** The first list of `get_unknowns`: one entry per (component, problem) key, in ascending
      key order, each with the number of reports counted under it. */
  function KeyEntries(counts: map<(string, string), nat>): (r: seq<UnknownsEntry>)
    ensures var keys := SortPairs(counts.Keys);
            |r| == |keys| && forall i :: 0 <= i < |r| ==> r[i] == UnknownsEntry(keys[i].0, keys[i].1, counts[keys[i]])
  {
    var keys := SortPairs(counts.Keys);
    seq(|keys|, i requires 0 <= i < |keys| => UnknownsEntry(keys[i].0, keys[i].1, counts[keys[i]]))
  }

  /** The second list: a "Total" entry per component, in the query's order. */
  function TotalEntries(totals: seq<(string, nat)>): (r: seq<UnknownsEntry>)
    ensures |r| == |totals| && forall i :: 0 <= i < |r| ==> r[i] == UnknownsEntry(totals[i].0, TotalProblem, totals[i].1)
  {
    seq(|totals|, i requires 0 <= i < |totals| => UnknownsEntry(totals[i].0, TotalProblem, totals[i].1))
  }

  /** The grouped entries come in strictly ascending (component, problem) order, each key is
      the key of some row and its number is the sum of those rows' numbers. */
  lemma KeyEntriesOfRows(rows: seq<UnknownRow>)
    ensures var r := KeyEntries(Grouped(rows));
            && |r| == |Grouped(rows)|
            && (forall i, j :: 0 <= i < j < |r| ==>
                  PairLe((r[i].component, r[i].problem), (r[j].component, r[j].problem))
                  && (r[i].component, r[i].problem) != (r[j].component, r[j].problem))
            && (forall i :: 0 <= i < |r| ==>
                  (exists n :: 0 <= n < |rows| && DataKey(rows[n]) == (r[i].component, r[i].problem))
                  && r[i].number == SumFor(rows, (r[i].component, r[i].problem)))
  {
    GroupedSums(rows);
    var keys := SortPairs(Grouped(rows).Keys);
    var r := KeyEntries(Grouped(rows));
    forall i | 0 <= i < |r|
      ensures (r[i].component, r[i].problem) == keys[i] && keys[i] in Grouped(rows)
    {
      assert keys[i] in keys;
    }
  }

  /** `get_unknowns`: the grouped entries, then the per-component totals. */
  method GetUnknowns(rows: seq<UnknownRow>, totals: seq<(string, nat)>) returns (r: seq<UnknownsEntry>)
    ensures |r| == |Grouped(rows)| + |totals|
    ensures r[..|Grouped(rows)|] == KeyEntries(Grouped(rows))
    ensures r[|Grouped(rows)|..] == TotalEntries(totals)
  {
    var counts := GroupUnknowns(rows);
    var unknownsList := KeyEntries(counts);
    r := unknownsList + TotalEntries(totals);
    assert r[..|unknownsList|] == unknownsList;
    assert r[|unknownsList|..] == TotalEntries(totals);
  }

  // ---- DecisionResultsSerializerRO.get_safes / get_unsafes / get_unknowns ----

  /** A report attribute, `[name, value]`. */
  type Attr = (string, string)

  /** What is stored for a mark: the fields `get_safes`, `get_unsafes` or `get_unknowns` copy. */
  datatype MarkInfo =
    | SafeMarkInfo(verdict: string, tags: seq<string>)
    | UnsafeMarkInfo(verdict: string, status: string, tags: seq<string>)
    | UnknownMarkInfo(component: string, functionName: string, isRegexp: bool, problemPattern: string)

  /** An association of a mark with a report: the report, the mark's identifier, the mark's
      fields and the association's result (used for unsafes only). */
  datatype MarkRow = MarkRow(reportId: nat, mark: string, info: MarkInfo, result: string)

  /** The marks of a report: a list of identifiers (safes, unknowns) or a dictionary from
      identifier to association result (unsafes). */
  datatype ReportMarks = MarkList(ids: seq<string>) | MarkResults(results: map<string, string>)

  datatype ReportEntry = ReportEntry(attrs: seq<Attr>, marks: ReportMarks)

  /** A mark of the output: its fields and the description of its current version, if any. */
  datatype MarkEntry = MarkEntry(info: MarkInfo, description: Option<string>)

  datatype ReportKind = SafeReports | UnsafeReports | UnknownReports

  function EmptyMarks(kind: ReportKind): ReportMarks {
    if kind == UnsafeReports then MarkResults(map[]) else MarkList([])
  }

  /** Record the association `row` in a report's marks: appended to a list, or stored under
      the mark's identifier. */
  function AddMark(m: ReportMarks, row: MarkRow): ReportMarks {
    match m
    case MarkList(ids) => MarkList(ids + [row.mark])
    case MarkResults(results) => MarkResults(results[row.mark := row.result])
  }

  /** `self._attrs.get(id, [])`. */
  function AttrsOf(attrs: map<nat, seq<Attr>>, id: nat): seq<Attr> {
    if id in attrs then attrs[id] else []
  }

  /** The report dictionary after the association loop over `rows`. */
  function ReportsOf(kind: ReportKind, rows: seq<MarkRow>, attrs: map<nat, seq<Attr>>): map<nat, ReportEntry> {
    if rows == [] then map[]
    else
      var prev := ReportsOf(kind, rows[..|rows| - 1], attrs);
      var row := rows[|rows| - 1];
      if row.reportId in prev then
        prev[row.reportId := prev[row.reportId].(marks := AddMark(prev[row.reportId].marks, row))]
      else
        prev[row.reportId := ReportEntry(AttrsOf(attrs, row.reportId), AddMark(EmptyMarks(kind), row))]
  }

  /** The mark dictionary after the association loop: each identifier with the fields of the
      first association naming it. */
  function MarksOf(rows: seq<MarkRow>): map<string, MarkInfo> {
    if rows == [] then map[]
    else
      var prev := MarksOf(rows[..|rows| - 1]);
      var row := rows[|rows| - 1];
      if row.mark in prev then prev else prev[row.mark := row.info]
  }

  /** The reports without marks added: safes and unsafes overwrite an entry already present,
      unknowns only add the reports not yet listed. */
  function WithUnmarked(kind: ReportKind, reports: map<nat, ReportEntry>, ids: seq<nat>, attrs: map<nat, seq<Attr>>)
    : map<nat, ReportEntry>
  {
    if ids == [] then reports
    else
      var prev := WithUnmarked(kind, reports, ids[..|ids| - 1], attrs);
      var id := ids[|ids| - 1];
      if kind == UnknownReports && id in prev then prev
      else prev[id := ReportEntry(AttrsOf(attrs, id), EmptyMarks(kind))]
  }

  /** The marks with the descriptions of their current versions. */
  function Described(marks: map<string, MarkInfo>, latest: map<string, string>): (r: map<string, MarkEntry>)
    ensures r.Keys == marks.Keys
    ensures forall k :: k in r ==> r[k].info == marks[k] && (r[k].description.Some? <==> k in latest)
    ensures forall k :: k in r && k in latest ==> r[k].description == Some(latest[k])
  {
    map k | k in marks :: MarkEntry(marks[k], if k in latest then Some(latest[k]) else None)
  }

  /** `list(reports[r_id] for r_id in sorted(reports))`. */
  function InIdOrder(reports: map<nat, ReportEntry>): (r: seq<ReportEntry>)
    ensures var ids := SortNats(reports.Keys);
            |r| == |reports| && forall i :: 0 <= i < |r| ==> r[i] == reports[ids[i]]
  {
    var ids := SortNats(reports.Keys);
    seq(|ids|, i requires 0 <= i < |ids| => reports[ids[i]])
  }

  /** One turn of the association loop. */
  method AddAssociation(kind: ReportKind, row: MarkRow, attrs: map<nat, seq<Attr>>,
                        reports: map<nat, ReportEntry>, marks: map<string, MarkInfo>,
                        ghost done: seq<MarkRow>)
    returns (reports': map<nat, ReportEntry>, marks': map<string, MarkInfo>)
    requires reports == ReportsOf(kind, done, attrs) && marks == MarksOf(done)
    ensures reports' == ReportsOf(kind, done + [row], attrs) && marks' == MarksOf(done + [row])
  {
    assert (done + [row])[..|done|] == done;
    reports' := reports;
    if row.reportId !in reports' {
      reports' := reports'[row.reportId := ReportEntry(AttrsOf(attrs, row.reportId), AddMark(EmptyMarks(kind), row))];
    } else {
      reports' := reports'[row.reportId := reports'[row.reportId].(marks := AddMark(reports'[row.reportId].marks, row))];
    }
    marks' := marks;
    if row.mark !in marks' {
      marks' := marks'[row.mark := row.info];
    }
  }

  /** The association loop of `get_safes`, `get_unsafes` and `get_unknowns`. */
  method CollectAssociations(kind: ReportKind, rows: seq<MarkRow>, attrs: map<nat, seq<Attr>>)
    returns (table: map<nat, ReportEntry>, infos: map<string, MarkInfo>)
    ensures table == ReportsOf(kind, rows, attrs) && infos == MarksOf(rows)
  {
    infos := map[];
    table := map[];
    for i := 0 to |rows|
      invariant table == ReportsOf(kind, rows[..i], attrs) && infos == MarksOf(rows[..i])
    {
      assert rows[..i + 1] == rows[..i] + [rows[i]];
      table, infos := AddAssociation(kind, rows[i], attrs, table, infos, rows[..i]);
    }
    assert rows[..|rows|] == rows;
  }

  /** The loop over the reports without marks. */
  method AddUnmarked(kind: ReportKind, table: map<nat, ReportEntry>, unmarked: seq<nat>, attrs: map<nat, seq<Attr>>)
    returns (table': map<nat, ReportEntry>)
    ensures table' == WithUnmarked(kind, table, unmarked, attrs)
  {
    table' := table;
    for j := 0 to |unmarked|
      invariant table' == WithUnmarked(kind, table, unmarked[..j], attrs)
    {
      assert unmarked[..j + 1][..j] == unmarked[..j];
      var id := unmarked[j];
      if kind != UnknownReports || id !in table' {
        table' := table'[id := ReportEntry(AttrsOf(attrs, id), EmptyMarks(kind))];
      }
    }
    assert unmarked[..|unmarked|] == unmarked;
  }

  /** The body shared by `get_safes`, `get_unsafes` and `get_unknowns`: the association loop,
      the descriptions, the reports without marks, and the reports in ascending id order.
      `latest` gives the description of each mark's current version; `unmarked` lists the
      reports the last query returns. */
  method MergeResults(kind: ReportKind, rows: seq<MarkRow>, attrs: map<nat, seq<Attr>>,
                      latest: map<string, string>, unmarked: seq<nat>)
    returns (marks: map<string, MarkEntry>, reports: seq<ReportEntry>)
    ensures marks == Described(MarksOf(rows), latest)
    ensures reports == InIdOrder(WithUnmarked(kind, ReportsOf(kind, rows, attrs), unmarked, attrs))
  {
    var table, infos := CollectAssociations(kind, rows, attrs);
    marks := Described(infos, latest);
    table := AddUnmarked(kind, table, unmarked, attrs);
    reports := InIdOrder(table);
  }

  // ---- what the merge promises ----

  /** Each mark identifier is recorded once, with the fields of its first association. */
  lemma {:induction false} MarksOfFirstOccurrence(rows: seq<MarkRow>, k: string)
    ensures k in MarksOf(rows) <==> exists i :: 0 <= i < |rows| && rows[i].mark == k
    ensures k in MarksOf(rows) ==>
              exists i :: 0 <= i < |rows| && rows[i].mark == k && MarksOf(rows)[k] == rows[i].info
                          && forall j :: 0 <= j < i ==> rows[j].mark != k
  {
    if rows != [] {
      var p := rows[..|rows| - 1];
      MarksOfFirstOccurrence(p, k);
      if k in MarksOf(p) {
        var i :| 0 <= i < |p| && p[i].mark == k && MarksOf(p)[k] == p[i].info && forall j :: 0 <= j < i ==> p[j].mark != k;
        assert rows[i] == p[i];
      } else if rows[|rows| - 1].mark == k {
        assert forall j :: 0 <= j < |p| ==> rows[j] == p[j];
      } else {
        assert forall i :: 0 <= i < |p| ==> p[i] == rows[i];
      }
    }
  }

  /** The identifiers of the associations of report `id`, in order. */
  function IdsFor(rows: seq<MarkRow>, id: nat): seq<string> {
    if rows == [] then []
    else IdsFor(rows[..|rows| - 1], id) + (if rows[|rows| - 1].reportId == id then [rows[|rows| - 1].mark] else [])
  }

  /** The results of the associations of report `id` by mark identifier, a later association
      replacing an earlier one. */
  function ResultsFor(rows: seq<MarkRow>, id: nat): map<string, string> {
    if rows == [] then map[]
    else
      var prev := ResultsFor(rows[..|rows| - 1], id);
      var row := rows[|rows| - 1];
      if row.reportId == id then prev[row.mark := row.result] else prev
  }

  /** The association loop lists exactly the reports of the rows, with their attributes; for
      safes and unknowns each report's marks are the identifiers of its associations in order,
      repeats included; for unsafes they are the results by mark. */
  lemma {:induction false} ReportsOfEntries(kind: ReportKind, rows: seq<MarkRow>, attrs: map<nat, seq<Attr>>, id: nat)
    ensures id in ReportsOf(kind, rows, attrs) <==> exists i :: 0 <= i < |rows| && rows[i].reportId == id
    ensures id in ReportsOf(kind, rows, attrs) ==>
              ReportsOf(kind, rows, attrs)[id].attrs == AttrsOf(attrs, id)
              && (kind != UnsafeReports ==> ReportsOf(kind, rows, attrs)[id].marks == MarkList(IdsFor(rows, id)))
              && (kind == UnsafeReports ==> ReportsOf(kind, rows, attrs)[id].marks == MarkResults(ResultsFor(rows, id)))
  {
    if rows != [] {
      var p := rows[..|rows| - 1];
      ReportsOfEntries(kind, p, attrs, id);
      if id in ReportsOf(kind, p, attrs) {
        var i :| 0 <= i < |p| && p[i].reportId == id;
        assert rows[i] == p[i];
      } else if rows[|rows| - 1].reportId != id {
        assert forall i :: 0 <= i < |p| ==> p[i] == rows[i];
      } else {
        IdsForAbsent(p, id);
        ResultsForAbsent(p, id);
      }
    }
  }

  lemma {:induction false} IdsForAbsent(rows: seq<MarkRow>, id: nat)
    requires forall i :: 0 <= i < |rows| ==> rows[i].reportId != id
    ensures IdsFor(rows, id) == []
  {
    if rows != [] {
      IdsForAbsent(rows[..|rows| - 1], id);
    }
  }

  lemma {:induction false} ResultsForAbsent(rows: seq<MarkRow>, id: nat)
    requires forall i :: 0 <= i < |rows| ==> rows[i].reportId != id
    ensures ResultsFor(rows, id) == map[]
  {
    if rows != [] {
      ResultsForAbsent(rows[..|rows| - 1], id);
    }
  }

  /** A mark is in the results of report `id` exactly when an association of that report names
      it, and its result is that of the last such association. */
  lemma {:induction false} ResultsForLast(rows: seq<MarkRow>, id: nat, k: string)
    ensures k in ResultsFor(rows, id) <==> exists i :: 0 <= i < |rows| && rows[i].reportId == id && rows[i].mark == k
    ensures k in ResultsFor(rows, id) ==>
              exists i :: 0 <= i < |rows| && rows[i].reportId == id && rows[i].mark == k && ResultsFor(rows, id)[k] == rows[i].result
                          && forall j :: i < j < |rows| ==> !(rows[j].reportId == id && rows[j].mark == k)
  {
    if rows != [] {
      var p := rows[..|rows| - 1];
      var last := rows[|rows| - 1];
      ResultsForLast(p, id, k);
      assert forall i :: 0 <= i < |p| ==> p[i] == rows[i];
      if !(last.reportId == id && last.mark == k) && k in ResultsFor(p, id) {
        var i :| 0 <= i < |p| && p[i].reportId == id && p[i].mark == k && ResultsFor(p, id)[k] == p[i].result
                 && forall j :: i < j < |p| ==> !(p[j].reportId == id && p[j].mark == k);
        assert rows[i] == p[i];
      }
    }
  }

  /** For unsafes each report maps the identifiers of its associations to the result of the
      last association naming that mark. */
  lemma UnsafeResultsLast(rows: seq<MarkRow>, attrs: map<nat, seq<Attr>>, id: nat, k: string)
    requires id in ReportsOf(UnsafeReports, rows, attrs)
    ensures var m := ReportsOf(UnsafeReports, rows, attrs)[id].marks;
            m.MarkResults?
            && (k in m.results <==> exists i :: 0 <= i < |rows| && rows[i].reportId == id && rows[i].mark == k)
            && (k in m.results ==>
                  exists i :: 0 <= i < |rows| && rows[i].reportId == id && rows[i].mark == k && m.results[k] == rows[i].result
                              && forall j :: i < j < |rows| ==> !(rows[j].reportId == id && rows[j].mark == k))
  {
    ReportsOfEntries(UnsafeReports, rows, attrs, id);
    ResultsForLast(rows, id, k);
  }

  /** The reports without marks: every one of them is listed; for safes and unsafes it is
      listed with no marks even when associations named it, for unknowns a report that
      associations named keeps its marks; no other entry changes. */
  lemma {:induction false} UnmarkedEntries(kind: ReportKind, reports: map<nat, ReportEntry>, ids: seq<nat>,
                                           attrs: map<nat, seq<Attr>>, id: nat)
    ensures id in WithUnmarked(kind, reports, ids, attrs) <==> id in reports || id in ids
    ensures id in ids && (kind != UnknownReports || id !in reports) ==>
              WithUnmarked(kind, reports, ids, attrs)[id] == ReportEntry(AttrsOf(attrs, id), EmptyMarks(kind))
    ensures id in reports && (kind == UnknownReports || id !in ids) ==>
              WithUnmarked(kind, reports, ids, attrs)[id] == reports[id]
  {
    if ids != [] {
      var p := ids[..|ids| - 1];
      UnmarkedEntries(kind, reports, p, attrs, id);
      assert ids == p + [ids[|ids| - 1]];
      if id in ids && id != ids[|ids| - 1] {
        assert id in p;
      }
    }
  }
}
