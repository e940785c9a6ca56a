/**
 Whether whole reads of a metric-history window report every row for a target of the type it was requested for.
 */
module MetricAttribution {
  import opened Foundation
  import opened MetricHistory

  /** For every row of a read, in order, the value type of the request that returned it. */
  function Origins(targets: seq<Target>, types: seq<nat>, reader: Reader): seq<nat>
    decreases |types|
  {
    if types == [] then []
    else
      var group := OfType(targets, types[0]);
      var rest := Origins(targets, types[1..], reader);
      if group == [] || reader(types[0], Refs(group)).Raised? then rest
      else seq(|reader(types[0], Refs(group)).rows|, _ => types[0]) + rest
  }

  /** The request for this type was made, and this row is in its answer. */
  predicate ReturnedBy(targets: seq<Target>, reader: Reader, t: nat, row: Row) {
    var answer := reader(t, Refs(OfType(targets, t)));
    answer.Rows? && row in answer.rows && row.itemId in Refs(OfType(targets, t))
  }

  ghost predicate OriginsFit(targets: seq<Target>, reader: Reader, rows: seq<Row>, origins: seq<nat>) {
    && |origins| == |rows|
    && forall k | 0 <= k < |rows| :: ReturnedBy(targets, reader, origins[k], rows[k])
  }

  lemma {:induction false} OriginsExact(targets: seq<Target>, types: seq<nat>, reader: Reader)
    requires ReadAll(targets, types, reader).Good?
    ensures OriginsFit(targets, reader, ReadAll(targets, types, reader).value, Origins(targets, types, reader))
    decreases |types|
  {
    if types != [] {
      var t, group := types[0], OfType(targets, types[0]);
      OriginsExact(targets, types[1..], reader);
      if group != [] {
        var rows := Checked(reader(t, Refs(group)), group).value;
        OneMoreGroup(targets, reader, t, rows, ReadAll(targets, types[1..], reader).value,
                     Origins(targets, types[1..], reader));
      }
    }
  }

  lemma OneMoreGroup(
    targets: seq<Target>, reader: Reader, t: nat, rows: seq<Row>, rest: seq<Row>, origins: seq<nat>)
    requires OriginsFit(targets, reader, rest, origins)
    requires forall k | 0 <= k < |rows| :: ReturnedBy(targets, reader, t, rows[k])
    ensures OriginsFit(targets, reader, rows + rest, seq(|rows|, _ => t) + origins)
  {
    var all := seq(|rows|, _ => t) + origins;
    forall k | 0 <= k < |rows + rest| ensures ReturnedBy(targets, reader, all[k], (rows + rest)[k]) {
      if k >= |rows| {
        assert (rows + rest)[k] == rest[k - |rows|] && all[k] == origins[k - |rows|];
      }
    }
  }

  /** The read succeeds, and its k-th observation reports the k-th row for a target of the given type. */
  ghost predicate ReportsForType(
    targets: seq<Target>, r: HistoryResult, rows: seq<Row>, k: nat, t: nat, parse: Parser)
  {
    && r.failure.None? && k < |r.observations| == |rows|
    && exists i | 0 <= i < |targets| ::
         && targets[i].valueType == t && targets[i].externalRef == rows[k].itemId
         && Reports(r.observations[k], rows[k], targets[i], parse)
         && LastWithRef(targets, rows[k].itemId) == Some(targets[i])
  }

  ghost predicate AttributesByType(targets: seq<Target>, reader: Reader, parse: Parser) {
    var r := ReadWindow(targets, true, true, reader, parse);
    var rows := ReadAll(targets, VALUE_TYPES, reader);
    var origins := Origins(targets, VALUE_TYPES, reader);
    r.failure.None? ==>
      && rows.Good? && |rows.value| == |origins|
      && forall k | 0 <= k < |origins| :: ReportsForType(targets, r, rows.value, k, origins[k], parse)
  }

  lemma DistinctRefsReport(targets: seq<Target>, reader: Reader, parse: Parser)
    requires Readable(targets) && RefsDistinct(targets)
    ensures AttributesByType(targets, reader, parse)
  {
    var r := ReadWindow(targets, true, true, reader, parse);
    if r.failure.None? {
      var rows, origins := ReadAll(targets, VALUE_TYPES, reader).value, Origins(targets, VALUE_TYPES, reader);
      OriginsExact(targets, VALUE_TYPES, reader);
      AttributeReportsAll(targets, rows, parse);
      forall k | 0 <= k < |origins| ensures ReportsForType(targets, r, rows, k, origins[k], parse) {
        assert ReturnedBy(targets, reader, origins[k], rows[k]);
        DistinctRefsAttribute(targets, origins[k], rows[k].itemId);
        LastWithRefIsTarget(targets, rows[k].itemId);
        var i :| 0 <= i < |targets| && targets[i] == LastWithRef(targets, rows[k].itemId).value;
      }
    }
  }

  // A reader that answers one row, for one type and one reference, and nothing else

  const SAMPLE := "1"

  function SampleRow(ref: string): Row { Row(ref, 1, 0, SAMPLE) }

  function OneRowReader(t: nat, ref: string): Reader {
    (valueType, refs) => if valueType == t then Rows([SampleRow(ref)]) else Rows([])
  }

  function VerbatimParser(): Parser { (kind, text) => Some(text) }

  lemma OneRowChecked(targets: seq<Target>, s: nat, t: nat, ref: string)
    requires ref in Refs(OfType(targets, t))
    ensures var group := OfType(targets, s);
            Checked(OneRowReader(t, ref)(s, Refs(group)), group) == Good(if s == t then [SampleRow(ref)] else [])
  {
  }

  lemma OneRowThen(row: Row, rest: Attempt<seq<Row>>, first: bool)
    requires rest.Good? && (first ==> rest.value == [])
    ensures Prepend(if first then [row] else [], rest) == Good(if first then [row] else rest.value)
  {
    PrependNothing(rest);
    assert [row] + [] == [row];
  }

  lemma {:induction false} OneRowIsRead(targets: seq<Target>, types: seq<nat>, t: nat, ref: string)
    requires ref in Refs(OfType(targets, t)) && Distinct(types)
    ensures ReadAll(targets, types, OneRowReader(t, ref)) == Good(if t in types then [SampleRow(ref)] else [])
    decreases |types|
  {
    if types != [] {
      OneRowIsRead(targets, types[1..], t, ref);
      assert types == [types[0]] + types[1..];
      OneRowChecked(targets, types[0], t, ref);
      OneRowThen(SampleRow(ref), ReadAll(targets, types[1..], OneRowReader(t, ref)), types[0] == t);
    }
  }

  ghost predicate Distinct(types: seq<nat>) {
    forall i, j | 0 <= i < j < |types| :: types[i] != types[j]
  }

  lemma {:induction false} OneRowOrigin(targets: seq<Target>, types: seq<nat>, t: nat, ref: string)
    requires ref in Refs(OfType(targets, t)) && Distinct(types)
    ensures Origins(targets, types, OneRowReader(t, ref)) == if t in types then [t] else []
    decreases |types|
  {
    if types != [] {
      OneRowOrigin(targets, types[1..], t, ref);
      assert types == [types[0]] + types[1..];
      if types[0] == t {
        assert seq(1, _ => t) + [] == [t];
      }
    }
  }

  lemma OneRowOfWindow(targets: seq<Target>, t: nat, ref: string)
    requires t in VALUE_TYPES && ref in Refs(OfType(targets, t))
    ensures ReadAll(targets, VALUE_TYPES, OneRowReader(t, ref)) == Good([SampleRow(ref)])
    ensures Origins(targets, VALUE_TYPES, OneRowReader(t, ref)) == [t]
  {
    assert Distinct(VALUE_TYPES);
    OneRowIsRead(targets, VALUE_TYPES, t, ref);
    OneRowOrigin(targets, VALUE_TYPES, t, ref);
  }

  /** The sample is a legal value of every kind, as `1` is for the program's own parser. */
  ghost predicate AcceptsSample(parse: Parser) {
    forall kind :: parse(kind, SAMPLE).Some?
  }

  lemma OneRowAttributed(targets: seq<Target>, ref: string, parse: Parser)
    requires LastWithRef(targets, ref).Some? && AcceptsSample(parse)
    ensures Attribute(targets, [SampleRow(ref)], parse).Good?
  {
    assert [SampleRow(ref)][1..] == [];
    assert parse(LastWithRef(targets, ref).value.valueKind, SAMPLE).Some?;
  }

  lemma OneRowWindow(targets: seq<Target>, t: nat, ref: string, parse: Parser)
    requires Readable(targets) && t in VALUE_TYPES && ref in Refs(OfType(targets, t))
    requires LastWithRef(targets, ref).Some? && AcceptsSample(parse)
    ensures var r := ReadWindow(targets, true, true, OneRowReader(t, ref), parse);
            && r.failure.None? && r.coverage == Finalized && |r.observations| == 1
            && Reports(r.observations[0], SampleRow(ref), LastWithRef(targets, ref).value, parse)
  {
    OneRowOfWindow(targets, t, ref);
    OneRowAttributed(targets, ref, parse);
    AttributeReportsAll(targets, [SampleRow(ref)], parse);
  }

  /** The row with this reference that the request for type `t` returns is reported for a target of another type. */
  ghost predicate Misreports(targets: seq<Target>, t: nat, ref: string, parse: Parser) {
    var r := ReadWindow(targets, true, true, OneRowReader(t, ref), parse);
    && ReadAll(targets, VALUE_TYPES, OneRowReader(t, ref)) == Good([SampleRow(ref)])
    && Origins(targets, VALUE_TYPES, OneRowReader(t, ref)) == [t]
    && r.failure.None? && |r.observations| == 1
    && LastWithRef(targets, ref).Some? && LastWithRef(targets, ref).value.valueType != t
    && Reports(r.observations[0], SampleRow(ref), LastWithRef(targets, ref).value, parse)
  }

  lemma ShadowedTargetMisreports(targets: seq<Target>, k: nat, parse: Parser)
    requires Readable(targets) && k < |targets| && AcceptsSample(parse)
    requires LastWithRef(targets, targets[k].externalRef).Some?
    requires LastWithRef(targets, targets[k].externalRef).value.valueType != targets[k].valueType
    ensures Misreports(targets, targets[k].valueType, targets[k].externalRef, parse)
  {
    InOwnGroup(targets, k);
    OneRowOfWindow(targets, targets[k].valueType, targets[k].externalRef);
    OneRowWindow(targets, targets[k].valueType, targets[k].externalRef, parse);
  }

  /** When targets share a reference, some row is asked for under one type and reported for a target of another. */
  lemma SharedRefMisreports(targets: seq<Target>, parse: Parser)
    requires Readable(targets) && !RefsDistinct(targets) && AcceptsSample(parse)
    ensures exists t: nat, ref :: Misreports(targets, t, ref, parse)
  {
    var i, j :| 0 <= i < j < |targets| && targets[i].externalRef == targets[j].externalRef;
    assert targets[i].valueType != targets[j].valueType;
    KnownRef(targets, i);
    var k := if LastWithRef(targets, targets[i].externalRef).value.valueType == targets[i].valueType then j else i;
    ShadowedTargetMisreports(targets, k, parse);
  }

  lemma MisreportedIsNotByType(targets: seq<Target>, t: nat, ref: string, parse: Parser)
    requires Misreports(targets, t, ref, parse)
    ensures !AttributesByType(targets, OneRowReader(t, ref), parse)
  {
    var reader := OneRowReader(t, ref);
    var r, rows := ReadWindow(targets, true, true, reader, parse), [SampleRow(ref)];
    assert !ReportsForType(targets, r, rows, 0, [t][0], parse);
  }

  /**
   A list of targets that a read accepts has pairwise distinct references exactly when, for every reader and parser,
   a read that succeeds reports every row for a target of the type of the request that returned it.
   */
  lemma ReadsAttributeByTypeIffRefsDistinct(targets: seq<Target>)
    requires Readable(targets)
    ensures RefsDistinct(targets) <==> forall reader, parse :: AttributesByType(targets, reader, parse)
  {
    if RefsDistinct(targets) {
      forall reader, parse ensures AttributesByType(targets, reader, parse) {
        DistinctRefsReport(targets, reader, parse);
      }
    } else {
      SharedRefMisreports(targets, VerbatimParser());
      var t: nat, ref :| Misreports(targets, t, ref, VerbatimParser());
      MisreportedIsNotByType(targets, t, ref, VerbatimParser());
    }
  }

  const FLOAT_TARGET := Target("load", "host-1", "42", "number", 0)

  const TEXT_TARGET := Target("banner", "host-2", "42", "text", 4)

  /** An accepted list whose one row, requested as a number of `load`, is reported as a text of `banner`. */
  lemma NumberReportedAsText(parse: Parser)
    requires AcceptsSample(parse)
    ensures var targets := [FLOAT_TARGET, TEXT_TARGET];
            && Readable(targets)
            && OfType(targets, 0) == [FLOAT_TARGET]
            && var r := ReadWindow(targets, true, true, OneRowReader(0, "42"), parse);
               && r.failure.None? && r.coverage == Finalized && |r.observations| == 1
               && Origins(targets, VALUE_TYPES, OneRowReader(0, "42")) == [0]
               && r.observations[0].metricDefinitionId == "banner" && r.observations[0].valueKind == "text"
  {
    var targets := [FLOAT_TARGET, TEXT_TARGET];
    assert targets[1..] == [TEXT_TARGET] && [TEXT_TARGET][1..] == [];
    assert OfType(targets[1..], 0) == [];
    assert LastWithRef(targets[1..], "42") == Some(TEXT_TARGET);
    assert Refs(OfType(targets, 0))[0] == "42";
    OneRowOfWindow(targets, 0, "42");
    OneRowWindow(targets, 0, "42", parse);
  }
}
