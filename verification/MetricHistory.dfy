/**
 Reading a metric-history window in batches: targets are grouped by their history value type, each group is
 one request, and every returned row is attributed to a target by its item reference.
 */
module MetricHistory {
  import opened Foundation

  const MAX_ITEMS_PER_REQUEST := 512

  const MAX_ROWS_PER_REQUEST := 20_000

  datatype Target = Target(
    metricDefinitionId: string,
    monitoringResourceId: string,
    externalRef: string,
    valueKind: string,
    valueType: nat)

  datatype Row = Row(itemId: string, clock: int, ns: int, rawValue: string)

  datatype Observation = Observation(
    metricDefinitionId: string,
    monitoringResourceId: string,
    externalRef: string,
    clock: int,
    ns: int,
    valueKind: string,
    value: string)

  datatype Failure =
    | CredentialUnavailable
    | AuthenticationRejected
    | EgressNotAdmitted
    | ProviderUnavailable
    | ProtocolInvalid
    | PageTruncated

  datatype Evidence = Current | Unavailable | Unreconciled

  datatype Fault = Fault(failure: Failure, evidence: Evidence)

  datatype Attempt<+T> = Good(value: T) | Bad(fault: Fault)

  datatype Coverage = ReconciliationNeeded | Gap | Finalized

  datatype HistoryResult = HistoryResult(
    evidence: Evidence,
    coverage: Coverage,
    observations: seq<Observation>,
    failure: Option<Failure>,
    requestExhausted: bool)

  function Degraded(fault: Fault): HistoryResult {
    HistoryResult(fault.evidence, ReconciliationNeeded, [], Some(fault.failure), false)
  }

  function Succeeded(returned: seq<Row>, observations: seq<Observation>): HistoryResult {
    var exhausted := |returned| >= MAX_ROWS_PER_REQUEST;
    HistoryResult(Current, if exhausted then Gap else Finalized, observations, None, !exhausted)
  }

  /** The exceptions of the reader that the program catches. */
  datatype ReaderError = AuthenticationError | UnavailableError | ProtocolError

  function FaultOf(e: ReaderError): Fault {
    match e
    case AuthenticationError => Fault(AuthenticationRejected, Unavailable)
    case UnavailableError => Fault(ProviderUnavailable, Unavailable)
    case ProtocolError => Fault(ProtocolInvalid, Unavailable)
  }

  datatype ReaderAnswer = Rows(rows: seq<Row>) | Raised(error: ReaderError)

  /** The reader is an arbitrary oracle over the value type and the item references of a request. */
  type Reader = (nat, seq<string>) -> ReaderAnswer

  /** `None` stands for a value the parser rejects. */
  type Parser = (string, string) -> Option<string>

  // ----- Grouping -----

  /** The history value types, in the order in which requests are made. */
  const VALUE_TYPES: seq<nat> := [0, 1, 2, 3, 4, 5]

  function OfType(targets: seq<Target>, valueType: nat): seq<Target> {
    if targets == [] then []
    else (if targets[0].valueType == valueType then [targets[0]] else []) + OfType(targets[1..], valueType)
  }

  function Refs(targets: seq<Target>): seq<string> {
    seq(|targets|, i requires 0 <= i < |targets| => targets[i].externalRef)
  }

  predicate HasDuplicate(targets: seq<Target>) {
    exists i, j | 0 <= i < j < |targets| ::
      targets[i].externalRef == targets[j].externalRef && targets[i].valueType == targets[j].valueType
  }

  /** The target that the lookup by reference finds: the last one with that reference. */
  function LastWithRef(targets: seq<Target>, ref: string): Option<Target> {
    if targets == [] then None
    else
      var later := LastWithRef(targets[1..], ref);
      if later.Some? then later else if targets[0].externalRef == ref then Some(targets[0]) else None
  }

  // ----- Requests -----

  /** What the answer to the request for one group comes to: its rows, or the fault that ends the read. */
  function Checked(answer: ReaderAnswer, group: seq<Target>): Attempt<seq<Row>> {
    match answer
    case Raised(e) => Bad(FaultOf(e))
    case Rows(rows) =>
      if |rows| >= MAX_ROWS_PER_REQUEST then Bad(Fault(PageTruncated, Unreconciled))
      else if exists i | 0 <= i < |rows| :: rows[i].itemId !in Refs(group) then
        Bad(Fault(ProtocolInvalid, Unreconciled))
      else Good(rows)
  }

  function Prepend<T>(front: seq<T>, rest: Attempt<seq<T>>): Attempt<seq<T>> {
    match rest
    case Bad(_) => rest
    case Good(back) => Good(front + back)
  }

  /** The rows of all requests in the order of `types`, or the first fault. */
  function ReadAll(targets: seq<Target>, types: seq<nat>, reader: Reader): Attempt<seq<Row>>
    decreases |types|
  {
    if types == [] then Good([])
    else
      var group := OfType(targets, types[0]);
      if group == [] then ReadAll(targets, types[1..], reader)
      else
        match Checked(reader(types[0], Refs(group)), group)
        case Bad(fault) => Bad(fault)
        case Good(rows) => Prepend(rows, ReadAll(targets, types[1..], reader))
  }

  /** The observation of a row, as the target that the lookup finds makes it; none when it does not parse. */
  function Observe(target: Target, row: Row, parse: Parser): Option<Observation> {
    match parse(target.valueKind, row.rawValue)
    case None => None
    case Some(value) =>
      Some(Observation(target.metricDefinitionId, target.monitoringResourceId, row.itemId, row.clock, row.ns,
                       target.valueKind, value))
  }

  function Attribute(targets: seq<Target>, rows: seq<Row>, parse: Parser): Attempt<seq<Observation>> {
    if rows == [] then Good([])
    else
      var target := LastWithRef(targets, rows[0].itemId);
      if target.None? || Observe(target.value, rows[0], parse).None? then Bad(Fault(ProtocolInvalid, Unavailable))
      else Prepend([Observe(target.value, rows[0], parse).value], Attribute(targets, rows[1..], parse))
  }

  function ReadWindow(
    targets: seq<Target>, credentialResolved: bool, egressAdmitted: bool, reader: Reader, parse: Parser): HistoryResult
  {
    if targets == [] || |targets| > MAX_ITEMS_PER_REQUEST then Degraded(Fault(ProtocolInvalid, Unreconciled))
    else if HasDuplicate(targets) then Degraded(Fault(ProtocolInvalid, Unreconciled))
    else if !credentialResolved then Degraded(Fault(CredentialUnavailable, Unavailable))
    else if !egressAdmitted then Degraded(Fault(EgressNotAdmitted, Unavailable))
    else
      match ReadAll(targets, VALUE_TYPES, reader)
      case Bad(fault) => Degraded(fault)
      case Good(rows) =>
        match Attribute(targets, rows, parse)
        case Bad(fault) => Degraded(fault)
        case Good(observations) => Succeeded(rows, observations)
  }

  predicate TargetsWellFormed(targets: seq<Target>) {
    forall i | 0 <= i < |targets| :: targets[i].valueType in VALUE_TYPES
  }

  // ----- The tables that the grouping loop fills -----

  function Group(byType: map<nat, seq<Target>>, t: nat): seq<Target> {
    if t in byType then byType[t] else []
  }

  ghost predicate Groups(byType: map<nat, seq<Target>>, targets: seq<Target>) {
    && (forall t: nat :: Group(byType, t) == OfType(targets, t))
    && (forall t | t in byType :: byType[t] != [])
  }

  function Lookup(byRef: map<string, Target>, ref: string): Option<Target> {
    if ref in byRef then Some(byRef[ref]) else None
  }

  ghost predicate LooksUp(byRef: map<string, Target>, targets: seq<Target>) {
    forall ref :: Lookup(byRef, ref) == LastWithRef(targets, ref)
  }

  function Identity(x: Target): (string, nat) { (x.externalRef, x.valueType) }

  function Identities(targets: seq<Target>): set<(string, nat)> {
    set i | 0 <= i < |targets| :: Identity(targets[i])
  }

  lemma GroupsStep(byType: map<nat, seq<Target>>, targets: seq<Target>, x: Target)
    requires Groups(byType, targets)
    ensures Groups(byType[x.valueType := Group(byType, x.valueType) + [x]], targets + [x])
  {
    var after := byType[x.valueType := Group(byType, x.valueType) + [x]];
    forall t: nat ensures Group(after, t) == OfType(targets + [x], t) {
      OfTypeAppend(targets, x, t);
      assert Group(byType, t) == OfType(targets, t);
      assert OfType(targets, t) + [] == OfType(targets, t);
    }
  }

  lemma LooksUpStep(byRef: map<string, Target>, targets: seq<Target>, x: Target)
    requires LooksUp(byRef, targets)
    ensures LooksUp(byRef[x.externalRef := x], targets + [x])
  {
    forall ref ensures Lookup(byRef[x.externalRef := x], ref) == LastWithRef(targets + [x], ref) {
      LastWithRefAppend(targets, x, ref);
      assert Lookup(byRef, ref) == LastWithRef(targets, ref);
    }
  }

  lemma DuplicateStep(targets: seq<Target>, x: Target)
    ensures HasDuplicate(targets + [x]) <==> HasDuplicate(targets) || Identity(x) in Identities(targets)
    ensures Identities(targets + [x]) == Identities(targets) + {Identity(x)}
  {
    var all := targets + [x];
    if HasDuplicate(targets) {
      var i, j :| 0 <= i < j < |targets| && Identity(targets[i]) == Identity(targets[j]);
      assert all[i] == targets[i] && all[j] == targets[j];
    }
    if Identity(x) in Identities(targets) {
      var i :| 0 <= i < |targets| && Identity(targets[i]) == Identity(x);
      assert all[i] == targets[i] && all[|targets|] == x;
    }
    assert forall id :: id in Identities(all) ==> id in Identities(targets) + {Identity(x)};
    forall id | id in Identities(targets) + {Identity(x)} ensures id in Identities(all) {
      if id == Identity(x) {
        assert all[|targets|] == x;
      } else {
        var i :| 0 <= i < |targets| && Identity(targets[i]) == id;
        assert all[i] == targets[i];
      }
    }
  }

  lemma DuplicateInPrefix(targets: seq<Target>, i: nat)
    requires i <= |targets| && HasDuplicate(targets[..i])
    ensures HasDuplicate(targets)
  {
    var j, k :| 0 <= j < k < i && Identity(targets[..i][j]) == Identity(targets[..i][k]);
    assert Identity(targets[j]) == Identity(targets[k]);
  }

  lemma TakeOneMore<T>(s: seq<T>, i: nat)
    requires i < |s|
    ensures s[..i + 1] == s[..i] + [s[i]] && s[i..] == [s[i]] + s[i + 1..]
  {
  }

  // ----- The window as the program reads it -----

  /** Fills the tables target by target; it stops at the first repeated (reference, type) pair. */
  method GroupTargets(targets: seq<Target>)
    returns (duplicate: bool, byType: map<nat, seq<Target>>, byRef: map<string, Target>)
    ensures duplicate <==> HasDuplicate(targets)
    ensures !duplicate ==> Groups(byType, targets) && LooksUp(byRef, targets)
  {
    duplicate, byType, byRef := false, map[], map[];
    var identities: set<(string, nat)> := {};
    for i := 0 to |targets|
      invariant !HasDuplicate(targets[..i])
      invariant identities == Identities(targets[..i])
      invariant Groups(byType, targets[..i]) && LooksUp(byRef, targets[..i])
    {
      var target := targets[i];
      TakeOneMore(targets, i);
      DuplicateStep(targets[..i], target);
      if Identity(target) in identities {
        DuplicateInPrefix(targets, i + 1);
        return true, byType, byRef;
      }
      GroupsStep(byType, targets[..i], target);
      LooksUpStep(byRef, targets[..i], target);
      identities := identities + {Identity(target)};
      byType := byType[target.valueType := Group(byType, target.valueType) + [target]];
      byRef := byRef[target.externalRef := target];
    }
    assert targets[..|targets|] == targets;
  }

  lemma PrependTwice<T>(a: seq<T>, b: seq<T>, rest: Attempt<seq<T>>)
    ensures Prepend(a, Prepend(b, rest)) == Prepend(a + b, rest)
  {
    if rest.Good? {
      assert a + (b + rest.value) == (a + b) + rest.value;
    }
  }

  lemma PrependNothing<T>(rest: Attempt<seq<T>>)
    ensures Prepend([], rest) == rest
  {
    if rest.Good? {
      assert [] + rest.value == rest.value;
    }
  }

  /** One request per type that has targets, in ascending order of type. */
  method RequestAll(ghost targets: seq<Target>, byType: map<nat, seq<Target>>, reader: Reader)
    returns (r: Attempt<seq<Row>>)
    requires Groups(byType, targets)
    ensures r == ReadAll(targets, VALUE_TYPES, reader)
  {
    var returned: seq<Row> := [];
    PrependNothing(ReadAll(targets, VALUE_TYPES, reader));
    assert VALUE_TYPES[0..] == VALUE_TYPES;
    for k := 0 to |VALUE_TYPES|
      invariant ReadAll(targets, VALUE_TYPES, reader) == Prepend(returned, ReadAll(targets, VALUE_TYPES[k..], reader))
    {
      var valueType := VALUE_TYPES[k];
      TakeOneMore(VALUE_TYPES, k);
      assert Group(byType, valueType) == OfType(targets, valueType);
      if valueType in byType {
        var group := byType[valueType];
        var checked := Checked(reader(valueType, Refs(group)), group);
        if checked.Bad? {
          return checked;
        }
        PrependTwice(returned, checked.value, ReadAll(targets, VALUE_TYPES[k + 1..], reader));
        returned := returned + checked.value;
      }
    }
    assert returned + [] == returned;
    return Good(returned);
  }

  ghost predicate AllKnown(targets: seq<Target>, rows: seq<Row>) {
    forall i | 0 <= i < |rows| :: LastWithRef(targets, rows[i].itemId).Some?
  }

  method AttributeAll(ghost targets: seq<Target>, byRef: map<string, Target>, returned: seq<Row>, parse: Parser)
    returns (r: Attempt<seq<Observation>>)
    requires LooksUp(byRef, targets) && AllKnown(targets, returned)
    ensures r == Attribute(targets, returned, parse)
  {
    var observations: seq<Observation> := [];
    PrependNothing(Attribute(targets, returned, parse));
    assert returned[0..] == returned;
    for k := 0 to |returned|
      invariant Attribute(targets, returned, parse) == Prepend(observations, Attribute(targets, returned[k..], parse))
    {
      var row := returned[k];
      TakeOneMore(returned, k);
      assert Lookup(byRef, row.itemId) == LastWithRef(targets, row.itemId);
      var observation := Observe(byRef[row.itemId], row, parse);
      if observation.None? {
        return Bad(Fault(ProtocolInvalid, Unavailable));
      }
      PrependTwice(observations, [observation.value], Attribute(targets, returned[k + 1..], parse));
      observations := observations + [observation.value];
    }
    assert observations + [] == observations;
    return Good(observations);
  }

  method ReadMetricHistoryWindow(
    targets: seq<Target>, credentialResolved: bool, egressAdmitted: bool, reader: Reader, parse: Parser)
    returns (r: HistoryResult)
    requires TargetsWellFormed(targets)
    ensures r == ReadWindow(targets, credentialResolved, egressAdmitted, reader, parse)
  {
    if targets == [] || |targets| > MAX_ITEMS_PER_REQUEST {
      return Degraded(Fault(ProtocolInvalid, Unreconciled));
    }
    var duplicate, byType, byRef := GroupTargets(targets);
    if duplicate {
      return Degraded(Fault(ProtocolInvalid, Unreconciled));
    }
    if !credentialResolved {
      return Degraded(Fault(CredentialUnavailable, Unavailable));
    }
    if !egressAdmitted {
      return Degraded(Fault(EgressNotAdmitted, Unavailable));
    }
    var returned := RequestAll(targets, byType, reader);
    if returned.Bad? {
      return Degraded(returned.fault);
    }
    ReadAllKnown(targets, VALUE_TYPES, reader);
    var observations := AttributeAll(targets, byRef, returned.value, parse);
    if observations.Bad? {
      return Degraded(observations.fault);
    }
    return Succeeded(returned.value, observations.value);
  }

  lemma {:induction false} OfTypeAppend(targets: seq<Target>, x: Target, t: nat)
    ensures OfType(targets + [x], t) == OfType(targets, t) + if x.valueType == t then [x] else []
  {
    if targets == [] {
      assert targets + [x] == [x] && [x][1..] == [];
    } else {
      var head := if targets[0].valueType == t then [targets[0]] else [];
      var last := if x.valueType == t then [x] else [];
      assert (targets + [x])[1..] == targets[1..] + [x];
      OfTypeAppend(targets[1..], x, t);
      assert head + (OfType(targets[1..], t) + last) == (head + OfType(targets[1..], t)) + last;
    }
  }

  lemma {:induction false} LastWithRefAppend(targets: seq<Target>, x: Target, ref: string)
    ensures LastWithRef(targets + [x], ref) == if x.externalRef == ref then Some(x) else LastWithRef(targets, ref)
  {
    if targets == [] {
      assert targets + [x] == [x];
    } else {
      assert (targets + [x])[1..] == targets[1..] + [x];
      LastWithRefAppend(targets[1..], x, ref);
    }
  }

  // ----- Partition, conservation, attribution -----

  lemma {:induction false} OfTypeExact(targets: seq<Target>, t: nat, x: Target)
    ensures multiset(OfType(targets, t))[x] == if x.valueType == t then multiset(targets)[x] else 0
  {
    if targets != [] {
      OfTypeExact(targets[1..], t, x);
      assert targets == [targets[0]] + targets[1..];
    }
  }

  /** The targets of all requests, request by request. */
  function Requested(targets: seq<Target>, types: seq<nat>): seq<Target> {
    if types == [] then [] else OfType(targets, types[0]) + Requested(targets, types[1..])
  }

  lemma {:induction false} RequestedExact(targets: seq<Target>, types: seq<nat>, x: Target)
    requires forall i, j | 0 <= i < j < |types| :: types[i] != types[j]
    ensures multiset(Requested(targets, types))[x] == if x.valueType in types then multiset(targets)[x] else 0
  {
    if types != [] {
      assert types == [types[0]] + types[1..];
      OfTypeExact(targets, types[0], x);
      RequestedExact(targets, types[1..], x);
    }
  }

  lemma OfTypeSound(targets: seq<Target>, t: nat, x: Target)
    requires x in OfType(targets, t)
    ensures x.valueType == t && x in targets
  {
    OfTypeExact(targets, t, x);
    assert x in multiset(OfType(targets, t));
    assert x in multiset(targets);
  }

  lemma RequestedOnce(targets: seq<Target>, x: Target)
    requires TargetsWellFormed(targets)
    ensures multiset(Requested(targets, VALUE_TYPES))[x] == multiset(targets)[x]
  {
    RequestedExact(targets, VALUE_TYPES, x);
    if x in targets {
      var i :| 0 <= i < |targets| && targets[i] == x;
      assert targets[i].valueType in VALUE_TYPES;
    } else {
      assert x !in multiset(targets);
    }
  }

  lemma RequestedAreTargets(targets: seq<Target>)
    requires TargetsWellFormed(targets)
    ensures multiset(Requested(targets, VALUE_TYPES)) == multiset(targets)
  {
    forall x ensures multiset(Requested(targets, VALUE_TYPES))[x] == multiset(targets)[x] {
      RequestedOnce(targets, x);
    }
  }

  /** The requests partition the targets: every target is asked for exactly once, with its own type. */
  lemma RequestsPartitionTargets(targets: seq<Target>)
    requires TargetsWellFormed(targets)
    ensures multiset(Requested(targets, VALUE_TYPES)) == multiset(targets)
    ensures forall t: nat, x | x in OfType(targets, t) :: x.valueType == t && x in targets
  {
    RequestedAreTargets(targets);
    forall t: nat, x | x in OfType(targets, t) ensures x.valueType == t && x in targets {
      OfTypeSound(targets, t, x);
    }
  }

  lemma GroupRefsAreKnown(targets: seq<Target>, t: nat, ref: string)
    requires ref in Refs(OfType(targets, t))
    ensures LastWithRef(targets, ref).Some?
    ensures exists i :: 0 <= i < |targets| && targets[i].externalRef == ref && targets[i].valueType == t
  {
    var group := OfType(targets, t);
    var k :| 0 <= k < |group| && group[k].externalRef == ref;
    OfTypeSound(targets, t, group[k]);
    var i :| 0 <= i < |targets| && targets[i] == group[k];
    KnownRef(targets, i);
  }

  lemma {:induction false} KnownRef(targets: seq<Target>, i: nat)
    requires i < |targets|
    ensures LastWithRef(targets, targets[i].externalRef).Some?
  {
    if i > 0 {
      KnownRef(targets[1..], i - 1);
    }
  }

  /** `rows` is the answers to the requests one after the other, each complete and about its own references only. */
  ghost predicate RowsByRequest(targets: seq<Target>, types: seq<nat>, reader: Reader, rows: seq<Row>)
    decreases |types|
  {
    if types == [] then rows == []
    else
      var group := OfType(targets, types[0]);
      if group == [] then RowsByRequest(targets, types[1..], reader, rows)
      else
        && reader(types[0], Refs(group)).Rows?
        && var answer := reader(types[0], Refs(group)).rows;
           && answer <= rows
           && |answer| < MAX_ROWS_PER_REQUEST
           && (forall i | 0 <= i < |answer| :: answer[i].itemId in Refs(group))
           && RowsByRequest(targets, types[1..], reader, rows[|answer|..])
  }

  /** The requests succeed with exactly these rows: nothing is lost, added, repeated or reordered. */
  lemma {:induction false} ReadAllExact(targets: seq<Target>, types: seq<nat>, reader: Reader, rows: seq<Row>)
    ensures ReadAll(targets, types, reader) == Good(rows) <==> RowsByRequest(targets, types, reader, rows)
    decreases |types|
  {
    if types != [] {
      var group := OfType(targets, types[0]);
      if group == [] {
        ReadAllExact(targets, types[1..], reader, rows);
      } else if Checked(reader(types[0], Refs(group)), group).Good? {
        var answer := reader(types[0], Refs(group)).rows;
        ReadAllAfter(targets, types, reader, rows, answer);
      }
    }
  }

  lemma {:induction false} ReadAllAfter(
    targets: seq<Target>, types: seq<nat>, reader: Reader, rows: seq<Row>, answer: seq<Row>)
    requires types != []
    ensures Prepend(answer, ReadAll(targets, types[1..], reader)) == Good(rows) <==>
            answer <= rows && RowsByRequest(targets, types[1..], reader, rows[|answer|..])
    decreases |types|, 0
  {
    if answer <= rows {
      assert rows == answer + rows[|answer|..];
      ReadAllExact(targets, types[1..], reader, rows[|answer|..]);
      SamePrefix(answer, ReadAll(targets, types[1..], reader), rows);
    }
  }

  lemma SamePrefix<T>(front: seq<T>, rest: Attempt<seq<T>>, all: seq<T>)
    requires front <= all
    ensures Prepend(front, rest) == Good(all) <==> rest == Good(all[|front|..])
  {
    assert all == front + all[|front|..];
    if rest.Good? {
      assert (front + rest.value)[|front|..] == rest.value;
    }
  }

  lemma {:induction false} ReadAllKnown(targets: seq<Target>, types: seq<nat>, reader: Reader)
    requires ReadAll(targets, types, reader).Good?
    ensures AllKnown(targets, ReadAll(targets, types, reader).value)
    decreases |types|
  {
    if types != [] {
      ReadAllKnown(targets, types[1..], reader);
      var group := OfType(targets, types[0]);
      if group != [] {
        var rows := Checked(reader(types[0], Refs(group)), group).value;
        forall i | 0 <= i < |rows| ensures LastWithRef(targets, rows[i].itemId).Some? {
          GroupRefsAreKnown(targets, types[0], rows[i].itemId);
        }
      }
    }
  }

  /** The observation reports exactly this row, and carries the identity and kind of this target. */
  predicate Reports(o: Observation, row: Row, target: Target, parse: Parser) {
    && o.externalRef == row.itemId && o.clock == row.clock && o.ns == row.ns
    && o.metricDefinitionId == target.metricDefinitionId && o.monitoringResourceId == target.monitoringResourceId
    && o.valueKind == target.valueKind
    && parse(target.valueKind, row.rawValue) == Some(o.value)
  }

  lemma {:induction false} AttributeOneForOne(targets: seq<Target>, rows: seq<Row>, parse: Parser, k: nat)
    requires Attribute(targets, rows, parse).Good? && k < |rows|
    ensures |Attribute(targets, rows, parse).value| == |rows|
    ensures LastWithRef(targets, rows[k].itemId).Some?
    ensures Reports(Attribute(targets, rows, parse).value[k], rows[k],
                    LastWithRef(targets, rows[k].itemId).value, parse)
  {
    if k > 0 {
      AttributeOneForOne(targets, rows[1..], parse, k - 1);
    } else {
      AttributeLength(targets, rows, parse);
    }
  }

  lemma {:induction false} AttributeLength(targets: seq<Target>, rows: seq<Row>, parse: Parser)
    requires Attribute(targets, rows, parse).Good?
    ensures |Attribute(targets, rows, parse).value| == |rows|
  {
    if rows != [] {
      AttributeLength(targets, rows[1..], parse);
    }
  }

  /** The observations report these rows one for one, in the same order. */
  ghost predicate ReportsAll(observations: seq<Observation>, rows: seq<Row>, targets: seq<Target>, parse: Parser) {
    && |observations| == |rows|
    && AllKnown(targets, rows)
    && forall k | 0 <= k < |rows| ::
         Reports(observations[k], rows[k], LastWithRef(targets, rows[k].itemId).value, parse)
  }

  /**
   On success the observations are the returned rows one for one, in ascending order of the requests' types, and
   each reports its row for the last target that has the row's reference. The window is final exactly when fewer
   rows than the bound came back, and a failing read reports no observation at all.
   */
  lemma SuccessConservesRows(
    targets: seq<Target>, credentialResolved: bool, egressAdmitted: bool, reader: Reader, parse: Parser)
    ensures var r := ReadWindow(targets, credentialResolved, egressAdmitted, reader, parse);
            if r.failure.Some? then r.observations == [] && r.coverage == ReconciliationNeeded && !r.requestExhausted
            else
              exists rows ::
                && RowsByRequest(targets, VALUE_TYPES, reader, rows)
                && ReportsAll(r.observations, rows, targets, parse)
                && (r.coverage == if |rows| < MAX_ROWS_PER_REQUEST then Finalized else Gap)
                && (r.requestExhausted <==> |rows| < MAX_ROWS_PER_REQUEST)
  {
    var r := ReadWindow(targets, credentialResolved, egressAdmitted, reader, parse);
    if r.failure.None? {
      var rows := ReadAll(targets, VALUE_TYPES, reader).value;
      ReadAllExact(targets, VALUE_TYPES, reader, rows);
      AttributeReportsAll(targets, rows, parse);
    }
  }

  lemma AttributeReportsAll(targets: seq<Target>, rows: seq<Row>, parse: Parser)
    requires Attribute(targets, rows, parse).Good?
    ensures ReportsAll(Attribute(targets, rows, parse).value, rows, targets, parse)
  {
    AttributeLength(targets, rows, parse);
    forall k | 0 <= k < |rows|
      ensures LastWithRef(targets, rows[k].itemId).Some?
      ensures Reports(Attribute(targets, rows, parse).value[k], rows[k],
                      LastWithRef(targets, rows[k].itemId).value, parse)
    {
      AttributeOneForOne(targets, rows, parse, k);
    }
  }

  // ----- Is a row attributed to a target of the type it was requested for? -----

  predicate RefsDistinct(targets: seq<Target>) {
    forall i, j | 0 <= i < j < |targets| :: targets[i].externalRef != targets[j].externalRef
  }

  /** A row with this reference, returned by the request for type `t`, goes to a target of type `t`. */
  predicate AttributedByType(targets: seq<Target>, t: nat, ref: string) {
    LastWithRef(targets, ref).Some? && LastWithRef(targets, ref).value.valueType == t
  }

  lemma {:induction false} LastWithRefIsTarget(targets: seq<Target>, ref: string)
    requires LastWithRef(targets, ref).Some?
    ensures LastWithRef(targets, ref).value in targets && LastWithRef(targets, ref).value.externalRef == ref
  {
    if LastWithRef(targets[1..], ref).Some? {
      LastWithRefIsTarget(targets[1..], ref);
    }
  }

  lemma DistinctRefsAttribute(targets: seq<Target>, t: nat, ref: string)
    requires RefsDistinct(targets) && ref in Refs(OfType(targets, t))
    ensures AttributedByType(targets, t, ref)
  {
    GroupRefsAreKnown(targets, t, ref);
    LastWithRefIsTarget(targets, ref);
    var i :| 0 <= i < |targets| && targets[i].externalRef == ref && targets[i].valueType == t;
    var j :| 0 <= j < |targets| && targets[j] == LastWithRef(targets, ref).value;
    assert i == j;
  }

  /**
   For targets without duplicate (reference, type) pairs: every row that a request may return is attributed to a
   target of that request's type exactly when the references are pairwise distinct. The duplicate check of the
   program does not ask for that.
   */
  lemma AttributionByTypeIffRefsDistinct(targets: seq<Target>)
    requires !HasDuplicate(targets)
    ensures RefsDistinct(targets) <==>
            forall t: nat, ref | ref in Refs(OfType(targets, t)) :: AttributedByType(targets, t, ref)
  {
    if RefsDistinct(targets) {
      forall t: nat, ref | ref in Refs(OfType(targets, t)) ensures AttributedByType(targets, t, ref) {
        DistinctRefsAttribute(targets, t, ref);
      }
    } else {
      var i, j :| 0 <= i < j < |targets| && targets[i].externalRef == targets[j].externalRef;
      var ref, s, t := targets[i].externalRef, targets[i].valueType, targets[j].valueType;
      InOwnGroup(targets, i);
      InOwnGroup(targets, j);
      assert s != t;
      assert !AttributedByType(targets, s, ref) || !AttributedByType(targets, t, ref);
    }
  }

  lemma InOwnGroup(targets: seq<Target>, i: nat)
    requires i < |targets|
    ensures targets[i].externalRef in Refs(OfType(targets, targets[i].valueType))
  {
    var t := targets[i].valueType;
    OfTypeExact(targets, t, targets[i]);
    assert targets[i] in multiset(targets);
    assert targets[i] in multiset(OfType(targets, t));
    var k :| 0 <= k < |OfType(targets, t)| && OfType(targets, t)[k] == targets[i];
    assert Refs(OfType(targets, t))[k] == targets[i].externalRef;
  }

  // ----- Lists of targets -----

  /** The targets that a read accepts. */
  predicate Readable(targets: seq<Target>) {
    && 1 <= |targets| <= MAX_ITEMS_PER_REQUEST
    && TargetsWellFormed(targets) && !HasDuplicate(targets)
  }
}
