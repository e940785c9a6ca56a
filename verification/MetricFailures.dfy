/**
 Every way in which a read of a metric-history window fails, and when it does not.
 */
module MetricFailures {
  import opened Foundation
  import opened MetricHistory

  function FailedRead(failure: Failure, evidence: Evidence): HistoryResult {
    HistoryResult(evidence, ReconciliationNeeded, [], Some(failure), false)
  }

  /** What is refused before any request is made, in this order. */
  lemma RefusedBeforeReading(
    targets: seq<Target>, credentialResolved: bool, egressAdmitted: bool, reader: Reader, parse: Parser)
    ensures var r := ReadWindow(targets, credentialResolved, egressAdmitted, reader, parse);
            && (|targets| == 0 || |targets| > 512 || HasDuplicate(targets) ==>
                  r == FailedRead(ProtocolInvalid, Unreconciled))
            && (1 <= |targets| <= 512 && !HasDuplicate(targets) && !credentialResolved ==>
                  r == FailedRead(CredentialUnavailable, Unavailable))
            && (1 <= |targets| <= 512 && !HasDuplicate(targets) && credentialResolved && !egressAdmitted ==>
                  r == FailedRead(EgressNotAdmitted, Unavailable))
  {
  }

  /** What goes wrong with the request for one type, if it is made. */
  ghost predicate RequestFails(targets: seq<Target>, t: nat, reader: Reader, failure: Failure, evidence: Evidence) {
    && OfType(targets, t) != []
    && var answer := reader(t, Refs(OfType(targets, t)));
       match answer
       case Raised(AuthenticationError) => failure == AuthenticationRejected && evidence == Unavailable
       case Raised(UnavailableError) => failure == ProviderUnavailable && evidence == Unavailable
       case Raised(ProtocolError) => failure == ProtocolInvalid && evidence == Unavailable
       case Rows(rows) =>
         if |rows| >= 20_000 then failure == PageTruncated && evidence == Unreconciled
         else
           && failure == ProtocolInvalid && evidence == Unreconciled
           && exists row | row in rows :: row.itemId !in Refs(OfType(targets, t))
  }

  /** The request is not made, or its rows are below the bound and about its own references only. */
  ghost predicate RequestPasses(targets: seq<Target>, t: nat, reader: Reader) {
    || OfType(targets, t) == []
    || (var answer := reader(t, Refs(OfType(targets, t)));
        && answer.Rows? && |answer.rows| < 20_000
        && forall row | row in answer.rows :: row.itemId in Refs(OfType(targets, t)))
  }

  lemma CheckedOutcome(targets: seq<Target>, t: nat, reader: Reader, failure: Failure, evidence: Evidence)
    requires OfType(targets, t) != []
    ensures var group := OfType(targets, t);
            var checked := Checked(reader(t, Refs(group)), group);
            && (RequestFails(targets, t, reader, failure, evidence) ==> checked == Bad(Fault(failure, evidence)))
            && (RequestPasses(targets, t, reader) ==> checked.Good?)
  {
    var group := OfType(targets, t);
    var answer := reader(t, Refs(group));
    if answer.Rows? {
      var rows := answer.rows;
      if exists row | row in rows :: row.itemId !in Refs(group) {
        var row :| row in rows && row.itemId !in Refs(group);
        var i :| 0 <= i < |rows| && rows[i] == row;
      }
    }
  }

  lemma {:induction false} FirstFaultEnds(
    targets: seq<Target>, types: seq<nat>, reader: Reader, k: nat, failure: Failure, evidence: Evidence)
    requires k < |types| && RequestFails(targets, types[k], reader, failure, evidence)
    requires forall i | 0 <= i < k :: RequestPasses(targets, types[i], reader)
    ensures ReadAll(targets, types, reader) == Bad(Fault(failure, evidence))
    decreases k
  {
    if k > 0 {
      assert RequestPasses(targets, types[0], reader);
      forall i | 0 <= i < k - 1 ensures RequestPasses(targets, types[1..][i], reader) {
        assert RequestPasses(targets, types[i + 1], reader);
      }
      FirstFaultEnds(targets, types[1..], reader, k - 1, failure, evidence);
    }
    if OfType(targets, types[0]) != [] {
      CheckedOutcome(targets, types[0], reader, failure, evidence);
    }
  }

  /** The first request that fails decides the result, whatever later requests would answer. */
  lemma FirstFailingRequestDecides(
    targets: seq<Target>, reader: Reader, parse: Parser, k: nat, failure: Failure, evidence: Evidence)
    requires Readable(targets) && k < 6 && RequestFails(targets, k, reader, failure, evidence)
    requires forall t: nat | t < k :: RequestPasses(targets, t, reader)
    ensures ReadWindow(targets, true, true, reader, parse) == FailedRead(failure, evidence)
  {
    forall i | 0 <= i < k ensures RequestPasses(targets, VALUE_TYPES[i], reader) {
      assert VALUE_TYPES[i] == i;
    }
    assert VALUE_TYPES[k] == k;
    FirstFaultEnds(targets, VALUE_TYPES, reader, k, failure, evidence);
  }

  lemma {:induction false} AllRequestsPass(targets: seq<Target>, types: seq<nat>, reader: Reader)
    requires forall i | 0 <= i < |types| :: RequestPasses(targets, types[i], reader)
    ensures ReadAll(targets, types, reader).Good?
    decreases |types|
  {
    if types != [] {
      assert RequestPasses(targets, types[0], reader);
      forall i | 0 <= i < |types[1..]| ensures RequestPasses(targets, types[1..][i], reader) {
        assert RequestPasses(targets, types[i + 1], reader);
      }
      AllRequestsPass(targets, types[1..], reader);
      if OfType(targets, types[0]) != [] {
        CheckedOutcome(targets, types[0], reader, ProtocolInvalid, Unavailable);
      }
    }
  }

  /** The row's text is a legal value of the kind of the target that the lookup finds. */
  predicate RowParses(targets: seq<Target>, row: Row, parse: Parser) {
    && LastWithRef(targets, row.itemId).Some?
    && parse(LastWithRef(targets, row.itemId).value.valueKind, row.rawValue).Some?
  }

  lemma {:induction false} AttributeSucceedsExactly(targets: seq<Target>, rows: seq<Row>, parse: Parser)
    ensures Attribute(targets, rows, parse).Good? <==> forall i | 0 <= i < |rows| :: RowParses(targets, rows[i], parse)
    ensures Attribute(targets, rows, parse).Bad? ==>
              Attribute(targets, rows, parse) == Bad(Fault(ProtocolInvalid, Unavailable))
  {
    if rows != [] {
      AttributeSucceedsExactly(targets, rows[1..], parse);
      assert forall i | 0 <= i < |rows| :: i > 0 ==> rows[i] == rows[1..][i - 1];
      if forall i | 0 <= i < |rows| :: RowParses(targets, rows[i], parse) {
        forall i | 0 <= i < |rows[1..]| ensures RowParses(targets, rows[1..][i], parse) {
          assert RowParses(targets, rows[i + 1], parse);
        }
        assert RowParses(targets, rows[0], parse);
      }
    }
  }

  /** If all requests pass, the read succeeds exactly if every row parses, and is final exactly below the bound. */
  lemma PassedReadOutcome(targets: seq<Target>, reader: Reader, parse: Parser)
    requires Readable(targets) && forall t: nat | t < 6 :: RequestPasses(targets, t, reader)
    ensures ReadAll(targets, VALUE_TYPES, reader).Good?
    ensures var rows, r := ReadAll(targets, VALUE_TYPES, reader).value, ReadWindow(targets, true, true, reader, parse);
            if forall i | 0 <= i < |rows| :: RowParses(targets, rows[i], parse) then
              && r.failure == None && r.evidence == Current
              && r.coverage == (if |rows| < 20_000 then Finalized else Gap) && (r.requestExhausted <==> |rows| < 20_000)
            else r == FailedRead(ProtocolInvalid, Unavailable)
  {
    forall i | 0 <= i < |VALUE_TYPES| ensures RequestPasses(targets, VALUE_TYPES[i], reader) {
      assert VALUE_TYPES[i] == i;
    }
    AllRequestsPass(targets, VALUE_TYPES, reader);
    AttributeSucceedsExactly(targets, ReadAll(targets, VALUE_TYPES, reader).value, parse);
  }
}
