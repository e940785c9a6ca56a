/**
 When evaluations create and resolve alerts: the conditions written out for one evaluation, and the exact step at
 which a sequence of evaluations acts.
 */
module AlertDecisions {
  import opened Foundation
  import opened Alerts

  /** From the least to the most severe. */
  const SEVERITIES := ["unknown", "informational", "warning", "degraded", "critical"]

  /** The severity is a known one, and not below the threshold. */
  predicate AtLeast(severity: string, threshold: string) {
    exists i, j | 0 <= i <= j < |SEVERITIES| :: SEVERITIES[i] == threshold && SEVERITIES[j] == severity
  }

  predicate Known(severity: string) { severity in SEVERITIES }

  predicate Acceptable(p: PolicyVersion) {
    && p.tenantId != "" && p.policyId != "" && 1 <= p.policyVersion
    && (p.sourceKind == MonitoringProblem ==>
          p.problemMinSeverity.Some? && Known(p.problemMinSeverity.value) && |p.healthClasses| == 0)
    && (p.sourceKind == MonitoringHealthProjection ==>
          && p.problemMinSeverity == None && |p.healthClasses| > 0
          && (forall c | c in p.healthClasses ::
                c == "unknown" || c == "healthy" || c == "degraded" || c == "unhealthy")
          && forall i, j | 0 <= i < |p.healthClasses| && 0 <= j < |p.healthClasses| && i != j ::
               p.healthClasses[i] != p.healthClasses[j])
  }

  /** The active alert belongs to this very policy version, tenant, kind and subject. */
  predicate Bound(p: PolicyVersion, s: SourceState, a: ActiveAlert) {
    && a.active && a.tenantId == p.tenantId && a.policyId == p.policyId && a.policyVersion == p.policyVersion
    && a.sourceKind == p.sourceKind && a.subjectId == s.subjectId
  }

  predicate Fresh(s: SourceState) {
    && s.generation == s.activeGeneration && s.sourceEvidence == "current" && s.projectionEvidence == "current"
    && 0 < s.projectionRevision
  }

  /** The state is of the kind of problem or health that the policy is about; an empty id in a policy means any. */
  predicate About(p: PolicyVersion, s: SourceState) {
    && (p.monitoringSourceId == "" || p.monitoringSourceId == s.monitoringSourceId)
    && (p.monitoringResourceId == "" || p.monitoringResourceId == s.monitoringResourceId)
    && (p.sourceKind == MonitoringProblem ==>
          && s.problemState == Some("active")
          && s.severity.Some? && p.problemMinSeverity.Some?
          && AtLeast(s.severity.value, p.problemMinSeverity.value))
    && (p.sourceKind == MonitoringHealthProjection ==> s.healthClass.Some? && s.healthClass.value in p.healthClasses)
  }

  lemma RankIsPosition(severity: string)
    ensures Rank(severity).Some? <==> Known(severity)
    ensures Rank(severity).Some? ==>
              Rank(severity).value < |SEVERITIES| && SEVERITIES[Rank(severity).value] == severity
    ensures forall j | 0 <= j < |SEVERITIES| && SEVERITIES[j] == severity :: Rank(severity) == Some(j)
  {
    assert SEVERITIES[0] == "unknown" && SEVERITIES[1] == "informational" && SEVERITIES[2] == "warning";
    assert SEVERITIES[3] == "degraded" && SEVERITIES[4] == "critical";
    assert |SEVERITIES[0]| == 7 && |SEVERITIES[1]| == 13 && |SEVERITIES[2]| == 7;
    assert |SEVERITIES[3]| == 8 && |SEVERITIES[4]| == 8;
    assert SEVERITIES[0][0] == 'u' && SEVERITIES[2][0] == 'w' && SEVERITIES[3][0] == 'd' && SEVERITIES[4][0] == 'c';
  }

  lemma RankOrders(severity: string, threshold: string)
    ensures AtLeast(severity, threshold) <==>
            Rank(severity).Some? && Rank(threshold).Some? && Rank(severity).value >= Rank(threshold).value
  {
    RankIsPosition(severity);
    RankIsPosition(threshold);
    if Rank(severity).Some? && Rank(threshold).Some? && Rank(severity).value >= Rank(threshold).value {
      var i, j := Rank(threshold).value, Rank(severity).value;
      assert SEVERITIES[i] == threshold && SEVERITIES[j] == severity;
    }
  }

  lemma AcceptableIsValid(p: PolicyVersion)
    ensures PolicyValid(p) <==> Acceptable(p)
  {
    if p.problemMinSeverity.Some? {
      RankIsPosition(p.problemMinSeverity.value);
    }
    if Acceptable(p) && p.sourceKind == MonitoringHealthProjection {
      forall c | c in p.healthClasses ensures c in HEALTH_CLASSES {
      }
    }
  }

  lemma MatchesExactly(p: PolicyVersion, s: SourceState)
    requires PolicyValid(p) && s.tenantId == p.tenantId && s.sourceKind == p.sourceKind
    ensures Matches(p, s) <==> Fresh(s) && About(p, s)
  {
    if p.sourceKind == MonitoringProblem && s.severity.Some? {
      RankOrders(s.severity.value, p.problemMinSeverity.value);
    }
  }

  /** When an evaluation succeeds, what it decides, and which alert it names. */
  lemma EvaluateOutcome(
    p: PolicyVersion, s: SourceState, active: Option<ActiveAlert>, effective: bool, hash: string -> string)
    ensures var r := Evaluate(p, s, active, effective, hash);
            && (r.Ok? <==>
                  && Acceptable(p) && s.tenantId == p.tenantId && s.sourceKind == p.sourceKind
                  && (active.Some? ==> Bound(p, s, active.value)))
            && (r.Err? ==> r.error == ValueError)
            && (r.Ok? ==>
                  && (r.value.action == CreateAlert <==> active.None? && Fresh(s) && About(p, s) && effective)
                  && (r.value.action == ResolveAlert <==> active.Some? && Fresh(s) && !About(p, s))
                  && (active.Some? ==> r.value.alertId == Some(active.value.alertId))
                  && (active.None? && r.value.action == CreateAlert ==>
                        r.value.alertId == Some(AlertId(r.value.decisionId, p.contentHash, hash)))
                  && (active.None? && r.value.action != CreateAlert ==> r.value.alertId == None))
  {
    AcceptableIsValid(p);
    if PolicyValid(p) && s.tenantId == p.tenantId && s.sourceKind == p.sourceKind {
      MatchesExactly(p, s);
    }
  }

  /** The texts that identities hash, and the prefixes they carry. */
  lemma HashedTexts(
    p: PolicyVersion, s: SourceState, active: Option<ActiveAlert>, effective: bool, hash: string -> string)
    requires Evaluate(p, s, active, effective, hash).Ok?
    ensures var d := Evaluate(p, s, active, effective, hash).value;
            var kind :=
              if p.sourceKind == MonitoringProblem then "monitoring_problem" else "monitoring_health_projection";
            var act :=
              if d.action == CreateAlert then "create" else if d.action == ResolveAlert then "resolve" else "none";
            && d.decisionId == "g7-decision:" + hash(Join(
                 [p.tenantId, p.policyId, Decimal(p.policyVersion), kind, s.subjectId, Decimal(s.projectionRevision)]))
            && d.decisionHash == hash(Join(
                 [p.tenantId, p.policyId, Decimal(p.policyVersion), p.contentHash, kind, s.subjectId,
                  Decimal(s.projectionRevision), act, if active.None? then "" else active.value.alertId]))
            && (d.action == CreateAlert ==>
                  d.alertId == Some("g7-alert:" + hash(d.decisionId + [SEPARATOR] + p.contentHash)))
  {
  }

  // ----- Sequences of evaluations -----

  /** What is decided at step k when no alert is active at first: created at the first step in force, else nothing. */
  lemma {:induction false} CreatesAtFirstStepInForce(
    p: PolicyVersion, s: SourceState, effective: seq<bool>, hash: string -> string, k: nat)
    requires Evaluate(p, s, None, true, hash).Ok? && k < |effective|
    ensures k < |Actions(p, s, None, effective, hash)|
    ensures Actions(p, s, None, effective, hash)[k] ==
            Ok(if Fresh(s) && About(p, s) && effective[k] && (forall j | 0 <= j < k :: !effective[j]) then CreateAlert
               else NoAction)
    decreases |effective|
  {
    EvaluateOutcome(p, s, None, true, hash);
    EvaluateOutcome(p, s, None, effective[0], hash);
    var d := Evaluate(p, s, None, effective[0], hash).value;
    if k == 0 {
      FirstAction(p, s, None, effective, hash);
    } else {
      LaterAction(p, s, None, effective, hash, k);
      if d.action == CreateAlert {
        MatchesExactly(p, s);
        ApplyingKeepsSuccess(p, s, None, effective[0], hash);
        QuietForEver(p, s, ApplyDecision(p, s, None, d), effective[1..], hash, k - 1);
      } else {
        CreatesAtFirstStepInForce(p, s, effective[1..], hash, k - 1);
        ShiftedSteps(effective, k);
      }
    }
  }

  lemma FirstAction(
    p: PolicyVersion, s: SourceState, active: Option<ActiveAlert>, effective: seq<bool>, hash: string -> string)
    requires effective != [] && Evaluate(p, s, active, effective[0], hash).Ok?
    ensures |Actions(p, s, active, effective, hash)| == |effective|
    ensures Actions(p, s, active, effective, hash)[0] == Ok(Evaluate(p, s, active, effective[0], hash).value.action)
  {
    ActionsLength(p, s, active, effective, hash);
  }

  lemma LaterAction(
    p: PolicyVersion, s: SourceState, active: Option<ActiveAlert>, effective: seq<bool>, hash: string -> string, k: nat)
    requires 0 < k < |effective| && Evaluate(p, s, active, effective[0], hash).Ok?
    ensures var next := ApplyDecision(p, s, active, Evaluate(p, s, active, effective[0], hash).value);
            && |Actions(p, s, active, effective, hash)| == |effective|
            && |Actions(p, s, next, effective[1..], hash)| == |effective| - 1
            && Actions(p, s, active, effective, hash)[k] == Actions(p, s, next, effective[1..], hash)[k - 1]
  {
    ActionsLength(p, s, active, effective, hash);
    ActionsLength(p, s, ApplyDecision(p, s, active, Evaluate(p, s, active, effective[0], hash).value), effective[1..],
                  hash);
  }

  lemma ShiftedSteps(effective: seq<bool>, k: nat)
    requires 0 < k < |effective|
    ensures (forall j | 0 <= j < k :: !effective[j]) <==>
            !effective[0] && forall j | 0 <= j < k - 1 :: !effective[1..][j]
  {
    if !effective[0] && forall j | 0 <= j < k - 1 :: !effective[1..][j] {
      forall j | 0 <= j < k ensures !effective[j] {
        assert j > 0 ==> effective[j] == effective[1..][j - 1];
      }
    }
  }

  /** With an alert active at first, it is resolved at once or stays; if it is resolved, nothing is created any more. */
  lemma ResolvesAtOnceOrNever(
    p: PolicyVersion, s: SourceState, active: ActiveAlert, effective: seq<bool>, hash: string -> string, k: nat)
    requires Evaluate(p, s, Some(active), true, hash).Ok? && k < |effective|
    ensures k < |Actions(p, s, Some(active), effective, hash)|
    ensures Actions(p, s, Some(active), effective, hash)[k] ==
            Ok(if k == 0 && Fresh(s) && !About(p, s) then ResolveAlert else NoAction)
  {
    ActionsLength(p, s, Some(active), effective, hash);
    EvaluateOutcome(p, s, Some(active), true, hash);
    EvaluateOutcome(p, s, Some(active), effective[0], hash);
    MatchesExactly(p, s);
    if Fresh(s) && !About(p, s) {
      if k > 0 {
        ApplyingKeepsSuccess(p, s, Some(active), effective[0], hash);
        QuietForEver(p, s, None, effective[1..], hash, k - 1);
      }
    } else {
      QuietForEver(p, s, Some(active), effective, hash, k);
    }
  }
}
