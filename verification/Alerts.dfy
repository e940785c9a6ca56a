/**
 Alert decisions: when a policy creates or resolves an alert for a source state, and how decisions are
 identified by hashing their components joined with the unit separator.
 */
module Alerts {
  import opened Foundation

  datatype SourceKind = MonitoringProblem | MonitoringHealthProjection

  datatype Action = CreateAlert | ResolveAlert | NoAction

  datatype PolicyVersion = PolicyVersion(
    tenantId: string,
    policyId: string,
    policyVersion: int,
    sourceKind: SourceKind,
    contentHash: string,
    problemMinSeverity: Option<string>,
    healthClasses: seq<string>,
    monitoringSourceId: string,
    monitoringResourceId: string)

  datatype SourceState = SourceState(
    tenantId: string,
    sourceKind: SourceKind,
    subjectId: string,
    monitoringSourceId: string,
    monitoringResourceId: string,
    generation: string,
    activeGeneration: string,
    sourceEvidence: string,
    projectionEvidence: string,
    projectionRevision: int,
    problemState: Option<string>,
    severity: Option<string>,
    healthClass: Option<string>)
  {
    predicate Current() {
      && generation == activeGeneration
      && sourceEvidence == "current"
      && projectionEvidence == "current"
      && projectionRevision > 0
    }
  }

  datatype ActiveAlert = ActiveAlert(
    alertId: string,
    tenantId: string,
    policyId: string,
    policyVersion: int,
    sourceKind: SourceKind,
    subjectId: string,
    active: bool)

  datatype Decision = Decision(decisionId: string, decisionHash: string, action: Action, alertId: Option<string>)

  function Rank(severity: string): Option<nat> {
    if severity == "unknown" then Some(0)
    else if severity == "informational" then Some(1)
    else if severity == "warning" then Some(2)
    else if severity == "degraded" then Some(3)
    else if severity == "critical" then Some(4)
    else None
  }

  const HEALTH_CLASSES := {"unknown", "healthy", "degraded", "unhealthy"}

  predicate PolicyValid(p: PolicyVersion) {
    && p.tenantId != "" && p.policyId != "" && p.policyVersion >= 1
    && match p.sourceKind
       case MonitoringProblem =>
         p.problemMinSeverity.Some? && Rank(p.problemMinSeverity.value).Some? && p.healthClasses == []
       case MonitoringHealthProjection =>
         && p.problemMinSeverity.None? && p.healthClasses != []
         && (forall c | c in p.healthClasses :: c in HEALTH_CLASSES)
         && (forall i, j | 0 <= i < j < |p.healthClasses| :: p.healthClasses[i] != p.healthClasses[j])
  }

  /** An empty source or resource id in a policy means any. */
  predicate Matches(p: PolicyVersion, s: SourceState)
    requires PolicyValid(p)
  {
    && s.tenantId == p.tenantId && s.sourceKind == p.sourceKind
    && s.Current()
    && (p.monitoringSourceId != "" ==> s.monitoringSourceId == p.monitoringSourceId)
    && (p.monitoringResourceId != "" ==> s.monitoringResourceId == p.monitoringResourceId)
    && match p.sourceKind
       case MonitoringProblem =>
         && s.problemState == Some("active")
         && s.severity.Some? && Rank(s.severity.value).Some?
         && Rank(s.severity.value).value >= Rank(p.problemMinSeverity.value).value
       case MonitoringHealthProjection => s.healthClass.Some? && s.healthClass.value in p.healthClasses
  }

  predicate BindingAgrees(p: PolicyVersion, s: SourceState, a: ActiveAlert) {
    && a.tenantId == p.tenantId && a.policyId == p.policyId && a.policyVersion == p.policyVersion
    && a.sourceKind == p.sourceKind && a.subjectId == s.subjectId && a.active
  }

  function Decide(p: PolicyVersion, s: SourceState, active: Option<ActiveAlert>, effective: bool): Action
    requires PolicyValid(p)
  {
    var matching := Matches(p, s);
    if !s.Current() then NoAction
    else if active.Some? && !matching then ResolveAlert
    else if active.None? && matching && effective then CreateAlert
    else NoAction
  }

  // ----- Identities -----

  const SEPARATOR: char := 0x1f as char

  function Join(parts: seq<string>): string {
    if parts == [] then ""
    else if |parts| == 1 then parts[0]
    else parts[0] + [SEPARATOR] + Join(parts[1..])
  }

  function Digits(n: nat): string {
    if n < 10 then [('0' as int + n) as char] else Digits(n / 10) + [('0' as int + n % 10) as char]
  }

  function Decimal(n: int): string {
    if n < 0 then "-" + Digits(-n) else Digits(n)
  }

  function KindText(k: SourceKind): string {
    match k
    case MonitoringProblem => "monitoring_problem"
    case MonitoringHealthProjection => "monitoring_health_projection"
  }

  function ActionText(a: Action): string {
    match a
    case CreateAlert => "create"
    case ResolveAlert => "resolve"
    case NoAction => "none"
  }

  function Identity(p: PolicyVersion, s: SourceState): seq<string> {
    [p.tenantId, p.policyId, Decimal(p.policyVersion), KindText(p.sourceKind), s.subjectId,
     Decimal(s.projectionRevision)]
  }

  /** `hash` is the hexadecimal digest of the encoded text. */
  function DecisionId(p: PolicyVersion, s: SourceState, hash: string -> string): string {
    "g7-decision:" + hash(Join(Identity(p, s)))
  }

  /** Everything that a decision was based on. */
  function Material(p: PolicyVersion, s: SourceState, action: Action, alert: string): seq<string> {
    [p.tenantId, p.policyId, Decimal(p.policyVersion), p.contentHash, KindText(p.sourceKind), s.subjectId,
     Decimal(s.projectionRevision), ActionText(action), alert]
  }

  function AlertText(active: Option<ActiveAlert>): string {
    if active.Some? then active.value.alertId else ""
  }

  function AlertId(decisionId: string, contentHash: string, hash: string -> string): string {
    "g7-alert:" + hash(decisionId + [SEPARATOR] + contentHash)
  }

  function Evaluate(
    p: PolicyVersion, s: SourceState, active: Option<ActiveAlert>, effective: bool, hash: string -> string)
    : Result<Decision>
  {
    if !PolicyValid(p) then Err(ValueError)
    else if s.tenantId != p.tenantId || s.sourceKind != p.sourceKind then Err(ValueError)
    else if active.Some? && !BindingAgrees(p, s, active.value) then Err(ValueError)
    else
      var action := Decide(p, s, active, effective);
      var decisionHash := hash(Join(Material(p, s, action, AlertText(active))));
      var id := DecisionId(p, s, hash);
      var alertId :=
        if action.CreateAlert? then Some(AlertId(id, p.contentHash, hash))
        else if active.Some? then Some(active.value.alertId) else None;
      Ok(Decision(id, decisionHash, action, alertId))
  }

  // ----- Convergence -----

  /** A store that applies decisions: creating binds a new active alert, resolving removes it. */
  function ApplyDecision(
    p: PolicyVersion, s: SourceState, active: Option<ActiveAlert>, d: Decision): Option<ActiveAlert>
  {
    match d.action
    case CreateAlert =>
      Some(ActiveAlert(if d.alertId.Some? then d.alertId.value else "", p.tenantId, p.policyId, p.policyVersion,
                       p.sourceKind, s.subjectId, true))
    case ResolveAlert => None
    case NoAction => active
  }

  /** The actions of consecutive evaluations; `effective` says for each whether the policy is then in force. */
  function Actions(
    p: PolicyVersion, s: SourceState, active: Option<ActiveAlert>, effective: seq<bool>, hash: string -> string)
    : seq<Result<Action>>
    decreases |effective|
  {
    if effective == [] then []
    else
      var d := Evaluate(p, s, active, effective[0], hash);
      if d.Err? then [Err(d.error)] + Actions(p, s, active, effective[1..], hash)
      else [Ok(d.value.action)] + Actions(p, s, ApplyDecision(p, s, active, d.value), effective[1..], hash)
  }

  lemma {:induction false} QuietForEver(
    p: PolicyVersion, s: SourceState, active: Option<ActiveAlert>, effective: seq<bool>, hash: string -> string, k: nat)
    requires Evaluate(p, s, active, true, hash).Ok? && k < |effective|
    requires !s.Current() || (active.Some? <==> Matches(p, s))
    ensures k < |Actions(p, s, active, effective, hash)|
    ensures Actions(p, s, active, effective, hash)[k] == Ok(NoAction)
    decreases |effective|
  {
    ActionsLength(p, s, active, effective, hash);
    if k > 0 {
      QuietForEver(p, s, active, effective[1..], hash, k - 1);
    }
  }

  /**
   Against a fixed source state, evaluation never fails once it has succeeded and has at most one effect:
   after a creation or a resolution every later evaluation decides on no action, even if the
   policy comes into force or goes out of force in between.
   */
  lemma {:induction false} AtMostOneEffect(
    p: PolicyVersion, s: SourceState, active: Option<ActiveAlert>, effective: seq<bool>, hash: string -> string,
    i: nat, j: nat)
    requires Evaluate(p, s, active, true, hash).Ok? && i < j < |effective|
    ensures |Actions(p, s, active, effective, hash)| == |effective|
    ensures Actions(p, s, active, effective, hash)[i].Ok?
    ensures Actions(p, s, active, effective, hash)[i] != Ok(NoAction) ==>
              Actions(p, s, active, effective, hash)[j] == Ok(NoAction)
    decreases |effective|
  {
    ActionsLength(p, s, active, effective, hash);
    var d := Evaluate(p, s, active, effective[0], hash).value;
    var next := ApplyDecision(p, s, active, d);
    ApplyingKeepsSuccess(p, s, active, effective[0], hash);
    if i > 0 {
      AtMostOneEffect(p, s, next, effective[1..], hash, i - 1, j - 1);
    } else if d.action != NoAction {
      QuietForEver(p, s, next, effective[1..], hash, j - 1);
    }
  }

  /** A decision can be applied and evaluated again; one that had an effect settles the state. */
  lemma ApplyingKeepsSuccess(
    p: PolicyVersion, s: SourceState, active: Option<ActiveAlert>, effective: bool, hash: string -> string)
    requires Evaluate(p, s, active, true, hash).Ok?
    ensures Evaluate(p, s, active, effective, hash).Ok?
    ensures var d := Evaluate(p, s, active, effective, hash).value;
            var next := ApplyDecision(p, s, active, d);
            && Evaluate(p, s, next, true, hash).Ok?
            && (d.action != NoAction ==> (next.Some? <==> Matches(p, s)))
  {
  }

  lemma {:induction false} ActionsLength(
    p: PolicyVersion, s: SourceState, active: Option<ActiveAlert>, effective: seq<bool>, hash: string -> string)
    ensures |Actions(p, s, active, effective, hash)| == |effective|
    decreases |effective|
  {
    if effective != [] {
      var d := Evaluate(p, s, active, effective[0], hash);
      ActionsLength(p, s, if d.Ok? then ApplyDecision(p, s, active, d.value) else active, effective[1..], hash);
    }
  }

  /** Evidence that is not current never creates or resolves, in any number of evaluations. */
  lemma StaleEvidenceIsQuiet(
    p: PolicyVersion, s: SourceState, active: Option<ActiveAlert>, effective: seq<bool>, hash: string -> string, k: nat)
    requires !s.Current() && k < |effective|
    ensures k < |Actions(p, s, active, effective, hash)|
    ensures Actions(p, s, active, effective, hash)[k] in {Ok(NoAction), Err(ValueError)}
  {
    ActionsLength(p, s, active, effective, hash);
    if Evaluate(p, s, active, true, hash).Ok? {
      QuietForEver(p, s, active, effective, hash, k);
    } else {
      FailsForEver(p, s, active, effective, hash, k);
    }
  }

  lemma {:induction false} FailsForEver(
    p: PolicyVersion, s: SourceState, active: Option<ActiveAlert>, effective: seq<bool>, hash: string -> string, k: nat)
    requires Evaluate(p, s, active, true, hash).Err? && k < |effective|
    ensures k < |Actions(p, s, active, effective, hash)|
    ensures Actions(p, s, active, effective, hash)[k] == Err(ValueError)
    decreases |effective|
  {
    ActionsLength(p, s, active, effective, hash);
    if k > 0 {
      FailsForEver(p, s, active, effective[1..], hash, k - 1);
    }
  }

  // ----- Faithful identities -----

  lemma {:induction false} DigitsShape(n: nat)
    ensures Digits(n) != "" && forall i | 0 <= i < |Digits(n)| :: Digit(Digits(n)[i])
  {
    if n >= 10 {
      DigitsShape(n / 10);
    }
  }

  lemma {:induction false} DigitsInjective(m: nat, n: nat)
    requires Digits(m) == Digits(n)
    ensures m == n
  {
    DigitsShape(m / 10);
    DigitsShape(n / 10);
    var d := Digits(m);
    if m >= 10 && n >= 10 {
      assert d[..|d| - 1] == Digits(m / 10) && d[..|d| - 1] == Digits(n / 10);
      DigitsInjective(m / 10, n / 10);
      assert d[|d| - 1] == ('0' as int + m % 10) as char;
      assert d[|d| - 1] == ('0' as int + n % 10) as char;
    }
  }

  lemma DecimalInjective(m: int, n: int)
    ensures Decimal(m) == Decimal(n) ==> m == n
    ensures SEPARATOR !in Decimal(m)
  {
    DigitsShape(if m < 0 then -m else m);
    DigitsShape(if n < 0 then -n else n);
    if Decimal(m) == Decimal(n) {
      assert Decimal(m)[0] == '-' <==> m < 0;
      assert Decimal(n)[0] == '-' <==> n < 0;
      if m < 0 {
        assert Digits(-m) == Decimal(m)[1..] == Digits(-n);
        DigitsInjective(-m, -n);
      } else {
        DigitsInjective(m, n);
      }
    }
  }

  /** A text splits in only one way at its first separator. */
  lemma {:induction false} FirstSplit(a: string, x: string, b: string, y: string)
    requires SEPARATOR !in a && SEPARATOR !in b
    requires a + [SEPARATOR] + x == b + [SEPARATOR] + y
    ensures a == b && x == y
    decreases |a|
  {
    var s := a + [SEPARATOR] + x;
    assert s[0] == if a == "" then SEPARATOR else a[0];
    assert s[0] == if b == "" then SEPARATOR else b[0];
    if a == "" {
      assert s[1..] == x;
      assert s[1..] == y;
    } else {
      assert s[1..] == a[1..] + [SEPARATOR] + x;
      assert s[1..] == b[1..] + [SEPARATOR] + y;
      FirstSplit(a[1..], x, b[1..], y);
      assert a == [a[0]] + a[1..] && b == [b[0]] + b[1..];
    }
  }

  lemma KindTextSeparatorFree(k: SourceKind)
    ensures SEPARATOR !in KindText(k)
  {
    forall i | 0 <= i < |KindText(k)| ensures KindText(k)[i] != SEPARATOR {
      assert KindText(k)[i] >= '_';
    }
  }

  // ----- Splitting joined texts from either end -----

  /** A text splits in only one way at its last separator. */
  lemma {:induction false} LastSplit(a: string, x: string, b: string, y: string)
    requires SEPARATOR !in x && SEPARATOR !in y
    requires a + [SEPARATOR] + x == b + [SEPARATOR] + y
    ensures a == b && x == y
    decreases |x|
  {
    var s := a + [SEPARATOR] + x;
    assert s[|s| - 1] == if x == "" then SEPARATOR else x[|x| - 1];
    assert s[|s| - 1] == if y == "" then SEPARATOR else y[|y| - 1];
    if x == "" {
      assert s[..|s| - 1] == a;
      assert s[..|s| - 1] == b;
    } else {
      assert s[..|s| - 1] == a + [SEPARATOR] + x[..|x| - 1];
      assert s[..|s| - 1] == b + [SEPARATOR] + y[..|y| - 1];
      LastSplit(a, x[..|x| - 1], b, y[..|y| - 1]);
      assert x == x[..|x| - 1] + [x[|x| - 1]] && y == y[..|y| - 1] + [y[|y| - 1]];
    }
  }

  /** Can a policy's tenant and policy id be told apart once they are joined? Neither id may be empty. */
  predicate IdsUnambiguous(p: PolicyVersion) {
    Unambiguous(p.tenantId, p.policyId)
  }

  /** No separator after the first character of the tenant id, and none before the last one of the policy id. */
  predicate Unambiguous(tenantId: string, policyId: string) {
    && tenantId != "" && policyId != ""
    && (forall i | 1 <= i < |tenantId| :: tenantId[i] != SEPARATOR)
    && (forall i | 0 <= i < |policyId| - 1 :: policyId[i] != SEPARATOR)
  }

  lemma FirstId(t: string, x: string, t': string, x': string)
    requires t != "" && t' != "" && SEPARATOR !in t[1..] && SEPARATOR !in t'[1..]
    requires t + [SEPARATOR] + x == t' + [SEPARATOR] + x'
    ensures t == t' && x == x'
  {
    var s := t + [SEPARATOR] + x;
    assert s[0] == t[0] && s[0] == t'[0];
    assert s[1..] == t[1..] + [SEPARATOR] + x;
    assert s[1..] == t'[1..] + [SEPARATOR] + x';
    FirstSplit(t[1..], x, t'[1..], x');
    assert t == [t[0]] + t[1..] && t' == [t'[0]] + t'[1..];
  }

  /** A text without separators, up to its last character, followed by the separator at the given place. */
  lemma IdAtSeparator(p: string, x: string)
    requires p != "" && p[|p| - 1] == SEPARATOR
    ensures p + [SEPARATOR] + x == p[..|p| - 1] + [SEPARATOR] + ([SEPARATOR] + x)
  {
    assert p == p[..|p| - 1] + [SEPARATOR];
  }

  lemma SecondId(p: string, x: string, p': string, x': string)
    requires p != "" && p' != "" && SEPARATOR !in p[..|p| - 1] && SEPARATOR !in p'[..|p'| - 1]
    requires x != "" && x[0] != SEPARATOR && x' != "" && x'[0] != SEPARATOR
    requires p + [SEPARATOR] + x == p' + [SEPARATOR] + x'
    ensures p == p' && x == x'
  {
    var q, q' := p[..|p| - 1], p'[..|p'| - 1];
    assert p == q + [p[|p| - 1]] && p' == q' + [p'[|p'| - 1]];
    var closed, closed' := p[|p| - 1] == SEPARATOR, p'[|p'| - 1] == SEPARATOR;
    if closed {
      IdAtSeparator(p, x);
    }
    if closed' {
      IdAtSeparator(p', x');
    }
    var y, y' := if closed then [SEPARATOR] + x else x, if closed' then [SEPARATOR] + x' else x';
    FirstSplit(if closed then q else p, y, if closed' then q' else p', y');
    assert y[0] == SEPARATOR <==> closed;
    assert y'[0] == SEPARATOR <==> closed';
    if closed {
      assert y[1..] == x && y'[1..] == x';
    }
  }

  /** Unambiguous ids are determined by any joined text that goes on with something else than a separator. */
  lemma IdsSplit(t: string, p: string, x: string, t': string, p': string, x': string)
    requires Unambiguous(t, p) && Unambiguous(t', p')
    requires x != "" && x[0] != SEPARATOR && x' != "" && x'[0] != SEPARATOR
    requires t + [SEPARATOR] + (p + [SEPARATOR] + x) == t' + [SEPARATOR] + (p' + [SEPARATOR] + x')
    ensures t == t' && p == p' && x == x'
  {
    FirstId(t, p + [SEPARATOR] + x, t', p' + [SEPARATOR] + x');
    SecondId(p, x, p', x');
  }

  /** The text of a version number, and all that follows it. */
  lemma AfterVersion(version: int, rest: string)
    ensures var x := Decimal(version) + [SEPARATOR] + rest; x != "" && x[0] != SEPARATOR
  {
    DecimalInjective(version, 0);
    DigitsShape(if version < 0 then -version else version);
    assert Decimal(version) != "" && Decimal(version)[0] in Decimal(version);
  }

  // ----- Decision ids -----

  lemma JoinTwo(a: string, b: string)
    ensures Join([a, b]) == a + [SEPARATOR] + b
  {
    assert [a, b][1..] == [b];
  }

  lemma JoinSuffix(a: string, rest: seq<string>)
    requires rest != []
    ensures Join([a] + rest) == a + [SEPARATOR] + Join(rest)
  {
    assert ([a] + rest)[1..] == rest;
  }

  /** The text that a decision id hashes, with its subject between the source kind and the revision. */
  lemma IdentityText(p: PolicyVersion, s: SourceState)
    ensures Join(Identity(p, s))
         == p.tenantId + [SEPARATOR] + (p.policyId + [SEPARATOR] + IdentityRest(p, s))
  {
    var version, kind, revision := Decimal(p.policyVersion), KindText(p.sourceKind), Decimal(s.projectionRevision);
    JoinTwo(s.subjectId, revision);
    JoinSuffix(kind, [s.subjectId, revision]);
    JoinSuffix(version, [kind] + [s.subjectId, revision]);
    JoinSuffix(p.policyId, [version] + ([kind] + [s.subjectId, revision]));
    JoinSuffix(p.tenantId, [p.policyId] + ([version] + ([kind] + [s.subjectId, revision])));
    assert Identity(p, s) == [p.tenantId] + ([p.policyId] + ([version] + ([kind] + [s.subjectId, revision])));
  }

  function IdentityRest(p: PolicyVersion, s: SourceState): string {
    Decimal(p.policyVersion) + [SEPARATOR] +
    (KindText(p.sourceKind) + [SEPARATOR] + (s.subjectId + [SEPARATOR] + Decimal(s.projectionRevision)))
  }

  lemma IdentityRestInjective(p: PolicyVersion, s: SourceState, p': PolicyVersion, s': SourceState)
    requires IdentityRest(p, s) == IdentityRest(p', s')
    ensures p.policyVersion == p'.policyVersion && p.sourceKind == p'.sourceKind
    ensures s.subjectId == s'.subjectId && s.projectionRevision == s'.projectionRevision
  {
    var tail, tail' := s.subjectId + [SEPARATOR] + Decimal(s.projectionRevision),
                       s'.subjectId + [SEPARATOR] + Decimal(s'.projectionRevision);
    DecimalInjective(p.policyVersion, p'.policyVersion);
    DecimalInjective(p'.policyVersion, p.policyVersion);
    DecimalInjective(s.projectionRevision, s'.projectionRevision);
    DecimalInjective(s'.projectionRevision, s.projectionRevision);
    FirstSplit(Decimal(p.policyVersion), KindText(p.sourceKind) + [SEPARATOR] + tail,
               Decimal(p'.policyVersion), KindText(p'.sourceKind) + [SEPARATOR] + tail');
    KindTextSeparatorFree(p.sourceKind);
    KindTextSeparatorFree(p'.sourceKind);
    FirstSplit(KindText(p.sourceKind), tail, KindText(p'.sourceKind), tail');
    KindTextInjective(p.sourceKind, p'.sourceKind);
    LastSplit(s.subjectId, Decimal(s.projectionRevision), s'.subjectId, Decimal(s'.projectionRevision));
  }

  predicate SameIdentity(p: PolicyVersion, s: SourceState, p': PolicyVersion, s': SourceState) {
    && p.tenantId == p'.tenantId && p.policyId == p'.policyId && p.policyVersion == p'.policyVersion
    && p.sourceKind == p'.sourceKind && s.subjectId == s'.subjectId && s.projectionRevision == s'.projectionRevision
  }

  lemma IdentityTextInjective(p: PolicyVersion, s: SourceState, p': PolicyVersion, s': SourceState)
    requires IdsUnambiguous(p) && IdsUnambiguous(p')
    requires Join(Identity(p, s)) == Join(Identity(p', s'))
    ensures SameIdentity(p, s, p', s')
  {
    IdentityText(p, s);
    IdentityText(p', s');
    AfterVersion(p.policyVersion,
                 KindText(p.sourceKind) + [SEPARATOR] + (s.subjectId + [SEPARATOR] + Decimal(s.projectionRevision)));
    AfterVersion(p'.policyVersion,
                 KindText(p'.sourceKind) + [SEPARATOR] + (s'.subjectId + [SEPARATOR] + Decimal(s'.projectionRevision)));
    IdsSplit(p.tenantId, p.policyId, IdentityRest(p, s), p'.tenantId, p'.policyId, IdentityRest(p', s'));
    IdentityRestInjective(p, s, p', s');
  }

  predicate NoCollision(hash: string -> string, a: string, b: string) {
    hash(a) == hash(b) ==> a == b
  }

  /**
   Two evaluations have the same decision id exactly when they agree on tenant, policy, version, source kind,
   subject and revision, if the ids of both policies are unambiguous and the hash does not collide on
   these two texts. The subject may be any text.
   */
  lemma DecisionIdsIdentify(
    p: PolicyVersion, s: SourceState, p': PolicyVersion, s': SourceState, hash: string -> string)
    requires IdsUnambiguous(p) && IdsUnambiguous(p')
    requires NoCollision(hash, Join(Identity(p, s)), Join(Identity(p', s')))
    ensures DecisionId(p, s, hash) == DecisionId(p', s', hash) <==> SameIdentity(p, s, p', s')
  {
    if DecisionId(p, s, hash) == DecisionId(p', s', hash) {
      SamePrefix("g7-decision:", hash(Join(Identity(p, s))), hash(Join(Identity(p', s'))));
      IdentityTextInjective(p, s, p', s');
    }
    assert SameIdentity(p, s, p', s') ==> Identity(p, s) == Identity(p', s');
  }

  // ----- Decision hashes -----

  /** What follows the two ids in the material of a decision hash. */
  function MaterialRest(p: PolicyVersion, s: SourceState, action: Action, alert: string): string {
    Decimal(p.policyVersion) + [SEPARATOR] +
    (p.contentHash + [SEPARATOR] +
     (KindText(p.sourceKind) + [SEPARATOR] + MaterialTail(s, action, alert)))
  }

  function MaterialTail(s: SourceState, action: Action, alert: string): string {
    s.subjectId + [SEPARATOR] + Decimal(s.projectionRevision) + [SEPARATOR] + ActionText(action) + [SEPARATOR] + alert
  }

  lemma MaterialTailText(s: SourceState, action: Action, alert: string)
    ensures Join([s.subjectId, Decimal(s.projectionRevision), ActionText(action), alert])
         == MaterialTail(s, action, alert)
  {
    var revision, act := Decimal(s.projectionRevision), ActionText(action);
    JoinTwo(act, alert);
    JoinSuffix(revision, [act, alert]);
    JoinSuffix(s.subjectId, [revision] + [act, alert]);
    assert [s.subjectId] + ([revision] + [act, alert]) == [s.subjectId, revision, act, alert];
    Regroup(s.subjectId, revision, act, alert);
  }

  lemma Regroup(a: string, b: string, c: string, d: string)
    ensures a + [SEPARATOR] + (b + [SEPARATOR] + (c + [SEPARATOR] + d))
         == a + [SEPARATOR] + b + [SEPARATOR] + c + [SEPARATOR] + d
  {
  }

  lemma MaterialText(p: PolicyVersion, s: SourceState, action: Action, alert: string)
    ensures Join(Material(p, s, action, alert))
         == p.tenantId + [SEPARATOR] + (p.policyId + [SEPARATOR] + MaterialRest(p, s, action, alert))
  {
    var version, kind := Decimal(p.policyVersion), KindText(p.sourceKind);
    var tail := [s.subjectId, Decimal(s.projectionRevision), ActionText(action), alert];
    MaterialTailText(s, action, alert);
    JoinSuffix(kind, tail);
    JoinSuffix(p.contentHash, [kind] + tail);
    JoinSuffix(version, [p.contentHash] + ([kind] + tail));
    JoinSuffix(p.policyId, [version] + ([p.contentHash] + ([kind] + tail)));
    JoinSuffix(p.tenantId, [p.policyId] + ([version] + ([p.contentHash] + ([kind] + tail))));
    assert Material(p, s, action, alert)
        == [p.tenantId] + ([p.policyId] + ([version] + ([p.contentHash] + ([kind] + tail))));
  }

  lemma MaterialTailInjective(
    s: SourceState, action: Action, alert: string, s': SourceState, action': Action, alert': string)
    requires SEPARATOR !in alert && SEPARATOR !in alert'
    requires MaterialTail(s, action, alert) == MaterialTail(s', action', alert')
    ensures s.subjectId == s'.subjectId && s.projectionRevision == s'.projectionRevision
    ensures action == action' && alert == alert'
  {
    var revision, revision' := Decimal(s.projectionRevision), Decimal(s'.projectionRevision);
    DecimalInjective(s.projectionRevision, s'.projectionRevision);
    DecimalInjective(s'.projectionRevision, s.projectionRevision);
    ActionTextsDiffer(action, action');
    ActionTextsDiffer(action', action);
    LastSplit(s.subjectId + [SEPARATOR] + revision + [SEPARATOR] + ActionText(action), alert,
              s'.subjectId + [SEPARATOR] + revision' + [SEPARATOR] + ActionText(action'), alert');
    LastSplit(s.subjectId + [SEPARATOR] + revision, ActionText(action),
              s'.subjectId + [SEPARATOR] + revision', ActionText(action'));
    LastSplit(s.subjectId, revision, s'.subjectId, revision');
  }

  lemma MaterialRestInjective(
    p: PolicyVersion, s: SourceState, action: Action, alert: string,
    p': PolicyVersion, s': SourceState, action': Action, alert': string)
    requires SEPARATOR !in p.contentHash && SEPARATOR !in p'.contentHash
    requires SEPARATOR !in alert && SEPARATOR !in alert'
    requires MaterialRest(p, s, action, alert) == MaterialRest(p', s', action', alert')
    ensures p.policyVersion == p'.policyVersion && p.contentHash == p'.contentHash && p.sourceKind == p'.sourceKind
    ensures s.subjectId == s'.subjectId && s.projectionRevision == s'.projectionRevision
    ensures action == action' && alert == alert'
  {
    var kind, kind' := KindText(p.sourceKind), KindText(p'.sourceKind);
    var tail, tail' := MaterialTail(s, action, alert), MaterialTail(s', action', alert');
    DecimalInjective(p.policyVersion, p'.policyVersion);
    DecimalInjective(p'.policyVersion, p.policyVersion);
    KindTextSeparatorFree(p.sourceKind);
    KindTextSeparatorFree(p'.sourceKind);
    FirstSplit(Decimal(p.policyVersion), p.contentHash + [SEPARATOR] + (kind + [SEPARATOR] + tail),
               Decimal(p'.policyVersion), p'.contentHash + [SEPARATOR] + (kind' + [SEPARATOR] + tail'));
    FirstSplit(p.contentHash, kind + [SEPARATOR] + tail, p'.contentHash, kind' + [SEPARATOR] + tail');
    FirstSplit(kind, tail, kind', tail');
    KindTextInjective(p.sourceKind, p'.sourceKind);
    MaterialTailInjective(s, action, alert, s', action', alert');
  }

  /** The joined material determines each of its nine components, whatever the subject. */
  lemma MaterialInjective(
    p: PolicyVersion, s: SourceState, action: Action, alert: string,
    p': PolicyVersion, s': SourceState, action': Action, alert': string)
    requires IdsUnambiguous(p) && IdsUnambiguous(p')
    requires SEPARATOR !in p.contentHash && SEPARATOR !in p'.contentHash
    requires SEPARATOR !in alert && SEPARATOR !in alert'
    requires Join(Material(p, s, action, alert)) == Join(Material(p', s', action', alert'))
    ensures SameIdentity(p, s, p', s') && p.contentHash == p'.contentHash && action == action' && alert == alert'
  {
    MaterialText(p, s, action, alert);
    MaterialText(p', s', action', alert');
    AfterVersion(p.policyVersion,
                 p.contentHash + [SEPARATOR] + (KindText(p.sourceKind) + [SEPARATOR] + MaterialTail(s, action, alert)));
    AfterVersion(p'.policyVersion,
                 p'.contentHash + [SEPARATOR] +
                 (KindText(p'.sourceKind) + [SEPARATOR] + MaterialTail(s', action', alert')));
    IdsSplit(p.tenantId, p.policyId, MaterialRest(p, s, action, alert),
             p'.tenantId, p'.policyId, MaterialRest(p', s', action', alert'));
    MaterialRestInjective(p, s, action, alert, p', s', action', alert');
  }

  /** The text that the decision hash of an evaluation is taken of. */
  function HashedText(p: PolicyVersion, s: SourceState, active: Option<ActiveAlert>, effective: bool): string
    requires PolicyValid(p)
  {
    Join(Material(p, s, Decide(p, s, active, effective), AlertText(active)))
  }

  /**
   Two decisions carry the same hash exactly when they were made on the same identity, policy content and active
   alert and decided the same action. Beside what decision ids need, policy content and alert id may not
   contain the separator; the subject may.
   */
  lemma DecisionHashesIdentify(
    p: PolicyVersion, s: SourceState, active: Option<ActiveAlert>, effective: bool,
    p': PolicyVersion, s': SourceState, active': Option<ActiveAlert>, effective': bool, hash: string -> string)
    requires Evaluate(p, s, active, effective, hash).Ok? && Evaluate(p', s', active', effective', hash).Ok?
    requires IdsUnambiguous(p) && IdsUnambiguous(p')
    requires SEPARATOR !in p.contentHash && SEPARATOR !in p'.contentHash
    requires SEPARATOR !in AlertText(active) && SEPARATOR !in AlertText(active')
    requires NoCollision(hash, HashedText(p, s, active, effective), HashedText(p', s', active', effective'))
    ensures var d := Evaluate(p, s, active, effective, hash).value;
            var d' := Evaluate(p', s', active', effective', hash).value;
            d.decisionHash == d'.decisionHash <==>
              && SameIdentity(p, s, p', s') && p.contentHash == p'.contentHash
              && d.action == d'.action && AlertText(active) == AlertText(active')
  {
    var action, action' := Decide(p, s, active, effective), Decide(p', s', active', effective');
    if HashedText(p, s, active, effective) == HashedText(p', s', active', effective') {
      MaterialInjective(p, s, action, AlertText(active), p', s', action', AlertText(active'));
    } else if SameIdentity(p, s, p', s') && p.contentHash == p'.contentHash {
      assert action == action' && AlertText(active) == AlertText(active') ==>
          Material(p, s, action, AlertText(active)) == Material(p', s', action', AlertText(active'));
    }
  }

  /** An alert id determines the decision that created the alert and the content of its policy. */
  lemma AlertIdsIdentify(id: string, content: string, id': string, content': string, hash: string -> string)
    requires SEPARATOR !in id && SEPARATOR !in id'
    requires NoCollision(hash, id + [SEPARATOR] + content, id' + [SEPARATOR] + content')
    ensures AlertId(id, content, hash) == AlertId(id', content', hash) <==> id == id' && content == content'
  {
    var a, b := id + [SEPARATOR] + content, id' + [SEPARATOR] + content';
    if AlertId(id, content, hash) == AlertId(id', content', hash) {
      SamePrefix("g7-alert:", hash(a), hash(b));
      FirstSplit(id, content, id', content');
    }
  }

  // ----- Where identities fail -----

  /** The same policy, and the same alert, under another tenant and policy id. */
  function Renamed(p: PolicyVersion, tenantId: string, policyId: string): PolicyVersion {
    p.(tenantId := tenantId, policyId := policyId)
  }

  function RenamedAlert(active: Option<ActiveAlert>, tenantId: string, policyId: string): Option<ActiveAlert> {
    if active.None? then None else Some(active.value.(tenantId := tenantId, policyId := policyId))
  }

  /** Another way to cut ambiguous ids: at a separator inside the tenant id, or inside the policy id. */
  lemma AmbiguousIdsCutTwice(tenantId: string, policyId: string)
    requires tenantId != "" && policyId != "" && !Unambiguous(tenantId, policyId)
    ensures exists t, q :: t != tenantId && SameIds(tenantId, policyId, t, q)
  {
    if i :| 1 <= i < |tenantId| && tenantId[i] == SEPARATOR {
      var t, q := tenantId[..i], tenantId[i + 1..] + [SEPARATOR] + policyId;
      assert tenantId == t + [SEPARATOR] + tenantId[i + 1..];
      assert SameIds(tenantId, policyId, t, q);
    } else {
      var j :| 0 <= j < |policyId| - 1 && policyId[j] == SEPARATOR;
      var t, q := tenantId + [SEPARATOR] + policyId[..j], policyId[j + 1..];
      assert policyId == policyId[..j] + [SEPARATOR] + q;
      assert SameIds(tenantId, policyId, t, q);
    }
  }

  /** Two pairs of legal ids with one joined text. */
  predicate SameIds(tenantId: string, policyId: string, t: string, q: string) {
    t != "" && q != "" && t + [SEPARATOR] + q == tenantId + [SEPARATOR] + policyId
  }

  lemma UnambiguousIdsCutOnce(tenantId: string, policyId: string, t: string, q: string)
    requires Unambiguous(tenantId, policyId) && SameIds(tenantId, policyId, t, q)
    ensures t == tenantId && q == policyId
  {
    var s := tenantId + [SEPARATOR] + policyId;
    forall i | 1 <= i < |s| - 1 && i != |tenantId| ensures s[i] != SEPARATOR {
      assert s[i] == if i < |tenantId| then tenantId[i] else policyId[i - |tenantId| - 1];
    }
    assert s[|t|] == SEPARATOR;
    assert t == s[..|t|] && q == s[|t| + 1..];
    assert tenantId == s[..|tenantId|] && policyId == s[|tenantId| + 1..];
  }

  lemma Reassociate(t: string, q: string, x: string)
    ensures t + [SEPARATOR] + (q + [SEPARATOR] + x) == (t + [SEPARATOR] + q) + ([SEPARATOR] + x)
  {
  }

  lemma SameSuffix(a: string, b: string, x: string)
    requires a + x == b + x
    ensures a == b
  {
    assert |a| == |b| && a == (a + x)[..|a|] && b == (b + x)[..|b|];
  }

  lemma RenamedTexts(p: PolicyVersion, s: SourceState, action: Action, alert: string, t: string, q: string)
    requires SameIds(p.tenantId, p.policyId, t, q)
    ensures var p', s' := Renamed(p, t, q), s.(tenantId := t);
            && Join(Identity(p', s')) == Join(Identity(p, s))
            && Join(Material(p', s', action, alert)) == Join(Material(p, s, action, alert))
  {
    var p', s' := Renamed(p, t, q), s.(tenantId := t);
    IdentityText(p, s);
    IdentityText(p', s');
    Reassociate(p.tenantId, p.policyId, IdentityRest(p, s));
    Reassociate(t, q, IdentityRest(p, s));
    MaterialText(p, s, action, alert);
    MaterialText(p', s', action, alert);
    Reassociate(p.tenantId, p.policyId, MaterialRest(p, s, action, alert));
    Reassociate(t, q, MaterialRest(p, s, action, alert));
  }

  lemma RenamedEvaluation(
    p: PolicyVersion, s: SourceState, active: Option<ActiveAlert>, effective: bool, hash: string -> string,
    t: string, q: string)
    requires Evaluate(p, s, active, effective, hash).Ok? && SameIds(p.tenantId, p.policyId, t, q)
    ensures Evaluate(Renamed(p, t, q), s.(tenantId := t), RenamedAlert(active, t, q), effective, hash)
         == Evaluate(p, s, active, effective, hash)
  {
    RenamedTexts(p, s, Decide(p, s, active, effective), AlertText(active), t, q);
  }

  /**
   A valid policy with ambiguous ids shares everything with a valid policy of another tenant: for the corresponding
   source state and alert both evaluations answer the very same decision, with the same id, hash and alert.
   */
  lemma AmbiguousIdsCollide(
    p: PolicyVersion, s: SourceState, active: Option<ActiveAlert>, effective: bool, hash: string -> string)
    requires Evaluate(p, s, active, effective, hash).Ok? && !IdsUnambiguous(p)
    ensures exists t, q ::
              && t != p.tenantId && PolicyValid(Renamed(p, t, q))
              && Evaluate(Renamed(p, t, q), s.(tenantId := t), RenamedAlert(active, t, q), effective, hash)
                 == Evaluate(p, s, active, effective, hash)
  {
    AmbiguousIdsCutTwice(p.tenantId, p.policyId);
    var t, q :| t != p.tenantId && SameIds(p.tenantId, p.policyId, t, q);
    RenamedEvaluation(p, s, active, effective, hash, t, q);
    assert PolicyValid(Renamed(p, t, q));
  }

  const SAMPLE_STATE :=
    SourceState("t", MonitoringProblem, "problem", "", "", "g", "g", "current", "current", 1, Some("active"),
                Some("critical"), None)

  const SAMPLE_POLICY :=
    PolicyVersion("t", "a" + [SEPARATOR] + "b", 1, MonitoringProblem, "c", Some("warning"), [], "", "")

  /** A concrete pair: policy `b` of tenant `t|a` and policy `a|b` of tenant `t`, with `|` for the separator. */
  lemma TwoTenantsOneDecision(hash: string -> string)
    ensures var p := SAMPLE_POLICY;
            var p' := Renamed(p, "t" + [SEPARATOR] + "a", "b");
            var s' := SAMPLE_STATE.(tenantId := p'.tenantId);
            && PolicyValid(p) && PolicyValid(p')
            && Evaluate(p, SAMPLE_STATE, None, true, hash).Ok?
            && Evaluate(p, SAMPLE_STATE, None, true, hash).value.action == CreateAlert
            && Evaluate(p', s', None, true, hash) == Evaluate(p, SAMPLE_STATE, None, true, hash)
  {
    var p := SAMPLE_POLICY;
    assert SameIds(p.tenantId, p.policyId, "t" + [SEPARATOR] + "a", "b");
    RenamedEvaluation(p, SAMPLE_STATE, None, true, hash, "t" + [SEPARATOR] + "a", "b");
  }

  ghost predicate Injective(hash: string -> string) {
    forall a, b :: hash(a) == hash(b) ==> a == b
  }

  /** No renaming that keeps version, kind, subject and revision has the same decision id. */
  ghost predicate OwnAmongRenamings(p: PolicyVersion, s: SourceState, hash: string -> string) {
    forall t, q | && t != "" && q != ""
                  && DecisionId(Renamed(p, t, q), s.(tenantId := t), hash) == DecisionId(p, s, hash) ::
      t == p.tenantId && q == p.policyId
  }

  lemma EqualIdsCutAlike(p: PolicyVersion, s: SourceState, hash: string -> string, t: string, q: string)
    requires Injective(hash) && t != "" && q != ""
    ensures DecisionId(Renamed(p, t, q), s.(tenantId := t), hash) == DecisionId(p, s, hash) <==>
            SameIds(p.tenantId, p.policyId, t, q)
  {
    var p', s' := Renamed(p, t, q), s.(tenantId := t);
    if SameIds(p.tenantId, p.policyId, t, q) {
      RenamedTexts(p, s, NoAction, "", t, q);
    }
    if DecisionId(p', s', hash) == DecisionId(p, s, hash) {
      SamePrefix("g7-decision:", hash(Join(Identity(p', s'))), hash(Join(Identity(p, s))));
      IdentityText(p, s);
      IdentityText(p', s');
      Reassociate(p.tenantId, p.policyId, IdentityRest(p, s));
      Reassociate(t, q, IdentityRest(p, s));
      SameSuffix(t + [SEPARATOR] + q, p.tenantId + [SEPARATOR] + p.policyId, [SEPARATOR] + IdentityRest(p, s));
    }
  }

  /** With a hash that never collides, no renaming shares the decision id exactly when the ids are unambiguous. */
  lemma OwnIffUnambiguous(p: PolicyVersion, s: SourceState, hash: string -> string)
    requires PolicyValid(p) && Injective(hash)
    ensures OwnAmongRenamings(p, s, hash) <==> IdsUnambiguous(p)
  {
    if IdsUnambiguous(p) {
      forall t, q | t != "" && q != ""
                    && DecisionId(Renamed(p, t, q), s.(tenantId := t), hash) == DecisionId(p, s, hash)
        ensures t == p.tenantId && q == p.policyId
      {
        EqualIdsCutAlike(p, s, hash, t, q);
        UnambiguousIdsCutOnce(p.tenantId, p.policyId, t, q);
      }
    } else {
      AmbiguousIdsCutTwice(p.tenantId, p.policyId);
      var t, q :| t != p.tenantId && SameIds(p.tenantId, p.policyId, t, q);
      EqualIdsCutAlike(p, s, hash, t, q);
    }
  }

  lemma ActionTextsDiffer(a: Action, b: Action)
    ensures ActionText(a) == ActionText(b) ==> a == b
    ensures SEPARATOR !in ActionText(a)
  {
    assert ActionText(CreateAlert)[0] == 'c' && ActionText(ResolveAlert)[0] == 'r' && ActionText(NoAction)[0] == 'n';
    forall i | 0 <= i < |ActionText(a)| ensures ActionText(a)[i] != SEPARATOR {
      assert ActionText(a)[i] >= 'a';
    }
  }

  lemma KindTextInjective(a: SourceKind, b: SourceKind)
    ensures KindText(a) == KindText(b) ==> a == b
  {
    assert |KindText(MonitoringProblem)| == 18 && |KindText(MonitoringHealthProjection)| == 28;
  }

  lemma SamePrefix(prefix: string, a: string, b: string)
    requires prefix + a == prefix + b
    ensures a == b
  {
    assert a == (prefix + a)[|prefix|..] && b == (prefix + b)[|prefix|..];
  }
}
