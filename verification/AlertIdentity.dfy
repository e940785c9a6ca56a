/**
 Which evaluations share a decision id. A decision id joins six components with the unit separator, so it may be cut in
 another way at separators inside the ids, or inside the subject. Both conditions can be checked before the call, and
 together they are exact.
 */
module AlertIdentity {
  import opened Foundation
  import opened Alerts

  // ----- Decimal texts can be recognised -----

  predicate PositiveDecimal(s: string) {
    s != "" && s[0] != '0' && forall i | 0 <= i < |s| :: Digit(s[i])
  }

  function ValueOf(s: string): nat
    requires forall i | 0 <= i < |s| :: Digit(s[i])
  {
    if s == "" then 0
    else
      assert Digit(s[|s| - 1]);
      10 * ValueOf(s[..|s| - 1]) + (s[|s| - 1] as int - '0' as int)
  }

  lemma {:induction false} DigitsLeadPositive(n: nat)
    requires n >= 1
    ensures PositiveDecimal(Digits(n))
  {
    DigitsShape(n);
    if n >= 10 {
      DigitsLeadPositive(n / 10);
      assert Digits(n)[0] == Digits(n / 10)[0];
    }
  }

  lemma {:induction false} DigitsOfValue(s: string)
    requires PositiveDecimal(s)
    ensures ValueOf(s) >= 1 && Digits(ValueOf(s)) == s
  {
    var front, last := s[..|s| - 1], s[|s| - 1] as int - '0' as int;
    assert s == front + [s[|s| - 1]];
    if front == "" {
      assert ValueOf(front) == 0;
    } else {
      DigitsOfValue(front);
      assert ValueOf(s) / 10 == ValueOf(front) && ValueOf(s) % 10 == last;
    }
  }

  // ----- Identities inside a subject -----

  /** The text starts with a version, a source kind and a separator behind each. */
  ghost predicate StartsWith(z: string, version: int, kind: SourceKind, rest: string) {
    version >= 1 && z == Decimal(version) + [SEPARATOR] + (KindText(kind) + [SEPARATOR] + rest)
  }

  function FirstSeparator(z: string): (n: nat)
    ensures n <= |z| && SEPARATOR !in z[..n]
    ensures n < |z| ==> z[n] == SEPARATOR
  {
    if z == "" || z[0] == SEPARATOR then 0
    else
      var n := 1 + FirstSeparator(z[1..]);
      assert z[..n] == [z[0]] + z[1..][..n - 1];
      n
  }

  predicate StartsWithKind(z: string, kind: SourceKind) {
    KindText(kind) + [SEPARATOR] <= z
  }

  predicate StartsIdentity(z: string) {
    var n := FirstSeparator(z);
    && n < |z|
    && PositiveDecimal(z[..n])
    && (StartsWithKind(z[n + 1..], MonitoringProblem) || StartsWithKind(z[n + 1..], MonitoringHealthProjection))
  }

  /** Somewhere in the subject, at its start or behind a separator, there is a version and a source kind. */
  predicate HidesIdentity(subject: string) {
    exists i | 0 <= i <= |subject| :: (i == 0 || subject[i - 1] == SEPARATOR) && StartsIdentity(subject[i..])
  }

  lemma KindThenRest(z: string, kind: SourceKind)
    requires StartsWithKind(z, kind)
    ensures z == KindText(kind) + [SEPARATOR] + z[|KindText(kind)| + 1..]
  {
    var prefix := KindText(kind) + [SEPARATOR];
    assert z == prefix + z[|prefix|..];
  }

  lemma VersionThenRest(z: string, n: nat)
    requires n < |z| && z[n] == SEPARATOR && PositiveDecimal(z[..n])
    ensures ValueOf(z[..n]) >= 1 && z == Decimal(ValueOf(z[..n])) + [SEPARATOR] + z[n + 1..]
  {
    DigitsOfValue(z[..n]);
  }

  lemma FoundIdentityStarts(z: string)
    requires StartsIdentity(z)
    ensures exists version, kind, rest :: StartsWith(z, version, kind, rest)
  {
    var n := FirstSeparator(z);
    var tail := z[n + 1..];
    var kind := if StartsWithKind(tail, MonitoringProblem) then MonitoringProblem else MonitoringHealthProjection;
    VersionThenRest(z, n);
    KindThenRest(tail, kind);
    assert StartsWith(z, ValueOf(z[..n]), kind, tail[|KindText(kind)| + 1..]);
  }

  lemma {:induction false} FirstSeparatorBehind(a: string, z: string)
    requires SEPARATOR !in a
    ensures FirstSeparator(a + [SEPARATOR] + z) == |a|
  {
    if a != "" {
      assert (a + [SEPARATOR] + z)[1..] == a[1..] + [SEPARATOR] + z;
      FirstSeparatorBehind(a[1..], z);
    }
  }

  lemma StartIsFound(z: string, version: int, kind: SourceKind, rest: string)
    requires StartsWith(z, version, kind, rest)
    ensures StartsIdentity(z)
  {
    var v, tail := Decimal(version), KindText(kind) + [SEPARATOR] + rest;
    DecimalInjective(version, 0);
    DigitsLeadPositive(version);
    FirstSeparatorBehind(v, tail);
    PiecesAround(v, tail);
    assert StartsWithKind(tail, kind);
  }

  lemma PiecesAround(a: string, z: string)
    ensures var s := a + [SEPARATOR] + z; |a| < |s| && s[..|a|] == a && s[|a| + 1..] == z
  {
  }

  // ----- Cutting a joined text at different places -----

  /** If the first piece of one cut has no separator, the other cut is the same or lies behind it. */
  lemma CutBehind(a: string, z: string, w: string, y: string)
    requires SEPARATOR !in a && a + [SEPARATOR] + z == w + [SEPARATOR] + y
    ensures (w == a && y == z) || exists x :: w == a + [SEPARATOR] + x && z == x + [SEPARATOR] + y
  {
    var s := a + [SEPARATOR] + z;
    forall i | 0 <= i < |a| ensures s[i] != SEPARATOR {
      assert s[i] == a[i] && a[i] in a;
    }
    assert s[|w|] == SEPARATOR;
    if |w| == |a| {
      assert w == s[..|a|] && y == s[|a| + 1..];
    } else {
      CutLonger(a, z, w, y);
    }
  }

  lemma CutLonger(a: string, z: string, w: string, y: string)
    requires a + [SEPARATOR] + z == w + [SEPARATOR] + y && |a| < |w|
    ensures exists x :: w == a + [SEPARATOR] + x && z == x + [SEPARATOR] + y
  {
    var s, x := a + [SEPARATOR] + z, w[|a| + 1..];
    assert w == s[..|w|] && w[..|a|] == a && w[|a|] == SEPARATOR;
    assert w == a + [SEPARATOR] + x;
    assert z == s[|a| + 1..];
    assert s[|a| + 1..] == x + [SEPARATOR] + y;
  }

  /** Version, kind and subject, joined. */
  function Triple(version: int, kind: SourceKind, subject: string): string {
    Decimal(version) + [SEPARATOR] + (KindText(kind) + [SEPARATOR] + subject)
  }

  lemma KindIsNoDecimal(version: int, kind: SourceKind)
    ensures Decimal(version) != KindText(kind)
  {
    DigitsShape(if version < 0 then -version else version);
    assert KindText(kind)[0] == 'm';
    assert Decimal(version)[0] == '-' || Digit(Decimal(version)[0]);
  }

  lemma TriplePieces(version: int, kind: SourceKind)
    ensures SEPARATOR !in Decimal(version) && SEPARATOR !in KindText(kind)
  {
    DecimalInjective(version, version);
    KindTextSeparatorFree(kind);
  }

  /** Where a triple is a tail of another one, it starts inside the subject, at its start or behind a separator. */
  lemma TripleInsideTriple(
    version: int, kind: SourceKind, subject: string, w: string, version': int, kind': SourceKind, subject': string)
    requires Triple(version, kind, subject) == w + [SEPARATOR] + Triple(version', kind', subject')
    ensures subject == Triple(version', kind', subject')
         || exists x :: subject == x + [SEPARATOR] + Triple(version', kind', subject')
  {
    var inner := Triple(version', kind', subject');
    TriplePieces(version, kind);
    TriplePieces(version', kind');
    CutBehind(Decimal(version), KindText(kind) + [SEPARATOR] + subject, w, inner);
    if w == Decimal(version) {
      FirstSplit(KindText(kind), subject, Decimal(version'), KindText(kind') + [SEPARATOR] + subject');
      KindIsNoDecimal(version', kind);
    }
    var x :| w == Decimal(version) + [SEPARATOR] + x
             && KindText(kind) + [SEPARATOR] + subject == x + [SEPARATOR] + inner;
    CutBehind(KindText(kind), subject, x, inner);
  }

  lemma TripleInSubjectHides(subject: string, version: int, kind: SourceKind, rest: string)
    requires version >= 1
    requires || subject == Triple(version, kind, rest)
             || exists x :: subject == x + [SEPARATOR] + Triple(version, kind, rest)
    ensures HidesIdentity(subject)
  {
    var inner := Triple(version, kind, rest);
    StartIsFound(inner, version, kind, rest);
    if subject == inner {
      assert subject[0..] == inner;
    } else {
      var x :| subject == x + [SEPARATOR] + inner;
      assert subject[|x| + 1..] == inner && subject[|x|] == SEPARATOR;
    }
  }

  // ----- The text behind a decision id -----

  function Ids(p: PolicyVersion): string { p.tenantId + [SEPARATOR] + p.policyId }

  function Core(p: PolicyVersion, s: SourceState): string {
    Ids(p) + [SEPARATOR] + Triple(p.policyVersion, p.sourceKind, s.subjectId)
  }

  lemma CoreText(p: PolicyVersion, s: SourceState)
    ensures Join(Identity(p, s)) == Core(p, s) + [SEPARATOR] + Decimal(s.projectionRevision)
  {
    IdentityText(p, s);
    Regrouped(p.tenantId, p.policyId, Decimal(p.policyVersion), KindText(p.sourceKind), s.subjectId,
              Decimal(s.projectionRevision));
  }

  lemma Regrouped(t: string, q: string, v: string, k: string, y: string, r: string)
    ensures t + [SEPARATOR] + (q + [SEPARATOR] + (v + [SEPARATOR] + (k + [SEPARATOR] + (y + [SEPARATOR] + r))))
         == t + [SEPARATOR] + q + [SEPARATOR] + (v + [SEPARATOR] + (k + [SEPARATOR] + y)) + [SEPARATOR] + r
  {
  }

  lemma TripleInjective(
    version: int, kind: SourceKind, subject: string, version': int, kind': SourceKind, subject': string)
    requires Triple(version, kind, subject) == Triple(version', kind', subject')
    ensures version == version' && kind == kind' && subject == subject'
  {
    TriplePieces(version, kind);
    TriplePieces(version', kind');
    FirstSplit(Decimal(version), KindText(kind) + [SEPARATOR] + subject,
               Decimal(version'), KindText(kind') + [SEPARATOR] + subject');
    FirstSplit(KindText(kind), subject, KindText(kind'), subject');
    DecimalInjective(version, version');
    KindTextInjective(kind, kind');
  }

  /** Unambiguous ids, joined, have one separator only between their first and their last character. */
  lemma OneInnerSeparator(p: PolicyVersion, i: nat)
    requires IdsUnambiguous(p) && 1 <= i < |Ids(p)| - 1 && Ids(p)[i] == SEPARATOR
    ensures i == |p.tenantId|
  {
    forall j | 1 <= j < |Ids(p)| - 1 && j != |p.tenantId| ensures Ids(p)[j] != SEPARATOR {
      assert Ids(p)[j] == if j < |p.tenantId| then p.tenantId[j] else p.policyId[j - |p.tenantId| - 1];
    }
  }

  lemma IdsHoldNoTriple(p: PolicyVersion, p': PolicyVersion, w: string, rest: string)
    requires IdsUnambiguous(p) && p'.tenantId != "" && p'.policyId != "" && rest != ""
    ensures Ids(p) != Ids(p') + [SEPARATOR] + rest
  {
    if Ids(p) == Ids(p') + [SEPARATOR] + rest {
      var i, j := |p'.tenantId|, |Ids(p')|;
      assert Ids(p)[i] == Ids(p')[i];
      assert Ids(p)[j] == SEPARATOR;
      OneInnerSeparator(p, i);
      OneInnerSeparator(p, j);
    }
  }

  /** Everything a decision id can be taken of. */
  predicate Evaluable(p: PolicyVersion, s: SourceState) {
    PolicyValid(p) && s.tenantId == p.tenantId && s.sourceKind == p.sourceKind
  }

  lemma SameIdsSameCut(p: PolicyVersion, s: SourceState, p': PolicyVersion, s': SourceState)
    requires IdsUnambiguous(p) && p'.tenantId != "" && p'.policyId != ""
    requires Core(p, s) == Core(p', s') && |Ids(p)| == |Ids(p')|
    ensures p.tenantId == p'.tenantId && p.policyId == p'.policyId
    ensures p.policyVersion == p'.policyVersion && p.sourceKind == p'.sourceKind && s.subjectId == s'.subjectId
  {
    var text, n := Core(p, s), |Ids(p)|;
    assert Ids(p) == text[..n] && Ids(p') == Core(p', s')[..n];
    assert Triple(p.policyVersion, p.sourceKind, s.subjectId) == text[n + 1..];
    assert Triple(p'.policyVersion, p'.sourceKind, s'.subjectId) == Core(p', s')[n + 1..];
    UnambiguousIdsCutOnce(p.tenantId, p.policyId, p'.tenantId, p'.policyId);
    TripleInjective(p.policyVersion, p.sourceKind, s.subjectId, p'.policyVersion, p'.sourceKind, s'.subjectId);
  }

  lemma LongerIdsHide(p: PolicyVersion, s: SourceState, p': PolicyVersion, s': SourceState)
    requires Core(p, s) == Core(p', s') && |Ids(p)| < |Ids(p')| && p'.policyVersion >= 1
    ensures HidesIdentity(s.subjectId)
  {
    var mine := Triple(p.policyVersion, p.sourceKind, s.subjectId);
    var other := Triple(p'.policyVersion, p'.sourceKind, s'.subjectId);
    CutLonger(Ids(p), mine, Ids(p'), other);
    var w :| Ids(p') == Ids(p) + [SEPARATOR] + w && mine == w + [SEPARATOR] + other;
    TripleInsideTriple(p.policyVersion, p.sourceKind, s.subjectId, w,
                       p'.policyVersion, p'.sourceKind, s'.subjectId);
    TripleInSubjectHides(s.subjectId, p'.policyVersion, p'.sourceKind, s'.subjectId);
  }

  lemma ShorterIdsCannotBe(p: PolicyVersion, s: SourceState, p': PolicyVersion, s': SourceState)
    requires IdsUnambiguous(p) && p'.tenantId != "" && p'.policyId != "" && p'.policyVersion >= 1
    requires Core(p, s) == Core(p', s')
    ensures |Ids(p')| >= |Ids(p)|
  {
    if |Ids(p')| < |Ids(p)| {
      var mine := Triple(p.policyVersion, p.sourceKind, s.subjectId);
      var other := Triple(p'.policyVersion, p'.sourceKind, s'.subjectId);
      CutLonger(Ids(p'), other, Ids(p), mine);
      var w :| Ids(p) == Ids(p') + [SEPARATOR] + w && other == w + [SEPARATOR] + mine;
      TriplePieces(p'.policyVersion, p'.sourceKind);
      CutBehind(Decimal(p'.policyVersion), KindText(p'.sourceKind) + [SEPARATOR] + s'.subjectId, w, mine);
      DigitsLeadPositive(p'.policyVersion);
      assert w != "";
      IdsHoldNoTriple(p, p', w, w);
    }
  }

  // ----- The exact condition -----

  /** Every valid policy and state with this decision id have all six components in common. */
  ghost predicate Faithful(p: PolicyVersion, s: SourceState, hash: string -> string) {
    forall p', s' | Evaluable(p', s') && DecisionId(p', s', hash) == DecisionId(p, s, hash) ::
      SameIdentity(p, s, p', s')
  }

  /** What a caller can check before the call. */
  predicate Unmistakable(p: PolicyVersion, s: SourceState) {
    IdsUnambiguous(p) && !HidesIdentity(s.subjectId)
  }

  lemma UnmistakableIsFaithful(p: PolicyVersion, s: SourceState, p': PolicyVersion, s': SourceState)
    requires Unmistakable(p, s) && Evaluable(p', s') && Join(Identity(p, s)) == Join(Identity(p', s'))
    ensures SameIdentity(p, s, p', s')
  {
    CoreText(p, s);
    CoreText(p', s');
    DecimalInjective(s.projectionRevision, s'.projectionRevision);
    DecimalInjective(s'.projectionRevision, s.projectionRevision);
    LastSplit(Core(p, s), Decimal(s.projectionRevision), Core(p', s'), Decimal(s'.projectionRevision));
    ShorterIdsCannotBe(p, s, p', s');
    if |Ids(p)| < |Ids(p')| {
      LongerIdsHide(p, s, p', s');
    } else {
      SameIdsSameCut(p, s, p', s');
    }
  }

  /** A valid policy of the same tenant and content, with another id, version and kind. */
  function Related(p: PolicyVersion, policyId: string, version: int, kind: SourceKind): PolicyVersion {
    var renamed := p.(policyId := policyId, policyVersion := version, sourceKind := kind);
    match kind
    case MonitoringProblem => renamed.(problemMinSeverity := Some("unknown"), healthClasses := [])
    case MonitoringHealthProjection => renamed.(problemMinSeverity := None, healthClasses := ["unknown"])
  }

  /** The policy id takes over the front of the subject, up to the identity that the subject hides. */
  function Swallowed(p: PolicyVersion, front: string): string {
    p.policyId + [SEPARATOR] + Decimal(p.policyVersion) + [SEPARATOR] + KindText(p.sourceKind) + front
  }

  lemma Swallow(t: string, q: string, v: string, k: string, y: string, front: string, inner: string)
    requires [SEPARATOR] + y == front + [SEPARATOR] + inner
    ensures t + [SEPARATOR] + q + [SEPARATOR] + (v + [SEPARATOR] + (k + [SEPARATOR] + y))
         == t + [SEPARATOR] + (q + [SEPARATOR] + v + [SEPARATOR] + k + front) + [SEPARATOR] + inner
  {
    var before := t + [SEPARATOR] + q + [SEPARATOR] + v + [SEPARATOR] + k;
    assert t + [SEPARATOR] + q + [SEPARATOR] + (v + [SEPARATOR] + (k + [SEPARATOR] + y))
        == before + ([SEPARATOR] + y);
    assert t + [SEPARATOR] + (q + [SEPARATOR] + v + [SEPARATOR] + k + front) + [SEPARATOR] + inner
        == before + (front + [SEPARATOR] + inner);
  }

  lemma SwallowedCore(p: PolicyVersion, s: SourceState, front: string, version: int, kind: SourceKind, rest: string)
    requires [SEPARATOR] + s.subjectId == front + [SEPARATOR] + Triple(version, kind, rest)
    ensures var p' := Related(p, Swallowed(p, front), version, kind);
            Core(p', s.(sourceKind := kind, subjectId := rest)) == Core(p, s)
  {
    Swallow(p.tenantId, p.policyId, Decimal(p.policyVersion), KindText(p.sourceKind), s.subjectId, front,
            Triple(version, kind, rest));
  }

  lemma SwallowedShares(
    p: PolicyVersion, s: SourceState, front: string, version: int, kind: SourceKind, rest: string,
    hash: string -> string)
    requires Evaluable(p, s) && version >= 1
    requires [SEPARATOR] + s.subjectId == front + [SEPARATOR] + Triple(version, kind, rest)
    ensures var p' := Related(p, Swallowed(p, front), version, kind);
            var s' := s.(sourceKind := kind, subjectId := rest);
            && Evaluable(p', s') && DecisionId(p', s', hash) == DecisionId(p, s, hash)
            && p'.tenantId == p.tenantId && p'.policyId != p.policyId && p'.contentHash == p.contentHash
  {
    var p', s' := Related(p, Swallowed(p, front), version, kind), s.(sourceKind := kind, subjectId := rest);
    SwallowedCore(p, s, front, version, kind, rest);
    CoreText(p, s);
    CoreText(p', s');
    assert |Swallowed(p, front)| > |p.policyId|;
  }

  /**
   A subject that hides an identity lets another valid policy of the same tenant and content share the decision id, and
   with it the id of the alert that such a decision creates.
   */
  lemma HiddenIdentityCollides(p: PolicyVersion, s: SourceState, hash: string -> string)
    requires Evaluable(p, s) && HidesIdentity(s.subjectId)
    ensures exists p', s' ::
              && Evaluable(p', s') && DecisionId(p', s', hash) == DecisionId(p, s, hash)
              && p'.tenantId == p.tenantId && p'.policyId != p.policyId && p'.contentHash == p.contentHash
  {
    var y := s.subjectId;
    var i :| 0 <= i <= |y| && (i == 0 || y[i - 1] == SEPARATOR) && StartsIdentity(y[i..]);
    FoundIdentityStarts(y[i..]);
    var version, kind, rest :| StartsWith(y[i..], version, kind, rest);
    var front := ([SEPARATOR] + y)[..i];
    HiddenAt(y, i, front);
    SwallowedShares(p, s, front, version, kind, rest, hash);
  }

  lemma HiddenAt(subject: string, i: nat, front: string)
    requires i <= |subject| && (i == 0 || subject[i - 1] == SEPARATOR)
    requires front == ([SEPARATOR] + subject)[..i]
    ensures [SEPARATOR] + subject == front + [SEPARATOR] + subject[i..]
  {
    var s := [SEPARATOR] + subject;
    assert s[i] == SEPARATOR && s[i + 1..] == subject[i..];
  }

  lemma AmbiguousIdsShared(p: PolicyVersion, s: SourceState, hash: string -> string)
    requires Evaluable(p, s) && !IdsUnambiguous(p)
    ensures exists p', s' ::
              && Evaluable(p', s') && DecisionId(p', s', hash) == DecisionId(p, s, hash)
              && p'.tenantId != p.tenantId
  {
    AmbiguousIdsCutTwice(p.tenantId, p.policyId);
    var t, q :| t != p.tenantId && SameIds(p.tenantId, p.policyId, t, q);
    RenamedTexts(p, s, NoAction, "", t, q);
    assert Evaluable(Renamed(p, t, q), s.(tenantId := t));
  }

  /**
   The decision id of a valid policy and a source state belongs to them alone, among all valid policies and all
   states, exactly when the ids are unambiguous and the subject hides no identity, provided that the hash never
   collides. That it is shared otherwise holds for every hash.
   */
  lemma FaithfulIffUnmistakable(p: PolicyVersion, s: SourceState, hash: string -> string)
    requires Evaluable(p, s)
    ensures Faithful(p, s, hash) ==> Unmistakable(p, s)
    ensures Injective(hash) ==> (Faithful(p, s, hash) <==> Unmistakable(p, s))
  {
    if !IdsUnambiguous(p) {
      AmbiguousIdsShared(p, s, hash);
    } else if HidesIdentity(s.subjectId) {
      HiddenIdentityCollides(p, s, hash);
    } else if Injective(hash) {
      forall p', s' | Evaluable(p', s') && DecisionId(p', s', hash) == DecisionId(p, s, hash)
        ensures SameIdentity(p, s, p', s')
      {
        SamePrefix("g7-decision:", hash(Join(Identity(p', s'))), hash(Join(Identity(p, s))));
        UnmistakableIsFaithful(p, s, p', s');
      }
    }
  }

  // ----- Concrete evaluations that share an identity or a hash -----

  const POLICY := PolicyVersion("t", "q", 1, MonitoringProblem, "c", Some("warning"), [], "", "")

  const HIDING_STATE :=
    SAMPLE_STATE.(subjectId := "x" + [SEPARATOR] + "2" + [SEPARATOR] + "monitoring_problem" + [SEPARATOR] + "y")

  const SWALLOWING_POLICY :=
    POLICY.(policyId := "q" + [SEPARATOR] + "1" + [SEPARATOR] + "monitoring_problem" + [SEPARATOR] + "x",
            policyVersion := 2)

  /**
   With `|` for the separator: policy `q`, version 1, on subject `x|2|monitoring_problem|y` decides as policy
   `q|1|monitoring_problem|x`, version 2, does on subject `y`, although the ids of the first are unambiguous.
   */
  lemma SubjectSharesDecision(hash: string -> string)
    ensures IdsUnambiguous(POLICY)
    ensures var d := Evaluate(POLICY, HIDING_STATE, None, true, hash);
            var d' := Evaluate(SWALLOWING_POLICY, SAMPLE_STATE.(subjectId := "y"), None, true, hash);
            && d.Ok? && d'.Ok? && d.value.action == CreateAlert && d'.value.action == CreateAlert
            && d.value.decisionId == d'.value.decisionId && d.value.alertId == d'.value.alertId
  {
    var s' := SAMPLE_STATE.(subjectId := "y");
    CoreText(POLICY, HIDING_STATE);
    CoreText(SWALLOWING_POLICY, s');
    SubjectSwallowed("t", "q", "1", "monitoring_problem", "x", "2", "y");
  }

  lemma SubjectSwallowed(t: string, q: string, v: string, k: string, x: string, v': string, y: string)
    ensures t + [SEPARATOR] + q + [SEPARATOR] +
            (v + [SEPARATOR] + (k + [SEPARATOR] + (x + [SEPARATOR] + v' + [SEPARATOR] + k + [SEPARATOR] + y)))
         == t + [SEPARATOR] + (q + [SEPARATOR] + v + [SEPARATOR] + k + [SEPARATOR] + x) + [SEPARATOR] +
            (v' + [SEPARATOR] + (k + [SEPARATOR] + y))
  {
  }

  /** An active alert of the policy, under this alert id and for this subject. */
  function AlertOf(alertId: string, subject: string): Option<ActiveAlert> {
    Some(ActiveAlert(alertId, "t", "q", 1, MonitoringProblem, subject, true))
  }

  function ClearedState(subject: string, revision: int): SourceState {
    SAMPLE_STATE.(subjectId := subject, projectionRevision := revision, problemState := Some("cleared"))
  }

  /**
   Why decision hashes ask for alert ids without a separator: resolving alert `7|resolve|z` of subject `x` at revision
   5 has the hash of resolving alert `z` of subject `x|5|resolve` at revision 7.
   */
  lemma AlertIdSharesHash(hash: string -> string)
    ensures var alert := "7" + [SEPARATOR] + "resolve" + [SEPARATOR] + "z";
            var subject := "x" + [SEPARATOR] + "5" + [SEPARATOR] + "resolve";
            var d := Evaluate(POLICY, ClearedState("x", 5), AlertOf(alert, "x"), true, hash);
            var d' := Evaluate(POLICY, ClearedState(subject, 7), AlertOf("z", subject), true, hash);
            && d.Ok? && d'.Ok? && d.value.action == ResolveAlert && d'.value.action == ResolveAlert
            && d.value.decisionHash == d'.value.decisionHash
  {
    var alert := "7" + [SEPARATOR] + "resolve" + [SEPARATOR] + "z";
    var subject := "x" + [SEPARATOR] + "5" + [SEPARATOR] + "resolve";
    MaterialText(POLICY, ClearedState("x", 5), ResolveAlert, alert);
    MaterialText(POLICY, ClearedState(subject, 7), ResolveAlert, "z");
    TailShifted("x", "5", "resolve", "7", "z");
  }

  lemma TailShifted(x: string, r: string, act: string, r': string, z: string)
    ensures x + [SEPARATOR] + r + [SEPARATOR] + act + [SEPARATOR] + (r' + [SEPARATOR] + act + [SEPARATOR] + z)
         == (x + [SEPARATOR] + r + [SEPARATOR] + act) + [SEPARATOR] + r' + [SEPARATOR] + act + [SEPARATOR] + z
  {
  }

  const DIVIDED_CONTENT := "c" + [SEPARATOR] + "monitoring_problem" + [SEPARATOR] + "x"

  /** Why they ask the same of policy content: content and subject can be divided in another way as well. */
  lemma ContentSharesHash(hash: string -> string)
    ensures var subject := "x" + [SEPARATOR] + "monitoring_problem" + [SEPARATOR] + "y";
            var p := POLICY.(contentHash := DIVIDED_CONTENT);
            var d := Evaluate(p, SAMPLE_STATE.(subjectId := "y"), None, true, hash);
            var d' := Evaluate(POLICY, SAMPLE_STATE.(subjectId := subject), None, true, hash);
            && d.Ok? && d'.Ok? && d.value.action == CreateAlert && d'.value.action == CreateAlert
            && d.value.decisionHash == d'.value.decisionHash
  {
    var s, s' := SAMPLE_STATE.(subjectId := "y"),
                 SAMPLE_STATE.(subjectId := "x" + [SEPARATOR] + "monitoring_problem" + [SEPARATOR] + "y");
    MaterialText(POLICY.(contentHash := DIVIDED_CONTENT), s, CreateAlert, "");
    MaterialText(POLICY, s', CreateAlert, "");
    ContentShifted("1", "c", "monitoring_problem", "x", "y", "1", "create", "");
  }

  lemma ContentShifted(
    v: string, c: string, k: string, x: string, y: string, r: string, act: string, alert: string)
    ensures v + [SEPARATOR] + ((c + [SEPARATOR] + k + [SEPARATOR] + x) + [SEPARATOR] +
            (k + [SEPARATOR] + (y + [SEPARATOR] + r + [SEPARATOR] + act + [SEPARATOR] + alert)))
         == v + [SEPARATOR] + (c + [SEPARATOR] +
            (k + [SEPARATOR] + ((x + [SEPARATOR] + k + [SEPARATOR] + y) + [SEPARATOR] + r + [SEPARATOR] + act
                                + [SEPARATOR] + alert)))
  {
  }
}
