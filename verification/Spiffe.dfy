/**
 Workload identities and their textual form: printing an identity as a SPIFFE id, and parsing a SPIFFE id through
 a general URL splitter followed by checks of the pieces (SPIFFE-ID standard, sections 2.1 and 2.2).
 */
module Spiffe {
  import opened Foundation

  datatype Environment = Development | Validation | Production | Recovery
  {
    function Text(): string {
      match this
      case Development => "environment.development@1"
      case Validation => "environment.validation@1"
      case Production => "environment.production@1"
      case Recovery => "environment.recovery@1"
    }
  }

  function EnvironmentOf(s: string): Option<Environment> {
    if s == Development.Text() then Some(Development)
    else if s == Validation.Text() then Some(Validation)
    else if s == Production.Text() then Some(Production)
    else if s == Recovery.Text() then Some(Recovery)
    else None
  }

  datatype WorkloadIdentity = WorkloadIdentity(
    trustDomain: string, environment: Environment, runtimeProfileId: string, workloadId: string)

  // ----- The grammars -----

  predicate DomainChar(c: char) { LowerLetter(c) || Digit(c) || c in ".-" }

  /** `[a-z0-9](?:[a-z0-9.-]{0,251}[a-z0-9])?`, without two dots in a row */
  predicate TrustDomain(s: string) {
    && 1 <= |s| <= 253
    && (LowerLetter(s[0]) || Digit(s[0]))
    && (LowerLetter(s[|s| - 1]) || Digit(s[|s| - 1]))
    && (forall i | 0 <= i < |s| :: DomainChar(s[i]))
    && forall i | 0 <= i < |s| - 1 :: !(s[i] == '.' && s[i + 1] == '.')
  }

  predicate SegmentChar(c: char) { AlphaNumeric(c) || c in "._@-" }

  /** `[A-Za-z0-9][A-Za-z0-9._@-]{0,127}` */
  predicate Segment(s: string) {
    && 1 <= |s| <= 128
    && AlphaNumeric(s[0])
    && forall i | 0 <= i < |s| :: SegmentChar(s[i])
  }

  /** `[a-z0-9-]+` pieces, at least two of them and the first one `runtime`, separated by single dots */
  predicate ProfileName(s: string) {
    && |s| > 8
    && s[..8] == "runtime."
    && (forall i | 0 <= i < |s| :: DomainChar(s[i]))
    && forall i | 0 <= i < |s| && s[i] == '.' :: i + 1 < |s| && s[i + 1] != '.'
  }

  /** `[1-9][0-9]*` */
  predicate ProfileVersion(s: string) {
    && |s| > 0
    && s[0] != '0'
    && forall i | 0 <= i < |s| :: Digit(s[i])
  }

  /** `runtime\.[a-z0-9-]+(?:\.[a-z0-9-]+)*@[1-9][0-9]*`; this grammar has no bound on the length */
  predicate RuntimeProfile(s: string) {
    var at := IndexOf(s, "@");
    at < |s| && ProfileName(s[..at]) && ProfileVersion(s[at + 1..])
  }

  /** What the constructor of an identity accepts. */
  predicate Valid(w: WorkloadIdentity) {
    TrustDomain(w.trustDomain) && RuntimeProfile(w.runtimeProfileId) && Segment(w.workloadId)
  }

  function Print(w: WorkloadIdentity): string {
    "spiffe://" + w.trustDomain + "/" + w.environment.Text() + "/" + w.runtimeProfileId + "/" + w.workloadId
  }

  // ----- Splitting a URL -----

  /** The position of the first character that is one of `stops`; the length when there is none. */
  function IndexOf(s: string, stops: string): (i: nat)
    ensures i <= |s|
    ensures forall k | 0 <= k < i :: s[k] !in stops
    ensures i < |s| ==> s[i] in stops
  {
    if s == [] || s[0] in stops then 0 else 1 + IndexOf(s[1..], stops)
  }

  function Lower(s: string): string {
    seq(|s|, i requires 0 <= i < |s| => if UpperLetter(s[i]) then s[i] - 'A' + 'a' else s[i])
  }

  function StripLeading(s: string): string {
    if s != [] && s[0] <= ' ' then StripLeading(s[1..]) else s
  }

  function DropLineBreaks(s: string): string {
    if s == [] then []
    else (if s[0] in "\t\r\n" then [] else [s[0]]) + DropLineBreaks(s[1..])
  }

  predicate SchemeText(s: string) {
    s != [] && forall i | 0 <= i < |s| :: AlphaNumeric(s[i]) || s[i] in "+-."
  }

  datatype Url = Url(scheme: string, netloc: string, path: string, query: string, fragment: string)

  function After(s: string, i: nat): string {
    if i < |s| then s[i + 1..] else ""
  }

  function SplitReference(scheme: string, netloc: string, rest: string): Url {
    var f := IndexOf(rest, "#");
    var beforeFragment := rest[..f];
    var q := IndexOf(beforeFragment, "?");
    Url(scheme, netloc, beforeFragment[..q], After(beforeFragment, q), After(rest, f))
  }

  function SplitAuthority(scheme: string, rest: string): Url {
    if "//" <= rest then
      var authority := rest[2..];
      var n := IndexOf(authority, "/?#");
      SplitReference(scheme, authority[..n], authority[n..])
    else SplitReference(scheme, "", rest)
  }

  function UrlSplit(text: string): Url {
    var url := DropLineBreaks(StripLeading(text));
    var i := IndexOf(url, ":");
    if i < |url| && SchemeText(url[..i]) then SplitAuthority(Lower(url[..i]), url[i + 1..])
    else SplitAuthority("", url)
  }

  /** The pieces of `path` between slashes. */
  function SplitPath(path: string): (pieces: seq<string>)
    ensures |pieces| > 0
    decreases |path|
  {
    var i := IndexOf(path, "/");
    if i == |path| then [path] else [path[..i]] + SplitPath(path[i + 1..])
  }

  // ----- Parsing -----

  predicate CarriesUserInfoOrPort(netloc: string) {
    exists i | 0 <= i < |netloc| :: netloc[i] in "@:[]"
  }

  function Parse(text: string): Result<WorkloadIdentity> {
    if '%' in text || '\\' in text then Err(AdmissionDenied)
    else
      var url := UrlSplit(text);
      if url.scheme != "spiffe" || url.netloc == "" || url.query != "" || url.fragment != "" then Err(AdmissionDenied)
      else if CarriesUserInfoOrPort(url.netloc) then Err(AdmissionDenied)
      else if Lower(url.netloc) != url.netloc || !TrustDomain(url.netloc) then Err(AdmissionDenied)
      else ParseSegments(text, url.netloc, SplitPath(url.path)[1..])
  }

  function ParseSegments(text: string, trustDomain: string, segments: seq<string>): Result<WorkloadIdentity> {
    if |segments| != 3 || exists i | 0 <= i < |segments| :: !Segment(segments[i]) then Err(AdmissionDenied)
    else
      var environment := EnvironmentOf(segments[0]);
      if environment.None? || !RuntimeProfile(segments[1]) then Err(AdmissionDenied)
      else
        var w := WorkloadIdentity(trustDomain, environment.value, segments[1], segments[2]);
        if !Valid(w) || Print(w) != text then Err(AdmissionDenied) else Ok(w)
  }

  // ----- Printed text splits into its pieces -----

  lemma {:induction false} IndexOfAt(front: string, back: string, stops: string)
    requires forall i | 0 <= i < |front| :: front[i] !in stops
    requires back == [] || back[0] in stops
    ensures IndexOf(front + back, stops) == |front|
  {
    if front == [] {
      assert front + back == back;
    } else {
      assert (front + back)[1..] == front[1..] + back;
      IndexOfAt(front[1..], back, stops);
    }
  }

  lemma {:induction false} CleanText(s: string)
    requires forall i | 0 <= i < |s| :: s[i] > ' '
    ensures StripLeading(s) == s && DropLineBreaks(s) == s
  {
    if s != [] {
      CleanText(s[1..]);
      assert s == [s[0]] + s[1..];
    }
  }

  predicate AllSegmentChars(s: string) {
    forall i | 0 <= i < |s| :: SegmentChar(s[i])
  }

  lemma ProfileChars(s: string)
    requires RuntimeProfile(s)
    ensures AllSegmentChars(s)
    ensures |s| > 0 && AlphaNumeric(s[0])
  {
    var at := IndexOf(s, "@");
    assert s[..at][0] == "runtime."[0];
    forall i | 0 <= i < |s| ensures SegmentChar(s[i]) {
      if i < at {
        assert DomainChar(s[..at][i]);
      } else if i > at {
        assert Digit(s[at + 1..][i - at - 1]);
      }
    }
  }

  /** A profile may be longer than any path segment; otherwise it is one. */
  lemma ProfileSegment(s: string)
    requires RuntimeProfile(s)
    ensures Segment(s) <==> |s| <= 128
  {
    ProfileChars(s);
  }

  lemma PrintedSegments(environment: Environment)
    ensures Segment(environment.Text())
    ensures EnvironmentOf(environment.Text()) == Some(environment)
  {
    match environment
    case Development =>
    case Validation =>
    case Production =>
    case Recovery =>
  }

  function PrintedPath(environment: string, profile: string, workload: string): string {
    "/" + (environment + ("/" + (profile + ("/" + workload))))
  }

  lemma SplitFirst(front: string, back: string)
    requires AllSegmentChars(front)
    ensures SplitPath(front + ("/" + back)) == [front] + SplitPath(back)
  {
    var path := front + ("/" + back);
    IndexOfAt(front, "/" + back, "/");
    assert path[..|front|] == front && path[|front| + 1..] == back;
  }

  lemma SplitLast(last: string)
    requires AllSegmentChars(last)
    ensures SplitPath(last) == [last]
  {
    IndexOfAt(last, "", "/");
    assert last + "" == last;
  }

  lemma PathSplits(environment: string, profile: string, workload: string)
    requires AllSegmentChars(environment) && AllSegmentChars(profile) && AllSegmentChars(workload)
    ensures SplitPath(PrintedPath(environment, profile, workload))[1..] == [environment, profile, workload]
  {
    SplitLast(workload);
    SplitFirst(profile, workload);
    var two := profile + ("/" + workload);
    SplitFirst(environment, two);
    LeadingSlash(environment + ("/" + two));
  }

  lemma LeadingSlash(rest: string)
    ensures SplitPath("/" + rest)[1..] == SplitPath(rest)
  {
    SplitFirst("", rest);
    assert "" + ("/" + rest) == "/" + rest;
  }

  predicate PlainChar(c: char) { SegmentChar(c) || c == '/' }

  predicate AllPlain(s: string) {
    forall i | 0 <= i < |s| :: PlainChar(s[i])
  }

  lemma ReferenceSplits(scheme: string, netloc: string, path: string)
    requires AllPlain(path)
    ensures SplitReference(scheme, netloc, path) == Url(scheme, netloc, path, "", "")
  {
    IndexOfAt(path, "", "#");
    IndexOfAt(path, "", "?");
    assert path + "" == path && path[..|path|] == path;
  }

  lemma AuthoritySplits(scheme: string, domain: string, path: string)
    requires TrustDomain(domain)
    requires "/" <= path && AllPlain(path)
    ensures SplitAuthority(scheme, "//" + domain + path) == Url(scheme, domain, path, "", "")
  {
    var authority := domain + path;
    assert "//" + domain + path == "//" + authority;
    assert ("//" + authority)[2..] == authority;
    assert forall i | 0 <= i < |domain| :: DomainChar(domain[i]);
    IndexOfAt(domain, path, "/?#");
    assert authority[..|domain|] == domain && authority[|domain|..] == path;
    ReferenceSplits(scheme, domain, path);
  }

  lemma PrintedPathPlain(environment: string, profile: string, workload: string)
    requires AllSegmentChars(environment) && AllSegmentChars(profile) && AllSegmentChars(workload)
    ensures "/" <= PrintedPath(environment, profile, workload)
    ensures AllPlain(PrintedPath(environment, profile, workload))
  {
    assert AllPlain(environment) && AllPlain(profile) && AllPlain(workload) && AllPlain("/");
  }

  predicate LowerWord(s: string) {
    s != [] && forall i | 0 <= i < |s| :: LowerLetter(s[i])
  }

  lemma SchemeSplits(scheme: string, rest: string)
    requires LowerWord(scheme) && AllPlain(rest)
    ensures UrlSplit(scheme + (":" + rest)) == SplitAuthority(scheme, rest)
  {
    var text := scheme + (":" + rest);
    assert forall i | 0 <= i < |text| :: LowerLetter(text[i]) || PlainChar(text[i]) || text[i] == ':';
    CleanText(text);
    IndexOfAt(scheme, ":" + rest, ":");
    assert text[..|scheme|] == scheme && text[|scheme| + 1..] == rest;
    assert Lower(scheme) == scheme;
  }

  lemma PlainHasNoEscapes(scheme: string, rest: string)
    requires LowerWord(scheme) && AllPlain(rest)
    ensures '%' !in scheme + (":" + rest) && '\\' !in scheme + (":" + rest)
  {
    var text := scheme + (":" + rest);
    assert forall i | 0 <= i < |text| :: LowerLetter(text[i]) || PlainChar(text[i]) || text[i] == ':';
  }

  lemma UrlSplits(scheme: string, domain: string, path: string, rest: string)
    requires LowerWord(scheme) && TrustDomain(domain) && "/" <= path && AllPlain(path)
    requires rest == "//" + domain + path
    ensures UrlSplit(scheme + (":" + rest)) == Url(scheme, domain, path, "", "")
    ensures '%' !in scheme + (":" + rest) && '\\' !in scheme + (":" + rest)
  {
    AuthoritySplits(scheme, domain, path);
    assert AllPlain(rest) by {
      DomainPlain(domain);
      RestPlain(domain, path);
    }
    SchemeSplits(scheme, rest);
    PlainHasNoEscapes(scheme, rest);
  }

  lemma RestPlain(domain: string, path: string)
    requires AllPlain(domain) && AllPlain(path)
    ensures AllPlain("//" + domain + path)
  {
  }

  lemma DomainPlain(domain: string)
    requires TrustDomain(domain)
    ensures AllPlain(domain)
  {
    assert forall i | 0 <= i < |domain| :: DomainChar(domain[i]);
  }

  lemma PrintShape(domain: string, environment: string, profile: string, workload: string)
    ensures "spiffe://" + domain + "/" + environment + "/" + profile + "/" + workload
         == "spiffe" + (":" + ("//" + domain + PrintedPath(environment, profile, workload)))
  {
    assert "spiffe://" == "spiffe" + (":" + "//");
  }

  /** Splitting a printed identity gives back its four parts, whatever the length of the profile. */
  lemma PrintedSplits(w: WorkloadIdentity)
    requires Valid(w)
    ensures var url := UrlSplit(Print(w));
            && url.scheme == "spiffe" && url.netloc == w.trustDomain && url.query == "" && url.fragment == ""
            && SplitPath(url.path)[1..] == [w.environment.Text(), w.runtimeProfileId, w.workloadId]
    ensures '%' !in Print(w) && '\\' !in Print(w)
  {
    var environment := w.environment.Text();
    PrintedSegments(w.environment);
    ProfileChars(w.runtimeProfileId);
    var path := PrintedPath(environment, w.runtimeProfileId, w.workloadId);
    PrintedPathPlain(environment, w.runtimeProfileId, w.workloadId);
    PrintShape(w.trustDomain, environment, w.runtimeProfileId, w.workloadId);
    UrlSplits("spiffe", w.trustDomain, path, "//" + w.trustDomain + path);
    PathSplits(environment, w.runtimeProfileId, w.workloadId);
  }

  lemma DomainIsLower(s: string)
    requires TrustDomain(s)
    ensures Lower(s) == s && !CarriesUserInfoOrPort(s)
  {
    assert forall i | 0 <= i < |s| :: DomainChar(s[i]);
  }

  lemma SegmentsParse(w: WorkloadIdentity, text: string)
    requires Valid(w) && text == Print(w)
    ensures ParseSegments(text, w.trustDomain, [w.environment.Text(), w.runtimeProfileId, w.workloadId])
         == if |w.runtimeProfileId| <= 128 then Ok(w) else Err(AdmissionDenied)
  {
    var environment := w.environment.Text();
    PrintedSegments(w.environment);
    ProfileSegment(w.runtimeProfileId);
    var segments := [environment, w.runtimeProfileId, w.workloadId];
    assert segments[1] == w.runtimeProfileId;
  }

  /**
   Parsing the printed form of an identity gives the identity back exactly when its profile fits in a path segment,
   and is denied otherwise: the constructor does not bound the profile, the segment grammar does.
   */
  lemma PrintThenParse(w: WorkloadIdentity)
    requires Valid(w)
    ensures Parse(Print(w)) == if |w.runtimeProfileId| <= 128 then Ok(w) else Err(AdmissionDenied)
  {
    PrintedSplits(w);
    DomainIsLower(w.trustDomain);
    SegmentsParse(w, Print(w));
  }

  /** The accepted texts are exactly the printed forms of the valid identities whose profile fits in a segment. */
  lemma ParseAcceptsExactlyPrinted(text: string, w: WorkloadIdentity)
    ensures Parse(text) == Ok(w) <==> Valid(w) && |w.runtimeProfileId| <= 128 && text == Print(w)
  {
    if Valid(w) {
      PrintThenParse(w);
    }
    if Parse(text) == Ok(w) {
      assert text == Print(w) && Valid(w);
    }
  }

  /** Two valid identities print alike only when they are the same, even those the parser denies. */
  lemma PrintInjective(v: WorkloadIdentity, w: WorkloadIdentity)
    requires Valid(v) && Valid(w) && Print(v) == Print(w)
    ensures v == w
  {
    PrintedSplits(v);
    PrintedSplits(w);
    var a, b := [v.environment.Text(), v.runtimeProfileId, v.workloadId],
                [w.environment.Text(), w.runtimeProfileId, w.workloadId];
    assert a[0] == b[0] && a[1] == b[1] && a[2] == b[2];
    PrintedSegments(v.environment);
    PrintedSegments(w.environment);
  }

  lemma ProfileOf(name: string, version: string)
    requires ProfileName(name) && ProfileVersion(version)
    ensures RuntimeProfile(name + "@" + version)
  {
    var s := name + ("@" + version);
    assert forall i | 0 <= i < |name| :: DomainChar(name[i]);
    IndexOfAt(name, "@" + version, "@");
    assert s[..|name|] == name && s[|name| + 1..] == version;
    assert name + "@" + version == s;
  }

  function LongVersion(n: nat): string { seq(n + 1, i => if i == 0 then '1' else '0') }

  lemma ShortestName()
    ensures ProfileName("runtime.a")
  {
    assert "runtime.a"[..8] == "runtime.";
  }

  /** The denial is not an empty case: valid identities whose printed form their own parser denies. */
  lemma LongProfileDenied(w: WorkloadIdentity, n: nat)
    requires TrustDomain(w.trustDomain) && Segment(w.workloadId) && n >= 118
    requires w.runtimeProfileId == "runtime.a" + "@" + LongVersion(n)
    ensures Valid(w) && Parse(Print(w)) == Err(AdmissionDenied)
  {
    ShortestName();
    ProfileOf("runtime.a", LongVersion(n));
    PrintThenParse(w);
  }

  // ----- The four environments -----

  lemma PrintedEnvironments(domain: string, profile: string, workload: string)
    ensures Print(WorkloadIdentity(domain, Development, profile, workload))
         == "spiffe://" + domain + "/" + "environment.development@1" + "/" + profile + "/" + workload
    ensures Print(WorkloadIdentity(domain, Validation, profile, workload))
         == "spiffe://" + domain + "/" + "environment.validation@1" + "/" + profile + "/" + workload
    ensures Print(WorkloadIdentity(domain, Production, profile, workload))
         == "spiffe://" + domain + "/" + "environment.production@1" + "/" + profile + "/" + workload
    ensures Print(WorkloadIdentity(domain, Recovery, profile, workload))
         == "spiffe://" + domain + "/" + "environment.recovery@1" + "/" + profile + "/" + workload
  {
  }
}
