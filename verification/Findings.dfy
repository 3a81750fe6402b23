/** normalize_findings: a scan report becomes one finding per component identity,
    or is refused. */
module Findings {
  import opened Options
  import opened Sorting

  datatype Severity = Critical | High

  datatype Identity = Identity(
    resultClass: string, resultType: string, target: string, vulnerabilityId: string,
    packageName: string, packageId: string, packagePath: string, installedVersion: string)

  datatype Finding = Finding(identity: Identity, severity: Severity, fixedVersion: string)

  /** One vulnerability object; an absent optional text is "". */
  datatype Vulnerability = Vulnerability(
    severity: string, vulnerabilityId: string, packageName: string, packageId: string,
    packagePath: string, installedVersion: string, fixedVersion: string)

  datatype ScanResult = ScanResult(
    target: string, resultClass: string, resultType: string, vulnerabilities: seq<Vulnerability>)

  /** osTarget is "os:family/name", or None when the metadata do not give it. */
  datatype Report = Report(osTarget: Option<string>, results: seq<ScanResult>)

  type Normalized = map<Identity, Finding>

  function SeverityOf(text: string): Option<Severity> {
    if text == "CRITICAL" then Some(Critical) else if text == "HIGH" then Some(High) else None
  }

  predicate HeaderValid(osTarget: Option<string>, r: ScanResult) {
    && r.target != "" && r.resultClass != "" && r.resultType != ""
    && (r.resultClass == "os-pkgs" ==> osTarget.Some?)
  }

  function StableTarget(osTarget: Option<string>, r: ScanResult): string
    requires HeaderValid(osTarget, r)
  {
    if r.resultClass == "os-pkgs" then osTarget.value else r.target
  }

  predicate VulnerabilityValid(v: Vulnerability) {
    && SeverityOf(v.severity).Some? && v.vulnerabilityId != "" && v.packageName != ""
    && v.installedVersion != ""
  }

  function FindingOf(osTarget: Option<string>, r: ScanResult, v: Vulnerability): Finding
    requires HeaderValid(osTarget, r) && VulnerabilityValid(v)
  {
    Finding(
      Identity(r.resultClass, r.resultType, StableTarget(osTarget, r), v.vulnerabilityId,
               v.packageName, v.packageId, v.packagePath, v.installedVersion),
      SeverityOf(v.severity).value, v.fixedVersion)
  }

  // ---- The report as sets: headers and findings, without any order ----

  predicate ResultValid(osTarget: Option<string>, r: ScanResult) {
    HeaderValid(osTarget, r) && forall v | v in r.vulnerabilities :: VulnerabilityValid(v)
  }

  predicate Acceptable(report: Report) {
    report.results != [] && forall r | r in report.results :: ResultValid(report.osTarget, r)
  }

  function FindingsOf(osTarget: Option<string>, r: ScanResult): set<Finding>
    requires ResultValid(osTarget, r)
  {
    set v | v in r.vulnerabilities :: FindingOf(osTarget, r, v)
  }

  function AllFindings(osTarget: Option<string>, results: seq<ScanResult>): set<Finding>
    requires forall r | r in results :: ResultValid(osTarget, r)
  {
    if results == [] then {}
    else
      AllFindings(osTarget, results[..|results| - 1])
      + FindingsOf(osTarget, results[|results| - 1])
  }

  /** Duplicates agree. */
  predicate Consistent(s: set<Finding>) {
    forall f, g | f in s && g in s && f.identity == g.identity :: f == g
  }

  /** The map holds exactly these findings, each under its identity. */
  predicate Indexes(m: Normalized, s: set<Finding>) {
    && (forall f | f in s :: f.identity in m && m[f.identity] == f)
    && (forall k | k in m :: m[k].identity == k && m[k] in s)
  }

  /** The loops over results and their vulnerabilities. */
  method Normalize(report: Report) returns (r: Option<Normalized>)
    ensures r.Some? <==> Acceptable(report) && Consistent(AllFindings(report.osTarget, report.results))
    ensures r.Some? ==> Indexes(r.value, AllFindings(report.osTarget, report.results))
  {
    if report.results == [] { return None; }
    var normalized: Normalized := map[];
    ghost var seen: set<Finding> := {};
    for i := 0 to |report.results|
      invariant forall k | 0 <= k < i :: ResultValid(report.osTarget, report.results[k])
      invariant seen == AllFindings(report.osTarget, report.results[..i])
      invariant Indexes(normalized, seen)
    {
      var result := report.results[i];
      assert result in report.results;
      if !HeaderValid(report.osTarget, result) { return None; }
      var added: Option<Normalized> := AddResult(normalized, seen, report.osTarget, result);
      assert report.results[..i + 1][..i] == report.results[..i];
      if added.None? {
        Refused(report, i, seen);
        return None;
      }
      normalized := added.value;
      seen := seen + FindingsOf(report.osTarget, result);
    }
    assert report.results[..|report.results|] == report.results;
    r := Some(normalized);
  }

  /** The inner loop: a conflicting duplicate or an invalid vulnerability refuses. */
  method AddResult(before: Normalized, ghost seen: set<Finding>, osTarget: Option<string>, result: ScanResult)
      returns (r: Option<Normalized>)
    requires HeaderValid(osTarget, result) && Indexes(before, seen)
    ensures r.Some? ==> ResultValid(osTarget, result) && Indexes(r.value, seen + FindingsOf(osTarget, result))
    ensures r.None? ==> !ResultValid(osTarget, result) || !Consistent(seen + FindingsOf(osTarget, result))
  {
    hide Indexes, Consistent, ResultValid, FirstFindings, FindingsOf, VulnerabilityValid, HeaderValid,
      SeverityOf, StableTarget, FindingOf;
    var normalized := before;
    ghost var now := seen;
    FirstFindingsNone(osTarget, result);
    for j := 0 to |result.vulnerabilities|
      invariant forall k | 0 <= k < j :: VulnerabilityValid(result.vulnerabilities[k])
      invariant now == seen + FirstFindings(osTarget, result, j)
      invariant Indexes(normalized, now)
    {
      var v := result.vulnerabilities[j];
      if !VulnerabilityValid(v) {
        InvalidAt(osTarget, result, j);
        return None;
      }
      var finding := FindingOf(osTarget, result, v);
      FirstFindingsStep(osTarget, result, j);
      if finding.identity in normalized && normalized[finding.identity] != finding {
        Conflict(normalized, seen, osTarget, result, j);
        return None;
      }
      IndexesOneMore(normalized, now, finding);
      normalized := normalized[finding.identity := finding];
      now := now + {finding};
    }
    FirstFindingsAll(osTarget, result, |result.vulnerabilities|);
    r := Some(normalized);
  }

  lemma InvalidAt(osTarget: Option<string>, r: ScanResult, j: nat)
    requires j < |r.vulnerabilities| && !VulnerabilityValid(r.vulnerabilities[j])
    ensures !ResultValid(osTarget, r)
  {
    assert r.vulnerabilities[j] in r.vulnerabilities;
  }

  function FirstFindings(osTarget: Option<string>, r: ScanResult, n: nat): set<Finding>
    requires HeaderValid(osTarget, r) && n <= |r.vulnerabilities|
    requires forall k | 0 <= k < n :: VulnerabilityValid(r.vulnerabilities[k])
  {
    set k | 0 <= k < n :: FindingOf(osTarget, r, r.vulnerabilities[k])
  }

  lemma FirstFindingsNone(osTarget: Option<string>, r: ScanResult)
    requires HeaderValid(osTarget, r)
    ensures FirstFindings(osTarget, r, 0) == {}
  {
  }

  lemma FirstFindingsStep(osTarget: Option<string>, r: ScanResult, n: nat)
    requires HeaderValid(osTarget, r) && n < |r.vulnerabilities|
    requires forall k | 0 <= k <= n :: VulnerabilityValid(r.vulnerabilities[k])
    ensures FirstFindings(osTarget, r, n + 1)
         == FirstFindings(osTarget, r, n) + {FindingOf(osTarget, r, r.vulnerabilities[n])}
  {
  }

  lemma FirstFindingsAll(osTarget: Option<string>, r: ScanResult, n: nat)
    requires HeaderValid(osTarget, r) && n <= |r.vulnerabilities|
    requires forall k | 0 <= k < n :: VulnerabilityValid(r.vulnerabilities[k])
    ensures n == |r.vulnerabilities| ==> ResultValid(osTarget, r)
    ensures ResultValid(osTarget, r) ==> FirstFindings(osTarget, r, n) <= FindingsOf(osTarget, r)
    ensures n == |r.vulnerabilities| ==> FirstFindings(osTarget, r, n) == FindingsOf(osTarget, r)
  {
    if n == |r.vulnerabilities| {
      forall f | f in FindingsOf(osTarget, r) ensures f in FirstFindings(osTarget, r, n) {
        var v :| v in r.vulnerabilities && f == FindingOf(osTarget, r, v);
        var k :| 0 <= k < n && r.vulnerabilities[k] == v;
      }
    }
  }

  lemma Conflict(m: Normalized, seen: set<Finding>, osTarget: Option<string>, r: ScanResult, n: nat)
    requires HeaderValid(osTarget, r) && n < |r.vulnerabilities|
    requires forall k | 0 <= k <= n :: VulnerabilityValid(r.vulnerabilities[k])
    requires Indexes(m, seen + FirstFindings(osTarget, r, n))
    requires var f := FindingOf(osTarget, r, r.vulnerabilities[n]); f.identity in m && m[f.identity] != f
    ensures ResultValid(osTarget, r) ==> !Consistent(seen + FindingsOf(osTarget, r))
  {
    if ResultValid(osTarget, r) {
      var f, all := FindingOf(osTarget, r, r.vulnerabilities[n]), seen + FindingsOf(osTarget, r);
      FirstFindingsAll(osTarget, r, n);
      var g := m[f.identity];
      assert r.vulnerabilities[n] in r.vulnerabilities;
      assert f in all && g in all && f.identity == g.identity;
    }
  }

  lemma IndexesOneMore(m: Normalized, s: set<Finding>, f: Finding)
    requires Indexes(m, s) && (f.identity in m ==> m[f.identity] == f)
    ensures Indexes(m[f.identity := f], s + {f})
  {
  }

  lemma Refused(report: Report, i: nat, seen: set<Finding>)
    requires i < |report.results|
    requires forall k | 0 <= k < i :: ResultValid(report.osTarget, report.results[k])
    requires seen == AllFindings(report.osTarget, report.results[..i])
    requires !ResultValid(report.osTarget, report.results[i])
             || !Consistent(seen + FindingsOf(report.osTarget, report.results[i]))
    ensures !(Acceptable(report) && Consistent(AllFindings(report.osTarget, report.results)))
  {
    if Acceptable(report) {
      AllFindingsMembers(report.osTarget, report.results);
      AllFindingsMembers(report.osTarget, report.results[..i]);
      assert seen + FindingsOf(report.osTarget, report.results[i])
          <= AllFindings(report.osTarget, report.results) by {
        forall f | f in seen ensures f in AllFindings(report.osTarget, report.results) {
          var r :| r in report.results[..i] && f in FindingsOf(report.osTarget, r);
        }
      }
    }
  }

  lemma {:induction false} AllFindingsMembers(osTarget: Option<string>, results: seq<ScanResult>)
    requires forall r | r in results :: ResultValid(osTarget, r)
    ensures forall f :: f in AllFindings(osTarget, results) <==>
              exists r | r in results :: f in FindingsOf(osTarget, r)
  {
    if results != [] {
      var n := |results| - 1;
      AllFindingsMembers(osTarget, results[..n]);
      assert results == results[..n] + [results[n]];
    }
  }

  // ---- What a report must say ----

  /** A report is acceptable if and only if it has results, each names its target, class and
      type, OS packages come with an OS, and every vulnerability is high or critical and names
      itself, its package and its version. */
  lemma AcceptableExactly(report: Report)
    ensures Acceptable(report) <==>
      && |report.results| > 0
      && (forall r | r in report.results ::
            && |r.target| > 0 && |r.resultClass| > 0 && |r.resultType| > 0
            && (r.resultClass == "os-pkgs" ==> report.osTarget.Some?)
            && (forall v | v in r.vulnerabilities ::
                  && (v.severity == "CRITICAL" || v.severity == "HIGH")
                  && |v.vulnerabilityId| > 0 && |v.packageName| > 0 && |v.installedVersion| > 0))
  {
  }

  // ---- What a finding says ----

  /** The two vulnerabilities are of one component: the same OS, or else the same target. */
  predicate SameComponent(a: Option<string>, r: ScanResult, v: Vulnerability,
                          b: Option<string>, q: ScanResult, u: Vulnerability) {
    && r.resultClass == q.resultClass && r.resultType == q.resultType
    && (if r.resultClass == "os-pkgs" then a == b else r.target == q.target)
    && v.vulnerabilityId == u.vulnerabilityId && v.packageName == u.packageName && v.packageId == u.packageId
    && v.packagePath == u.packagePath && v.installedVersion == u.installedVersion
  }

  function Only(r: ScanResult, v: Vulnerability): ScanResult { r.(vulnerabilities := [v]) }

  /** Findings of two vulnerabilities, of one report or of two, share their identity if and
      only if they are of one component, and are equal if and only if severity and fix
      agree as well. */
  lemma IdentityExact(a: Option<string>, r: ScanResult, v: Vulnerability,
                      b: Option<string>, q: ScanResult, u: Vulnerability)
    requires ResultValid(a, Only(r, v)) && ResultValid(b, Only(q, u))
    ensures |FindingsOf(a, Only(r, v))| == |FindingsOf(b, Only(q, u))| == 1
    ensures forall f, g | f in FindingsOf(a, Only(r, v)) && g in FindingsOf(b, Only(q, u)) ::
              && (f.identity == g.identity <==> SameComponent(a, r, v, b, q, u))
              && (f == g <==> SameComponent(a, r, v, b, q, u) && v.severity == u.severity
                              && v.fixedVersion == u.fixedVersion)
  {
    OnlyFinding(a, r, v);
    OnlyFinding(b, q, u);
  }

  lemma OnlyFinding(osTarget: Option<string>, r: ScanResult, v: Vulnerability)
    requires ResultValid(osTarget, Only(r, v))
    ensures VulnerabilityValid(v) && FindingsOf(osTarget, Only(r, v)) == {FindingOf(osTarget, r, v)}
  {
    assert v in Only(r, v).vulnerabilities;
  }

  /** The finding says of this vulnerability what the report says. */
  predicate Tells(f: Finding, osTarget: Option<string>, r: ScanResult, v: Vulnerability) {
    var i := f.identity;
    && i.resultClass == r.resultClass && i.resultType == r.resultType
    && (if r.resultClass == "os-pkgs" then osTarget == Some(i.target) else i.target == r.target)
    && i.vulnerabilityId == v.vulnerabilityId && i.packageName == v.packageName && i.packageId == v.packageId
    && i.packagePath == v.packagePath && i.installedVersion == v.installedVersion
    && v.severity == (if f.severity.Critical? then "CRITICAL" else "HIGH") && f.fixedVersion == v.fixedVersion
  }

  ghost predicate ToldBy(f: Finding, report: Report) {
    exists r, v | r in report.results && v in r.vulnerabilities :: Tells(f, report.osTarget, r, v)
  }

  ghost predicate ToldIn(m: Normalized, osTarget: Option<string>, r: ScanResult, v: Vulnerability) {
    exists k | k in m :: Tells(m[k], osTarget, r, v)
  }

  /** A normalized report holds exactly what the report says: every entry is told by some
      vulnerability of it, and every vulnerability has its entry. */
  lemma EntriesTold(report: Report, m: Normalized)
    requires Acceptable(report) && Indexes(m, AllFindings(report.osTarget, report.results))
    ensures forall k | k in m :: ToldBy(m[k], report)
    ensures forall r, v | r in report.results && v in r.vulnerabilities :: ToldIn(m, report.osTarget, r, v)
  {
    AllFindingsMembers(report.osTarget, report.results);
    forall k | k in m ensures ToldBy(m[k], report) {
      var r :| r in report.results && m[k] in FindingsOf(report.osTarget, r);
      var v :| v in r.vulnerabilities && m[k] == FindingOf(report.osTarget, r, v);
      assert Tells(m[k], report.osTarget, r, v);
    }
    forall r, v | r in report.results && v in r.vulnerabilities ensures ToldIn(m, report.osTarget, r, v) {
      var f := FindingOf(report.osTarget, r, v);
      assert f in FindingsOf(report.osTarget, r);
      assert m[f.identity] == f && Tells(f, report.osTarget, r, v);
    }
  }

  // ---- Order independence ----

  /** The name under which OS packages were scanned is not part of a finding. */
  predicate SameSource(r: ScanResult, q: ScanResult) {
    r.target == q.target || (r.resultClass == "os-pkgs" && r.target != "" && q.target != "")
  }

  /** Every result of a occurs in b, up to the order of its vulnerabilities and the scanned
      name of OS packages. */
  ghost predicate Covers(a: Report, b: Report) {
    forall r | r in a.results :: exists q | q in b.results :: SameResult(r, q)
  }

  /** The same results up to order and the scanned names of OS packages, each with the same
      vulnerabilities up to order and repetition. */
  ghost predicate SameUpToOrder(a: Report, b: Report) {
    a.osTarget == b.osTarget && Covers(a, b) && Covers(b, a)
  }

  predicate SameResult(r: ScanResult, q: ScanResult) {
    && SameSource(r, q) && r.resultClass == q.resultClass && r.resultType == q.resultType
    && (forall v | v in r.vulnerabilities :: v in q.vulnerabilities)
    && (forall v | v in q.vulnerabilities :: v in r.vulnerabilities)
  }

  lemma SameFindings(osTarget: Option<string>, r: ScanResult, q: ScanResult)
    requires SameResult(r, q)
    ensures ResultValid(osTarget, r) <==> ResultValid(osTarget, q)
    ensures ResultValid(osTarget, r) ==> FindingsOf(osTarget, r) == FindingsOf(osTarget, q)
  {
    if ResultValid(osTarget, r) {
      forall f ensures f in FindingsOf(osTarget, r) <==> f in FindingsOf(osTarget, q) {
        if f in FindingsOf(osTarget, r) {
          var v :| v in r.vulnerabilities && f == FindingOf(osTarget, r, v);
          assert v in q.vulnerabilities && f == FindingOf(osTarget, q, v);
        }
        if f in FindingsOf(osTarget, q) {
          var v :| v in q.vulnerabilities && f == FindingOf(osTarget, q, v);
          assert v in r.vulnerabilities && f == FindingOf(osTarget, r, v);
        }
      }
    }
  }

  lemma NotEmptied(a: Report, b: Report)
    requires Covers(a, b) && a.results != []
    ensures b.results != []
  {
    assert a.results[0] in a.results;
  }

  lemma AcceptableCarries(a: Report, b: Report)
    requires a.osTarget == b.osTarget && b.results != [] && Covers(b, a) && Acceptable(a)
    ensures Acceptable(b)
  {
    forall q | q in b.results ensures ResultValid(b.osTarget, q) {
      var r :| r in a.results && SameResult(q, r);
      SameFindings(b.osTarget, q, r);
    }
  }

  lemma FindingsCarry(a: Report, b: Report)
    requires a.osTarget == b.osTarget && Covers(a, b) && Acceptable(a) && Acceptable(b)
    ensures AllFindings(a.osTarget, a.results) <= AllFindings(b.osTarget, b.results)
  {
    AllFindingsMembers(a.osTarget, a.results);
    AllFindingsMembers(b.osTarget, b.results);
    forall f | f in AllFindings(a.osTarget, a.results) ensures f in AllFindings(b.osTarget, b.results) {
      var r :| r in a.results && f in FindingsOf(a.osTarget, r);
      var q :| q in b.results && SameResult(r, q);
      SameFindings(a.osTarget, r, q);
    }
  }

  /** Reordering results, or vulnerabilities within results, or scanning the OS packages under
      another name changes neither whether a report is accepted nor the findings it holds. */
  lemma OrderIndependent(a: Report, b: Report)
    requires SameUpToOrder(a, b)
    ensures Acceptable(a) <==> Acceptable(b)
    ensures Acceptable(a) ==> AllFindings(a.osTarget, a.results) == AllFindings(b.osTarget, b.results)
  {
    if Acceptable(a) {
      NotEmptied(a, b);
      AcceptableCarries(a, b);
    }
    if Acceptable(b) {
      NotEmptied(b, a);
      AcceptableCarries(b, a);
    }
    if Acceptable(a) {
      FindingsCarry(a, b);
      FindingsCarry(b, a);
    }
  }

  /** Two maps that index the same findings are the same map. */
  lemma IndexUnique(m: Normalized, n: Normalized, s: set<Finding>)
    requires Indexes(m, s) && Indexes(n, s)
    ensures m == n
  {
    assert m.Keys == n.Keys;
  }

  // ---- The output order ----

  /** The dataclass order of identities. */
  function IdentityKey(i: Identity): Key {
    [i.resultClass, i.resultType, i.target, i.vulnerabilityId, i.packageName, i.packageId,
     i.packagePath, i.installedVersion]
  }

  /** _finding_sort_key, with the severity rank as its digit. */
  function FindingKey(f: Finding): Key {
    [if f.severity.Critical? then "0" else "1", f.identity.vulnerabilityId, f.identity.packageName,
     f.identity.installedVersion, f.identity.resultClass, f.identity.resultType, f.identity.target,
     f.identity.packageId, f.identity.packagePath]
  }

  lemma IdentityKeyInjective(i: Identity, j: Identity)
    requires IdentityKey(i) == IdentityKey(j)
    ensures i == j
  {
    var a, b := IdentityKey(i), IdentityKey(j);
    assert a[0] == b[0] && a[1] == b[1] && a[2] == b[2] && a[3] == b[3];
    assert a[4] == b[4] && a[5] == b[5] && a[6] == b[6] && a[7] == b[7];
  }

  lemma FindingKeyInjective(f: Finding, g: Finding)
    requires FindingKey(f) == FindingKey(g)
    ensures f.identity == g.identity && f.severity == g.severity
  {
    var a, b := FindingKey(f), FindingKey(g);
    assert a[0] == b[0] && a[1] == b[1] && a[2] == b[2] && a[3] == b[3];
    assert a[4] == b[4] && a[5] == b[5] && a[6] == b[6] && a[7] == b[7] && a[8] == b[8];
    assert "0"[0] != "1"[0];
  }

  /** The output order: critical findings first, then by vulnerability, package and version,
      then by where the component was found. */
  predicate ComesFirst(f: Finding, g: Finding) {
    var a, b := f.identity, g.identity;
    if f.severity != g.severity then f.severity.Critical?
    else if a.vulnerabilityId != b.vulnerabilityId then StringLess(a.vulnerabilityId, b.vulnerabilityId)
    else if a.packageName != b.packageName then StringLess(a.packageName, b.packageName)
    else if a.installedVersion != b.installedVersion then StringLess(a.installedVersion, b.installedVersion)
    else if a.resultClass != b.resultClass then StringLess(a.resultClass, b.resultClass)
    else if a.resultType != b.resultType then StringLess(a.resultType, b.resultType)
    else if a.target != b.target then StringLess(a.target, b.target)
    else if a.packageId != b.packageId then StringLess(a.packageId, b.packageId)
    else StringLess(a.packagePath, b.packagePath)
  }

  lemma FindingOrder(f: Finding, g: Finding)
    ensures KeyLess(FindingKey(f), FindingKey(g)) <==> ComesFirst(f, g)
  {
    var x, y := FindingKey(f), FindingKey(g);
    for i := 9 downto 0
      invariant KeyLess(x[i..], y[i..]) <==> LessFrom(x, y, i)
    {
      KeyStep(x[i], x[i + 1..], y[i], y[i + 1..]);
      assert x[i..] == [x[i]] + x[i + 1..] && y[i..] == [y[i]] + y[i + 1..];
    }
    assert x[0..] == x && y[0..] == y;
    assert "0"[0] < "1"[0];
    LessUnrolled(x, y);
  }

  predicate LessFrom(x: Key, y: Key, i: nat)
    requires i <= |x| == |y|
    decreases |x| - i
  {
    i < |x| && if x[i] == y[i] then LessFrom(x, y, i + 1) else StringLess(x[i], y[i])
  }

  lemma LessUnrolled(x: Key, y: Key)
    requires |x| == |y| == 9
    ensures LessFrom(x, y, 0) <==>
      if x[0] != y[0] then StringLess(x[0], y[0]) else if x[1] != y[1] then StringLess(x[1], y[1])
      else if x[2] != y[2] then StringLess(x[2], y[2]) else if x[3] != y[3] then StringLess(x[3], y[3])
      else if x[4] != y[4] then StringLess(x[4], y[4]) else if x[5] != y[5] then StringLess(x[5], y[5])
      else if x[6] != y[6] then StringLess(x[6], y[6]) else if x[7] != y[7] then StringLess(x[7], y[7])
      else StringLess(x[8], y[8])
  {
    StringTrichotomy(x[8], x[8]);
    hide StringLess;
    assert LessFrom(x, y, 8) <==> x[8] != y[8] && StringLess(x[8], y[8]);
    assert LessFrom(x, y, 6) <==>
      if x[6] != y[6] then StringLess(x[6], y[6]) else if x[7] != y[7] then StringLess(x[7], y[7])
      else LessFrom(x, y, 8);
    assert LessFrom(x, y, 4) <==>
      if x[4] != y[4] then StringLess(x[4], y[4]) else if x[5] != y[5] then StringLess(x[5], y[5])
      else LessFrom(x, y, 6);
    assert LessFrom(x, y, 2) <==>
      if x[2] != y[2] then StringLess(x[2], y[2]) else if x[3] != y[3] then StringLess(x[3], y[3])
      else LessFrom(x, y, 4);
  }

  /** The sort key is a strict total order on findings with distinct identities. */
  lemma FindingOrderTotal(f: Finding, g: Finding)
    requires f.identity != g.identity
    ensures KeyLess(FindingKey(f), FindingKey(g)) != KeyLess(FindingKey(g), FindingKey(f))
  {
    KeyTrichotomy(FindingKey(f), FindingKey(g));
    if FindingKey(f) == FindingKey(g) {
      FindingKeyInjective(f, g);
    }
  }

  lemma KeysDistinguish(s: set<Finding>)
    requires Consistent(s)
    ensures Distinguishes(FindingKey, s)
  {
    forall f, g | f in s && g in s && FindingKey(f) == FindingKey(g) ensures f == g {
      FindingKeyInjective(f, g);
    }
  }

  lemma IdentitiesDistinguish(s: set<Identity>)
    ensures Distinguishes(IdentityKey, s)
  {
    forall i, j | i in s && j in s && IdentityKey(i) == IdentityKey(j) ensures i == j {
      IdentityKeyInjective(i, j);
    }
  }
}
