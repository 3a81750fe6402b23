/** compare_reports: derivative findings are introduced or inherited, upstream ones
    inherited or removed, and a Debian package upgrade carries its finding along. */
module Comparison {
  import opened Options
  import opened Sorting
  import opened Findings

  datatype PackageUpgrade = PackageUpgrade(upstream: Finding, derivative: Finding)

  datatype ImageException = ImageException(
    identifier: string, upstreamImage: string, platform: string, finding: Finding)

  datatype Result = Result(
    introduced: seq<Finding>, inherited: seq<Finding>, removed: seq<Finding>,
    accepted: seq<ImageException>, packageUpgrades: seq<PackageUpgrade>)

  /** dpkg --compare-versions DERIVATIVE gt UPSTREAM; None when it fails closed. */
  type Increased = (string, string) -> Option<bool>

  const DEBIAN_PREFIX := "os:debian/"

  /** _debian_upgrade_scope: an identity without its version. */
  function UpgradeScope(i: Identity): Option<Identity> {
    if i.resultClass != "os-pkgs" || i.resultType != "debian" || !(DEBIAN_PREFIX <= i.target)
       || i.packageId != i.packageName + "@" + i.installedVersion
    then None
    else Some(i.(packageId := "", installedVersion := ""))
  }

  predicate Indexed(m: Normalized) {
    forall k | k in m :: m[k].identity == k
  }

  predicate MetadataAgree(d: Normalized, u: Normalized) {
    forall k | k in d && k in u :: d[k] == u[k]
  }

  // ---- Which derivative finding stands for which upstream one ----

  /** k has a scope, and is the only identity of that scope. */
  predicate Sole(ids: set<Identity>, k: Identity) {
    k in ids && UpgradeScope(k).Some? && forall j | j in ids && UpgradeScope(j) == UpgradeScope(k) :: j == k
  }

  predicate Candidate(d: Normalized, u: Normalized, n: Identity, p: Identity) {
    && Sole(d.Keys, n) && Sole(u.Keys, p) && UpgradeScope(n) == UpgradeScope(p)
    && n !in u && p !in d
    && d[n].severity == u[p].severity && d[n].fixedVersion == u[p].fixedVersion
  }

  predicate Upgrades(d: Normalized, u: Normalized, increased: Increased, n: Identity, p: Identity) {
    Candidate(d, u, n, p) && increased(n.installedVersion, p.installedVersion) == Some(true)
  }

  /** The version of every candidate pair can be compared. */
  predicate Comparable(d: Normalized, u: Normalized, increased: Increased, scopes: set<Identity>) {
    forall n, p | n in d && p in u && Candidate(d, u, n, p) && UpgradeScope(n).value in scopes ::
      increased(n.installedVersion, p.installedVersion).Some?
  }

  predicate Carried(d: Normalized, u: Normalized, increased: Increased, scopes: set<Identity>, n: Identity) {
    exists p | p in u :: Upgrades(d, u, increased, n, p) && UpgradeScope(n).value in scopes
  }

  predicate Superseded(d: Normalized, u: Normalized, increased: Increased, scopes: set<Identity>, p: Identity) {
    exists n | n in d :: Upgrades(d, u, increased, n, p) && UpgradeScope(p).value in scopes
  }

  /** The set partition once the upgrades of these scopes have been moved. */
  function IntroducedKeys(d: Normalized, u: Normalized, increased: Increased, scopes: set<Identity>): set<Identity> {
    set k | k in d && k !in u && !Carried(d, u, increased, scopes, k)
  }

  function InheritedKeys(d: Normalized, u: Normalized, increased: Increased, scopes: set<Identity>): set<Identity> {
    set k | k in d && (k in u || Carried(d, u, increased, scopes, k))
  }

  function RemovedKeys(d: Normalized, u: Normalized, increased: Increased, scopes: set<Identity>): set<Identity> {
    set k | k in u && k !in d && !Superseded(d, u, increased, scopes, k)
  }

  function Pairs(d: Normalized, u: Normalized, increased: Increased, scopes: set<Identity>): set<PackageUpgrade> {
    set n, p | n in d && p in u && Upgrades(d, u, increased, n, p) && UpgradeScope(n).value in scopes ::
      PackageUpgrade(u[p], d[n])
  }

  function ScopeKey(pair: PackageUpgrade): Key {
    var scope := UpgradeScope(pair.derivative.identity);
    if scope.Some? then IdentityKey(scope.value) else []
  }

  function ScopesOf(m: Normalized): set<Identity> {
    set k | k in m && UpgradeScope(k).Some? :: UpgradeScope(k).value
  }

  function Select(m: Normalized, keys: set<Identity>): set<Finding>
    requires keys <= m.Keys
  {
    set k | k in keys :: m[k]
  }

  /** What the comparison of two consistent reports is: four sorted listings. */
  ghost predicate Correct(d: Normalized, u: Normalized, increased: Increased, r: Result) {
    && Listing(FindingKey, r.introduced, Select(d, IntroducedKeys(d, u, increased, ScopesOf(d))))
    && Listing(FindingKey, r.inherited, Select(d, InheritedKeys(d, u, increased, ScopesOf(d))))
    && Listing(FindingKey, r.removed, Select(u, RemovedKeys(d, u, increased, ScopesOf(d))))
    && Listing(ScopeKey, r.packageUpgrades, Pairs(d, u, increased, ScopesOf(d)))
    && r.accepted == []
  }

  /** Upgrades are a matching: each side determines the other, and the two identities
      differ in nothing but the version and the package id made from it. */
  lemma UpgradesMatch(d: Normalized, u: Normalized, increased: Increased,
                      n: Identity, p: Identity, m: Identity, q: Identity)
    requires Upgrades(d, u, increased, n, p) && Upgrades(d, u, increased, m, q)
    ensures n == m <==> p == q
    ensures p == n.(installedVersion := p.installedVersion, packageId := p.packageId)
    ensures n.installedVersion != p.installedVersion
    ensures d[n].severity == u[p].severity && d[n].fixedVersion == u[p].fixedVersion
  {
    assert n == p || n.installedVersion != p.installedVersion by {
      var a, b := UpgradeScope(n).value, UpgradeScope(p).value;
      assert a.packageName == n.packageName && b.packageName == p.packageName;
    }
  }

  /** A Debian package under its canonical id. */
  predicate DebianPackage(i: Identity) {
    && i.resultClass == "os-pkgs" && i.resultType == "debian"
    && |i.target| >= 10 && i.target[..10] == "os:debian/"
    && i.packageId == i.packageName + "@" + i.installedVersion
  }

  /** The same finding on the same package, whatever the version. */
  predicate OtherVersion(i: Identity, j: Identity) {
    && DebianPackage(i) && DebianPackage(j)
    && i.target == j.target && i.vulnerabilityId == j.vulnerabilityId && i.packageName == j.packageName
    && i.packagePath == j.packagePath
  }

  lemma SameScope(i: Identity, j: Identity)
    ensures UpgradeScope(i).Some? <==> DebianPackage(i)
    ensures UpgradeScope(i).Some? ==> (UpgradeScope(i) == UpgradeScope(j) <==> OtherVersion(i, j))
  {
    if UpgradeScope(i).Some? && UpgradeScope(i) == UpgradeScope(j) {
      var a, b := UpgradeScope(i).value, UpgradeScope(j).value;
      assert a.target == b.target && a.vulnerabilityId == b.vulnerabilityId && a.packageName == b.packageName;
      assert a.packagePath == b.packagePath;
    }
  }

  /** When a derivative finding stands for an upstream one: the same Debian package in a
      greater version, no other version of it on either side, the finding itself on neither
      other side, and the same severity and fix. */
  lemma UpgradesExactly(d: Normalized, u: Normalized, increased: Increased, n: Identity, p: Identity)
    ensures Upgrades(d, u, increased, n, p) <==>
      && n in d && n !in u && p in u && p !in d && OtherVersion(n, p)
      && (forall j | j in d && OtherVersion(n, j) :: j == n)
      && (forall q | q in u && OtherVersion(p, q) :: q == p)
      && d[n].severity == u[p].severity && d[n].fixedVersion == u[p].fixedVersion
      && increased(n.installedVersion, p.installedVersion) == Some(true)
  {
    SameScope(n, p);
    SameScope(p, n);
    forall j ensures UpgradeScope(n).Some? ==> (UpgradeScope(j) == UpgradeScope(n) <==> OtherVersion(n, j)) {
      SameScope(n, j);
    }
    forall q ensures UpgradeScope(p).Some? ==> (UpgradeScope(q) == UpgradeScope(p) <==> OtherVersion(p, q)) {
      SameScope(p, q);
    }
  }

  /** The four listings, finding by finding. */
  lemma PartitionExactly(d: Normalized, u: Normalized, increased: Increased, r: Result)
    requires Correct(d, u, increased, r)
    ensures forall f :: f in r.introduced <==>
      exists n | n in d :: d[n] == f && n !in u && forall p :: !Upgrades(d, u, increased, n, p)
    ensures forall f :: f in r.inherited <==>
      exists n | n in d :: d[n] == f && (n in u || exists p :: Upgrades(d, u, increased, n, p))
    ensures forall f :: f in r.removed <==>
      exists p | p in u :: u[p] == f && p !in d && forall n :: !Upgrades(d, u, increased, n, p)
    ensures forall f, g :: PackageUpgrade(g, f) in r.packageUpgrades <==>
      exists n, p | n in d && p in u :: d[n] == f && u[p] == g && Upgrades(d, u, increased, n, p)
  {
    var scopes := ScopesOf(d);
    CarriedExactly(d, u, increased);
    assert forall f :: f in r.introduced <==> f in Elements(r.introduced);
    assert forall f :: f in r.inherited <==> f in Elements(r.inherited);
    assert forall f :: f in r.removed <==> f in Elements(r.removed);
    assert forall x :: x in r.packageUpgrades <==> x in Elements(r.packageUpgrades);
  }

  lemma CarriedExactly(d: Normalized, u: Normalized, increased: Increased)
    ensures forall n | n in d ::
      Carried(d, u, increased, ScopesOf(d), n) <==> exists p :: Upgrades(d, u, increased, n, p)
    ensures forall p | p in u ::
      Superseded(d, u, increased, ScopesOf(d), p) <==> exists n :: Upgrades(d, u, increased, n, p)
    ensures forall n, p | Upgrades(d, u, increased, n, p) :: n in d && p in u && UpgradeScope(n).value in ScopesOf(d)
  {
  }

  /** There is one correct comparison: every output tuple is determined. */
  lemma CorrectUnique(d: Normalized, u: Normalized, increased: Increased, r: Result, q: Result)
    requires Correct(d, u, increased, r) && Correct(d, u, increased, q)
    ensures r == q
  {
    ListingUnique(FindingKey, r.introduced, q.introduced, Select(d, IntroducedKeys(d, u, increased, ScopesOf(d))));
    ListingUnique(FindingKey, r.inherited, q.inherited, Select(d, InheritedKeys(d, u, increased, ScopesOf(d))));
    ListingUnique(FindingKey, r.removed, q.removed, Select(u, RemovedKeys(d, u, increased, ScopesOf(d))));
    ListingUnique(ScopeKey, r.packageUpgrades, q.packageUpgrades, Pairs(d, u, increased, ScopesOf(d)));
  }

  /** A report that can be normalized, and the map it is normalized to. */
  ghost predicate Readable(report: Report) {
    Acceptable(report) && Consistent(AllFindings(report.osTarget, report.results))
  }

  ghost predicate Reads(report: Report, m: Normalized) {
    Acceptable(report) && Indexes(m, AllFindings(report.osTarget, report.results))
  }

  /** What compare_reports answers to two reports; None is a refusal. */
  ghost predicate Answer(derivative: Report, upstream: Report, increased: Increased, r: Option<Result>) {
    if Readable(derivative) && Readable(upstream) then
      exists d, u | Reads(derivative, d) && Reads(upstream, u) ::
        && (r.Some? <==> MetadataAgree(d, u) && Comparable(d, u, increased, ScopesOf(d)))
        && (r.Some? ==> Correct(d, u, increased, r.value))
    else r.None?
  }

  lemma ReadableAgain(a: Report, b: Report)
    requires SameUpToOrder(a, b)
    ensures Readable(a) <==> Readable(b)
  {
    OrderIndependent(a, b);
  }

  lemma ReadsAgain(a: Report, b: Report, m: Normalized, n: Normalized)
    requires SameUpToOrder(a, b) && Reads(a, m) && Reads(b, n)
    ensures m == n
  {
    OrderIndependent(a, b);
    hide Indexes, SameUpToOrder, Acceptable;
    IndexUnique(m, n, AllFindings(a.osTarget, a.results));
  }

  /** Reordering either report, or the findings within its results, changes neither whether
      the comparison is refused nor what it returns. */
  lemma ComparisonOrderIndependent(increased: Increased, derivative: Report, derivative': Report,
                                   upstream: Report, upstream': Report, r: Option<Result>, r': Option<Result>)
    requires SameUpToOrder(derivative, derivative') && SameUpToOrder(upstream, upstream')
    requires Answer(derivative, upstream, increased, r) && Answer(derivative', upstream', increased, r')
    ensures r == r'
  {
    hide SameUpToOrder, Readable, Reads, Correct, MetadataAgree, Comparable;
    ReadableAgain(derivative, derivative');
    ReadableAgain(upstream, upstream');
    if Readable(derivative) && Readable(upstream) {
      var d, u :| Reads(derivative, d) && Reads(upstream, u)
        && (r.Some? <==> MetadataAgree(d, u) && Comparable(d, u, increased, ScopesOf(d)))
        && (r.Some? ==> Correct(d, u, increased, r.value));
      var d', u' :| Reads(derivative', d') && Reads(upstream', u')
        && (r'.Some? <==> MetadataAgree(d', u') && Comparable(d', u', increased, ScopesOf(d')))
        && (r'.Some? ==> Correct(d', u', increased, r'.value));
      ReadsAgain(derivative, derivative', d, d');
      ReadsAgain(upstream, upstream', u, u');
      if r.Some? { CorrectUnique(d, u, increased, r.value, r'.value); }
    }
  }

  lemma AnswerIs(derivative: Report, upstream: Report, increased: Increased, r: Option<Result>,
                 d: Normalized, u: Normalized)
    requires Readable(derivative) && Readable(upstream) && Reads(derivative, d) && Reads(upstream, u)
    requires r.Some? <==> MetadataAgree(d, u) && Comparable(d, u, increased, ScopesOf(d))
    requires r.Some? ==> Correct(d, u, increased, r.value)
    ensures Answer(derivative, upstream, increased, r)
  {
    hide Readable, Reads, Correct, MetadataAgree, Comparable;
  }

  /** compare_reports on the reports themselves. */
  method CompareReports(derivative: Report, upstream: Report, increased: Increased) returns (r: Option<Result>)
    ensures Answer(derivative, upstream, increased, r)
  {
    hide Correct, MetadataAgree, Comparable, Acceptable, Consistent;
    var d := Normalize(derivative);
    if d.None? { return None; }
    var u := Normalize(upstream);
    if u.None? { return None; }
    r := Compare(d.value, u.value, increased);
    AnswerIs(derivative, upstream, increased, r, d.value, u.value);
  }

  // ---- _upgrade_candidates ----

  function Group(ids: set<Identity>, scope: Identity): set<Identity> {
    set k | k in ids && UpgradeScope(k) == Some(scope)
  }

  /** The identities of every scope, each list in sorted order. */
  ghost predicate Grouped(groups: map<Identity, seq<Identity>>, ids: set<Identity>) {
    && (forall scope :: scope in groups <==> Group(ids, scope) != {})
    && (forall scope | scope in groups :: Listing(IdentityKey, groups[scope], Group(ids, scope)))
  }

  method UpgradeCandidates(identities: set<Identity>) returns (groups: map<Identity, seq<Identity>>)
    ensures Grouped(groups, identities)
  {
    IdentitiesDistinguish(identities);
    var sorted := Sort(IdentityKey, identities);
    groups := map[];
    for i := 0 to |sorted|
      invariant Grouped(groups, Elements(sorted[..i]))
    {
      var scope := UpgradeScope(sorted[i]);
      GroupOneMore(groups, sorted, i);
      if scope.Some? {
        var list := if scope.value in groups then groups[scope.value] else [];
        groups := groups[scope.value := list + [sorted[i]]];
      }
    }
    assert sorted[..|sorted|] == sorted;
  }

  lemma GroupOneMore(groups: map<Identity, seq<Identity>>, sorted: seq<Identity>, i: nat)
    requires i < |sorted| && Increasing(IdentityKey, sorted) && Grouped(groups, Elements(sorted[..i]))
    ensures var scope := UpgradeScope(sorted[i]);
      if scope.None? then Grouped(groups, Elements(sorted[..i + 1]))
      else Grouped(groups[scope.value :=
                     (if scope.value in groups then groups[scope.value] else []) + [sorted[i]]],
                   Elements(sorted[..i + 1]))
  {
    var scope := UpgradeScope(sorted[i]);
    var before := Elements(sorted[..i]);
    assert Elements(sorted[..i + 1]) == before + {sorted[i]};
    if scope.Some? {
      var list := if scope.value in groups then groups[scope.value] else [];
      assert Listing(IdentityKey, list, Group(before, scope.value));
      AppendLater(sorted, i, list, scope.value);
      GroupReplaced(groups, before, sorted[i], list + [sorted[i]]);
    } else {
      GroupIgnored(groups, before, sorted[i]);
    }
  }

  lemma GroupIgnored(groups: map<Identity, seq<Identity>>, before: set<Identity>, x: Identity)
    requires Grouped(groups, before) && UpgradeScope(x) == None
    ensures Grouped(groups, before + {x})
  {
    forall s ensures Group(before + {x}, s) == Group(before, s) {
    }
  }

  lemma GroupReplaced(groups: map<Identity, seq<Identity>>, before: set<Identity>, x: Identity,
                      list: seq<Identity>)
    requires Grouped(groups, before) && UpgradeScope(x).Some?
    requires Listing(IdentityKey, list, Group(before, UpgradeScope(x).value) + {x})
    ensures Grouped(groups[UpgradeScope(x).value := list], before + {x})
  {
    var scope := UpgradeScope(x).value;
    forall s ensures Group(before + {x}, s) == if s == scope then Group(before, s) + {x} else Group(before, s) {
    }
    assert x in Group(before + {x}, scope);
  }

  lemma AppendLater(sorted: seq<Identity>, i: nat, list: seq<Identity>, scope: Identity)
    requires i < |sorted| && Increasing(IdentityKey, sorted)
    requires Listing(IdentityKey, list, Group(Elements(sorted[..i]), scope))
    ensures Listing(IdentityKey, list + [sorted[i]], Group(Elements(sorted[..i]), scope) + {sorted[i]})
  {
    forall k | 0 <= k < |list| ensures KeyLess(IdentityKey(list[k]), IdentityKey(sorted[i])) {
      assert list[k] in Elements(list);
      assert list[k] in sorted[..i];
    }
    assert Elements(list + [sorted[i]]) == Elements(list) + {sorted[i]};
  }

  /** A list of length one is exactly a sole identity. */
  lemma SoleIsSingleton(ids: set<Identity>, scope: Identity, list: seq<Identity>)
    requires Listing(IdentityKey, list, Group(ids, scope))
    ensures |list| == 1 ==> Sole(ids, list[0]) && UpgradeScope(list[0]) == Some(scope)
    ensures forall k | Sole(ids, k) && UpgradeScope(k) == Some(scope) :: list == [k]
  {
    ListingSize(IdentityKey, list, Group(ids, scope));
    if |list| == 1 {
      assert list[0] in Elements(list);
      forall j | j in Group(ids, scope) ensures j == list[0] {
        assert j in Elements(list);
      }
      forall j | j in ids && UpgradeScope(j) == UpgradeScope(list[0]) ensures j == list[0] {
        assert j in Group(ids, scope);
      }
    }
    forall k | Sole(ids, k) && UpgradeScope(k) == Some(scope) ensures list == [k] {
      assert Group(ids, scope) == {k};
      assert |{k}| == 1;
      assert list[0] in Elements(list);
    }
  }

  // ---- The matching loop ----

  /** A scope without an upgrade moves nothing. */
  lemma NothingMoves(d: Normalized, u: Normalized, increased: Increased, scopes: set<Identity>, scope: Identity)
    requires forall n, p | UpgradeScope(n) == Some(scope) :: !Upgrades(d, u, increased, n, p)
    ensures IntroducedKeys(d, u, increased, scopes + {scope}) == IntroducedKeys(d, u, increased, scopes)
    ensures InheritedKeys(d, u, increased, scopes + {scope}) == InheritedKeys(d, u, increased, scopes)
    ensures RemovedKeys(d, u, increased, scopes + {scope}) == RemovedKeys(d, u, increased, scopes)
    ensures Pairs(d, u, increased, scopes + {scope}) == Pairs(d, u, increased, scopes)
  {
    forall k ensures Carried(d, u, increased, scopes + {scope}, k) == Carried(d, u, increased, scopes, k) {
    }
    forall k ensures Superseded(d, u, increased, scopes + {scope}, k) == Superseded(d, u, increased, scopes, k) {
    }
  }

  /** A scope with an upgrade moves one finding on either side. */
  lemma OneMoves(d: Normalized, u: Normalized, increased: Increased, scopes: set<Identity>, n: Identity, p: Identity)
    requires Upgrades(d, u, increased, n, p) && UpgradeScope(n).value !in scopes
    ensures var more := scopes + {UpgradeScope(n).value};
      && IntroducedKeys(d, u, increased, more) == IntroducedKeys(d, u, increased, scopes) - {n}
      && InheritedKeys(d, u, increased, more) == InheritedKeys(d, u, increased, scopes) + {n}
      && RemovedKeys(d, u, increased, more) == RemovedKeys(d, u, increased, scopes) - {p}
      && Pairs(d, u, increased, more) == Pairs(d, u, increased, scopes) + {PackageUpgrade(u[p], d[n])}
    ensures n in IntroducedKeys(d, u, increased, scopes) && n !in InheritedKeys(d, u, increased, scopes)
    ensures p in RemovedKeys(d, u, increased, scopes)
  {
    var more := scopes + {UpgradeScope(n).value};
    forall k ensures Carried(d, u, increased, more, k) == (Carried(d, u, increased, scopes, k) || k == n) {
    }
    forall k ensures Superseded(d, u, increased, more, k) == (Superseded(d, u, increased, scopes, k) || k == p) {
    }
  }

  /** Scopes that only one side has move nothing. */
  lemma CommonScopesSuffice(d: Normalized, u: Normalized, increased: Increased, common: set<Identity>)
    requires common == ScopesOf(d) * ScopesOf(u)
    ensures IntroducedKeys(d, u, increased, common) == IntroducedKeys(d, u, increased, ScopesOf(d))
    ensures InheritedKeys(d, u, increased, common) == InheritedKeys(d, u, increased, ScopesOf(d))
    ensures RemovedKeys(d, u, increased, common) == RemovedKeys(d, u, increased, ScopesOf(d))
    ensures Pairs(d, u, increased, common) == Pairs(d, u, increased, ScopesOf(d))
    ensures Comparable(d, u, increased, common) == Comparable(d, u, increased, ScopesOf(d))
  {
    forall n, p | Candidate(d, u, n, p) ensures UpgradeScope(n).value in common {
    }
    forall k ensures Carried(d, u, increased, common, k) == Carried(d, u, increased, ScopesOf(d), k) {
    }
    forall k ensures Superseded(d, u, increased, common, k) == Superseded(d, u, increased, ScopesOf(d), k) {
    }
  }

  lemma AppendPair(d: Normalized, u: Normalized, increased: Increased, scopes: seq<Identity>, i: nat,
                   upgrades: seq<PackageUpgrade>, pair: PackageUpgrade)
    requires i < |scopes| && Increasing(IdentityKey, scopes) && Indexed(d)
    requires Listing(ScopeKey, upgrades, Pairs(d, u, increased, Elements(scopes[..i])))
    requires UpgradeScope(pair.derivative.identity) == Some(scopes[i])
    ensures Listing(ScopeKey, upgrades + [pair], Pairs(d, u, increased, Elements(scopes[..i])) + {pair})
  {
    forall k | 0 <= k < |upgrades| ensures KeyLess(ScopeKey(upgrades[k]), ScopeKey(pair)) {
      assert upgrades[k] in Elements(upgrades);
      var n, p :| n in d && p in u && Upgrades(d, u, increased, n, p)
        && UpgradeScope(n).value in Elements(scopes[..i]) && upgrades[k] == PackageUpgrade(u[p], d[n]);
      var j :| 0 <= j < i && scopes[j] == UpgradeScope(n).value;
    }
    assert Elements(upgrades + [pair]) == Elements(upgrades) + {pair};
  }

  /** The body of the loop for one scope: Some(pair) to move, None to leave alone. */
  method Examine(d: Normalized, u: Normalized, increased: Increased, scope: Identity,
                 current: seq<Identity>, previous: seq<Identity>,
                 introduced: set<Identity>, removed: set<Identity>)
      returns (ok: bool, found: Option<(Identity, Identity)>)
    requires Listing(IdentityKey, current, Group(d.Keys, scope))
    requires Listing(IdentityKey, previous, Group(u.Keys, scope))
    requires introduced <= d.Keys - u.Keys && removed <= u.Keys - d.Keys
    requires forall k | k in d && k !in u && UpgradeScope(k) == Some(scope) :: k in introduced
    requires forall k | k in u && k !in d && UpgradeScope(k) == Some(scope) :: k in removed
    ensures ok <==> Comparable(d, u, increased, {scope})
    ensures found.Some? ==> Upgrades(d, u, increased, found.value.0, found.value.1)
                            && UpgradeScope(found.value.0) == Some(scope)
    ensures ok && found.None? ==>
              forall n, p | UpgradeScope(n) == Some(scope) :: !Upgrades(d, u, increased, n, p)
  {
    SoleIsSingleton(d.Keys, scope, current);
    SoleIsSingleton(u.Keys, scope, previous);
    if |current| != 1 || |previous| != 1 { return true, None; }
    var n, p := current[0], previous[0];
    if n !in introduced || p !in removed { return true, None; }
    if (d[n].severity, d[n].fixedVersion) != (u[p].severity, u[p].fixedVersion) { return true, None; }
    assert Candidate(d, u, n, p);
    var grown := increased(n.installedVersion, p.installedVersion);
    if grown.None? { return false, None; }
    if !grown.value { return true, None; }
    return true, Some((n, p));
  }

  lemma GroupsAreScopes(m: Normalized, groups: map<Identity, seq<Identity>>)
    requires Grouped(groups, m.Keys)
    ensures groups.Keys == ScopesOf(m)
  {
    forall s ensures s in groups.Keys <==> s in ScopesOf(m) {
      if s in groups.Keys { var k :| k in Group(m.Keys, s); }
      if s in ScopesOf(m) {
        var k :| k in m && UpgradeScope(k) == Some(s);
        assert k in Group(m.Keys, s);
      }
    }
  }

  /** The loop has dealt with these scopes, and with no others. */
  ghost predicate Standing(d: Normalized, u: Normalized, increased: Increased, scopes: set<Identity>,
                           introduced: set<Identity>, inherited: set<Identity>, removed: set<Identity>,
                           upgrades: seq<PackageUpgrade>) {
    && introduced == IntroducedKeys(d, u, increased, scopes)
    && inherited == InheritedKeys(d, u, increased, scopes)
    && removed == RemovedKeys(d, u, increased, scopes)
    && Listing(ScopeKey, upgrades, Pairs(d, u, increased, scopes))
  }

  lemma StandingShape(d: Normalized, u: Normalized, increased: Increased, scopes: set<Identity>, scope: Identity,
                      introduced: set<Identity>, inherited: set<Identity>, removed: set<Identity>,
                      upgrades: seq<PackageUpgrade>)
    requires Standing(d, u, increased, scopes, introduced, inherited, removed, upgrades) && scope !in scopes
    ensures introduced <= d.Keys - u.Keys && inherited <= d.Keys && removed <= u.Keys - d.Keys
    ensures forall k | k in d && k !in u && UpgradeScope(k) == Some(scope) :: k in introduced
    ensures forall k | k in u && k !in d && UpgradeScope(k) == Some(scope) :: k in removed
  {
  }

  lemma ComparableUnion(d: Normalized, u: Normalized, increased: Increased, a: set<Identity>, b: set<Identity>)
    ensures Comparable(d, u, increased, a + b) <==> Comparable(d, u, increased, a) && Comparable(d, u, increased, b)
  {
  }

  lemma ComparablePart(d: Normalized, u: Normalized, increased: Increased, scopes: set<Identity>, scope: Identity)
    requires scope in scopes && !Comparable(d, u, increased, {scope})
    ensures !Comparable(d, u, increased, scopes)
  {
    assert scopes + {scope} == scopes;
    ComparableUnion(d, u, increased, scopes, {scope});
  }

  lemma LeaveAlone(d: Normalized, u: Normalized, increased: Increased, scopes: seq<Identity>, i: nat,
                   introduced: set<Identity>, inherited: set<Identity>, removed: set<Identity>,
                   upgrades: seq<PackageUpgrade>)
    requires i < |scopes| && Increasing(IdentityKey, scopes)
    requires Standing(d, u, increased, Elements(scopes[..i]), introduced, inherited, removed, upgrades)
    requires forall n, p | UpgradeScope(n) == Some(scopes[i]) :: !Upgrades(d, u, increased, n, p)
    ensures Standing(d, u, increased, Elements(scopes[..i + 1]), introduced, inherited, removed, upgrades)
  {
    NewScope(scopes, i);
    NothingMoves(d, u, increased, Elements(scopes[..i]), scopes[i]);
  }

  lemma MovePair(d: Normalized, u: Normalized, increased: Increased, scopes: seq<Identity>, i: nat,
                 introduced: set<Identity>, inherited: set<Identity>, removed: set<Identity>,
                 upgrades: seq<PackageUpgrade>, n: Identity, p: Identity)
    requires i < |scopes| && Increasing(IdentityKey, scopes) && Indexed(d)
    requires Standing(d, u, increased, Elements(scopes[..i]), introduced, inherited, removed, upgrades)
    requires Upgrades(d, u, increased, n, p) && UpgradeScope(n) == Some(scopes[i])
    ensures n in introduced && p in removed && n !in inherited && n in d && p in u
    ensures |introduced - {n}| == |introduced| - 1 && |inherited + {n}| == |inherited| + 1
    ensures |removed - {p}| == |removed| - 1
    ensures Standing(d, u, increased, Elements(scopes[..i + 1]), introduced - {n}, inherited + {n},
                     removed - {p}, upgrades + [PackageUpgrade(u[p], d[n])])
  {
    NewScope(scopes, i);
    OneMoves(d, u, increased, Elements(scopes[..i]), n, p);
    AppendPair(d, u, increased, scopes, i, upgrades, PackageUpgrade(u[p], d[n]));
  }

  /** The loop over the scopes both sides have; every remove finds its key. */
  method MoveUpgrades(d: Normalized, u: Normalized, increased: Increased,
                      derivativeGroups: map<Identity, seq<Identity>>,
                      upstreamGroups: map<Identity, seq<Identity>>, scopes: seq<Identity>)
      returns (ok: bool, introduced: set<Identity>, inherited: set<Identity>, removed: set<Identity>,
               upgrades: seq<PackageUpgrade>)
    requires Indexed(d) && Grouped(derivativeGroups, d.Keys) && Grouped(upstreamGroups, u.Keys)
    requires Increasing(IdentityKey, scopes)
    requires forall s | s in scopes :: s in derivativeGroups && s in upstreamGroups
    ensures ok <==> Comparable(d, u, increased, Elements(scopes))
    ensures ok ==> Standing(d, u, increased, Elements(scopes), introduced, inherited, removed, upgrades)
    ensures ok ==> |introduced| + |inherited| == |d.Keys| && |removed| + |inherited| == |u.Keys|
  {
    introduced, inherited, removed := d.Keys - u.Keys, d.Keys * u.Keys, u.Keys - d.Keys;
    upgrades := [];
    NothingMovedYet(d, u, increased);
    assert Elements(scopes[..0]) == {};
    for i := 0 to |scopes|
      invariant Standing(d, u, increased, Elements(scopes[..i]), introduced, inherited, removed, upgrades)
      invariant Comparable(d, u, increased, Elements(scopes[..i]))
      invariant |introduced| + |inherited| == |d.Keys| && |removed| + |inherited| == |u.Keys|
    {
      var scope := scopes[i];
      NewScope(scopes, i);
      StandingShape(d, u, increased, Elements(scopes[..i]), scope, introduced, inherited, removed, upgrades);
      ComparableUnion(d, u, increased, Elements(scopes[..i]), {scope});
      var fine, found := Examine(d, u, increased, scope, derivativeGroups[scope], upstreamGroups[scope],
                                 introduced, removed);
      if !fine {
        ComparablePart(d, u, increased, Elements(scopes), scope);
        ok := false;
        return;
      }
      if found.None? {
        LeaveAlone(d, u, increased, scopes, i, introduced, inherited, removed, upgrades);
        continue;
      }
      var n, p := found.value.0, found.value.1;
      MovePair(d, u, increased, scopes, i, introduced, inherited, removed, upgrades, n, p);
      introduced := introduced - {n};
      removed := removed - {p};
      inherited := inherited + {n};
      upgrades := upgrades + [PackageUpgrade(u[p], d[n])];
    }
    assert scopes[..|scopes|] == scopes;
    ok := true;
  }

  /** compare_reports on normalized reports. It fails exactly on disagreeing shared
      findings or versions that cannot be compared, and no finding is lost or counted
      twice. */
  method Compare(d: Normalized, u: Normalized, increased: Increased) returns (r: Option<Result>)
    requires Indexed(d) && Indexed(u)
    ensures r.Some? <==> MetadataAgree(d, u) && Comparable(d, u, increased, ScopesOf(d))
    ensures r.Some? ==> Correct(d, u, increased, r.value)
    ensures r.Some? ==> |r.value.introduced| + |r.value.inherited| == |d|
                        && |r.value.removed| + |r.value.inherited| == |u|
  {
    hide Comparable;
    if exists k :: k in d && k in u && d[k] != u[k] { return None; }
    var derivativeGroups := UpgradeCandidates(d.Keys);
    var upstreamGroups := UpgradeCandidates(u.Keys);
    var common := derivativeGroups.Keys * upstreamGroups.Keys;
    GroupsAreScopes(d, derivativeGroups);
    GroupsAreScopes(u, upstreamGroups);
    CommonScopesSuffice(d, u, increased, common);
    IdentitiesDistinguish(common);
    var scopes := Sort(IdentityKey, common);
    assert forall s | s in scopes :: s in Elements(scopes);
    var ok, introduced, inherited, removed, upgrades :=
      MoveUpgrades(d, u, increased, derivativeGroups, upstreamGroups, scopes);
    if !ok { return None; }
    assert introduced <= d.Keys && inherited <= d.Keys && removed <= u.Keys;
    var a := SortSelected(d, introduced);
    var b := SortSelected(d, inherited);
    var c := SortSelected(u, removed);
    r := Some(Result(a, b, c, [], upgrades));
  }

  lemma NothingMovedYet(d: Normalized, u: Normalized, increased: Increased)
    ensures Standing(d, u, increased, {}, d.Keys - u.Keys, d.Keys * u.Keys, u.Keys - d.Keys, [])
    ensures Comparable(d, u, increased, {})
    ensures |d.Keys - u.Keys| + |d.Keys * u.Keys| == |d.Keys|
    ensures |u.Keys - d.Keys| + |d.Keys * u.Keys| == |u.Keys|
  {
    SplitSizes(d.Keys, u.Keys);
    SplitSizes(u.Keys, d.Keys);
    assert d.Keys * u.Keys == u.Keys * d.Keys;
    Unmoved(d, u, increased);
  }

  lemma Unmoved(d: Normalized, u: Normalized, increased: Increased)
    ensures Standing(d, u, increased, {}, d.Keys - u.Keys, d.Keys * u.Keys, u.Keys - d.Keys, [])
    ensures Comparable(d, u, increased, {})
  {
  }

  lemma SplitSizes(a: set<Identity>, b: set<Identity>)
    ensures |a - b| + |a * b| == |a|
  {
    assert (a - b) + (a * b) == a;
  }

  lemma NewScope(scopes: seq<Identity>, i: nat)
    requires i < |scopes| && Increasing(IdentityKey, scopes)
    ensures scopes[i] !in Elements(scopes[..i]) && scopes[i] in Elements(scopes)
    ensures Elements(scopes[..i + 1]) == Elements(scopes[..i]) + {scopes[i]}
  {
    KeyTrichotomy(IdentityKey(scopes[i]), IdentityKey(scopes[i]));
  }

  method SortSelected(m: Normalized, keys: set<Identity>) returns (list: seq<Finding>)
    requires Indexed(m) && keys <= m.Keys
    ensures Listing(FindingKey, list, Select(m, keys)) && |list| == |keys|
  {
    KeysDistinguish(Select(m, keys));
    list := Sort(FindingKey, Select(m, keys));
    ListingSize(FindingKey, list, Select(m, keys));
    SelectSize(m, keys);
  }

  lemma {:induction false} SelectSize(m: Normalized, keys: set<Identity>)
    requires Indexed(m) && keys <= m.Keys
    ensures |Select(m, keys)| == |keys|
    decreases |keys|
  {
    if keys != {} {
      var k :| k in keys;
      SelectSize(m, keys - {k});
      assert Select(m, keys) == Select(m, keys - {k}) + {m[k]};
      assert m[k] !in Select(m, keys - {k});
    }
  }

  // ---- Exceptions and the verdict ----

  predicate Covers(e: ImageException, r: Result, image: string, platform: string) {
    && e.upstreamImage == image && e.platform == platform
    && e.finding in r.inherited && e.finding.fixedVersion != ""
  }

  function Accepted(exceptions: seq<ImageException>, r: Result, image: string, platform: string): seq<ImageException> {
    if exceptions == [] then []
    else (if Covers(exceptions[0], r, image, platform) then [exceptions[0]] else [])
         + Accepted(exceptions[1..], r, image, platform)
  }

  /** apply_exceptions. */
  function ApplyExceptions(r: Result, exceptions: seq<ImageException>, image: string, platform: string): Result {
    r.(accepted := Accepted(exceptions, r, image, platform))
  }

  predicate Excused(f: Finding, accepted: seq<ImageException>) {
    exists e | e in accepted :: e.finding == f
  }

  function Unexcused(findings: seq<Finding>, accepted: seq<ImageException>): seq<Finding> {
    if findings == [] then []
    else (if findings[0].fixedVersion != "" && !Excused(findings[0], accepted) then [findings[0]] else [])
         + Unexcused(findings[1..], accepted)
  }

  /** Comparison.blocked over Comparison.unexcepted_fixable. */
  predicate Blocked(r: Result) {
    r.introduced != [] || Unexcused(r.inherited, r.accepted) != []
  }

  lemma {:induction false} AcceptedMembers(exceptions: seq<ImageException>, r: Result, image: string, platform: string)
    ensures forall e :: e in Accepted(exceptions, r, image, platform) <==>
              && e in exceptions && e.upstreamImage == image && e.platform == platform
              && e.finding in r.inherited && e.finding.fixedVersion != ""
  {
    if exceptions != [] {
      AcceptedMembers(exceptions[1..], r, image, platform);
    }
  }

  lemma {:induction false} UnexcusedMembers(findings: seq<Finding>, accepted: seq<ImageException>)
    ensures forall f :: f in Unexcused(findings, accepted) <==>
              f in findings && f.fixedVersion != "" && !Excused(f, accepted)
  {
    if findings != [] {
      UnexcusedMembers(findings[1..], accepted);
    }
  }

  /** Nobody signed off this finding for this image and platform. */
  predicate Unsigned(f: Finding, exceptions: seq<ImageException>, image: string, platform: string) {
    forall e | e in exceptions :: !(e.upstreamImage == image && e.platform == platform && e.finding == f)
  }

  /** The verdict in terms of the two reports: an image is blocked exactly when it
      introduces a finding, which no exception can excuse, or inherits a fixable one
      that no exception for this very image, platform and finding covers. */
  lemma BlockedExactly(d: Normalized, u: Normalized, increased: Increased, r: Result,
                       exceptions: seq<ImageException>, image: string, platform: string)
    requires Correct(d, u, increased, r)
    ensures Blocked(ApplyExceptions(r, exceptions, image, platform)) <==>
      || IntroducedKeys(d, u, increased, ScopesOf(d)) != {}
      || exists k | k in InheritedKeys(d, u, increased, ScopesOf(d)) ::
           d[k].fixedVersion != "" && Unsigned(d[k], exceptions, image, platform)
  {
    var accepted := Accepted(exceptions, r, image, platform);
    AcceptedMembers(exceptions, r, image, platform);
    UnexcusedMembers(r.inherited, accepted);
    ListingEmpty(r.introduced, d, IntroducedKeys(d, u, increased, ScopesOf(d)));
    var open := Unexcused(r.inherited, accepted);
    forall f | f in r.inherited && f.fixedVersion != ""
      ensures Excused(f, accepted) <==> !Unsigned(f, exceptions, image, platform)
    {
      if !Unsigned(f, exceptions, image, platform) {
        var e :| e in exceptions && e.upstreamImage == image && e.platform == platform && e.finding == f;
        assert Covers(e, r, image, platform) && e in accepted;
      }
    }
    var inherited := InheritedKeys(d, u, increased, ScopesOf(d));
    if open != [] {
      assert open[0] in Elements(r.inherited);
      var k :| k in inherited && d[k] == open[0];
      assert Unsigned(d[k], exceptions, image, platform);
    }
    if k :| k in inherited && d[k].fixedVersion != "" && Unsigned(d[k], exceptions, image, platform) {
      assert d[k] in Elements(r.inherited);
      assert d[k] in open;
    }
  }

  lemma ListingEmpty(list: seq<Finding>, m: Normalized, keys: set<Identity>)
    requires keys <= m.Keys && Elements(list) == Select(m, keys)
    ensures list == [] <==> keys == {}
  {
    if list != [] {
      assert list[0] in Elements(list);
    }
    if k :| k in keys {
      assert m[k] in Elements(list);
    }
  }
}
