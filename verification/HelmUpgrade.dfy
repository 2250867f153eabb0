/** Is there a newer chart for a release? Asked for one release, and for all of them at once. */
module HelmUpgrade {
  import opened Ordering

  type Versions = seq<string>

  /** What does not depend on the release. `index` reads the cached index of a repository, by the
      repository's name: chart name to listed versions, or None when it cannot be loaded. */
  datatype World = World(
    compare: (string, string) -> int,
    urlMatches: (string, seq<string>) -> bool,
    index: string -> Option<map<string, Versions>>)

  datatype Repo = Repo(name: string, url: string)

  datatype RepoFile = Missing | Unreadable | Repositories(repos: seq<Repo>)

  /** `hosts` are those derived from the chart's home and sources. */
  datatype Release = Release(key: string, chart: string, version: string, hosts: seq<string>)

  datatype Candidate = Candidate(repoName: string, repoURL: string, latestVersion: string, hasCurrentVersion: bool)

  datatype Trouble = NoTrouble | NoRepositories | RepositoriesUnreadable | ChartNotFound | NoUpstream

  datatype Info = Info(currentVersion: string, latestVersion: string, repositoryName: string, updateAvailable: bool,
      trouble: Trouble)

  function Troubled(rel: Release, t: Trouble): Info {
    Info(rel.version, "", "", false, t)
  }

  // Choosing the repository.

  datatype Choice = Choice(latestVersion: string, repoName: string)

  const NO_CHOICE := Choice("", "")

  function ChoiceOf(c: Candidate): Choice {
    Choice(c.latestVersion, c.repoName)
  }

  function Current(cs: seq<Candidate>): seq<Candidate> {
    if cs == [] then []
    else Current(cs[..|cs| - 1]) + if cs[|cs| - 1].hasCurrentVersion then [cs[|cs| - 1]] else []
  }

  /** The latest version among the candidates whose URL matches; the first one when several tie. */
  function BestMatch(w: World, cs: seq<Candidate>, hosts: seq<string>): Choice {
    if cs == [] then NO_CHOICE
    else
      var best, c := BestMatch(w, cs[..|cs| - 1], hosts), cs[|cs| - 1];
      if w.urlMatches(c.repoURL, hosts)
          && (best.latestVersion == "" || w.compare(c.latestVersion, best.latestVersion) > 0)
      then ChoiceOf(c) else best
  }

  function AffinityChoice(w: World, cs: seq<Candidate>, hosts: seq<string>): Choice {
    if hosts == [] then if |cs| == 1 then ChoiceOf(cs[0]) else NO_CHOICE
    else
      var best := BestMatch(w, cs, hosts);
      if best.latestVersion == "" && |cs| == 1 then ChoiceOf(cs[0]) else best
  }

  function UpgradeChoice(w: World, cs: seq<Candidate>, hosts: seq<string>): Choice {
    var current := Current(cs);
    if |current| == 1 then ChoiceOf(current[0])
    else AffinityChoice(w, if |current| > 1 then current else cs, hosts)
  }

  method BestSourceAffinityVersion(w: World, cs: seq<Candidate>, hosts: seq<string>)
    returns (latestVersion: string, repoName: string)
    ensures Choice(latestVersion, repoName) == AffinityChoice(w, cs, hosts)
  {
    latestVersion, repoName := "", "";
    if |hosts| == 0 {
      if |cs| == 1 {
        return cs[0].latestVersion, cs[0].repoName;
      }
      return;
    }
    for i := 0 to |cs|
      invariant Choice(latestVersion, repoName) == BestMatch(w, cs[..i], hosts)
    {
      var c := cs[i];
      assert cs[..i + 1][..i] == cs[..i];
      if !w.urlMatches(c.repoURL, hosts) {
        continue;
      }
      if latestVersion == "" || w.compare(c.latestVersion, latestVersion) > 0 {
        latestVersion, repoName := c.latestVersion, c.repoName;
      }
    }
    assert cs[..|cs|] == cs;
    if latestVersion == "" && |cs| == 1 {
      return cs[0].latestVersion, cs[0].repoName;
    }
  }

  method FindBestUpgradeVersion(w: World, cs: seq<Candidate>, hosts: seq<string>)
    returns (latestVersion: string, repoName: string)
    ensures Choice(latestVersion, repoName) == UpgradeChoice(w, cs, hosts)
  {
    var currentMatches: seq<Candidate> := [];
    for i := 0 to |cs|
      invariant currentMatches == Current(cs[..i])
    {
      assert cs[..i + 1][..i] == cs[..i];
      if cs[i].hasCurrentVersion {
        currentMatches := currentMatches + [cs[i]];
      }
    }
    assert cs[..|cs|] == cs;
    if |currentMatches| == 1 {
      return currentMatches[0].latestVersion, currentMatches[0].repoName;
    }
    if |currentMatches| > 1 {
      latestVersion, repoName := BestSourceAffinityVersion(w, currentMatches, hosts);
      return;
    }
    latestVersion, repoName := BestSourceAffinityVersion(w, cs, hosts);
  }

  // What the choice means.

  /** The comparison is an order on these versions. It need not be one on all strings: two semantic
      versions are compared as such, and any other two as strings. */
  ghost predicate OrderedOn(w: World, vs: set<string>) {
    && (forall a, b, c :: a in vs && b in vs && c in vs && w.compare(a, b) >= 0 && w.compare(b, c) >= 0 ==>
          w.compare(a, c) >= 0)
    && (forall a, b :: a in vs && b in vs ==> (w.compare(a, b) > 0 <==> w.compare(b, a) < 0))
  }

  function LatestVersions(cs: seq<Candidate>): set<string> {
    set c | c in cs :: c.latestVersion
  }

  ghost predicate Named(cs: seq<Candidate>) {
    forall c :: c in cs ==> c.latestVersion != ""
  }

  lemma {:induction false} CurrentMembers(cs: seq<Candidate>, c: Candidate)
    ensures c in Current(cs) <==> c in cs && c.hasCurrentVersion
  {
    if cs != [] {
      var n := |cs| - 1;
      assert cs == cs[..n] + [cs[n]];
      CurrentMembers(cs[..n], c);
    }
  }

  lemma {:induction false} BestMatchIsMatch(w: World, cs: seq<Candidate>, hosts: seq<string>)
    requires Named(cs)
    ensures var best := BestMatch(w, cs, hosts);
      if best.latestVersion == "" then best == NO_CHOICE && forall c :: c in cs ==> !w.urlMatches(c.repoURL, hosts)
      else exists c :: c in cs && w.urlMatches(c.repoURL, hosts) && ChoiceOf(c) == best
  {
    if cs != [] {
      var n := |cs| - 1;
      assert cs == cs[..n] + [cs[n]];
      BestMatchIsMatch(w, cs[..n], hosts);
      assert cs[n] in cs;
    }
  }

  lemma {:induction false} BestMatchIsLatest(w: World, cs: seq<Candidate>, hosts: seq<string>, vs: set<string>)
    requires Named(cs) && OrderedOn(w, vs) && LatestVersions(cs) <= vs
    ensures BestMatch(w, cs, hosts).latestVersion != "" ==>
              BestMatch(w, cs, hosts).latestVersion in vs
                  && NoneLater(w, cs, hosts, BestMatch(w, cs, hosts).latestVersion)
  {
    if cs != [] {
      var n, x := |cs| - 1, cs[|cs| - 1];
      assert cs == cs[..n] + [x] && x in cs;
      assert x.latestVersion in LatestVersions(cs);
      assert LatestVersions(cs[..n]) <= vs by { assert forall c :: c in cs[..n] ==> c in cs; }
      BestMatchIsLatest(w, cs[..n], hosts, vs);
      BestMatchIsMatch(w, cs[..n], hosts);
      hide OrderedOn, LatestVersions;
      forall c | c in cs && w.urlMatches(c.repoURL, hosts) && BestMatch(w, cs, hosts).latestVersion != ""
        ensures w.compare(BestMatch(w, cs, hosts).latestVersion, c.latestVersion) >= 0
      {
        LaterStep(w, vs, BestMatch(w, cs[..n], hosts).latestVersion, x.latestVersion, c.latestVersion) by {
          assert c.latestVersion in LatestVersions(cs) by { Listing(cs, c); }
        }
        assert c == x || c in cs[..n];
      }
    }
  }

  lemma Listing(cs: seq<Candidate>, c: Candidate)
    requires c in cs
    ensures c.latestVersion in LatestVersions(cs)
  {
  }

  /** No candidate whose URL matches has a later version than `v`. */
  ghost predicate NoneLater(w: World, cs: seq<Candidate>, hosts: seq<string>, v: string) {
    forall c :: c in cs && w.urlMatches(c.repoURL, hosts) ==> w.compare(v, c.latestVersion) >= 0
  }

  /** One step of a running maximum. */
  lemma LaterStep(w: World, vs: set<string>, before: string, x: string, v: string)
    requires OrderedOn(w, vs) && x in vs && v in vs
    ensures w.compare(x, x) == 0
    ensures before in vs && w.compare(x, before) > 0 && w.compare(before, v) >= 0 ==> w.compare(x, v) >= 0
    ensures before in vs && !(w.compare(x, before) > 0) ==> w.compare(before, x) >= 0
  {
  }

  /** The scan finds a latest version among the candidates whose URL matches. */
  lemma BestMatchMeaning(w: World, cs: seq<Candidate>, hosts: seq<string>)
    requires OrderedOn(w, LatestVersions(cs)) && Named(cs)
    ensures var best := BestMatch(w, cs, hosts);
      if best.latestVersion == "" then best == NO_CHOICE && forall c :: c in cs ==> !w.urlMatches(c.repoURL, hosts)
      else
        && (exists c :: c in cs && w.urlMatches(c.repoURL, hosts) && ChoiceOf(c) == best)
        && NoneLater(w, cs, hosts, best.latestVersion)
  {
    BestMatchIsMatch(w, cs, hosts);
    BestMatchIsLatest(w, cs, hosts, LatestVersions(cs));
  }

  ghost predicate LatestMatch(w: World, pool: seq<Candidate>, hosts: seq<string>, c: Candidate) {
    w.urlMatches(c.repoURL, hosts) && NoneLater(w, pool, hosts, c.latestVersion)
  }

  /** The candidates the source hosts decide between. */
  function Pool(cs: seq<Candidate>): seq<Candidate> {
    if Current(cs) != [] then Current(cs) else cs
  }

  /** Main result: a choice is always some candidate of the pool, which is the repositories that
      list the installed version when there are any. With more than one in the pool the chosen
      one's URL matches and no matching one of the pool has a later version; and there is no choice
      exactly when the pool is empty, or it has several and none of them matches a source host. The
      comparison has to be an order on the versions in the pool, and only for the last part. */
  lemma ChoiceMeaning(w: World, cs: seq<Candidate>, hosts: seq<string>)
    requires Named(cs)
    ensures var choice, pool := UpgradeChoice(w, cs, hosts), Pool(cs);
      && (choice == NO_CHOICE <==>
          |pool| != 1 && forall c :: c in pool ==> hosts == [] || !w.urlMatches(c.repoURL, hosts))
      && (choice != NO_CHOICE ==>
          exists c :: c in pool && ChoiceOf(c) == choice && (|pool| > 1 ==> w.urlMatches(c.repoURL, hosts)))
      && (choice != NO_CHOICE && |pool| > 1 && OrderedOn(w, LatestVersions(pool)) ==>
          exists c :: c in pool && ChoiceOf(c) == choice && LatestMatch(w, pool, hosts, c))
  {
    var pool := Pool(cs);
    PoolNamed(cs);
    assert pool != [] ==> pool[0] in pool;
    BestMatchIsMatch(w, pool, hosts);
    if OrderedOn(w, LatestVersions(pool)) {
      BestMatchMeaning(w, pool, hosts);
    }
    hide OrderedOn, LatestVersions, Named, BestMatch, Current, NoneLater;
    var choice := UpgradeChoice(w, cs, hosts);
    if |pool| == 1 {
      assert choice == ChoiceOf(pool[0]) || choice == BestMatch(w, pool, hosts);
    } else {
      assert choice == AffinityChoice(w, pool, hosts);
    }
  }

  /** A comparison that goes round in a circle, as strings among semantic versions make it do: three
      repositories that match, and the one chosen is older than another. */
  lemma MixedVersionsMislead(w: World, url: string, hosts: seq<string>) returns (cs: seq<Candidate>)
    requires w.compare("1.10.0", "1.9.0") > 0 && w.compare("1.9.0", "1.5_x") > 0 && w.compare("1.5_x", "1.10.0") > 0
    requires hosts != [] && w.urlMatches(url, hosts)
    ensures Named(cs) && UpgradeChoice(w, cs, hosts).latestVersion == "1.9.0"
    ensures exists c :: c in cs && c.latestVersion == "1.10.0" && w.urlMatches(c.repoURL, hosts)
  {
    var a := Candidate("a", url, "1.10.0", false);
    var b := Candidate("b", url, "1.5_x", false);
    var c := Candidate("c", url, "1.9.0", false);
    cs := [a, b, c];
    assert cs[..2] == [a, b] && [a, b][..1] == [a] && [a][..0] == [];
    if Current(cs) != [] {
      CurrentMembers(cs, Current(cs)[0]);
    }
    assert BestMatch(w, [], hosts) == NO_CHOICE;
    assert BestMatch(w, [a], hosts) == ChoiceOf(a);
    assert BestMatch(w, [a, b], hosts) == ChoiceOf(b);
    assert BestMatch(w, cs, hosts) == ChoiceOf(c);
    assert a in cs;
  }

  lemma PoolNamed(cs: seq<Candidate>)
    requires Named(cs)
    ensures Named(Pool(cs))
  {
    forall c | c in Pool(cs) ensures c.latestVersion != "" {
      CurrentMembers(cs, c);
    }
  }

  // One release.

  function Listed(w: World, repoName: string, chart: string): Versions {
    var idx := w.index(repoName);
    if idx.None? || chart !in idx.value then [] else idx.value[chart]
  }

  /** The running maximum, where the empty string stands for none yet. */
  function LatestFrom(w: World, latest: string, vs: Versions): string {
    if vs == [] then latest
    else
      var before, v := LatestFrom(w, latest, vs[..|vs| - 1]), vs[|vs| - 1];
      if before == "" || w.compare(v, before) > 0 then v else before
  }

  /** The running maximum, starting from the first version. */
  function Latest(w: World, vs: Versions): string
    requires vs != []
  {
    if |vs| == 1 then vs[0]
    else
      var before, v := Latest(w, vs[..|vs| - 1]), vs[|vs| - 1];
      if w.compare(v, before) > 0 then v else before
  }

  /** The candidates one release sees. */
  function Found(w: World, repos: seq<Repo>, rel: Release): seq<Candidate> {
    if repos == [] then []
    else
      var before, r := Found(w, repos[..|repos| - 1], rel), repos[|repos| - 1];
      var vs := Listed(w, r.name, rel.chart);
      var latest := LatestFrom(w, "", vs);
      if latest == "" then before else before + [Candidate(r.name, r.url, latest, rel.version in vs)]
  }

  function Assess(w: World, cs: seq<Candidate>, rel: Release): Info {
    if cs == [] then Troubled(rel, ChartNotFound)
    else
      var c := UpgradeChoice(w, cs, rel.hosts);
      if c.latestVersion == "" then Troubled(rel, NoUpstream)
      else Info(rel.version, c.latestVersion, c.repoName, w.compare(c.latestVersion, rel.version) > 0, NoTrouble)
  }

  function SingleInfo(w: World, f: RepoFile, rel: Release): Info {
    match f
    case Missing => Troubled(rel, NoRepositories)
    case Unreadable => Troubled(rel, RepositoriesUnreadable)
    case Repositories(repos) => if repos == [] then Troubled(rel, NoRepositories)
        else Assess(w, Found(w, repos, rel), rel)
  }

  method ScanVersions(w: World, vs: Versions, current: string) returns (latest: string, hasCurrent: bool)
    ensures latest == LatestFrom(w, "", vs) && (hasCurrent <==> current in vs)
  {
    latest, hasCurrent := "", false;
    for i := 0 to |vs|
      invariant latest == LatestFrom(w, "", vs[..i]) && (hasCurrent <==> current in vs[..i])
    {
      assert vs[..i + 1] == vs[..i] + [vs[i]];
      if latest == "" || w.compare(vs[i], latest) > 0 {
        latest := vs[i];
      }
      if vs[i] == current {
        hasCurrent := true;
      }
    }
    assert vs[..|vs|] == vs;
  }

  method CheckForUpgrade(w: World, f: RepoFile, rel: Release) returns (info: Info)
    ensures info == SingleInfo(w, f, rel)
  {
    if f.Missing? {
      return Troubled(rel, NoRepositories);
    }
    if f.Unreadable? {
      return Troubled(rel, RepositoriesUnreadable);
    }
    if |f.repos| == 0 {
      return Troubled(rel, NoRepositories);
    }
    var candidates: seq<Candidate> := [];
    for i := 0 to |f.repos|
      invariant candidates == Found(w, f.repos[..i], rel)
    {
      assert f.repos[..i + 1][..i] == f.repos[..i];
      var r := f.repos[i];
      var idx := w.index(r.name);
      if idx.None? {
        continue;
      }
      if rel.chart in idx.value {
        var latestInRepo, hasCurrentVersion := ScanVersions(w, idx.value[rel.chart], rel.version);
        if latestInRepo != "" {
          candidates := candidates + [Candidate(r.name, r.url, latestInRepo, hasCurrentVersion)];
        }
      }
    }
    assert f.repos[..|f.repos|] == f.repos;
    if |candidates| == 0 {
      return Troubled(rel, ChartNotFound);
    }
    var latestVersion, repoName := FindBestUpgradeVersion(w, candidates, rel.hosts);
    if latestVersion == "" {
      return Troubled(rel, NoUpstream);
    }
    info := Info(rel.version, latestVersion, repoName, w.compare(latestVersion, rel.version) > 0, NoTrouble);
  }

  // All releases at once.

  /** The candidates for a chart before any release has marked them. */
  function Base(w: World, repos: seq<Repo>, chart: string): seq<Candidate> {
    if repos == [] then []
    else
      var before, r := Base(w, repos[..|repos| - 1], chart), repos[|repos| - 1];
      var vs := Listed(w, r.name, chart);
      if vs == [] then before else before + [Candidate(r.name, r.url, Latest(w, vs), false)]
  }

  function VersionsByRepo(w: World, repos: seq<Repo>, chart: string): map<string, Versions> {
    if repos == [] then map[]
    else
      var before, r := VersionsByRepo(w, repos[..|repos| - 1], chart), repos[|repos| - 1];
      var vs := Listed(w, r.name, chart);
      if vs == [] then before else before[r.name := vs]
  }

  function Marked1(c: Candidate, byRepo: map<string, Versions>, installed: string): Candidate {
    if c.repoName in byRepo && installed in byRepo[c.repoName] then c.(hasCurrentVersion := true) else c
  }

  function Marked(base: seq<Candidate>, byRepo: map<string, Versions>, installed: string): (cs: seq<Candidate>)
    ensures |cs| == |base| && forall k :: 0 <= k < |base| ==> cs[k] == Marked1(base[k], byRepo, installed)
  {
    seq(|base|, k requires 0 <= k < |base| => Marked1(base[k], byRepo, installed))
  }

  /** Marks a copy: the base is shared by every release of the chart and stays as it was. */
  method MarkCurrentVersion(base: array<Candidate>, byRepo: map<string, Versions>, installed: string)
    returns (out: array<Candidate>)
    ensures fresh(out) && out[..] == Marked(base[..], byRepo, installed)
  {
    out := new Candidate[base.Length](i requires 0 <= i < base.Length reads base => base[i]);
    for i := 0 to out.Length
      invariant forall k :: 0 <= k < i ==> out[k] == Marked1(base[k], byRepo, installed)
      invariant forall k :: i <= k < out.Length ==> out[k] == base[k]
    {
      if out[i].repoName in byRepo && installed in byRepo[out[i].repoName] {
        out[i] := out[i].(hasCurrentVersion := true);
      }
    }
  }

  function BatchInfo(w: World, f: RepoFile, rel: Release): Info {
    match f
    case Missing => Troubled(rel, NoRepositories)
    case Unreadable => Troubled(rel, RepositoriesUnreadable)
    case Repositories(repos) =>
      Assess(w, Marked(Base(w, repos, rel.chart), VersionsByRepo(w, repos, rel.chart), rel.version), rel)
  }

  method ScanLatest(w: World, vs: Versions) returns (latest: string)
    requires vs != []
    ensures latest == Latest(w, vs)
  {
    latest := vs[0];
    for i := 0 to |vs|
      invariant latest == if i == 0 then vs[0] else Latest(w, vs[..i])
    {
      assert i > 0 ==> vs[..i + 1][..i] == vs[..i];
      if w.compare(vs[i], latest) > 0 {
        latest := vs[i];
      }
    }
    assert vs[..|vs|] == vs;
  }

  method Append(a: array<Candidate>, c: Candidate) returns (b: array<Candidate>)
    ensures fresh(b) && b[..] == a[..] + [c]
  {
    b := new Candidate[a.Length + 1](i requires 0 <= i <= a.Length reads a => if i < a.Length then a[i] else c);
    assert b[..a.Length] == a[..];
  }

  /** What the two tables hold for one chart after some repositories. */
  ghost predicate Tabled(w: World, repos: seq<Repo>, chart: string, bases: map<string, array<Candidate>>,
      all: map<string, map<string, Versions>>)
    reads if chart in bases then {bases[chart]} else {}
  {
    if Base(w, repos, chart) == [] then chart !in bases && chart !in all
    else
      && chart in bases && chart in all && bases[chart][..] == Base(w, repos, chart)
      && all[chart] == VersionsByRepo(w, repos, chart)
  }

  lemma TableStep(w: World, repos: seq<Repo>, r: Repo, chart: string)
    ensures var vs := Listed(w, r.name, chart);
      if vs == [] then
        Base(w, repos + [r], chart) == Base(w, repos, chart)
            && VersionsByRepo(w, repos + [r], chart) == VersionsByRepo(w, repos, chart)
      else
        && Base(w, repos + [r], chart) == Base(w, repos, chart) + [Candidate(r.name, r.url, Latest(w, vs), false)]
        && VersionsByRepo(w, repos + [r], chart) == VersionsByRepo(w, repos, chart)[r.name := vs]
  {
    assert (repos + [r])[..|repos|] == repos;
  }

  lemma {:induction false} NoBaseNoVersions(w: World, repos: seq<Repo>, chart: string)
    ensures Base(w, repos, chart) == [] <==> VersionsByRepo(w, repos, chart) == map[]
  {
    if repos != [] {
      NoBaseNoVersions(w, repos[..|repos| - 1], chart);
      if Listed(w, repos[|repos| - 1].name, chart) != [] {
        assert repos[|repos| - 1].name in VersionsByRepo(w, repos, chart);
      }
    }
  }

  /** Adds one chart of one index to the tables. */
  method TableChart(w: World, ghost repos: seq<Repo>, r: Repo, chart: string, vs: Versions,
                    bases: map<string, array<Candidate>>, all: map<string, map<string, Versions>>)
    returns (bases': map<string, array<Candidate>>, all': map<string, map<string, Versions>>)
    requires vs == Listed(w, r.name, chart) && Tabled(w, repos, chart, bases, all)
    ensures Tabled(w, repos + [r], chart, bases', all')
    ensures forall c :: c != chart ==> (c in bases' <==> c in bases) && (c in all' <==> c in all)
    ensures forall c :: c != chart && c in bases ==> bases'[c] == bases[c]
    ensures forall c :: c != chart && c in all ==> all'[c] == all[c]
  {
    TableStep(w, repos, r, chart);
    NoBaseNoVersions(w, repos, chart);
    hide Base, VersionsByRepo, Latest, Listed;
    bases', all' := bases, all;
    if |vs| == 0 {
      return;
    }
    var latestInRepo := ScanLatest(w, vs);
    var none := new Candidate[0];
    var row := Append(if chart in bases then bases[chart] else none, Candidate(r.name, r.url, latestInRepo, false));
    var byRepo: map<string, Versions> := if chart in all then all[chart] else map[];
    bases' := bases[chart := row];
    all' := all[chart := byRepo[r.name := vs]];
  }

  ghost predicate AllTabled(w: World, repos: seq<Repo>, bases: map<string, array<Candidate>>,
      all: map<string, map<string, Versions>>)
    reads set c | c in bases :: bases[c]
  {
    forall c :: Tabled(w, repos, c, bases, all)
  }

  /** The charts of one index, in any order. */
  method TableIndex(w: World, ghost repos: seq<Repo>, r: Repo, entries: map<string, Versions>,
                    bases: map<string, array<Candidate>>, all: map<string, map<string, Versions>>)
    returns (bases': map<string, array<Candidate>>, all': map<string, map<string, Versions>>)
    requires w.index(r.name) == Some(entries) && AllTabled(w, repos, bases, all)
    ensures AllTabled(w, repos + [r], bases', all')
  {
    hide Base, VersionsByRepo;
    bases', all' := bases, all;
    var left := entries.Keys;
    while left != {}
      invariant left <= entries.Keys
      invariant forall c :: c in left || c !in entries ==> Tabled(w, repos, c, bases', all')
      invariant forall c :: c in entries && c !in left ==> Tabled(w, repos + [r], c, bases', all')
      decreases left
    {
      var chart :| chart in left;
      left := left - {chart};
      bases', all' := TableChart(w, repos, r, chart, entries[chart], bases', all');
    }
    forall c ensures Tabled(w, repos + [r], c, bases', all') {
      TableStep(w, repos, r, c);
    }
  }

  lemma SkipIndex(w: World, repos: seq<Repo>, r: Repo, bases: map<string, array<Candidate>>,
      all: map<string, map<string, Versions>>)
    requires w.index(r.name).None? && AllTabled(w, repos, bases, all)
    ensures AllTabled(w, repos + [r], bases, all)
  {
    hide Base, VersionsByRepo;
    forall c ensures Tabled(w, repos + [r], c, bases, all) {
      TableStep(w, repos, r, c);
      assert Tabled(w, repos, c, bases, all);
    }
  }

  method TableIndexes(w: World, repos: seq<Repo>)
    returns (bases: map<string, array<Candidate>>, all: map<string, map<string, Versions>>)
    ensures AllTabled(w, repos, bases, all)
  {
    bases, all := map[], map[];
    for i := 0 to |repos|
      invariant AllTabled(w, repos[..i], bases, all)
    {
      hide Base, VersionsByRepo;
      var r := repos[i];
      assert repos[..i + 1] == repos[..i] + [r];
      var idx := w.index(r.name);
      if idx.None? {
        SkipIndex(w, repos[..i], r, bases, all);
        continue;
      }
      bases, all := TableIndex(w, repos[..i], r, idx.value, bases, all);
    }
    assert repos[..|repos|] == repos;
  }

  /** Later releases win a key two releases share. */
  function Reports(w: World, f: RepoFile, releases: seq<Release>): map<string, Info> {
    if releases == [] then map[]
    else
      var rel := releases[|releases| - 1];
      Reports(w, f, releases[..|releases| - 1])[rel.key := BatchInfo(w, f, rel)]
  }

  method BatchOne(w: World, repos: seq<Repo>, rel: Release,
                  bases: map<string, array<Candidate>>, all: map<string, map<string, Versions>>) returns (info: Info)
    requires AllTabled(w, repos, bases, all)
    ensures info == BatchInfo(w, Repositories(repos), rel)
  {
    hide Base, VersionsByRepo, UpgradeChoice, Marked1;
    assert Tabled(w, repos, rel.chart, bases, all);
    if rel.chart !in bases {
      return Troubled(rel, ChartNotFound);
    }
    var candidates := MarkCurrentVersion(bases[rel.chart], all[rel.chart], rel.version);
    var latestVersion, repoName := FindBestUpgradeVersion(w, candidates[..], rel.hosts);
    info := if latestVersion == "" then Troubled(rel, NoUpstream)
            else Info(rel.version, latestVersion, repoName, w.compare(latestVersion, rel.version) > 0, NoTrouble);
  }

  method BatchCheckUpgrades(w: World, f: RepoFile, releases: seq<Release>) returns (infos: map<string, Info>)
    ensures infos == Reports(w, f, releases)
  {
    infos := map[];
    if |releases| == 0 {
      return;
    }
    if !f.Repositories? {
      for i := 0 to |releases|
        invariant infos == Reports(w, f, releases[..i])
      {
        assert releases[..i + 1][..i] == releases[..i];
        infos := infos[releases[i].key :=
            Troubled(releases[i], if f.Missing? then NoRepositories else RepositoriesUnreadable)];
      }
      assert releases[..|releases|] == releases;
      return;
    }
    hide BatchInfo, Tabled, AllTabled;
    var bases, all := TableIndexes(w, f.repos);
    for i := 0 to |releases|
      invariant AllTabled(w, f.repos, bases, all)
      invariant infos == Reports(w, f, releases[..i])
    {
      assert releases[..i + 1][..i] == releases[..i];
      var info := BatchOne(w, f.repos, releases[i], bases, all);
      infos := infos[releases[i].key := info];
    }
    assert releases[..|releases|] == releases;
  }

  // The two agree.

  /** An index lists no empty version; loading one drops entries without a valid version. */
  ghost predicate VersionsNamed(w: World) {
    forall name, chart :: "" !in Listed(w, name, chart)
  }

  lemma {:induction false} LatestAgrees(w: World, vs: Versions)
    requires "" !in vs
    ensures vs == [] ==> LatestFrom(w, "", vs) == ""
    ensures vs != [] ==> LatestFrom(w, "", vs) == Latest(w, vs) && Latest(w, vs) in vs
  {
    if vs != [] {
      var n := |vs| - 1;
      assert vs == vs[..n] + [vs[n]];
      LatestAgrees(w, vs[..n]);
      if n == 0 {
        assert vs[..0] == [];
      }
    }
  }

  /** The table keeps one list for each repository name, and it is that repository's list. */
  lemma {:induction false} TableIsByName(w: World, repos: seq<Repo>, chart: string, name: string)
    ensures name in VersionsByRepo(w, repos, chart) <==>
            Listed(w, name, chart) != [] && exists r :: r in repos && r.name == name
    ensures name in VersionsByRepo(w, repos, chart) ==> VersionsByRepo(w, repos, chart)[name] == Listed(w, name, chart)
  {
    if repos != [] {
      var n := |repos| - 1;
      assert repos == repos[..n] + [repos[n]];
      TableIsByName(w, repos[..n], chart, name);
    }
  }

  /** Marks what `Found` would have found. */
  function Seen(w: World, c: Candidate, rel: Release): Candidate {
    c.(hasCurrentVersion := rel.version in Listed(w, c.repoName, rel.chart))
  }

  lemma {:induction false} FoundIsSeen(w: World, repos: seq<Repo>, rel: Release)
    requires VersionsNamed(w)
    ensures var found, base := Found(w, repos, rel), Base(w, repos, rel.chart);
      |found| == |base| && forall k :: 0 <= k < |base| ==>
          !base[k].hasCurrentVersion && found[k] == Seen(w, base[k], rel)
    ensures forall c :: c in Base(w, repos, rel.chart) ==> exists r :: r in repos && r.name == c.repoName
  {
    if repos != [] {
      var n := |repos| - 1;
      assert repos == repos[..n] + [repos[n]];
      FoundIsSeen(w, repos[..n], rel);
      var vs := Listed(w, repos[n].name, rel.chart);
      LatestAgrees(w, vs);
      hide LatestFrom, Latest, Listed;
      assert vs != [] ==> LatestFrom(w, "", vs) != "";
    }
  }

  lemma MarkedIsFound(w: World, repos: seq<Repo>, rel: Release)
    requires VersionsNamed(w)
    ensures Marked(Base(w, repos, rel.chart), VersionsByRepo(w, repos, rel.chart), rel.version) == Found(w, repos, rel)
  {
    FoundIsSeen(w, repos, rel);
    hide Base, Found, VersionsByRepo, Listed;
    var base, byRepo, found := Base(w, repos, rel.chart), VersionsByRepo(w, repos, rel.chart), Found(w, repos, rel);
    forall k | 0 <= k < |base| ensures Marked1(base[k], byRepo, rel.version) == found[k] {
      assert base[k] in base;
      TableIsByName(w, repos, rel.chart, base[k].repoName);
    }
  }

  /** Main result: the batch reports for a release exactly what the single check would, whatever
      the comparison, the other releases and repeated repositories. The two differ in one case, a
      repository file that lists no repository: one says so, the other that no chart was found. */
  lemma SingleEqualsBatch(w: World, f: RepoFile, rel: Release)
    requires VersionsNamed(w)
    ensures var single, batch := SingleInfo(w, f, rel), BatchInfo(w, f, rel);
      && single.(trouble := batch.trouble) == batch
      && (single.trouble == batch.trouble <==> f != Repositories([]))
  {
    if f.Repositories? {
      MarkedIsFound(w, f.repos, rel);
      hide UpgradeChoice, Marked1;
    }
  }

  /** Main result: so each key of the batch carries the single check of the last release with it,
      and nothing of the releases that share its chart. */
  lemma {:induction false} ReportsAreSingle(w: World, f: RepoFile, releases: seq<Release>, i: nat)
    requires VersionsNamed(w) && f != Repositories([]) && i < |releases|
    requires forall j :: i < j < |releases| ==> releases[j].key != releases[i].key
    ensures releases[i].key in Reports(w, f, releases)
            && Reports(w, f, releases)[releases[i].key] == SingleInfo(w, f, releases[i])
  {
    hide BatchInfo, SingleInfo;
    var n := |releases| - 1;
    if i == n {
      SingleEqualsBatch(w, f, releases[n]);
    } else {
      ReportsAreSingle(w, f, releases[..n], i);
    }
  }

  // What a report means.

  lemma {:induction false} LatestIsLatest(w: World, vs: Versions, order: set<string>)
    requires "" !in vs && vs != [] && OrderedOn(w, order) && forall v :: v in vs ==> v in order
    ensures Latest(w, vs) in vs && forall v :: v in vs ==> w.compare(Latest(w, vs), v) >= 0
  {
    var n, x := |vs| - 1, vs[|vs| - 1];
    assert vs == vs[..n] + [x] && x in vs;
    LatestAgrees(w, vs);
    if n > 0 {
      LatestIsLatest(w, vs[..n], order);
      var before := Latest(w, vs[..n]);
      hide OrderedOn;
      forall v | v in vs ensures w.compare(Latest(w, vs), v) >= 0 {
        LaterStep(w, order, before, x, v);
        assert v == x || v in vs[..n];
      }
    } else {
      LaterStep(w, order, x, x, x);
    }
  }

  lemma {:induction false} FoundMember(w: World, repos: seq<Repo>, rel: Release, c: Candidate)
    requires c in Found(w, repos, rel)
    ensures exists r :: r in repos && c.repoName == r.name && c.repoURL == r.url
    ensures c.latestVersion != "" && c.latestVersion == LatestFrom(w, "", Listed(w, c.repoName, rel.chart))
    ensures c.hasCurrentVersion <==> rel.version in Listed(w, c.repoName, rel.chart)
  {
    var n := |repos| - 1;
    assert repos == repos[..n] + [repos[n]];
    if c in Found(w, repos[..n], rel) {
      FoundMember(w, repos[..n], rel, c);
    }
  }

  lemma FoundNamed(w: World, repos: seq<Repo>, rel: Release)
    ensures Named(Found(w, repos, rel))
  {
    forall c | c in Found(w, repos, rel) ensures c.latestVersion != "" {
      FoundMember(w, repos, rel, c);
    }
  }

  lemma PoolMember(cs: seq<Candidate>, c: Candidate)
    requires c in Pool(cs)
    ensures c in cs
  {
    CurrentMembers(cs, c);
  }

  lemma LaterThan(w: World, vs: set<string>, latest: string, v: string, installed: string)
    requires OrderedOn(w, vs) && latest in vs && v in vs && installed in vs
    requires w.compare(latest, v) >= 0 && w.compare(v, installed) > 0
    ensures w.compare(latest, installed) > 0
  {
  }

  /** Main result: a report without trouble names a configured repository, and where the comparison
      is an order on what that repository lists and the installed version, the latest version it
      gives is one of those listed, none of them is later, and an update is available exactly when
      some listed version is later than the installed one. */
  lemma ReportMeaning(w: World, repos: seq<Repo>, rel: Release)
    requires VersionsNamed(w) && SingleInfo(w, Repositories(repos), rel).trouble == NoTrouble
    ensures var info := SingleInfo(w, Repositories(repos), rel); var listed :=
            Listed(w, info.repositoryName, rel.chart);
      && (exists r :: r in repos && r.name == info.repositoryName)
      && info.latestVersion in listed
      && (OrderedOn(w, {rel.version} + set v | v in listed) ==>
            && (forall v :: v in listed ==> w.compare(info.latestVersion, v) >= 0)
            && (info.updateAvailable <==> exists v :: v in listed && w.compare(v, rel.version) > 0))
  {
    var found := Found(w, repos, rel);
    FoundNamed(w, repos, rel);
    ChoiceMeaning(w, found, rel.hosts);
    hide Found, UpgradeChoice, Pool, OrderedOn, Latest, LatestFrom, Listed;
    var choice := UpgradeChoice(w, found, rel.hosts);
    var c :| c in Pool(found) && ChoiceOf(c) == choice;
    PoolMember(found, c);
    FoundMember(w, repos, rel, c);
    var listed := Listed(w, c.repoName, rel.chart);
    LatestAgrees(w, listed);
    var order := {rel.version} + set v | v in listed;
    if OrderedOn(w, order) {
      LatestIsLatest(w, listed, order);
      forall v | v in listed && w.compare(v, rel.version) > 0 ensures w.compare(c.latestVersion, rel.version) > 0 {
        LaterThan(w, order, c.latestVersion, v, rel.version);
      }
    }
  }

  /** The repositories that list the chart; with `installed`, in the version the release has. */
  function ListedBy(w: World, repos: seq<Repo>, rel: Release, installed: bool): seq<Repo> {
    if repos == [] then []
    else
      var r := repos[|repos| - 1];
      var vs := Listed(w, r.name, rel.chart);
      ListedBy(w, repos[..|repos| - 1], rel, installed)
          + if vs != [] && (installed ==> rel.version in vs) then [r] else []
  }

  /** The repositories a release may come from: those that list its version, else all that list its chart. */
  function Origins(w: World, repos: seq<Repo>, rel: Release): seq<Repo> {
    if ListedBy(w, repos, rel, true) != [] then ListedBy(w, repos, rel, true) else ListedBy(w, repos, rel, false)
  }

  ghost predicate FromRepos(cs: seq<Candidate>, repos: seq<Repo>) {
    |cs| == |repos| && forall k :: 0 <= k < |cs| ==> cs[k].repoURL == repos[k].url && cs[k].repoName == repos[k].name
  }

  lemma {:induction false} FoundFromRepos(w: World, repos: seq<Repo>, rel: Release)
    requires VersionsNamed(w)
    ensures FromRepos(Found(w, repos, rel), ListedBy(w, repos, rel, false))
    ensures FromRepos(Current(Found(w, repos, rel)), ListedBy(w, repos, rel, true))
  {
    if repos != [] {
      var n, r := |repos| - 1, repos[|repos| - 1];
      FoundFromRepos(w, repos[..n], rel);
      var vs := Listed(w, r.name, rel.chart);
      LatestAgrees(w, vs);
      var before := Found(w, repos[..n], rel);
      var c := Candidate(r.name, r.url, LatestFrom(w, "", vs), rel.version in vs);
      assert (before + [c])[..|before|] == before;
    }
  }

  /** The repositories listed are those of the file that have the chart. */
  lemma {:induction false} ListedByMembers(w: World, repos: seq<Repo>, rel: Release, installed: bool, r: Repo)
    ensures r in ListedBy(w, repos, rel, installed) <==>
            r in repos && Listed(w, r.name, rel.chart) != []
            && (installed ==> rel.version in Listed(w, r.name, rel.chart))
  {
    if repos != [] {
      var n := |repos| - 1;
      assert repos == repos[..n] + [repos[n]];
      ListedByMembers(w, repos[..n], rel, installed, r);
    }
  }

  lemma NoListing(w: World, repos: seq<Repo>, rel: Release)
    ensures Origins(w, repos, rel) == [] <==> forall r :: r in repos ==> Listed(w, r.name, rel.chart) == []
  {
    var all, current := ListedBy(w, repos, rel, false), ListedBy(w, repos, rel, true);
    forall r: Repo ensures r in all <==> r in repos && Listed(w, r.name, rel.chart) != [] {
      ListedByMembers(w, repos, rel, false, r);
    }
    assert all != [] ==> all[0] in all;
    if current != [] {
      ListedByMembers(w, repos, rel, true, current[0]);
    }
    hide ListedBy, Listed;
  }

  /** Several repositories, and no source host of the chart tells them apart. */
  ghost predicate Ambiguous(w: World, origins: seq<Repo>, hosts: seq<string>) {
    |origins| > 1 && forall r :: r in origins ==> hosts == [] || !w.urlMatches(r.url, hosts)
  }

  lemma AssessTrouble(w: World, repos: seq<Repo>, rel: Release)
    requires VersionsNamed(w)
    ensures var info, origins := Assess(w, Found(w, repos, rel), rel), Origins(w, repos, rel);
      && info.trouble in {NoTrouble, ChartNotFound, NoUpstream}
      && (info.trouble == ChartNotFound <==> origins == [])
      && (info.trouble == NoUpstream <==> Ambiguous(w, origins, rel.hosts))
      && (info.trouble == NoTrouble ==> info.latestVersion != "")
  {
    var cs, origins := Found(w, repos, rel), Origins(w, repos, rel);
    FoundNamed(w, repos, rel);
    FoundFromRepos(w, repos, rel);
    hide Found, ListedBy, Current, UpgradeChoice;
    var pool := Pool(cs);
    assert FromRepos(pool, origins);
    assert forall k :: 0 <= k < |pool| ==> pool[k] in pool && origins[k] in origins;
    ChoiceMeaning(w, cs, rel.hosts);
    PoolNamed(cs);
  }

  /** Main result: when each kind of trouble is reported. Nothing is offered then, and otherwise the offer
      is an update exactly when it compares as later than what is installed. */
  lemma TroubleMeaning(w: World, f: RepoFile, rel: Release)
    requires VersionsNamed(w)
    ensures var info := SingleInfo(w, f, rel);
      && info.currentVersion == rel.version
      && (info.trouble == NoRepositories <==> f == Missing || f == Repositories([]))
      && (info.trouble == RepositoriesUnreadable <==> f == Unreadable)
      && (info.trouble == ChartNotFound <==>
            f.Repositories? && f.repos != [] && forall r :: r in f.repos ==> Listed(w, r.name, rel.chart) == [])
      && (info.trouble == NoUpstream <==> f.Repositories? && Ambiguous(w, Origins(w, f.repos, rel), rel.hosts))
      && (info.trouble != NoTrouble ==>
            info.latestVersion == "" && info.repositoryName == "" && !info.updateAvailable)
      && (info.trouble == NoTrouble ==>
            info.latestVersion != "" && (info.updateAvailable <==> w.compare(info.latestVersion, rel.version) > 0))
  {
    if f.Repositories? {
      AssessTrouble(w, f.repos, rel);
      NoListing(w, f.repos, rel);
      hide Found, UpgradeChoice;
    }
  }
}
