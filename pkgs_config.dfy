/** Distribution configuration (src/yakusoku/modules/pkgs/config.py): each
    configured distribution expands into a provider and its repositories, and
    the list of distributions may not repeat a name. Durations are whole
    seconds. */
module PkgsConfig {

  import opened Wrappers
  import opened Seqs
  import PkgsApt
  import PkgsAlpm
  import PkgsRpmMd
  import PkgsApk

  /** One entry of `distros`; the constructor is the scheme. `update` is
      `None` when the distribution follows the default interval. */
  datatype DistroConfig =
    | AptConfig(name: string, update: Option<int>, src: string, suite: string, arch: string,
                withNoarch: bool, comps: seq<string>)
    | AlpmConfig(name: string, update: Option<int>, src: string, arch: string, repos: seq<string>)
    | RpmMdConfig(name: string, update: Option<int>, repos: seq<string>)
    | ApkConfig(name: string, update: Option<int>, repos: seq<string>)

  datatype Provider = Apt | Alpm | RpmMd | Apk

  /** A repository of any of the four formats. */
  datatype Repository =
    | AptRepository(component: PkgsApt.AptComponent)
    | AlpmRepository(repository: PkgsAlpm.AlpmRepository)
    | RpmMdRepository(rpmmd: PkgsRpmMd.RpmMdRepository)
    | ApkRepository(apk: PkgsApk.ApkRepository)

  function RpmMdRepositories(urls: seq<string>): (r: seq<Repository>)
    ensures |r| == |urls|
    ensures forall i :: 0 <= i < |r| ==> r[i] == RpmMdRepository(PkgsRpmMd.RpmMdRepository(urls[i]))
  {
    if urls == [] then [] else [RpmMdRepository(PkgsRpmMd.RpmMdRepository(urls[0]))] + RpmMdRepositories(urls[1..])
  }

  function ApkRepositories(urls: seq<string>): (r: seq<Repository>)
    ensures |r| == |urls|
    ensures forall i :: 0 <= i < |r| ==> r[i] == ApkRepository(PkgsApk.ApkRepository(urls[i]))
  {
    if urls == [] then [] else [ApkRepository(PkgsApk.ApkRepository(urls[0]))] + ApkRepositories(urls[1..])
  }

  function AptRepositories(cs: seq<PkgsApt.AptComponent>): (r: seq<Repository>)
    ensures |r| == |cs|
    ensures forall i :: 0 <= i < |r| ==> r[i] == AptRepository(cs[i])
  {
    if cs == [] then [] else [AptRepository(cs[0])] + AptRepositories(cs[1..])
  }

  function AlpmRepositories(rs: seq<PkgsAlpm.AlpmRepository>): (r: seq<Repository>)
    ensures |r| == |rs|
    ensures forall i :: 0 <= i < |r| ==> r[i] == AlpmRepository(rs[i])
  {
    if rs == [] then [] else [AlpmRepository(rs[0])] + AlpmRepositories(rs[1..])
  }

  /** The components of an apt distribution: one per name on the configured
      architecture and, with `with_noarch`, then one per name again on "all". */
  function AptComponents(c: DistroConfig): (r: seq<PkgsApt.AptComponent>)
    requires c.AptConfig?
    ensures |r| == |c.comps| * (if c.withNoarch then 2 else 1)
    ensures forall i :: 0 <= i < |c.comps| ==>
              r[i] == PkgsApt.AptComponent(PkgsApt.AptSource(c.src, c.suite, c.arch), c.comps[i])
    ensures forall i :: |c.comps| <= i < |r| ==>
              r[i] == PkgsApt.AptComponent(PkgsApt.AptSource(c.src, c.suite, "all"), c.comps[i - |c.comps|])
  {
    var own := PkgsApt.WithComponents(PkgsApt.AptSource(c.src, c.suite, c.arch), c.comps);
    if c.withNoarch then own + PkgsApt.WithComponents(PkgsApt.AptSource(c.src, c.suite, "all"), c.comps)
    else own
  }

  /** `to_instance`: the provider for the scheme and the repositories to
      fetch, in configured order. */
  function ToInstance(c: DistroConfig): (r: (Provider, seq<Repository>))
    ensures c.AptConfig? ==> r.0 == Apt && r.1 == AptRepositories(AptComponents(c))
    ensures c.AlpmConfig? ==>
              r.0 == Alpm && |r.1| == |c.repos| &&
              forall i :: 0 <= i < |c.repos| ==>
                r.1[i] == AlpmRepository(PkgsAlpm.AlpmRepository(PkgsAlpm.AlpmSource(c.src, c.arch), c.repos[i]))
    ensures c.RpmMdConfig? ==>
              r.0 == RpmMd && |r.1| == |c.repos| &&
              forall i :: 0 <= i < |c.repos| ==> r.1[i] == RpmMdRepository(PkgsRpmMd.RpmMdRepository(c.repos[i]))
    ensures c.ApkConfig? ==>
              r.0 == Apk && |r.1| == |c.repos| &&
              forall i :: 0 <= i < |c.repos| ==> r.1[i] == ApkRepository(PkgsApk.ApkRepository(c.repos[i]))
  {
    match c
    case AptConfig(_, _, _, _, _, _, _) => (Apt, AptRepositories(AptComponents(c)))
    case AlpmConfig(_, _, src, arch, repos) =>
      (Alpm, AlpmRepositories(PkgsAlpm.WithRepositories(PkgsAlpm.AlpmSource(src, arch), repos)))
    case RpmMdConfig(_, _, repos) => (RpmMd, RpmMdRepositories(repos))
    case ApkConfig(_, _, repos) => (Apk, ApkRepositories(repos))
  }

  // ---------------------------------------------------------------------------
  // The duplicate-name validator

  function Names(v: seq<DistroConfig>): (r: seq<string>)
    ensures |r| == |v| && forall i :: 0 <= i < |v| ==> r[i] == v[i].name
  {
    if v == [] then [] else [v[0].name] + Names(v[1..])
  }

  /** The keys of `Counter(ns)` in insertion order: each name at its first occurrence. */
  function FirstOccurrences(ns: seq<string>): seq<string>
  {
    if ns == [] then []
    else
      var d := FirstOccurrences(ns[..|ns| - 1]);
      if ns[|ns| - 1] in d then d else d + [ns[|ns| - 1]]
  }

  function Repeated(ds: seq<string>, ns: seq<string>): seq<string>
  {
    if ds == [] then []
    else (if multiset(ns)[ds[0]] > 1 then [ds[0]] else []) + Repeated(ds[1..], ns)
  }

  /** The names the validator reports: those counted more than once, in
      first-occurrence order. */
  function Duplicates(ns: seq<string>): seq<string>
  {
    Repeated(FirstOccurrences(ns), ns)
  }

  lemma {:induction false} FirstOccurrencesElements(ns: seq<string>)
    ensures forall x :: x in FirstOccurrences(ns) <==> x in ns
    ensures Distinct(FirstOccurrences(ns))
    decreases |ns|
  {
    if ns != [] {
      var p := ns[..|ns| - 1];
      FirstOccurrencesElements(p);
      assert ns == p + [ns[|ns| - 1]];
    }
  }

  lemma {:induction false} RepeatedElements(ds: seq<string>, ns: seq<string>)
    ensures forall x :: x in Repeated(ds, ns) <==> x in ds && multiset(ns)[x] > 1
    decreases |ds|
  {
    if ds != [] {
      RepeatedElements(ds[1..], ns);
      assert forall x :: x in ds <==> x == ds[0] || x in ds[1..];
    }
  }

  /** A name occurs at two positions exactly when it is counted at least twice. */
  lemma {:induction false} CountedTwice(ns: seq<string>, x: string)
    ensures multiset(ns)[x] > 1 <==> exists i, j :: 0 <= i < j < |ns| && ns[i] == x && ns[j] == x
    decreases |ns|
  {
    if ns != [] {
      var p := ns[..|ns| - 1];
      var y := ns[|ns| - 1];
      assert ns == p + [y];
      CountedTwice(p, x);
      if multiset(ns)[x] > 1 && multiset(p)[x] <= 1 {
        assert y == x && x in p;
        var i :| 0 <= i < |p| && p[i] == x;
        assert ns[i] == x && ns[|ns| - 1] == x;
      }
      if exists i, j :: 0 <= i < j < |ns| && ns[i] == x && ns[j] == x {
        var i, j :| 0 <= i < j < |ns| && ns[i] == x && ns[j] == x;
        if j < |p| {
          assert p[i] == x && p[j] == x;
        } else {
          assert p[i] == x;
          assert x in p;
        }
      }
    }
  }

  /** The reported names are exactly the names that occur more than once. */
  lemma DuplicatesSpec(ns: seq<string>)
    ensures forall x :: x in Duplicates(ns) <==> exists i, j :: 0 <= i < j < |ns| && ns[i] == x && ns[j] == x
  {
    FirstOccurrencesElements(ns);
    RepeatedElements(FirstOccurrences(ns), ns);
    forall x
      ensures x in Duplicates(ns) <==> exists i, j :: 0 <= i < j < |ns| && ns[i] == x && ns[j] == x
    {
      CountedTwice(ns, x);
    }
  }

  /** Nothing is reported exactly when no name repeats. */
  lemma NoDuplicatesIff(ns: seq<string>)
    ensures Duplicates(ns) == [] <==> Distinct(ns)
  {
    DuplicatesSpec(ns);
    if Duplicates(ns) != [] {
      assert Duplicates(ns)[0] in Duplicates(ns);
    }
    if !Distinct(ns) {
      var i, j :| 0 <= i < j < |ns| && ns[i] == ns[j];
      assert ns[i] in Duplicates(ns);
    }
  }

  /** Failure of `distros_no_duplicate`: the repeated names. */
  datatype DuplicateDistros = DuplicateDistros(names: seq<string>)

  /** `PkgsConfig.distros_no_duplicate`: the list is accepted unchanged when
      no two distributions share a name. */
  function DistrosNoDuplicate(v: seq<DistroConfig>): (r: Result<seq<DistroConfig>, DuplicateDistros>)
    ensures r.Ok? <==> Distinct(Names(v))
    ensures r.Ok? ==> r.value == v
    ensures r.Err? ==> forall x :: x in r.error.names <==>
              exists i, j :: 0 <= i < j < |v| && v[i].name == x && v[j].name == x
  {
    NoDuplicatesIff(Names(v));
    DuplicatesSpec(Names(v));
    var d := Duplicates(Names(v));
    if d == [] then Ok(v) else Err(DuplicateDistros(d))
  }

  // ---------------------------------------------------------------------------
  // The whole configuration

  const DefaultMaxJobs := 1
  const DefaultRetryAfter := 5
  const DefaultCommitOn := 1000
  const DefaultUpdate := 4 * 60 * 60

  datatype Settings = Settings(distros: seq<DistroConfig>, maxJobs: int, retryAfter: int,
                               commitOn: int, defaultUpdate: int)

  /** A configuration giving only the distributions: validated, then the defaults. */
  function WithDefaults(distros: seq<DistroConfig>): (r: Result<Settings, DuplicateDistros>)
    ensures r.Ok? <==> Distinct(Names(distros))
    ensures r.Ok? ==> r.value == Settings(distros, 1, 5, 1000, 14400)
  {
    match DistrosNoDuplicate(distros)
    case Err(e) => Err(e)
    case Ok(v) => Ok(Settings(v, DefaultMaxJobs, DefaultRetryAfter, DefaultCommitOn, DefaultUpdate))
  }
}
