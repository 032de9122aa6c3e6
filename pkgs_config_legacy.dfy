/** The older distribution configuration (yakusoku/modules/pkgs/config.py).
    Expansion, validation and defaults are the same as in `PkgsConfig`; what
    differs is how a distribution is built from its keyword arguments: each
    configuration class registers itself under its scheme when it is defined,
    and construction looks the scheme up in that registry. */
module PkgsConfigLegacy {

  import opened Wrappers
  import opened PkgsConfig
  import PkgsApt

  /** The four configuration classes. */
  datatype Kind = AptKind | AlpmKind | RpmMdKind | ApkKind

  function KindOf(c: DistroConfig): Kind
  {
    match c
    case AptConfig(_, _, _, _, _, _, _) => AptKind
    case AlpmConfig(_, _, _, _, _) => AlpmKind
    case RpmMdConfig(_, _, _) => RpmMdKind
    case ApkConfig(_, _, _) => ApkKind
  }

  /** The class-level `__subtypes__` registry. */
  class SchemeRegistry {
    var subtypes: map<string, Kind>

    constructor()
      ensures subtypes == map[]
    {
      subtypes := map[];
    }

    /** `__init_subclass__`: the class is registered under its scheme,
        replacing any class registered there before. */
    method Register(scheme: string, kind: Kind)
      modifies this
      ensures subtypes == old(subtypes)[scheme := kind]
    {
      subtypes := subtypes[scheme := kind];
    }
  }

  const Builtin: map<string, Kind> :=
    map["apt" := AptKind, "alpm" := AlpmKind, "rpm-md" := RpmMdKind, "apk" := ApkKind]

  /** Defining the four configuration classes, in source order. */
  method DefineConfigs() returns (r: SchemeRegistry)
    ensures fresh(r) && r.subtypes == Builtin
  {
    r := new SchemeRegistry();
    r.Register("apt", AptKind);
    r.Register("alpm", AlpmKind);
    r.Register("rpm-md", RpmMdKind);
    r.Register("apk", ApkKind);
  }

  /** The keyword arguments a distribution is built from; `None` is an absent key. */
  datatype Kwargs = Kwargs(
    scheme: Option<string>,
    name: Option<string>,
    update: Option<int>,
    src: Option<string>,
    suite: Option<string>,
    arch: Option<string>,
    withNoarch: Option<bool>,
    comps: Option<seq<string>>,
    repos: Option<seq<string>>)

  /** KeyError for a missing scheme, ValueError for an unknown one, and a
      validation error naming a required field that is missing. */
  datatype ConstructError = MissingScheme | UnknownScheme(scheme: string) | MissingField(field: string)

  /** The first required field of the class that the arguments lack, in declaration order. */
  function MissingRequired(k: Kind, kw: Kwargs): Option<string>
  {
    if kw.name.None? then Some("name")
    else match k
      case AptKind =>
        if kw.src.None? then Some("src")
        else if kw.suite.None? then Some("suite")
        else if kw.arch.None? then Some("arch")
        else if kw.comps.None? then Some("comps")
        else None
      case AlpmKind =>
        if kw.src.None? then Some("src")
        else if kw.arch.None? then Some("arch")
        else if kw.repos.None? then Some("repos")
        else None
      case RpmMdKind => if kw.repos.None? then Some("repos") else None
      case ApkKind => if kw.repos.None? then Some("repos") else None
  }

  /** `PkgDistroConfig.__new__`: the scheme is taken out of the arguments, the
      class registered under it is looked up, and the rest initialise it;
      `update` defaults to `None` and `with_noarch` to false. */
  function Construct(subtypes: map<string, Kind>, kw: Kwargs): (r: Result<DistroConfig, ConstructError>)
    ensures kw.scheme.None? ==> r == Err(MissingScheme)
    ensures kw.scheme.Some? && kw.scheme.value !in subtypes ==> r == Err(UnknownScheme(kw.scheme.value))
    ensures r.Ok? <==> kw.scheme.Some? && kw.scheme.value in subtypes
                       && MissingRequired(subtypes[kw.scheme.value], kw).None?
    ensures r.Ok? ==> KindOf(r.value) == subtypes[kw.scheme.value] && r.value.name == kw.name.value
                      && r.value.update == kw.update
  {
    match kw.scheme
    case None => Err(MissingScheme)
    case Some(scheme) =>
      if scheme !in subtypes then Err(UnknownScheme(scheme))
      else
        var k := subtypes[scheme];
        match MissingRequired(k, kw)
        case Some(f) => Err(MissingField(f))
        case None =>
          match k
          case AptKind =>
            Ok(AptConfig(kw.name.value, kw.update, kw.src.value, kw.suite.value, kw.arch.value,
                         if kw.withNoarch.Some? then kw.withNoarch.value else false, kw.comps.value))
          case AlpmKind => Ok(AlpmConfig(kw.name.value, kw.update, kw.src.value, kw.arch.value, kw.repos.value))
          case RpmMdKind => Ok(RpmMdConfig(kw.name.value, kw.update, kw.repos.value))
          case ApkKind => Ok(ApkConfig(kw.name.value, kw.update, kw.repos.value))
  }

  /** With the four built-in classes registered, exactly the schemes "apt",
      "alpm", "rpm-md" and "apk" are known, and each builds its own class. */
  lemma BuiltinSchemes(kw: Kwargs)
    requires kw.scheme.Some?
    ensures Construct(Builtin, kw) == Err(UnknownScheme(kw.scheme.value))
            <==> kw.scheme.value !in {"apt", "alpm", "rpm-md", "apk"}
    ensures Construct(Builtin, kw).Ok? && kw.scheme.value == "apt" ==> Construct(Builtin, kw).value.AptConfig?
    ensures Construct(Builtin, kw).Ok? && kw.scheme.value == "alpm" ==> Construct(Builtin, kw).value.AlpmConfig?
    ensures Construct(Builtin, kw).Ok? && kw.scheme.value == "rpm-md" ==> Construct(Builtin, kw).value.RpmMdConfig?
    ensures Construct(Builtin, kw).Ok? && kw.scheme.value == "apk" ==> Construct(Builtin, kw).value.ApkConfig?
  {
  }

  /** A registered apt configuration with `with_noarch` unset expands to one
      component per name on the configured architecture. */
  lemma AptWithoutNoarch(kw: Kwargs)
    requires kw.scheme == Some("apt") && kw.withNoarch.None?
    requires Construct(Builtin, kw).Ok?
    ensures ToInstance(Construct(Builtin, kw).value).1 == AptRepositories(
              PkgsApt.WithComponents(PkgsApt.AptSource(kw.src.value, kw.suite.value, kw.arch.value), kw.comps.value))
  {
  }
}
