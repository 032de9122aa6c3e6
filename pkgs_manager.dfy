/** The snapshot-backed package manager (src/yakusoku/modules/pkgs/manager.py).
    The store is a sequence of entries with a hash method and extra metadata;
    the file at the manager's path is a field (absent, a store, or something
    that is not a store), and each provider's output for a repository is
    given as a `Stream`. */
module PkgsManager {

  import opened Wrappers
  import opened Utf8
  import opened PkgsTypes
  import opened PkgsConfig

  /** An extra metadata field: a FLOAT64 timestamp (in whole seconds) or any other value. */
  datatype ExtraValue = Float64Value(timestamp: int) | OtherValue

  datatype Snapshot = Snapshot(hashMethod: HashMethod, entries: seq<Entry>, extra: map<string, ExtraValue>)

  /** What lies at the manager's path when it exists. */
  datatype StoredFile = Store(snapshot: Snapshot) | NotAStore

  datatype ManagerError =
    | DatabaseIsEmpty
    | NoSuchPackage
    | DatabaseUpdating
    | BadEntry(error: EntryError)
    | FetchFailed(failure: ParseFailure)
    | FileNotFound
    | NotAFloat

  /** The snapshot `ZakoDb.load` gives for the file, if it loads. */
  function Loaded(file: Option<StoredFile>): Option<Snapshot>
  {
    match file
    case Some(Store(s)) => Some(s)
    case _ => None
  }

  predicate NameIs(e: Entry, v: Value)
  {
    "name" in e && e["name"] == v
  }

  /** The first entry whose name field equals `v`, as `next(find_entry(...), None)`. */
  function FirstMatch(es: seq<Entry>, v: Value): (r: Option<nat>)
    ensures r.None? <==> forall j :: 0 <= j < |es| ==> !NameIs(es[j], v)
    ensures r.Some? ==> r.value < |es| && NameIs(es[r.value], v)
                        && forall j :: 0 <= j < r.value ==> !NameIs(es[j], v)
  {
    if es == [] then None
    else if NameIs(es[0], v) then Some(0)
    else match FirstMatch(es[1..], v)
      case None => None
      case Some(i) => Some(i + 1)
  }

  /** `info` on a loaded snapshot: the name is hashed with the manager's hash
      method and the first entry holding exactly that value is decoded. */
  function Lookup(s: Snapshot, m: HashMethod, name: string): Result<Package, ManagerError>
  {
    match FirstMatch(s.entries, Hashed(Encode(name), m))
    case None => Err(NoSuchPackage)
    case Some(i) =>
      match FromEntry(s.entries[i])
      case Err(e) => Err(BadEntry(e))
      case Ok(p) => Ok(p)
  }

  /** `search` on a loaded snapshot: every entry whose name field satisfies the
      store's `contains` query, decoded in store order; a decoding failure ends it. */
  function Search(es: seq<Entry>, q: string, contains: (Value, string) -> bool): Result<seq<Package>, ManagerError>
  {
    if es == [] then Ok([])
    else
      var e := es[0];
      if "name" in e && contains(e["name"], q) then
        match FromEntry(e)
        case Err(err) => Err(BadEntry(err))
        case Ok(p) =>
          match Search(es[1..], q, contains)
          case Err(err) => Err(err)
          case Ok(ps) => Ok([p] + ps)
      else Search(es[1..], q, contains)
  }

  /** Searching never reports a missing package or an empty database: it fails
      only when a matching entry does not decode. */
  lemma {:induction false} SearchErrors(es: seq<Entry>, q: string, contains: (Value, string) -> bool)
    ensures Search(es, q, contains).Err? ==> Search(es, q, contains).error.BadEntry?
    decreases |es|
  {
    if es != [] { SearchErrors(es[1..], q, contains); }
  }

  function Entries(ps: seq<Package>, m: HashMethod): (es: seq<Entry>)
    ensures |es| == |ps| && forall i :: 0 <= i < |ps| ==> es[i] == ToEntry(ps[i], m)
  {
    if ps == [] then [] else [ToEntry(ps[0], m)] + Entries(ps[1..], m)
  }

  /** `es + r` when `r` succeeded. */
  function Prepend(es: seq<Entry>, r: Result<seq<Entry>, ParseFailure>): Result<seq<Entry>, ParseFailure>
  {
    match r
    case Ok(rest) => Ok(es + rest)
    case Err(f) => Err(f)
  }

  /** The entries a rebuild writes: each repository's packages in yielded
      order, repositories in configured order; the first failure aborts it. */
  function Rebuild(repos: seq<Repository>, fetch: Repository -> Stream, m: HashMethod): Result<seq<Entry>, ParseFailure>
  {
    if repos == [] then Ok([])
    else
      var st := fetch(repos[0]);
      if st.failure.Some? then Err(st.failure.value)
      else Prepend(Entries(st.packages, m), Rebuild(repos[1..], fetch, m))
  }

  /** All packages of a rebuild that succeeds. */
  function Fetched(repos: seq<Repository>, fetch: Repository -> Stream): seq<Package>
  {
    if repos == [] then [] else fetch(repos[0]).packages + Fetched(repos[1..], fetch)
  }

  lemma {:induction false} EntriesAppend(a: seq<Package>, b: seq<Package>, m: HashMethod)
    ensures Entries(a + b, m) == Entries(a, m) + Entries(b, m)
  {
    var whole := Entries(a + b, m);
    var parts := Entries(a, m) + Entries(b, m);
    forall i | 0 <= i < |whole|
      ensures whole[i] == parts[i]
    {
      if i < |a| {
        assert (a + b)[i] == a[i];
      } else {
        assert (a + b)[i] == b[i - |a|];
      }
    }
  }

  /** A rebuild succeeds exactly when no repository's stream failed, and then
      holds the encoded packages in order. */
  lemma {:induction false} RebuildFetched(repos: seq<Repository>, fetch: Repository -> Stream, m: HashMethod)
    ensures Rebuild(repos, fetch, m).Ok? <==> forall i :: 0 <= i < |repos| ==> fetch(repos[i]).failure.None?
    ensures Rebuild(repos, fetch, m).Ok? ==> Rebuild(repos, fetch, m).value == Entries(Fetched(repos, fetch), m)
    decreases |repos|
  {
    if repos != [] {
      RebuildFetched(repos[1..], fetch, m);
      EntriesAppend(fetch(repos[0]).packages, Fetched(repos[1..], fetch), m);
      assert forall i :: 1 <= i < |repos| ==> repos[i] == repos[1..][i - 1];
    }
  }

  /** The stored name of an encoded package equals the hashed query exactly
      when the names are equal. */
  lemma NameMatches(p: Package, m: HashMethod, name: string)
    ensures NameIs(ToEntry(p, m), Hashed(Encode(name), m)) <==> p.name == name
  {
    if NameIs(ToEntry(p, m), Hashed(Encode(name), m)) {
      EncodeInjective(p.name, name);
    }
  }

  /** An encoded package list matches the hashed query exactly where the names agree. */
  lemma EntriesNames(ps: seq<Package>, m: HashMethod, name: string)
    ensures forall j :: 0 <= j < |ps| ==> (NameIs(Entries(ps, m)[j], Hashed(Encode(name), m)) <==> ps[j].name == name)
  {
    forall j | 0 <= j < |ps|
      ensures NameIs(Entries(ps, m)[j], Hashed(Encode(name), m)) <==> ps[j].name == name
    {
      NameMatches(ps[j], m, name);
    }
  }

  /** The first package with that name. */
  function FirstNamed(ps: seq<Package>, name: string): (r: Option<nat>)
    ensures r.None? <==> forall j :: 0 <= j < |ps| ==> ps[j].name != name
    ensures r.Some? ==> r.value < |ps| && ps[r.value].name == name
                        && forall j :: 0 <= j < r.value ==> ps[j].name != name
  {
    if ps == [] then None
    else if ps[0].name == name then Some(0)
    else match FirstNamed(ps[1..], name)
      case None => None
      case Some(i) => Some(i + 1)
  }

  lemma FirstMatchEntries(ps: seq<Package>, m: HashMethod, name: string)
    ensures FirstMatch(Entries(ps, m), Hashed(Encode(name), m)) == FirstNamed(ps, name)
  {
    EntriesNames(ps, m, name);
  }

  /** After a rebuild with the manager's own hash method, `info` gives the
      first fetched package of that name, and NoSuchPackage when none has it. */
  lemma LookupFirstPackage(ps: seq<Package>, m: HashMethod, name: string, extra: map<string, ExtraValue>)
    ensures FirstNamed(ps, name).None? ==> Lookup(Snapshot(m, Entries(ps, m), extra), m, name) == Err(NoSuchPackage)
    ensures FirstNamed(ps, name).Some? ==>
              Lookup(Snapshot(m, Entries(ps, m), extra), m, name) == Ok(ps[FirstNamed(ps, name).value])
  {
    FirstMatchEntries(ps, m, name);
    var f := FirstNamed(ps, name);
    if f.Some? {
      RoundTrip(ps[f.value], m);
      assert Entries(ps, m)[f.value] == ToEntry(ps[f.value], m);
    }
  }

  /** After a rebuild, `search` yields exactly the fetched packages whose
      stored name satisfies the query, in order. */
  lemma {:induction false} SearchRebuilt(ps: seq<Package>, m: HashMethod, q: string, contains: (Value, string) -> bool)
    ensures Search(Entries(ps, m), q, contains) == Ok(SelectPackages(ps, m, q, contains))
    decreases |ps|
  {
    if ps != [] {
      var es := Entries(ps, m);
      RoundTrip(ps[0], m);
      assert es[0] == ToEntry(ps[0], m);
      assert "name" in es[0] && es[0]["name"] == Hashed(Encode(ps[0].name), m);
      assert es[1..] == Entries(ps[1..], m);
      SearchRebuilt(ps[1..], m, q, contains);
      var rest := Search(es[1..], q, contains);
      assert rest == Ok(SelectPackages(ps[1..], m, q, contains));
      if contains(Hashed(Encode(ps[0].name), m), q) {
        assert Search(es, q, contains) == Ok([ps[0]] + rest.value);
      } else {
        assert Search(es, q, contains) == rest;
        assert [] + SelectPackages(ps[1..], m, q, contains) == SelectPackages(ps[1..], m, q, contains);
      }
    } else {
      assert Entries(ps, m) == [];
    }
  }

  function SelectPackages(ps: seq<Package>, m: HashMethod, q: string, contains: (Value, string) -> bool): seq<Package>
  {
    if ps == [] then []
    else (if contains(Hashed(Encode(ps[0].name), m), q) then [ps[0]] else []) + SelectPackages(ps[1..], m, q, contains)
  }

  /** The extra fields a new snapshot is created with. */
  function Metadata(now: int): map<string, ExtraValue>
  {
    map["created_at" := Float64Value(now)]
  }

  /** `last_updated` on a snapshot: the creation time if it is recorded. */
  function CreatedAt(db: Option<Snapshot>): (r: Result<Option<int>, ManagerError>)
    ensures db.None? ==> r == Ok(None)
    ensures db.Some? && "created_at" !in db.value.extra ==> r == Ok(None)
    ensures r == Err(NotAFloat) <==> db.Some? && "created_at" in db.value.extra && db.value.extra["created_at"].OtherValue?
    ensures r.Ok? && r.value.Some? ==> db.Some? && db.value.extra["created_at"] == Float64Value(r.value.value)
  {
    match db
    case None => Ok(None)
    case Some(s) =>
      if "created_at" !in s.extra then Ok(None)
      else match s.extra["created_at"]
        case Float64Value(t) => Ok(Some(t))
        case OtherValue => Err(NotAFloat)
  }

  /** The writer a rebuild appends entries to. */
  class SnapshotWriter {
    var entries: seq<Entry>

    constructor()
      ensures entries == []
    {
      entries := [];
    }

    method AppendEntry(e: Entry)
      modifies this
      ensures entries == old(entries) + [e]
    {
      entries := entries + [e];
    }
  }

  class PackageManager {
    const repos: seq<Repository>
    const hashMethod: HashMethod
    /** The file at the manager's path. */
    var file: Option<StoredFile>
    /** The loaded store, `_db`. */
    var db: Option<Snapshot>
    /** Whether the loaded store's file handle is still open. */
    var dbOpen: bool
    /** Handles that were dropped while still open. */
    var leaked: nat
    var updating: bool

    predicate Valid()
      reads this
    {
      dbOpen ==> db.Some?
    }

    /** A new manager is not updating and reloads from its path. */
    constructor(repos: seq<Repository>, file: Option<StoredFile>, hashMethod: HashMethod)
      ensures Valid()
      ensures this.repos == repos && this.hashMethod == hashMethod && this.file == file
      ensures !updating && db == Loaded(file) && dbOpen == db.Some? && leaked == 0
    {
      this.repos := repos;
      this.hashMethod := hashMethod;
      this.file := file;
      updating := false;
      db := None;
      dbOpen := false;
      leaked := 0;
      new;
      Reload();
    }

    /** `close`: closes the loaded store's handle, if a store is loaded. */
    method Close()
      requires Valid()
      modifies this
      ensures Valid()
      ensures dbOpen == (old(dbOpen) && old(db).None?)
      ensures db == old(db) && file == old(file) && updating == old(updating) && leaked == old(leaked)
    {
      if db.Some? {
        dbOpen := false;
      }
    }

    /** `reload`: the store at the path is loaded, or nothing when the file is
        absent or not a store. The previous store is closed only when there is
        none, so an open previous handle is dropped without being closed. */
    method Reload()
      requires Valid()
      modifies this
      ensures Valid()
      ensures db == Loaded(file) && dbOpen == db.Some?
      ensures leaked == old(leaked) + (if old(dbOpen) then 1 else 0)
      ensures file == old(file) && updating == old(updating)
    {
      if db.None? {
        Close();
      }
      if dbOpen {
        leaked := leaked + 1;
      }
      db := None;
      dbOpen := false;
      if file.None? {
        return;
      }
      match file.value
      case Store(s) =>
        db := Some(s);
        dbOpen := true;
      case NotAStore =>
    }

    function Available(): (r: bool)
      reads this
      ensures r <==> db.Some?
    {
      db.Some?
    }

    /** `info`: DatabaseIsEmpty with nothing loaded, else the lookup. */
    function Info(name: string): (r: Result<Package, ManagerError>)
      reads this
      ensures db.None? ==> r == Err(DatabaseIsEmpty)
      ensures db.Some? ==> r == Lookup(db.value, hashMethod, name)
    {
      match db
      case None => Err(DatabaseIsEmpty)
      case Some(s) => Lookup(s, hashMethod, name)
    }

    /** `search`: DatabaseIsEmpty with nothing loaded, else the matching packages. */
    function SearchPackages(q: string, contains: (Value, string) -> bool): (r: Result<seq<Package>, ManagerError>)
      reads this
      ensures db.None? ==> r == Err(DatabaseIsEmpty)
      ensures r.Err? ==> r.error == DatabaseIsEmpty || r.error.BadEntry?
    {
      match db
      case None => Err(DatabaseIsEmpty)
      case Some(s) => SearchErrors(s.entries, q, contains); Search(s.entries, q, contains)
    }

    function LastUpdated(): (r: Result<Option<int>, ManagerError>)
      reads this
      ensures r == CreatedAt(db)
    {
      CreatedAt(db)
    }

    /** `_update_repo`: every package the provider yields for the repository
        is encoded and appended, in order; the provider's failure, if any,
        comes after the packages yielded before it. */
    method UpdateRepo(writer: SnapshotWriter, repo: Repository, fetch: Repository -> Stream)
      returns (failure: Option<ParseFailure>)
      modifies writer
      ensures writer.entries == old(writer.entries) + Entries(fetch(repo).packages, hashMethod)
      ensures failure == fetch(repo).failure
    {
      var st := fetch(repo);
      var j := 0;
      while j < |st.packages|
        invariant 0 <= j <= |st.packages|
        invariant writer.entries == old(writer.entries) + Entries(st.packages[..j], hashMethod)
      {
        EntriesAppend(st.packages[..j], [st.packages[j]], hashMethod);
        assert st.packages[..j + 1] == st.packages[..j] + [st.packages[j]];
        writer.AppendEntry(ToEntry(st.packages[j], hashMethod));
        j := j + 1;
      }
      assert st.packages[..j] == st.packages;
      return st.failure;
    }

    /** `_update_buffered`: every repository's packages are written to a new
        store, which replaces the file only when all of them were fetched. */
    method UpdateBuffered(fetch: Repository -> Stream, now: int) returns (r: Result<(), ParseFailure>)
      modifies this
      ensures db == old(db) && dbOpen == old(dbOpen) && leaked == old(leaked) && updating == old(updating)
      ensures Rebuild(repos, fetch, hashMethod).Err? ==>
                r == Err(Rebuild(repos, fetch, hashMethod).error) && file == old(file)
      ensures Rebuild(repos, fetch, hashMethod).Ok? ==>
                r == Ok(()) && file == Some(Store(Snapshot(hashMethod, Rebuild(repos, fetch, hashMethod).value, Metadata(now))))
    {
      var writer := new SnapshotWriter();
      var i := 0;
      assert repos[0..] == repos;
      PrependNil(Rebuild(repos, fetch, hashMethod));
      while i < |repos|
        invariant 0 <= i <= |repos|
        invariant Rebuild(repos, fetch, hashMethod) == Prepend(writer.entries, Rebuild(repos[i..], fetch, hashMethod))
        invariant db == old(db) && dbOpen == old(dbOpen) && leaked == old(leaked)
        invariant updating == old(updating) && file == old(file)
      {
        ghost var before := writer.entries;
        var failure := UpdateRepo(writer, repos[i], fetch);
        RebuildStep(repos[i..], fetch, hashMethod, before);
        if failure.Some? {
          return Err(failure.value);
        }
        assert repos[i..][1..] == repos[i + 1..];
        i := i + 1;
      }
      assert repos[i..] == [];
      assert writer.entries + [] == writer.entries;
      file := Some(Store(Snapshot(hashMethod, writer.entries, Metadata(now))));
      return Ok(());
    }

    /** `update`: refused while updating; otherwise the flag is set during
        the rebuild and cleared afterwards whatever happens, and the new store
        is loaded only when the rebuild succeeded. */
    method Update(fetch: Repository -> Stream, now: int) returns (r: Result<(), ManagerError>)
      requires Valid()
      modifies this
      ensures Valid()
      ensures old(updating) ==> r == Err(DatabaseUpdating) && updating && file == old(file)
                                && db == old(db) && dbOpen == old(dbOpen) && leaked == old(leaked)
      ensures !old(updating) ==> !updating
      ensures !old(updating) && Rebuild(repos, fetch, hashMethod).Err? ==>
                r == Err(FetchFailed(Rebuild(repos, fetch, hashMethod).error))
                && file == old(file) && db == old(db) && dbOpen == old(dbOpen) && leaked == old(leaked)
      ensures !old(updating) && Rebuild(repos, fetch, hashMethod).Ok? ==>
                r == Ok(())
                && db == Some(Snapshot(hashMethod, Rebuild(repos, fetch, hashMethod).value, Metadata(now)))
                && file == Some(Store(db.value)) && dbOpen
                && leaked == old(leaked) + (if old(dbOpen) then 1 else 0)
    {
      if updating {
        return Err(DatabaseUpdating);
      }
      updating := true;
      var built := UpdateBuffered(fetch, now);
      if built.Err? {
        updating := false;
        return Err(FetchFailed(built.error));
      }
      Reload();
      updating := false;
      return Ok(());
    }

    /** `clear`: refused while updating; otherwise the store is closed and the
        file removed, which fails when there is no file. */
    method Clear() returns (r: Result<(), ManagerError>)
      requires Valid()
      modifies this
      ensures Valid()
      ensures updating == old(updating) && leaked == old(leaked)
      ensures old(updating) ==> r == Err(DatabaseUpdating) && file == old(file) && db == old(db) && dbOpen == old(dbOpen)
      ensures !old(updating) && old(file).None? ==> r == Err(FileNotFound) && file.None? && db == old(db) && !dbOpen
      ensures !old(updating) && old(file).Some? ==> r == Ok(()) && file.None? && db.None? && !dbOpen
    {
      if updating {
        return Err(DatabaseUpdating);
      }
      Close();
      if file.None? {
        return Err(FileNotFound);
      }
      file := None;
      db := None;
      return Ok(());
    }
  }

  /** One repository's step of a rebuild: a failed stream ends it with that
      failure, a complete one contributes its encoded packages. */
  lemma RebuildStep(repos: seq<Repository>, fetch: Repository -> Stream, m: HashMethod, before: seq<Entry>)
    requires repos != []
    ensures fetch(repos[0]).failure.Some? ==>
              Prepend(before, Rebuild(repos, fetch, m)) == Err(fetch(repos[0]).failure.value)
    ensures fetch(repos[0]).failure.None? ==>
              Prepend(before, Rebuild(repos, fetch, m))
              == Prepend(before + Entries(fetch(repos[0]).packages, m), Rebuild(repos[1..], fetch, m))
  {
    if fetch(repos[0]).failure.None? {
      PrependAssoc(before, Entries(fetch(repos[0]).packages, m), Rebuild(repos[1..], fetch, m));
    }
  }

  lemma PrependNil(r: Result<seq<Entry>, ParseFailure>)
    ensures Prepend([], r) == r
  {
    if r.Ok? {
      assert [] + r.value == r.value;
    }
  }

  lemma PrependAssoc(a: seq<Entry>, b: seq<Entry>, r: Result<seq<Entry>, ParseFailure>)
    ensures Prepend(a, Prepend(b, r)) == Prepend(a + b, r)
  {
    if r.Ok? {
      assert a + (b + r.value) == (a + b) + r.value;
    }
  }
}
