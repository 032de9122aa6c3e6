/** The SQL-backed package manager (yakusoku/modules/pkgs/manager.py). The
    database is a table of package rows (absent until created), a session
    adds rows and commits them in batches, and a rebuild fills a fresh
    temporary database that replaces the live one only when every repository
    was fetched. */
module PkgsManagerLegacy {

  import opened Wrappers
  import opened PkgsTypes
  import opened PkgsConfig
  import PkgsManager

  datatype ManagerError = DatabaseIsEmpty | NoSuchPackage | DatabaseUpdating | FetchFailed(failure: ParseFailure) | FileNotFound

  /** The first repository whose stream failed, in configured order. */
  function FirstFailure(repos: seq<Repository>, fetch: Repository -> Stream): (r: Option<ParseFailure>)
    ensures r.None? <==> forall i :: 0 <= i < |repos| ==> fetch(repos[i]).failure.None?
  {
    if repos == [] then None
    else if fetch(repos[0]).failure.Some? then fetch(repos[0]).failure
    else FirstFailure(repos[1..], fetch)
  }

  /** The rows whose name satisfies the database's `contains` query, in table order. */
  function Matching(rows: seq<Package>, q: string, contains: (string, string) -> bool): (r: seq<Package>)
    ensures |r| <= |rows|
    ensures forall p :: p in r <==> p in rows && contains(p.name, q)
  {
    if rows == [] then []
    else (if contains(rows[0].name, q) then [rows[0]] else []) + Matching(rows[1..], q, contains)
  }

  /** A session on the temporary database: added rows stay pending until a commit. */
  class SqlWriter {
    var committed: seq<Package>
    var pending: seq<Package>
    var commits: nat

    /** A fresh database with the package table created and empty. */
    constructor()
      ensures committed == [] && pending == [] && commits == 0
    {
      committed, pending, commits := [], [], 0;
    }

    method Add(p: Package)
      modifies this
      ensures pending == old(pending) + [p] && committed == old(committed) && commits == old(commits)
    {
      pending := pending + [p];
    }

    method Commit()
      modifies this
      ensures committed == old(committed) + old(pending) && pending == [] && commits == old(commits) + 1
    {
      committed := committed + pending;
      pending := [];
      commits := commits + 1;
    }

    /** Leaving the session after an exception discards what was not committed. */
    method Rollback()
      modifies this
      ensures pending == [] && committed == old(committed) && commits == old(commits)
    {
      pending := [];
    }
  }

  lemma {:induction false} MulAtLeast(x: int, c: int)
    requires x >= 1 && c > 0
    ensures x * c >= c
    decreases x
  {
    if x > 1 {
      MulAtLeast(x - 1, c);
      assert x * c == (x - 1) * c + c;
    }
  }

  /** Euclidean division is determined by quotient and remainder. */
  lemma DivisionOf(n: int, c: int, k: int, r: int)
    requires c > 0 && 0 <= r < c && n == k * c + r
    ensures n / c == k && n % c == r
  {
    var q := n / c;
    var s := n % c;
    assert n == q * c + s;
    assert (q - k) * c == r - s;
    if q > k {
      MulAtLeast(q - k, c);
    } else if q < k {
      MulAtLeast(k - q, c);
    }
  }

  /** Counting one more package: the remainder grows by one, or wraps to
      zero when a batch is full and the quotient grows by one. */
  lemma CountStep(j: nat, c: int)
    requires c > 0
    ensures j % c + 1 < c ==> (j + 1) % c == j % c + 1 && (j + 1) / c == j / c
    ensures j % c + 1 == c ==> (j + 1) % c == 0 && (j + 1) / c == j / c + 1
  {
    var q, r := j / c, j % c;
    assert j == q * c + r;
    if r + 1 < c {
      DivisionOf(j + 1, c, q, r + 1);
    } else {
      assert j + 1 == (q + 1) * c + 0;
      DivisionOf(j + 1, c, q + 1, 0);
    }
  }

  /** The packages in full batches are all but the remainder. */
  lemma FullBatches(n: nat, c: int)
    requires c > 0
    ensures n / c * c == n - n % c
  {
    assert n == (n / c) * c + n % c;
  }

  class PackageManager {
    const repos: seq<Repository>
    /** Whether the database file exists. */
    var present: bool
    /** The package table, `None` when it does not exist. */
    var table: Option<seq<Package>>
    var updating: bool

    predicate Valid()
      reads this
    {
      table.Some? ==> present
    }

    constructor(repos: seq<Repository>, present: bool, table: Option<seq<Package>>)
      requires table.Some? ==> present
      ensures Valid() && this.repos == repos && this.present == present && this.table == table && !updating
    {
      this.repos := repos;
      this.present := present;
      this.table := table;
      updating := false;
    }

    /** `empty`: no row, or no table to read from. */
    function Empty(): (r: bool)
      reads this
      ensures r <==> table.None? || table.value == []
    {
      table.None? || table.value == []
    }

    /** `info`: DatabaseIsEmpty on an empty database, else the first row with
        exactly that name, or NoSuchPackage. */
    function Info(name: string): (r: Result<Package, ManagerError>)
      reads this
      ensures Empty() ==> r == Err(DatabaseIsEmpty)
      ensures !Empty() ==> (r == Err(NoSuchPackage) <==> forall j :: 0 <= j < |table.value| ==> table.value[j].name != name)
      ensures r.Ok? ==> exists i :: 0 <= i < |table.value| && r.value == table.value[i] && r.value.name == name
                          && forall j :: 0 <= j < i ==> table.value[j].name != name
    {
      if Empty() then Err(DatabaseIsEmpty)
      else match PkgsManager.FirstNamed(table.value, name)
        case None => Err(NoSuchPackage)
        case Some(i) => Ok(table.value[i])
    }

    /** `search`: DatabaseIsEmpty on an empty database, else every row whose
        name satisfies the query; an empty result is not an error. */
    function Search(q: string, contains: (string, string) -> bool): (r: Result<seq<Package>, ManagerError>)
      reads this
      ensures Empty() <==> r == Err(DatabaseIsEmpty)
      ensures r.Ok? ==> forall p :: p in r.value <==> p in table.value && contains(p.name, q)
    {
      if Empty() then Err(DatabaseIsEmpty) else Ok(Matching(table.value, q, contains))
    }

    /** `last_updated`: `None` on an empty database, else the file's modification time. */
    function LastUpdated(mtime: int): (r: Option<int>)
      reads this
      ensures r.None? <==> Empty()
      ensures r.Some? ==> r.value == mtime
    {
      if Empty() then None else Some(mtime)
    }

    /** The loop of `_update_repo_eager`: each package is added, and every
        `commit_on`-th one commits the batch; the remainder is left
        pending. */
    method AddInBatches(writer: SqlWriter, ps: seq<Package>, commitOn: int) returns (count: int)
      requires commitOn > 0 && writer.pending == []
      modifies writer
      ensures count == |ps| % commitOn
      ensures writer.pending == ps[|ps| - count..]
      ensures writer.committed == old(writer.committed) + ps[..|ps| - count]
      ensures writer.commits == old(writer.commits) + |ps| / commitOn
    {
      count := 0;
      var j := 0;
      while j < |ps|
        invariant 0 <= j <= |ps| && count == j % commitOn && count <= j
        invariant writer.pending == ps[j - count..j]
        invariant writer.committed == old(writer.committed) + ps[..j - count]
        invariant writer.commits == old(writer.commits) + j / commitOn
      {
        CountStep(j, commitOn);
        writer.Add(ps[j]);
        count := count + 1;
        j := j + 1;
        if count == commitOn {
          assert ps[..j - commitOn] + ps[j - commitOn..j] == ps[..j];
          writer.Commit();
          count := 0;
        }
      }
    }

    /** `_update_repo_eager`: packages are added one by one and committed
        after every `commit_on`-th, and once more at the end. When the stream
        fails, only the full batches are committed. */
    method UpdateRepoEager(writer: SqlWriter, repo: Repository, fetch: Repository -> Stream, commitOn: int)
      returns (failure: Option<ParseFailure>)
      requires commitOn > 0 && writer.pending == []
      modifies writer
      ensures failure == fetch(repo).failure && writer.pending == []
      ensures failure.None? ==>
                writer.committed == old(writer.committed) + fetch(repo).packages
                && writer.commits == old(writer.commits) + |fetch(repo).packages| / commitOn + 1
      ensures failure.Some? ==>
                writer.committed == old(writer.committed)
                                    + fetch(repo).packages[..|fetch(repo).packages| / commitOn * commitOn]
                && writer.commits == old(writer.commits) + |fetch(repo).packages| / commitOn
    {
      var stream := fetch(repo);
      var ps := stream.packages;
      var count := AddInBatches(writer, ps, commitOn);
      if stream.failure.Some? {
        FullBatches(|ps|, commitOn);
        writer.Rollback();
        return stream.failure;
      }
      assert ps[..|ps| - count] + ps[|ps| - count..] == ps;
      writer.Commit();
      return None;
    }

    /** `_update_repo_lazy`: all packages are added and committed once. */
    method UpdateRepoLazy(writer: SqlWriter, repo: Repository, fetch: Repository -> Stream)
      returns (failure: Option<ParseFailure>)
      requires writer.pending == []
      modifies writer
      ensures failure == fetch(repo).failure && writer.pending == []
      ensures failure.None? ==> writer.committed == old(writer.committed) + fetch(repo).packages
                                && writer.commits == old(writer.commits) + 1
      ensures failure.Some? ==> writer.committed == old(writer.committed) && writer.commits == old(writer.commits)
    {
      var ps := fetch(repo).packages;
      var j := 0;
      while j < |ps|
        invariant 0 <= j <= |ps|
        invariant writer.pending == ps[..j]
        invariant writer.committed == old(writer.committed) && writer.commits == old(writer.commits)
      {
        assert ps[..j + 1] == ps[..j] + [ps[j]];
        writer.Add(ps[j]);
        j := j + 1;
      }
      assert ps[..j] == ps;
      if fetch(repo).failure.Some? {
        writer.Rollback();
        return fetch(repo).failure;
      }
      writer.Commit();
      return None;
    }

    /** `_update_repo`: eager batching for a positive `commit_on`, lazy otherwise. */
    method UpdateRepo(writer: SqlWriter, repo: Repository, fetch: Repository -> Stream, commitOn: int)
      returns (failure: Option<ParseFailure>)
      requires writer.pending == []
      modifies writer
      ensures failure == fetch(repo).failure && writer.pending == []
      ensures failure.None? ==> writer.committed == old(writer.committed) + fetch(repo).packages
      ensures commitOn <= 0 ==> writer.commits == old(writer.commits) + (if failure.None? then 1 else 0)
      ensures commitOn > 0 && failure.None? ==>
                writer.commits == old(writer.commits) + |fetch(repo).packages| / commitOn + 1
    {
      if commitOn > 0 {
        failure := UpdateRepoEager(writer, repo, fetch, commitOn);
      } else {
        failure := UpdateRepoLazy(writer, repo, fetch);
      }
    }

    /** `_update_buffered`: repositories are written in configured order into
        a fresh database, which is moved over the live one only when none failed. */
    method UpdateBuffered(fetch: Repository -> Stream, commitOn: int) returns (r: Option<ParseFailure>)
      requires Valid()
      modifies this
      ensures Valid() && updating == old(updating)
      ensures r == FirstFailure(repos, fetch)
      ensures r.Some? ==> present == old(present) && table == old(table)
      ensures r.None? ==> present && table == Some(PkgsManager.Fetched(repos, fetch))
    {
      var writer := new SqlWriter();
      var i := 0;
      assert repos[0..] == repos;
      while i < |repos|
        invariant 0 <= i <= |repos|
        invariant writer.pending == []
        invariant PkgsManager.Fetched(repos, fetch) == writer.committed + PkgsManager.Fetched(repos[i..], fetch)
        invariant FirstFailure(repos, fetch) == FirstFailure(repos[i..], fetch)
        invariant present == old(present) && table == old(table) && updating == old(updating)
      {
        var failure := UpdateRepo(writer, repos[i], fetch, commitOn);
        if failure.Some? {
          return failure;
        }
        assert repos[i..][1..] == repos[i + 1..];
        i := i + 1;
      }
      assert writer.committed + [] == writer.committed;
      present := true;
      table := Some(writer.committed);
      return None;
    }

    /** `update`: refused while updating; the flag is cleared afterwards
        whether or not the rebuild succeeded. */
    method Update(fetch: Repository -> Stream, commitOn: int) returns (r: Result<(), ManagerError>)
      requires Valid()
      modifies this
      ensures Valid()
      ensures old(updating) ==> r == Err(DatabaseUpdating) && updating && table == old(table) && present == old(present)
      ensures !old(updating) ==> !updating
      ensures !old(updating) && FirstFailure(repos, fetch).Some? ==>
                r == Err(FetchFailed(FirstFailure(repos, fetch).value)) && table == old(table) && present == old(present)
      ensures !old(updating) && FirstFailure(repos, fetch).None? ==>
                r == Ok(()) && table == Some(PkgsManager.Fetched(repos, fetch))
    {
      if updating {
        return Err(DatabaseUpdating);
      }
      updating := true;
      var failure := UpdateBuffered(fetch, commitOn);
      updating := false;
      if failure.Some? {
        return Err(FetchFailed(failure.value));
      }
      return Ok(());
    }

    /** `clear`: refused while updating; otherwise the file is removed (which
        fails when there is none) and a new, empty database is opened there. */
    method Clear() returns (r: Result<(), ManagerError>)
      requires Valid()
      modifies this
      ensures Valid() && updating == old(updating)
      ensures old(updating) ==> r == Err(DatabaseUpdating) && table == old(table) && present == old(present)
      ensures !old(updating) && !old(present) ==> r == Err(FileNotFound) && table == old(table) && !present
      ensures !old(updating) && old(present) ==> r == Ok(()) && table.None? && !present && Empty()
    {
      if updating {
        return Err(DatabaseUpdating);
      }
      if !present {
        return Err(FileNotFound);
      }
      present := false;
      table := None;
      return Ok(());
    }
  }
}
