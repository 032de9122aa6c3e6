/** The pacman sync-database provider (src/yakusoku/modules/pkgs/providers/alpm.py).
    A database is an archive whose `desc` members hold `%KEY%` blocks: a key
    line, the value's lines, and a blank line. Each member is given as its
    path and its lines, each without its trailing newline. */
module PkgsAlpm {

  import opened Wrappers
  import opened Text
  import opened PkgsTypes

  datatype AlpmSource = AlpmSource(source: string, arch: string)

  datatype AlpmRepository = AlpmRepository(src: AlpmSource, repo: string)

  /** `AlpmSource.with_repositories`: one repository per name, in order, all on this source. */
  function WithRepositories(s: AlpmSource, repos: seq<string>): (r: seq<AlpmRepository>)
    ensures |r| == |repos|
    ensures forall i :: 0 <= i < |r| ==> r[i].src == s && r[i].repo == repos[i]
  {
    if repos == [] then [] else [AlpmRepository(s, repos[0])] + WithRepositories(s, repos[1..])
  }

  /** `AlpmRepository.identifier`: source without trailing slashes, repository, architecture. */
  function Identifier(r: AlpmRepository): (id: string)
    ensures StartsWith(id, RStrip(r.src.source, '/'))
    ensures EndsWith(id, ":" + r.src.arch)
  {
    var head := RStrip(r.src.source, '/');
    var id := head + ":" + r.repo + ":" + r.src.arch;
    assert id[..|head|] == head;
    assert id[|id| - |":" + r.src.arch|..] == ":" + r.src.arch;
    id
  }

  lemma IdentifierIgnoresTrailingSlash(r: AlpmRepository, n: nat)
    ensures Identifier(AlpmRepository(AlpmSource(r.src.source + Slashes(n), r.src.arch), r.repo))
            == Identifier(r)
  {
    StripSlashes(r.src.source, n);
  }

  /** `AlpmRepository.package_url`. */
  function PackageUrl(r: AlpmRepository, filename: string): string
  {
    Join(r.src.source, [r.repo, "os", r.src.arch, filename])
  }

  /** `AlpmRepository.db_url`. */
  function DbUrl(r: AlpmRepository): string
  {
    PackageUrl(r, r.repo + ".db.tar.gz")
  }

  /** With plain parts a package lives at `<source>/<repo>/os/<arch>/<filename>`. */
  lemma PackageUrlShape(r: AlpmRepository, filename: string)
    requires Plain(r.repo) && Plain(r.src.arch) && Plain(filename)
    ensures PackageUrl(r, filename) == Dir(r.src.source) + r.repo + "/os/" + r.src.arch + "/" + filename
  {
    var ps := [r.repo, "os", r.src.arch, filename];
    assert Plain(ps[0]) && Plain(ps[1]) && Plain(ps[2]) && Plain(ps[3]);
    JoinPlain(r.src.source, ps);
    SlashJoinFour(r.repo, "os", r.src.arch, filename);
  }

  /** The database is `<repo>.db.tar.gz` in the same directory as the packages. */
  lemma DbUrlShape(r: AlpmRepository)
    requires Plain(r.repo) && Plain(r.src.arch)
    ensures DbUrl(r) == Dir(r.src.source) + r.repo + "/os/" + r.src.arch + "/" + r.repo + ".db.tar.gz"
  {
    var f := r.repo + ".db.tar.gz";
    assert f[0] == r.repo[0] && f[|f| - 1] == 'z';
    PackageUrlShape(r, f);
  }

  type Fields = map<string, string>

  const RequiredFields: set<string> := {"NAME", "ARCH", "VERSION", "DESC", "FILENAME"}

  /** `Alpm._parse_fields`; the first missing key, in argument order, is the KeyError. */
  function ParseFields(f: Fields, r: AlpmRepository): (p: Result<Package, string>)
    ensures p.Ok? <==> (forall k | k in RequiredFields :: k in f)
    ensures p.Ok? ==> p.value == Package(Identifier(r), f["NAME"], f["ARCH"], f["VERSION"],
                                         f["DESC"], PackageUrl(r, f["FILENAME"]))
    ensures p.Err? ==> p.error in RequiredFields && p.error !in f
  {
    if "NAME" !in f then Err("NAME")
    else if "ARCH" !in f then Err("ARCH")
    else if "VERSION" !in f then Err("VERSION")
    else if "DESC" !in f then Err("DESC")
    else if "FILENAME" !in f then Err("FILENAME")
    else Ok(Package(
      repo := Identifier(r),
      name := f["NAME"],
      arch := f["ARCH"],
      version := f["VERSION"],
      description := f["DESC"],
      url := PackageUrl(r, f["FILENAME"])))
  }

  // ---------------------------------------------------------------------------
  // Reading a desc file

  /** The reader's variables: the closed fields, the open key ("" for `None`
      and for an empty key, both falsy) and the value read so far. */
  datatype DescState = DescState(fields: Fields, key: string, value: string)

  const Init := DescState(map[], "", "")

  /** A key line starts and ends with '%'. */
  predicate KeyMarked(line: string)
  {
    StartsWith(line, "%") && EndsWith(line, "%")
  }

  /** `key[1:-1]`; a lone "%" gives "". */
  function KeyName(line: string): string
  {
    if |line| < 2 then "" else line[1..|line| - 1]
  }

  /** The reader's handling of one line; `Err(line)` is the failed assertion. */
  function Step(st: DescState, line: string): Result<DescState, string>
  {
    if line == "" && st.key != "" && st.value != "" then
      Ok(DescState(st.fields[st.key := RStrip(st.value, '\n')], "", ""))
    else if st.key == "" then
      if KeyMarked(line) then Ok(DescState(st.fields, KeyName(line), st.value)) else Err(line)
    else
      Ok(DescState(st.fields, st.key, st.value + line + "\n"))
  }

  function Apply(st: DescState, ls: seq<string>): Result<DescState, string>
    decreases |ls|
  {
    if ls == [] then Ok(st)
    else match Step(st, ls[0])
      case Err(l) => Err(l)
      case Ok(st') => Apply(st', ls[1..])
  }

  function Then(r: Result<DescState, string>, b: seq<string>): Result<DescState, string>
  {
    match r
    case Err(l) => Err(l)
    case Ok(s) => Apply(s, b)
  }

  lemma {:induction false} ApplyAppend(st: DescState, a: seq<string>, b: seq<string>)
    ensures Apply(st, a + b) == Then(Apply(st, a), b)
    decreases |a|
  {
    if a == [] {
      assert a + b == b;
    } else {
      assert a + b != [] && (a + b)[0] == a[0] && (a + b)[1..] == a[1..] + b;
      match Step(st, a[0])
      case Err(_) =>
      case Ok(s) => ApplyAppend(s, a[1..], b);
    }
  }

  lemma ApplySingle(st: DescState, line: string)
    ensures Apply(st, [line]) == Step(st, line)
  {
    assert [line][0] == line && [line][1..] == [];
    match Step(st, line)
    case Err(_) =>
    case Ok(s) => assert Apply(s, []) == Ok(s);
  }

  /** What `Alpm._read_fields` returns for a desc file: the fields closed by a
      blank line, or the key line that failed the assertion. */
  function ParseDesc(lines: seq<string>): Result<Fields, string>
  {
    match Apply(Init, lines)
    case Err(l) => Err(l)
    case Ok(st) => Ok(st.fields)
  }

  /** `Alpm._read_fields`. */
  method ReadFields(lines: seq<string>) returns (r: Result<Fields, string>)
    ensures r == ParseDesc(lines)
  {
    var key, value := "", "";
    var fields: Fields := map[];
    var i := 0;
    while i < |lines|
      invariant 0 <= i <= |lines|
      invariant Apply(Init, lines[..i]) == Ok(DescState(fields, key, value))
    {
      var line := lines[i];
      assert lines[..i + 1] == lines[..i] + [line];
      ApplyAppend(Init, lines[..i], [line]);
      ApplySingle(DescState(fields, key, value), line);
      i := i + 1;
      if line == "" && key != "" && value != "" {
        fields := fields[key := RStrip(value, '\n')];
        key, value := "", "";
        continue;
      }
      if key == "" {
        if !(StartsWith(line, "%") && EndsWith(line, "%")) {
          ErrorStops(lines, i);
          return Err(line);
        }
        key := KeyName(line);
      } else {
        value := value + line + "\n";
      }
    }
    assert lines[..i] == lines;
    return Ok(fields);
  }

  lemma ErrorStops(lines: seq<string>, i: nat)
    requires i <= |lines|
    requires Apply(Init, lines[..i]).Err?
    ensures ParseDesc(lines) == Err(Apply(Init, lines[..i]).error)
  {
    assert lines == lines[..i] + lines[i..];
    ApplyAppend(Init, lines[..i], lines[i..]);
  }

  /** A desc file whose first line is not a `%KEY%` line is rejected. */
  lemma FirstLineIsKey(lines: seq<string>)
    requires lines != [] && !KeyMarked(lines[0])
    ensures ParseDesc(lines) == Err(lines[0])
  {
  }

  // ---------------------------------------------------------------------------
  // Writing a desc file and reading it back

  /** One `%KEY%` block: the key, and the value as its lines. */
  datatype Block = Block(key: string, lines: seq<string>)

  /** A block the format can carry: a non-empty key and a value of one or more
      non-blank lines without line breaks. */
  predicate WellFormed(b: Block)
  {
    b.key != "" && b.lines != []
    && forall i :: 0 <= i < |b.lines| ==> b.lines[i] != "" && '\n' !in b.lines[i]
  }

  /** The value's lines joined by line breaks. */
  function JoinLines(v: seq<string>): string
    requires v != []
  {
    if |v| == 1 then v[0] else JoinLines(v[..|v| - 1]) + "\n" + v[|v| - 1]
  }

  /** Each line followed by a line break, as the reader accumulates them. */
  function Terminated(v: seq<string>): string
  {
    if v == [] then "" else Terminated(v[..|v| - 1]) + v[|v| - 1] + "\n"
  }

  function RenderBlock(b: Block): seq<string>
  {
    ["%" + b.key + "%"] + b.lines + [""]
  }

  function Render(bs: seq<Block>): seq<string>
  {
    if bs == [] then [] else Render(bs[..|bs| - 1]) + RenderBlock(bs[|bs| - 1])
  }

  /** The fields the blocks describe; a later block with the same key wins. */
  function FieldsOf(bs: seq<Block>): Fields
    requires forall i :: 0 <= i < |bs| ==> WellFormed(bs[i])
  {
    if bs == [] then map[]
    else
      assert WellFormed(bs[|bs| - 1]);
      FieldsOf(bs[..|bs| - 1])[bs[|bs| - 1].key := JoinLines(bs[|bs| - 1].lines)]
  }

  lemma {:induction false} TerminatedJoin(v: seq<string>)
    requires v != []
    ensures Terminated(v) == JoinLines(v) + "\n"
    decreases |v|
  {
    if |v| > 1 {
      TerminatedJoin(v[..|v| - 1]);
    } else {
      assert v[..0] == [];
    }
  }

  /** The last character of the joined value is the last character of its last line. */
  lemma {:induction false} JoinLinesLast(v: seq<string>)
    requires v != [] && v[|v| - 1] != ""
    ensures JoinLines(v) != [] && JoinLines(v)[|JoinLines(v)| - 1] == v[|v| - 1][|v[|v| - 1]| - 1]
  {
  }

  /** Value lines after a key accumulate, each with its line break. */
  lemma {:induction false} ValueLines(f: Fields, k: string, v: seq<string>)
    requires k != ""
    requires forall i :: 0 <= i < |v| ==> v[i] != ""
    ensures Apply(DescState(f, k, ""), v) == Ok(DescState(f, k, Terminated(v)))
    decreases |v|
  {
    if v != [] {
      var front := v[..|v| - 1];
      assert v == front + [v[|v| - 1]];
      ApplyAppend(DescState(f, k, ""), front, [v[|v| - 1]]);
      ValueLines(f, k, front);
      ApplySingle(DescState(f, k, Terminated(front)), v[|v| - 1]);
    }
  }

  lemma BlockRead(f: Fields, b: Block)
    requires WellFormed(b)
    ensures Apply(DescState(f, "", ""), RenderBlock(b)) == Ok(DescState(f[b.key := JoinLines(b.lines)], "", ""))
  {
    var kl := "%" + b.key + "%";
    assert KeyMarked(kl) && KeyName(kl) == b.key;
    ApplyAppend(DescState(f, "", ""), [kl] + b.lines, [""]);
    ApplyAppend(DescState(f, "", ""), [kl], b.lines);
    ApplySingle(DescState(f, "", ""), kl);
    ValueLines(f, b.key, b.lines);
    var t := Terminated(b.lines);
    TerminatedJoin(b.lines);
    ApplySingle(DescState(f, b.key, t), "");
    var j := JoinLines(b.lines);
    JoinLinesLast(b.lines);
    var last := b.lines[|b.lines| - 1];
    assert last[|last| - 1] != '\n' by { assert '\n' !in last; }
    RStripAppended(j, '\n');
    assert j + "\n" == j + ['\n'];
  }

  /** Reading a desc file written from well-formed blocks gives back their fields. */
  lemma {:induction false} RenderRoundTrip(bs: seq<Block>)
    requires forall i :: 0 <= i < |bs| ==> WellFormed(bs[i])
    ensures Apply(Init, Render(bs)) == Ok(DescState(FieldsOf(bs), "", ""))
    ensures ParseDesc(Render(bs)) == Ok(FieldsOf(bs))
    decreases |bs|
  {
    if bs != [] {
      var front := bs[..|bs| - 1];
      RenderRoundTrip(front);
      ApplyAppend(Init, Render(front), RenderBlock(bs[|bs| - 1]));
      BlockRead(FieldsOf(front), bs[|bs| - 1]);
    }
  }

  /** A block that is not closed by a blank line before the end of the file is
      dropped; the fields closed before it are returned. */
  lemma UnclosedBlockDropped(bs: seq<Block>, key: string, v: seq<string>)
    requires forall i :: 0 <= i < |bs| ==> WellFormed(bs[i])
    requires key != ""
    requires forall i :: 0 <= i < |v| ==> v[i] != ""
    ensures ParseDesc(Render(bs) + ["%" + key + "%"] + v) == Ok(FieldsOf(bs))
  {
    RenderRoundTrip(bs);
    KeyAndValueAfter(Render(bs), FieldsOf(bs), key, v);
  }

  /** After lines that close every block, a key line and its value lines
      leave that key open with the value read so far. */
  lemma KeyAndValueAfter(a: seq<string>, f: Fields, key: string, v: seq<string>)
    requires key != ""
    requires forall i :: 0 <= i < |v| ==> v[i] != ""
    requires Apply(Init, a) == Ok(DescState(f, "", ""))
    ensures Apply(Init, a + ["%" + key + "%"] + v) == Ok(DescState(f, key, Terminated(v)))
  {
    var kl := "%" + key + "%";
    assert KeyMarked(kl) && KeyName(kl) == key;
    ApplySingle(DescState(f, "", ""), kl);
    ApplyAppend(Init, a, [kl]);
    ApplyAppend(Init, a + [kl], v);
    ValueLines(f, key, v);
  }

  /** A blank line right after a key line is not a terminator: it becomes a
      leading empty line of the value. */
  lemma BlankAfterKeyKept(f: Fields, key: string, line: string)
    requires key != "" && line != "" && '\n' !in line
    ensures Apply(DescState(f, "", ""), ["%" + key + "%", "", line, ""])
            == Ok(DescState(f[key := "\n" + line], "", ""))
  {
    var kl := "%" + key + "%";
    assert KeyMarked(kl) && KeyName(kl) == key;
    var s0 := DescState(f, "", "");
    var s1 := DescState(f, key, "");
    var s2 := DescState(f, key, "\n");
    var s3 := DescState(f, key, "\n" + line + "\n");
    assert Step(s0, kl) == Ok(s1);
    assert s1.value + "" + "\n" == "\n";
    assert Step(s1, "") == Ok(s2);
    assert "\n" + line + "\n" == s2.value + line + "\n";
    assert Step(s2, line) == Ok(s3);
    assert ("\n" + line) + ['\n'] == s3.value;
    RStripAppended("\n" + line, '\n');
    assert RStrip("\n" + line, '\n') == "\n" + line by {
      assert ("\n" + line)[|"\n" + line| - 1] == line[|line| - 1] != '\n';
    }
    assert Step(s3, "") == Ok(DescState(f[key := "\n" + line], "", ""));
    assert ["%" + key + "%", "", line, ""] == [kl] + [""] + [line] + [""];
    ApplyAppend(s0, [kl] + [""] + [line], [""]);
    ApplyAppend(s0, [kl] + [""], [line]);
    ApplyAppend(s0, [kl], [""]);
    ApplySingle(s0, kl);
    ApplySingle(s1, "");
    ApplySingle(s2, line);
    ApplySingle(s3, "");
  }

  // ---------------------------------------------------------------------------
  // The archive

  /** `path.split("/")[-1]`. */
  function LastComponent(path: string): string
    decreases |path|
  {
    match IndexOf(path, '/')
    case None => path
    case Some(i) => LastComponent(path[i + 1..])
  }

  /** The last component holds no '/' and is the whole path or what follows
      its last '/'. */
  lemma {:induction false} LastComponentSpec(path: string)
    ensures '/' !in LastComponent(path)
    ensures LastComponent(path) == path || EndsWith(path, "/" + LastComponent(path))
    decreases |path|
  {
    match IndexOf(path, '/')
    case None =>
      assert LastComponent(path) == path;
    case Some(i) =>
      var tail := path[i + 1..];
      assert LastComponent(path) == LastComponent(tail);
      LastComponentSpec(tail);
      SuffixAfterSlash(path, i, LastComponent(tail));
  }

  /** A suffix of what follows a '/' is, with a '/' in front, a suffix of
      the whole path. */
  lemma SuffixAfterSlash(path: string, i: nat, r: string)
    requires i < |path| && path[i] == '/'
    requires r == path[i + 1..] || EndsWith(path[i + 1..], "/" + r)
    ensures EndsWith(path, "/" + r)
  {
    var tail := path[i + 1..];
    assert path == path[..i] + ("/" + tail);
    if r == tail {
      EndsWithAppend(path[..i], "/" + tail, "/" + r);
    } else {
      EndsWithAppend(path[..i + 1], tail, "/" + r);
      assert path[..i + 1] + tail == path;
    }
  }

  lemma EndsWithAppend(a: string, b: string, p: string)
    requires EndsWith(b, p)
    ensures EndsWith(a + b, p)
  {
    assert (a + b)[|a + b| - |p|..] == b[|b| - |p|..];
  }

  datatype Member = Member(path: string, lines: seq<string>)

  predicate IsDesc(m: Member)
  {
    LastComponent(m.path) == "desc"
  }

  /** What `Alpm._iter_packages` yields for the archive's members. */
  function Packages(ms: seq<Member>, r: AlpmRepository): Stream
    decreases |ms|
  {
    if ms == [] then Stream([], None)
    else if !IsDesc(ms[0]) then Packages(ms[1..], r)
    else match ParseDesc(ms[0].lines)
      case Err(l) => Stream([], Some(AssertionFailed(l)))
      case Ok(f) =>
        match ParseFields(f, r)
        case Err(k) => Stream([], Some(MissingKey(k)))
        case Ok(p) =>
          var rest := Packages(ms[1..], r);
          Stream([p] + rest.packages, rest.failure)
  }

  /** `Alpm._iter_packages`. */
  method IterPackages(ms: seq<Member>, r: AlpmRepository) returns (s: Stream)
    ensures s == Packages(ms, r)
  {
    var out: seq<Package> := [];
    var i := 0;
    while i < |ms|
      invariant 0 <= i <= |ms|
      invariant Packages(ms, r) == Stream(out + Packages(ms[i..], r).packages, Packages(ms[i..], r).failure)
    {
      var m := ms[i];
      assert ms[i..][1..] == ms[i + 1..];
      if LastComponent(m.path) != "desc" {
        i := i + 1;
        continue;
      }
      var fields := ReadFields(m.lines);
      if fields.Err? {
        return Stream(out, Some(AssertionFailed(fields.error)));
      }
      var p := ParseFields(fields.value, r);
      if p.Err? {
        return Stream(out, Some(MissingKey(p.error)));
      }
      out := out + [p.value];
      i := i + 1;
    }
    return Stream(out, None);
  }

  function CountDesc(ms: seq<Member>): nat
  {
    if ms == [] then 0 else (if IsDesc(ms[0]) then 1 else 0) + CountDesc(ms[1..])
  }

  /** Without a failure there is one package per desc member, each tagged with
      the repository's identifier; other members are skipped. */
  lemma {:induction false} OnePackagePerDesc(ms: seq<Member>, r: AlpmRepository)
    ensures Packages(ms, r).failure.None? ==> |Packages(ms, r).packages| == CountDesc(ms)
    ensures forall p :: p in Packages(ms, r).packages ==> p.repo == Identifier(r)
    decreases |ms|
  {
    if ms != [] {
      OnePackagePerDesc(ms[1..], r);
    }
  }
}
