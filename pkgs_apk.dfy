/** The Alpine `APKINDEX` provider (yakusoku/modules/pkgs/providers/apk.py).
    The index is a sequence of records of `letter:value` lines separated by
    blank lines; it is given as its lines, each without its trailing newline. */
module PkgsApk {

  import opened Wrappers
  import opened Text
  import opened PkgsTypes

  datatype ApkRepository = ApkRepository(source: string)

  /** `ApkRepository.identifier` is the source string itself. */
  function Identifier(r: ApkRepository): (id: string)
    ensures id == r.source
  {
    r.source
  }

  /** `ApkRepository.db_url`. */
  function DbUrl(r: ApkRepository): string
  {
    Join(r.source, ["APKINDEX.tar.gz"])
  }

  /** `ApkRepository.package_url`. */
  function PackageUrl(r: ApkRepository, name: string, version: string): string
  {
    Join(r.source, [name + "-" + version + ".apk"])
  }

  /** The index and the packages sit directly under the source. */
  lemma UrlShapes(r: ApkRepository, name: string, version: string)
    requires name != [] && name[0] != '/'
    ensures DbUrl(r) == Dir(r.source) + "APKINDEX.tar.gz"
    ensures PackageUrl(r, name, version) == Dir(r.source) + name + "-" + version + ".apk"
  {
    JoinPlain(r.source, ["APKINDEX.tar.gz"]);
    var f := name + "-" + version + ".apk";
    assert f[0] == name[0] && f[|f| - 1] == 'k';
    JoinPlain(r.source, [f]);
  }

  type Fields = map<string, string>

  const RequiredFields: set<string> := {"P", "A", "V", "T"}

  /** `Apk._parse_fields`: P, A, V and T become name, architecture, version and
      description; the first missing key, in argument order, is the KeyError. */
  function ParseFields(f: Fields, r: ApkRepository): (p: Result<Package, string>)
    ensures p.Ok? <==> (forall k | k in RequiredFields :: k in f)
    ensures p.Ok? ==> p.value == Package(Identifier(r), f["P"], f["A"], f["V"], f["T"],
                                         PackageUrl(r, f["P"], f["V"]))
    ensures p.Err? ==> p.error in RequiredFields && p.error !in f
  {
    if "P" !in f then Err("P")
    else if "A" !in f then Err("A")
    else if "V" !in f then Err("V")
    else if "T" !in f then Err("T")
    else Ok(Package(
      repo := Identifier(r),
      name := f["P"],
      arch := f["A"],
      version := f["V"],
      description := f["T"],
      url := PackageUrl(r, f["P"], f["V"])))
  }

  // ---------------------------------------------------------------------------
  // Reading one record

  /** One line: split at the first ':', the value kept verbatim; `Err(line)`
      is the failed assertion. */
  function Step(f: Fields, line: string): Result<Fields, string>
  {
    match SplitOnce(line, ':')
    case None => Err(line)
    case Some((k, v)) => Ok(f[k := v])
  }

  function Apply(f: Fields, ls: seq<string>): Result<Fields, string>
    decreases |ls|
  {
    if ls == [] then Ok(f)
    else match Step(f, ls[0])
      case Err(l) => Err(l)
      case Ok(f') => Apply(f', ls[1..])
  }

  function Then(r: Result<Fields, string>, b: seq<string>): Result<Fields, string>
  {
    match r
    case Err(l) => Err(l)
    case Ok(f) => Apply(f, b)
  }

  lemma {:induction false} ApplyAppend(f: Fields, a: seq<string>, b: seq<string>)
    ensures Apply(f, a + b) == Then(Apply(f, a), b)
    decreases |a|
  {
    if a == [] {
      assert a + b == b;
    } else {
      assert a + b != [] && (a + b)[0] == a[0] && (a + b)[1..] == a[1..] + b;
      match Step(f, a[0])
      case Err(_) =>
      case Ok(g) => ApplyAppend(g, a[1..], b);
    }
  }

  lemma ApplySingle(f: Fields, line: string)
    ensures Apply(f, [line]) == Step(f, line)
  {
    assert [line][0] == line && [line][1..] == [];
    match Step(f, line)
    case Err(_) =>
    case Ok(g) => assert Apply(g, []) == Ok(g);
  }

  /** Index of the first blank line at or after `pos`, or the end of input. */
  function RecordEnd(lines: seq<string>, pos: nat): (e: nat)
    requires pos <= |lines|
    ensures pos <= e <= |lines|
    ensures e < |lines| ==> lines[e] == ""
    ensures forall j :: pos <= j < e ==> lines[j] != ""
    decreases |lines| - pos
  {
    if pos == |lines| || lines[pos] == "" then pos else RecordEnd(lines, pos + 1)
  }

  datatype ReadError = Eof | Malformed(line: string)

  /** What `_read_fields` returns when the file is at line `pos`: the record's
      fields and the position after the blank line that ended it. */
  function ParseRecord(lines: seq<string>, pos: nat): (r: Result<(Fields, nat), ReadError>)
    requires pos <= |lines|
    ensures r.Ok? ==> pos < r.value.1 <= |lines|
  {
    var e := RecordEnd(lines, pos);
    var next := if e < |lines| then e + 1 else e;
    match Apply(map[], lines[pos..e])
    case Err(l) => Err(Malformed(l))
    case Ok(f) => if f == map[] then Err(Eof) else Ok((f, next))
  }

  /** `Apk._read_fields`, reading from line `pos`. */
  method ReadFields(lines: seq<string>, pos: nat) returns (r: Result<(Fields, nat), ReadError>)
    requires pos <= |lines|
    ensures r == ParseRecord(lines, pos)
  {
    var fields: Fields := map[];
    var i := pos;
    while i < |lines| && lines[i] != ""
      invariant pos <= i <= |lines|
      invariant forall j :: pos <= j < i ==> lines[j] != ""
      invariant Apply(map[], lines[pos..i]) == Ok(fields)
      decreases |lines| - i
    {
      var line := lines[i];
      assert lines[pos..i + 1] == lines[pos..i] + [line];
      ApplyAppend(map[], lines[pos..i], [line]);
      ApplySingle(fields, line);
      var data := SplitOnce(line, ':');
      if data.None? {
        ErrorStops(lines, pos, i + 1);
        return Err(Malformed(line));
      }
      fields := fields[data.value.0 := data.value.1];
      i := i + 1;
    }
    // The blank line that ended the loop has been read; the end of input has not.
    RecordDone(lines, pos, i, fields);
    if fields == map[] {
      return Err(Eof);
    }
    if i < |lines| {
      i := i + 1;
    }
    return Ok((fields, i));
  }

  lemma RecordDone(lines: seq<string>, pos: nat, i: nat, f: Fields)
    requires pos <= i <= |lines| && (i == |lines| || lines[i] == "")
    requires forall j :: pos <= j < i ==> lines[j] != ""
    requires Apply(map[], lines[pos..i]) == Ok(f)
    ensures ParseRecord(lines, pos)
            == if f == map[] then Err(Eof) else Ok((f, if i < |lines| then i + 1 else i))
  {
    assert RecordEnd(lines, pos) == i;
  }

  lemma ErrorStops(lines: seq<string>, pos: nat, i: nat)
    requires pos < i <= |lines|
    requires forall j :: pos <= j < i ==> lines[j] != ""
    requires Apply(map[], lines[pos..i]).Err?
    ensures ParseRecord(lines, pos) == Err(Malformed(Apply(map[], lines[pos..i]).error))
  {
    var e := RecordEnd(lines, pos);
    assert i <= e;
    assert lines[pos..e] == lines[pos..i] + lines[i..e];
    ApplyAppend(map[], lines[pos..i], lines[i..e]);
  }

  /** `_read_fields` raises EOFError exactly at the end of input or at a blank line. */
  lemma EofIff(lines: seq<string>, pos: nat)
    requires pos <= |lines|
    ensures ParseRecord(lines, pos) == Err(Eof) <==> pos == |lines| || lines[pos] == ""
  {
    var e := RecordEnd(lines, pos);
    if e > pos {
      var ls := lines[pos..e];
      assert ls == [ls[0]] + ls[1..];
      ApplyAppend(map[], [ls[0]], ls[1..]);
      ApplySingle(map[], ls[0]);
      match Step(map[], ls[0])
      case Err(_) =>
      case Ok(f) =>
        var k := SplitOnce(ls[0], ':').value.0;
        assert k in f;
        if Apply(f, ls[1..]).Ok? {
          ApplyKeepsKeys(f, ls[1..]);
        }
    }
  }

  lemma {:induction false} ApplyKeepsKeys(f: Fields, ls: seq<string>)
    requires Apply(f, ls).Ok?
    ensures f.Keys <= Apply(f, ls).value.Keys
    decreases |ls|
  {
    if ls != [] {
      ApplyKeepsKeys(Step(f, ls[0]).value, ls[1..]);
    }
  }

  // ---------------------------------------------------------------------------
  // Writing a record and reading it back

  /** A field the format can carry: a key without ':'. The value is free. */
  predicate GoodKey(k: string)
  {
    ':' !in k
  }

  function RenderFields(fs: seq<(string, string)>): seq<string>
  {
    if fs == [] then [] else RenderFields(fs[..|fs| - 1]) + [fs[|fs| - 1].0 + ":" + fs[|fs| - 1].1]
  }

  /** The dictionary the fields build, a later key overwriting an earlier one. */
  function FieldsOf(fs: seq<(string, string)>): Fields
  {
    if fs == [] then map[] else FieldsOf(fs[..|fs| - 1])[fs[|fs| - 1].0 := fs[|fs| - 1].1]
  }

  lemma {:induction false} RenderedLinesRead(fs: seq<(string, string)>)
    requires forall i :: 0 <= i < |fs| ==> GoodKey(fs[i].0)
    ensures |RenderFields(fs)| == |fs|
    ensures forall j :: 0 <= j < |fs| ==> RenderFields(fs)[j] != ""
    ensures Apply(map[], RenderFields(fs)) == Ok(FieldsOf(fs))
    decreases |fs|
  {
    if fs != [] {
      var front := fs[..|fs| - 1];
      var (k, v) := fs[|fs| - 1];
      RenderedLinesRead(front);
      var line := k + ":" + v;
      assert line == k + [':'] + v;
      SplitOnceAt(k, ':', v);
      ApplyAppend(map[], RenderFields(front), [line]);
      ApplySingle(FieldsOf(front), line);
      assert |line| > 0;
    }
  }

  /** A record written as `key:value` lines and a blank line reads back as the
      dictionary of its fields, and reading resumes after the blank line. */
  lemma RecordRoundTrip(fs: seq<(string, string)>, rest: seq<string>)
    requires fs != []
    requires forall i :: 0 <= i < |fs| ==> GoodKey(fs[i].0)
    ensures ParseRecord(RenderFields(fs) + [""] + rest, 0) == Ok((FieldsOf(fs), |fs| + 1))
  {
    var rendered := RenderFields(fs);
    var lines := rendered + [""] + rest;
    RenderedLinesRead(fs);
    RecordLayout(rendered, rest);
    assert lines[0..|fs|] == rendered && lines[|fs|] == "";
    assert Apply(map[], lines[0..|fs|]) == Ok(FieldsOf(fs));
    FieldsOfNonEmpty(fs);
    RecordDone(lines, 0, |fs|, FieldsOf(fs));
  }

  /** Where the record's lines and its closing blank line sit. */
  lemma RecordLayout(rendered: seq<string>, rest: seq<string>)
    requires forall j :: 0 <= j < |rendered| ==> rendered[j] != ""
    ensures var lines := rendered + [""] + rest;
            |rendered| < |lines| && lines[0..|rendered|] == rendered && lines[|rendered|] == ""
            && forall j :: 0 <= j < |rendered| ==> lines[j] != ""
  {
    var lines := rendered + [""] + rest;
    assert lines[0..|rendered|] == rendered;
    forall j | 0 <= j < |rendered| ensures lines[j] != "" {
      assert lines[j] == rendered[j];
    }
  }

  lemma FieldsOfNonEmpty(fs: seq<(string, string)>)
    requires fs != []
    ensures fs[|fs| - 1].0 in FieldsOf(fs) && FieldsOf(fs) != map[]
  {
  }

  // ---------------------------------------------------------------------------
  // The package stream

  /** The packages `_iter_packages` yields from line `pos` on, and the error
      that ends the stream, if any; EOFError ends it normally. */
  function Packages(lines: seq<string>, pos: nat, r: ApkRepository): Stream
    requires pos <= |lines|
    decreases |lines| - pos
  {
    match ParseRecord(lines, pos)
    case Err(Eof) => Stream([], None)
    case Err(Malformed(l)) => Stream([], Some(AssertionFailed(l)))
    case Ok((f, next)) =>
      match ParseFields(f, r)
      case Err(k) => Stream([], Some(MissingKey(k)))
      case Ok(p) =>
        var rest := Packages(lines, next, r);
        Stream([p] + rest.packages, rest.failure)
  }

  /** `Apk._iter_packages` over the index. */
  method IterPackages(lines: seq<string>, r: ApkRepository) returns (s: Stream)
    ensures s == Packages(lines, 0, r)
  {
    var out: seq<Package> := [];
    var pos := 0;
    while true
      invariant pos <= |lines|
      invariant Packages(lines, 0, r) == Stream(out + Packages(lines, pos, r).packages, Packages(lines, pos, r).failure)
      decreases |lines| - pos
    {
      var rec := ReadFields(lines, pos);
      match rec {
        case Err(Eof) =>
          return Stream(out, None);
        case Err(Malformed(l)) =>
          return Stream(out, Some(AssertionFailed(l)));
        case Ok((f, next)) =>
          var p := ParseFields(f, r);
          if p.Err? {
            return Stream(out, Some(MissingKey(p.error)));
          }
          assert Packages(lines, pos, r).packages == [p.value] + Packages(lines, next, r).packages;
          out := out + [p.value];
          pos := next;
      }
    }
  }

  /** A blank line where a record should start ends the stream without error. */
  lemma StopsAtEmptyRecord(lines: seq<string>, pos: nat, r: ApkRepository)
    requires pos <= |lines|
    requires pos == |lines| || lines[pos] == ""
    ensures Packages(lines, pos, r) == Stream([], None)
  {
    EofIff(lines, pos);
  }

  /** Each yielded package names the repository by its source, and its URL is
      built from its own name and version. */
  lemma {:induction false} PackagesTagged(lines: seq<string>, pos: nat, r: ApkRepository)
    requires pos <= |lines|
    ensures forall p :: p in Packages(lines, pos, r).packages ==>
              p.repo == r.source && p.url == PackageUrl(r, p.name, p.version)
    decreases |lines| - pos
  {
    match ParseRecord(lines, pos)
    case Err(_) =>
    case Ok((f, next)) => PackagesTagged(lines, next, r);
  }
}
