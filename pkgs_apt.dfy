/** The Debian `Packages` index provider (src/yakusoku/modules/pkgs/providers/apt.py).
    The index is a sequence of control-file records separated by blank lines
    (Debian Policy Manual, section 5.1). The decompressed index is given as
    its lines, each without its trailing newline, so a blank line is "". */
module PkgsApt {

  import opened Wrappers
  import opened Text
  import opened PkgsTypes

  datatype AptSource = AptSource(source: string, suite: string, arch: string)

  datatype AptComponent = AptComponent(src: AptSource, component: string)

  /** `AptSource.with_components`: one component per name, in order, all on this source. */
  function WithComponents(s: AptSource, comps: seq<string>): (r: seq<AptComponent>)
    ensures |r| == |comps|
    ensures forall i :: 0 <= i < |r| ==> r[i].src == s && r[i].component == comps[i]
  {
    if comps == [] then [] else [AptComponent(s, comps[0])] + WithComponents(s, comps[1..])
  }

  /** `AptComponent.identifier`: the source without trailing slashes, then suite,
      architecture and component, separated by ':'. */
  function Identifier(c: AptComponent): (r: string)
    ensures StartsWith(r, RStrip(c.src.source, '/'))
    ensures EndsWith(r, ":" + c.component)
  {
    var head := RStrip(c.src.source, '/');
    var r := head + ":" + c.src.suite + ":" + c.src.arch + ":" + c.component;
    assert r[..|head|] == head;
    assert r[|r| - |":" + c.component|..] == ":" + c.component;
    r
  }

  /** Trailing slashes on the source do not change the identifier. */
  lemma IdentifierIgnoresTrailingSlash(c: AptComponent, n: nat)
    ensures Identifier(AptComponent(AptSource(c.src.source + Slashes(n), c.src.suite, c.src.arch), c.component))
            == Identifier(c)
  {
    StripSlashes(c.src.source, n);
  }

  /** `AptComponent.package_url`. */
  function PackageUrl(c: AptComponent, filename: string): string
  {
    Join(c.src.source, [filename])
  }

  /** `AptComponent.packages_url`. */
  function PackagesUrl(c: AptComponent): string
  {
    Join(c.src.source, ["dists", c.src.suite, c.component, "binary-" + c.src.arch, "Packages.xz"])
  }

  /** With plain suite, component and architecture the index lives at
      `<source>/dists/<suite>/<component>/binary-<arch>/Packages.xz`. */
  lemma PackagesUrlShape(c: AptComponent)
    requires Plain(c.src.suite) && Plain(c.component) && Plain(c.src.arch)
    ensures PackagesUrl(c) == Dir(c.src.source) + ("dists/" + c.src.suite + "/" + c.component
                                                    + "/binary-" + c.src.arch + "/Packages.xz")
  {
    PackagesPathJoined(c);
    IndexPath(c.src.suite, c.component, c.src.arch);
  }

  /** The path parts are all plain, so they are joined onto the source with
      single slashes. */
  lemma PackagesPathJoined(c: AptComponent)
    requires Plain(c.src.suite) && Plain(c.component) && Plain(c.src.arch)
    ensures PackagesUrl(c)
            == Dir(c.src.source) + SlashJoin(["dists", c.src.suite, c.component, "binary-" + c.src.arch, "Packages.xz"])
  {
    var b := "binary-" + c.src.arch;
    var ps := ["dists", c.src.suite, c.component, b, "Packages.xz"];
    assert Plain(b) by {
      assert b[0] == 'b' && b[|b| - 1] == c.src.arch[|c.src.arch| - 1];
    }
    assert forall i :: 0 <= i < |ps| ==> Plain(ps[i]);
    JoinPlain(c.src.source, ps);
  }

  lemma IndexPath(suite: string, component: string, arch: string)
    ensures SlashJoin(["dists", suite, component, "binary-" + arch, "Packages.xz"])
            == "dists/" + suite + "/" + component + "/binary-" + arch + "/Packages.xz"
  {
    SlashJoinFive("dists", suite, component, "binary-" + arch, "Packages.xz");
    assert "dists" + "/" == "dists/";
    assert "/" + ("binary-" + arch) == "/binary-" + arch;
  }

  /** A plain file name is appended to the source with exactly one separator,
      and an absolute one replaces the source. */
  lemma PackageUrlShape(c: AptComponent, filename: string)
    ensures Plain(filename) ==> PackageUrl(c, filename) == Dir(c.src.source) + filename
    ensures StartsWith(filename, "/") ==> PackageUrl(c, filename) == filename
  {
    if Plain(filename) {
      JoinPlain(c.src.source, [filename]);
    }
    assert PackageUrl(c, filename) == Join(JoinOne(c.src.source, filename), []);
  }

  type Fields = map<string, string>

  /** `_parse_fields`: the five required fields, looked up in the order the
      source's keyword arguments evaluate them; the first missing key is the
      KeyError. */
  function ParseFields(f: Fields, c: AptComponent): (r: Result<Package, string>)
    ensures r.Ok? <==> (forall k | k in RequiredFields :: k in f)
    ensures r.Ok? ==> r.value == Package(Identifier(c), f["Package"], f["Architecture"],
                                         f["Version"], f["Description"],
                                         PackageUrl(c, f["Filename"]))
    ensures r.Err? ==> r.error in RequiredFields && r.error !in f
  {
    if "Architecture" !in f then Err("Architecture")
    else if "Package" !in f then Err("Package")
    else if "Description" !in f then Err("Description")
    else if "Version" !in f then Err("Version")
    else if "Filename" !in f then Err("Filename")
    else Ok(Package(
      repo := Identifier(c),
      name := f["Package"],
      arch := f["Architecture"],
      version := f["Version"],
      description := f["Description"],
      url := PackageUrl(c, f["Filename"])))
  }

  const RequiredFields: set<string> := {"Package", "Architecture", "Version", "Description", "Filename"}

  // ---------------------------------------------------------------------------
  // Reading one record

  /** The reader's variables between two lines: the fields read so far and the
      last key, "" standing for both `None` and an empty key (both falsy). */
  datatype ReadState = ReadState(fields: Fields, lastKey: string)

  predicate ValidState(st: ReadState)
  {
    st.lastKey == "" || st.lastKey in st.fields
  }

  const Init := ReadState(map[], "")

  /** A line that continues the previous field's value. Only a space counts. */
  predicate ContinuationLine(line: string)
  {
    StartsWith(line, " ")
  }

  /** A line that starts a new field. */
  predicate KeyLine(line: string)
  {
    !ContinuationLine(line) && ':' in line
  }

  function KeyOf(line: string): string
    requires KeyLine(line)
  {
    SplitOnce(line, ':').value.0
  }

  function ValueOf(line: string): string
    requires KeyLine(line)
  {
    LStripSpace(SplitOnce(line, ':').value.1)
  }

  /** The reader's handling of one non-blank line; `Err(line)` is the failed assertion. */
  function Step(st: ReadState, line: string): (r: Result<ReadState, string>)
    requires ValidState(st)
    ensures r.Ok? ==> ValidState(r.value)
  {
    if ContinuationLine(line) then
      if st.lastKey == "" then Err(line)
      else Ok(ReadState(st.fields[st.lastKey := st.fields[st.lastKey] + line], st.lastKey))
    else match SplitOnce(line, ':')
      case None => Err(line)
      case Some((k, v)) => Ok(ReadState(st.fields[k := LStripSpace(v)], k))
  }

  /** The reader's handling of a run of non-blank lines, stopping at the first failure. */
  function Apply(st: ReadState, ls: seq<string>): (r: Result<ReadState, string>)
    requires ValidState(st)
    ensures r.Ok? ==> ValidState(r.value)
    decreases |ls|
  {
    if ls == [] then Ok(st)
    else match Step(st, ls[0])
      case Err(l) => Err(l)
      case Ok(st') => Apply(st', ls[1..])
  }

  lemma {:induction false} ApplyAppend(st: ReadState, a: seq<string>, b: seq<string>)
    requires ValidState(st)
    ensures Apply(st, a + b) == Then(Apply(st, a), b)
    decreases |a|
  {
    if a == [] {
      assert a + b == b;
    } else {
      assert a + b != [] && (a + b)[0] == a[0] && (a + b)[1..] == a[1..] + b;
      match Step(st, a[0])
      case Err(_) =>
      case Ok(s) => ApplyAppend(s, a[1..], b);
    }
  }

  /** Reading one more line of the record is one more step. */
  lemma ApplyNext(lines: seq<string>, pos: nat, i: nat, st: ReadState)
    requires pos <= i < |lines|
    requires Apply(Init, lines[pos..i]) == Ok(st)
    ensures Apply(Init, lines[pos..i + 1]) == Step(st, lines[i])
  {
    assert lines[pos..i + 1] == lines[pos..i] + [lines[i]];
    ApplyAppend(Init, lines[pos..i], [lines[i]]);
    ApplySingle(st, lines[i]);
  }

  lemma ApplySingle(st: ReadState, line: string)
    requires ValidState(st)
    ensures Apply(st, [line]) == Step(st, line)
  {
    assert [line][0] == line && [line][1..] == [];
    match Step(st, line)
    case Err(_) =>
    case Ok(s) => assert Apply(s, []) == Ok(s);
  }

  /** Continues reading `b` after a run whose outcome is `r`. */
  function Then(r: Result<ReadState, string>, b: seq<string>): Result<ReadState, string>
    requires r.Ok? ==> ValidState(r.value)
  {
    match r
    case Err(l) => Err(l)
    case Ok(s) => Apply(s, b)
  }

  /** Index of the first blank line at or after `pos`, or the end of input. */
  function RecordEnd(lines: seq<string>, pos: nat): (e: nat)
    requires pos <= |lines|
    ensures pos <= e <= |lines|
    ensures e < |lines| ==> lines[e] == ""
    ensures forall j :: pos <= j < e ==> lines[j] != ""
    decreases |lines| - pos
  {
    if pos == |lines| || lines[pos] == "" then pos else RecordEnd(lines, pos + 1)
  }

  datatype ReadError = Eof | Malformed(line: string)

  /** What `_read_fields` returns when the buffer is at line `pos`: the record's
      fields and the position after its closing blank line, or the error. */
  function ParseRecord(lines: seq<string>, pos: nat): (r: Result<(Fields, nat), ReadError>)
    requires pos <= |lines|
    ensures r.Ok? ==> pos < r.value.1 <= |lines| && r.value.0 != map[]
  {
    var e := RecordEnd(lines, pos);
    var next := if e < |lines| then e + 1 else e;
    match Apply(Init, lines[pos..e])
    case Err(l) => Err(Malformed(l))
    case Ok(st) => if st.fields == map[] then Err(Eof) else Ok((st.fields, next))
  }

  /** `Apt._read_fields`, reading from line `pos`. */
  method ReadFields(lines: seq<string>, pos: nat) returns (r: Result<(Fields, nat), ReadError>)
    requires pos <= |lines|
    ensures r == ParseRecord(lines, pos)
  {
    var fields: Fields := map[];
    var lastKey := "";
    var i := pos;
    while i < |lines| && lines[i] != ""
      invariant pos <= i <= |lines|
      invariant forall j :: pos <= j < i ==> lines[j] != ""
      invariant lastKey == "" || lastKey in fields
      invariant Apply(Init, lines[pos..i]) == Ok(ReadState(fields, lastKey))
      decreases |lines| - i
    {
      var line := lines[i];
      ghost var st := ReadState(fields, lastKey);
      ApplyNext(lines, pos, i, st);
      if StartsWith(line, " ") {
        if lastKey == "" {
          assert Step(st, line) == Err(line);
          ErrorStops(lines, pos, i + 1);
          return Err(Malformed(line));
        }
        fields := fields[lastKey := fields[lastKey] + line];
      } else {
        var data := SplitOnce(line, ':');
        if data.None? {
          assert Step(st, line) == Err(line);
          ErrorStops(lines, pos, i + 1);
          return Err(Malformed(line));
        }
        lastKey := data.value.0;
        fields := fields[lastKey := LStripSpace(data.value.1)];
      }
      assert Step(st, line) == Ok(ReadState(fields, lastKey));
      i := i + 1;
    }
    // The loop stops at the blank line, which `readline` has already consumed.
    RecordDone(lines, pos, i, ReadState(fields, lastKey));
    if fields == map[] {
      return Err(Eof);
    }
    if i < |lines| {
      i := i + 1;
    }
    return Ok((fields, i));
  }

  /** Reaching the blank line or the end of input with state `st` decides the record. */
  lemma RecordDone(lines: seq<string>, pos: nat, i: nat, st: ReadState)
    requires pos <= i <= |lines| && (i == |lines| || lines[i] == "")
    requires forall j :: pos <= j < i ==> lines[j] != ""
    requires Apply(Init, lines[pos..i]) == Ok(st)
    ensures ParseRecord(lines, pos)
            == if st.fields == map[] then Err(Eof) else Ok((st.fields, if i < |lines| then i + 1 else i))
  {
    assert RecordEnd(lines, pos) == i;
  }

  /** A failure inside the record decides the whole record. */
  lemma ErrorStops(lines: seq<string>, pos: nat, i: nat)
    requires pos < i <= |lines|
    requires forall j :: pos <= j < i ==> lines[j] != ""
    requires Apply(Init, lines[pos..i]).Err?
    ensures ParseRecord(lines, pos) == Err(Malformed(Apply(Init, lines[pos..i]).error))
  {
    var e := RecordEnd(lines, pos);
    assert i <= e;
    assert lines[pos..e] == lines[pos..i] + lines[i..e];
    ApplyAppend(Init, lines[pos..i], lines[i..e]);
  }

  /** Fields are never removed, so once one is read the record is not empty. */
  lemma {:induction false} ApplyKeepsKeys(st: ReadState, ls: seq<string>)
    requires ValidState(st)
    requires Apply(st, ls).Ok?
    ensures st.fields.Keys <= Apply(st, ls).value.fields.Keys
    decreases |ls|
  {
    if ls != [] {
      ApplyKeepsKeys(Step(st, ls[0]).value, ls[1..]);
    }
  }

  /** `_read_fields` raises EOFError exactly when it is at the end of input
      or at a blank line, that is, when it reads no field. */
  lemma EofIff(lines: seq<string>, pos: nat)
    requires pos <= |lines|
    ensures ParseRecord(lines, pos) == Err(Eof) <==> pos == |lines| || lines[pos] == ""
  {
    var e := RecordEnd(lines, pos);
    if e > pos {
      var ls := lines[pos..e];
      assert ls[0] == lines[pos];
      match Step(Init, ls[0])
      case Err(_) =>
      case Ok(s) =>
        assert s.fields != map[] by { assert s.lastKey in s.fields; }
        if Apply(s, ls[1..]).Ok? {
          ApplyKeepsKeys(s, ls[1..]);
          assert s.lastKey in Apply(s, ls[1..]).value.fields;
        }
    }
  }

  /** A record is read up to its first blank line: its fields depend only on
      the lines before that line, and reading resumes just after it. */
  lemma RecordStopsAtBlank(lines: seq<string>, pos: nat, b: nat)
    requires pos <= b < |lines| && lines[b] == ""
    requires forall j :: pos <= j < b ==> lines[j] != ""
    requires ParseRecord(lines, pos).Ok?
    ensures ParseRecord(lines, pos).value.1 == b + 1
    ensures ParseRecord(lines, pos).value.0 == Apply(Init, lines[pos..b]).value.fields
  {
    var e := RecordEnd(lines, pos);
    assert e == b;
  }

  // ---------------------------------------------------------------------------
  // What a field's value is

  /** After a field's own line and the continuation lines that follow it, its
      value is the text after ':' with leading whitespace removed, followed by
      every continuation line verbatim, leading space included. */
  lemma {:induction false} ContinuationsAppend(st: ReadState, conts: seq<string>)
    requires ValidState(st) && st.lastKey != ""
    requires forall j :: 0 <= j < |conts| ==> ContinuationLine(conts[j])
    ensures Apply(st, conts).Ok?
    ensures Apply(st, conts).value.lastKey == st.lastKey
    ensures Apply(st, conts).value.fields[st.lastKey] == st.fields[st.lastKey] + Concat(conts)
    decreases |conts|
  {
    if conts != [] {
      var n := |conts|;
      var front := conts[..n - 1];
      assert conts == front + [conts[n - 1]];
      ApplyAppend(st, front, [conts[n - 1]]);
      ContinuationsAppend(st, front);
      ApplySingle(Apply(st, front).value, conts[n - 1]);
    }
  }

  predicate NoKeyLineFor(ls: seq<string>, k: string)
  {
    forall j :: 0 <= j < |ls| && KeyLine(ls[j]) ==> KeyOf(ls[j]) != k
  }

  /** Once the last key is another one, lines that never name `k` leave it alone. */
  lemma {:induction false} OtherLinesKeep(st: ReadState, ls: seq<string>, k: string)
    requires ValidState(st) && k in st.fields && st.lastKey != k
    requires NoKeyLineFor(ls, k)
    requires Apply(st, ls).Ok?
    ensures k in Apply(st, ls).value.fields
    ensures Apply(st, ls).value.fields[k] == st.fields[k]
    decreases |ls|
  {
    if ls != [] {
      var s := Step(st, ls[0]).value;
      assert NoKeyLineFor(ls[1..], k) by {
        forall j | 0 <= j < |ls[1..]| && KeyLine(ls[1..][j]) ensures KeyOf(ls[1..][j]) != k {
          assert ls[1..][j] == ls[j + 1];
        }
      }
      if !ContinuationLine(ls[0]) {
        assert KeyLine(ls[0]);
      }
      OtherLinesKeep(s, ls[1..], k);
    }
  }

  /** The value of a field in a record whose last line naming it is `kl`. */
  lemma FieldValue(pre: seq<string>, kl: string, conts: seq<string>, post: seq<string>, st: ReadState)
    requires KeyLine(kl) && KeyOf(kl) != ""
    requires forall j :: 0 <= j < |conts| ==> ContinuationLine(conts[j])
    requires post == [] || !ContinuationLine(post[0])
    requires NoKeyLineFor(post, KeyOf(kl))
    requires Apply(Init, pre + [kl] + conts + post) == Ok(st)
    ensures KeyOf(kl) in st.fields
    ensures st.fields[KeyOf(kl)] == ValueOf(kl) + Concat(conts)
  {
    var k := KeyOf(kl);
    ApplyAppend(Init, pre + [kl] + conts, post);
    ApplyAppend(Init, pre + [kl], conts);
    ApplyAppend(Init, pre, [kl]);
    var s1 := Apply(Init, pre).value;
    var s2 := Step(s1, kl).value;
    assert Apply(s1, [kl]) == Ok(s2);
    assert s2.lastKey == k && s2.fields[k] == ValueOf(kl);
    ContinuationsAppend(s2, conts);
    var s3 := Apply(s2, conts).value;
    if post != [] {
      ApplyAppend(s3, [post[0]], post[1..]);
      assert post == [post[0]] + post[1..];
      ApplySingle(s3, post[0]);
      SplitOnceSpec(post[0], ':');
      assert KeyLine(post[0]);
      var s4 := Step(s3, post[0]).value;
      assert s4.lastKey == KeyOf(post[0]) != k;
      assert NoKeyLineFor(post[1..], k) by {
        forall j | 0 <= j < |post[1..]| && KeyLine(post[1..][j]) ensures KeyOf(post[1..][j]) != k {
          assert post[1..][j] == post[j + 1];
        }
      }
      OtherLinesKeep(s4, post[1..], k);
    }
  }

  /** The keys of a record are exactly the keys its field lines name. */
  lemma {:induction false} RecordKeys(st: ReadState, ls: seq<string>, k: string)
    requires ValidState(st)
    requires Apply(st, ls).Ok?
    ensures k in Apply(st, ls).value.fields <==>
              k in st.fields || exists j :: 0 <= j < |ls| && KeyLine(ls[j]) && KeyOf(ls[j]) == k
    decreases |ls|
  {
    if ls != [] {
      var s := Step(st, ls[0]).value;
      RecordKeys(s, ls[1..], k);
      if exists j :: 0 <= j < |ls[1..]| && KeyLine(ls[1..][j]) && KeyOf(ls[1..][j]) == k {
        var j :| 0 <= j < |ls[1..]| && KeyLine(ls[1..][j]) && KeyOf(ls[1..][j]) == k;
        assert ls[j + 1] == ls[1..][j];
      }
      if exists j :: 0 <= j < |ls| && KeyLine(ls[j]) && KeyOf(ls[j]) == k {
        var j :| 0 <= j < |ls| && KeyLine(ls[j]) && KeyOf(ls[j]) == k;
        if j > 0 { assert ls[1..][j - 1] == ls[j]; }
      }
    }
  }

  // ---------------------------------------------------------------------------
  // The package stream

  /** The packages `_iter_packages` yields from line `pos` on, and the error
      that ends the stream, if any; EOFError ends it normally. */
  function Packages(lines: seq<string>, pos: nat, c: AptComponent): (s: Stream)
    requires pos <= |lines|
    decreases |lines| - pos
  {
    match ParseRecord(lines, pos)
    case Err(Eof) => Stream([], None)
    case Err(Malformed(l)) => Stream([], Some(AssertionFailed(l)))
    case Ok((f, next)) =>
      match ParseFields(f, c)
      case Err(k) => Stream([], Some(MissingKey(k)))
      case Ok(p) =>
        var rest := Packages(lines, next, c);
        Stream([p] + rest.packages, rest.failure)
  }

  /** A record that parses puts its package in front of those of the
      records after it. */
  lemma PackagesStep(lines: seq<string>, pos: nat, c: AptComponent, f: Fields, next: nat, p: Package)
    requires pos <= |lines| && ParseRecord(lines, pos) == Ok((f, next)) && ParseFields(f, c) == Ok(p)
    ensures pos < next <= |lines|
    ensures Packages(lines, pos, c) == Yielded([p], Packages(lines, next, c))
  {
  }

  /** `Apt._iter_packages` over the whole index. */
  method IterPackages(lines: seq<string>, c: AptComponent) returns (s: Stream)
    ensures s == Packages(lines, 0, c)
  {
    var out: seq<Package> := [];
    var pos := 0;
    assert [] + Packages(lines, 0, c).packages == Packages(lines, 0, c).packages;
    while true
      invariant pos <= |lines|
      invariant Packages(lines, 0, c) == Yielded(out, Packages(lines, pos, c))
      decreases |lines| - pos
    {
      var r := ReadFields(lines, pos);
      match r {
        case Err(Eof) =>
          assert Packages(lines, pos, c) == Stream([], None);
          assert out + [] == out;
          return Stream(out, None);
        case Err(Malformed(l)) =>
          assert Packages(lines, pos, c) == Stream([], Some(AssertionFailed(l)));
          assert out + [] == out;
          return Stream(out, Some(AssertionFailed(l)));
        case Ok((f, next)) =>
          var p := ParseFields(f, c);
          if p.Err? {
            assert Packages(lines, pos, c) == Stream([], Some(MissingKey(p.error)));
            assert out + [] == out;
            return Stream(out, Some(MissingKey(p.error)));
          }
          PackagesStep(lines, pos, c, f, next, p.value);
          YieldedTwice(out, [p.value], Packages(lines, next, c));
          out := out + [p.value];
          pos := next;
      }
    }
  }

  /** Every package carries the component's identifier as its repository. */
  lemma {:induction false} PackagesRepo(lines: seq<string>, pos: nat, c: AptComponent)
    requires pos <= |lines|
    ensures forall p :: p in Packages(lines, pos, c).packages ==> p.repo == Identifier(c)
    decreases |lines| - pos
  {
    match ParseRecord(lines, pos)
    case Err(_) =>
    case Ok((f, next)) => PackagesRepo(lines, next, c);
  }

  /** A blank line where a record should start ends the stream without error,
      so two blank lines in a row hide every later record. */
  lemma StopsAtEmptyRecord(lines: seq<string>, pos: nat, c: AptComponent)
    requires pos <= |lines|
    requires pos == |lines| || lines[pos] == ""
    ensures Packages(lines, pos, c) == Stream([], None)
  {
    EofIff(lines, pos);
  }
}
