/** The normalised package record and its encoding as a snapshot-store entry
    (src/yakusoku/modules/pkgs/types.py). The store library itself is not
    part of this model: an entry is a map from field name to a tagged value,
    and a hashed value keeps the bytes it was made from together with the
    hash method, so two hashed values are equal exactly when both agree. */
module PkgsTypes {

  import opened Wrappers
  import opened Utf8

  datatype Package = Package(
    repo: string,
    name: string,
    arch: string,
    version: string,
    description: string,
    url: string)

  /** A hash method of the store, identified by its name. */
  datatype HashMethod = HashMethod(id: string)

  /** Column types a store schema can declare. */
  datatype FieldType = Bytes | HashedBytes | Float64

  datatype FieldProp = FieldProp(name: string, fieldType: FieldType)

  /** A value held in a store entry. `Raw` is a `bytes` value, `Hashed` the
      store's hashed-bytes wrapper, `Number` any other kind of value. */
  datatype Value = Raw(bytes: seq<byte>) | Hashed(content: seq<byte>, hashMethod: HashMethod) | Number(x: int)

  type Entry = map<string, Value>

  datatype EntryError = KeyError(key: string) | TypeError | DecodeError(field: string)

  /** Why a provider's package stream stopped early: a failed `assert` (with
      the offending line or element), a KeyError for a missing field, or a
      ValueError. */
  datatype ParseFailure = AssertionFailed(detail: string) | MissingKey(key: string) | InvalidData

  /** What a provider's generator produces: the packages yielded, in order,
      and the exception that ended it, if any. */
  datatype Stream = Stream(packages: seq<Package>, failure: Option<ParseFailure>)

  /** The stream `s` with `ps` yielded before it. */
  function Yielded(ps: seq<Package>, s: Stream): Stream
  {
    Stream(ps + s.packages, s.failure)
  }

  lemma YieldedTwice(a: seq<Package>, b: seq<Package>, s: Stream)
    ensures Yielded(a, Yielded(b, s)) == Yielded(a + b, s)
  {
    assert a + (b + s.packages) == (a + b) + s.packages;
  }

  /** The declared schema of a package snapshot, in column order. */
  const FieldProps: seq<FieldProp> := [
    FieldProp("repo", Bytes),
    FieldProp("name", HashedBytes),
    FieldProp("arch", Bytes),
    FieldProp("version", Bytes),
    FieldProp("description", Bytes),
    FieldProp("url", Bytes)
  ]

  function FieldNames(): (r: seq<string>)
    ensures |r| == |FieldProps| && forall i :: 0 <= i < |r| ==> r[i] == FieldProps[i].name
  {
    seq(|FieldProps|, i requires 0 <= i < |FieldProps| => FieldProps[i].name)
  }

  predicate HasType(v: Value, t: FieldType)
  {
    match t
    case Bytes => v.Raw?
    case HashedBytes => v.Hashed?
    case Float64 => false
  }

  /** The schema names the six package fields in declaration order, and the
      package name is the only hashed column. */
  lemma SchemaShape()
    ensures FieldNames() == ["repo", "name", "arch", "version", "description", "url"]
    ensures forall i :: 0 <= i < |FieldProps| ==>
              (FieldProps[i].fieldType == HashedBytes <==> FieldProps[i].name == "name")
    ensures forall i :: 0 <= i < |FieldProps| ==> FieldProps[i].fieldType != Float64
  {
  }

  /** `Package.to_zakodb_entry`: every field UTF-8 encoded, the name hashed. */
  function ToEntry(p: Package, m: HashMethod): (e: Entry)
    ensures forall i :: 0 <= i < |FieldProps| ==>
              FieldProps[i].name in e && HasType(e[FieldProps[i].name], FieldProps[i].fieldType)
    ensures e.Keys == {"repo", "name", "arch", "version", "description", "url"}
  {
    map[
      "repo" := Raw(Encode(p.repo)),
      "name" := Hashed(Encode(p.name), m),
      "arch" := Raw(Encode(p.arch)),
      "version" := Raw(Encode(p.version)),
      "description" := Raw(Encode(p.description)),
      "url" := Raw(Encode(p.url))
    ]
  }

  /** The first schema column (from index `i`) that is missing or has the
      wrong kind of value, in the order the source tests them. */
  function CheckTypes(e: Entry, i: nat): Option<EntryError>
    decreases |FieldProps| - i
  {
    if i >= |FieldProps| then None
    else if FieldProps[i].name !in e then Some(KeyError(FieldProps[i].name))
    else if !HasType(e[FieldProps[i].name], FieldProps[i].fieldType) then Some(TypeError)
    else CheckTypes(e, i + 1)
  }

  predicate WellTyped(e: Entry)
  {
    forall i :: 0 <= i < |FieldProps| ==>
      FieldProps[i].name in e && HasType(e[FieldProps[i].name], FieldProps[i].fieldType)
  }

  lemma {:induction false} CheckTypesNone(e: Entry, i: nat)
    requires i <= |FieldProps|
    ensures CheckTypes(e, i).None? <==>
              forall j :: i <= j < |FieldProps| ==>
                FieldProps[j].name in e && HasType(e[FieldProps[j].name], FieldProps[j].fieldType)
    decreases |FieldProps| - i
  {
    if i < |FieldProps| { CheckTypesNone(e, i + 1); }
  }

  function DecodeValue(v: Value): Option<string>
  {
    match v
    case Raw(b) => Decode(b)
    case Hashed(c, _) => Decode(c)
    case Number(_) => None
  }

  /** Decodes the columns from index `i` on, stopping at the first that is not valid UTF-8. */
  function DecodeColumns(e: Entry, i: nat): Result<seq<string>, EntryError>
    requires forall j :: i <= j < |FieldProps| ==> FieldProps[j].name in e
    decreases |FieldProps| - i
  {
    if i >= |FieldProps| then Ok([])
    else match DecodeValue(e[FieldProps[i].name])
      case None => Err(DecodeError(FieldProps[i].name))
      case Some(s) =>
        match DecodeColumns(e, i + 1)
        case Err(err) => Err(err)
        case Ok(rest) => Ok([s] + rest)
  }

  lemma {:induction false} DecodeColumnsLength(e: Entry, i: nat)
    requires i <= |FieldProps|
    requires forall j :: i <= j < |FieldProps| ==> FieldProps[j].name in e
    ensures DecodeColumns(e, i).Ok? ==> |DecodeColumns(e, i).value| == |FieldProps| - i
    decreases |FieldProps| - i
  {
    if i < |FieldProps| { DecodeColumnsLength(e, i + 1); }
  }

  /** `Package.from_zakodb_entry`. */
  function FromEntry(e: Entry): Result<Package, EntryError>
  {
    match CheckTypes(e, 0)
    case Some(err) => Err(err)
    case None =>
      CheckTypesNone(e, 0);
      match DecodeColumns(e, 0)
      case Err(err) => Err(err)
      case Ok(vs) =>
        DecodeColumnsLength(e, 0);
        Ok(Package(vs[0], vs[1], vs[2], vs[3], vs[4], vs[5]))
  }

  /** When every column from `i` on decodes, the decoded columns are exactly those texts. */
  lemma {:induction false} DecodeColumnsAll(e: Entry, i: nat, vs: seq<string>)
    requires i <= |FieldProps| && |vs| == |FieldProps| - i
    requires forall j :: i <= j < |FieldProps| ==> FieldProps[j].name in e
    requires forall j :: i <= j < |FieldProps| ==> DecodeValue(e[FieldProps[j].name]) == Some(vs[j - i])
    ensures DecodeColumns(e, i) == Ok(vs)
    decreases |FieldProps| - i
  {
    if i < |FieldProps| {
      DecodeColumnsAll(e, i + 1, vs[1..]);
      assert vs == [vs[0]] + vs[1..];
    }
  }

  /** Decoding an encoded package gives it back. */
  lemma RoundTrip(p: Package, m: HashMethod)
    ensures FromEntry(ToEntry(p, m)) == Ok(p)
  {
    var e := ToEntry(p, m);
    CheckTypesNone(e, 0);
    var vs := [p.repo, p.name, p.arch, p.version, p.description, p.url];
    EntryColumnsDecode(p, m, vs);
    DecodeColumnsAll(e, 0, vs);
  }

  lemma EntryColumnsDecode(p: Package, m: HashMethod, vs: seq<string>)
    requires vs == [p.repo, p.name, p.arch, p.version, p.description, p.url]
    ensures forall j :: 0 <= j < |FieldProps| ==> DecodeValue(ToEntry(p, m)[FieldProps[j].name]) == Some(vs[j])
  {
    DecodeEncode(p.repo);
    DecodeEncode(p.name);
    DecodeEncode(p.arch);
    DecodeEncode(p.version);
    DecodeEncode(p.description);
    DecodeEncode(p.url);
  }

  /** With all six columns present, decoding fails with a type error exactly
      when some column does not hold the kind of value the schema declares. */
  lemma TypeErrorIff(e: Entry)
    requires forall i :: 0 <= i < |FieldProps| ==> FieldProps[i].name in e
    ensures FromEntry(e) == Err(TypeError) <==> !WellTyped(e)
  {
    CheckTypesNone(e, 0);
    if !WellTyped(e) {
      FirstTypeError(e, 0);
    } else {
      DecodeColumnsErrors(e, 0);
    }
  }

  lemma {:induction false} FirstTypeError(e: Entry, i: nat)
    requires i <= |FieldProps|
    requires forall j :: 0 <= j < |FieldProps| ==> FieldProps[j].name in e
    requires exists j :: i <= j < |FieldProps| && !HasType(e[FieldProps[j].name], FieldProps[j].fieldType)
    ensures CheckTypes(e, i) == Some(TypeError)
    decreases |FieldProps| - i
  {
    if HasType(e[FieldProps[i].name], FieldProps[i].fieldType) {
      FirstTypeError(e, i + 1);
    }
  }

  lemma {:induction false} DecodeColumnsErrors(e: Entry, i: nat)
    requires i <= |FieldProps|
    requires forall j :: i <= j < |FieldProps| ==> FieldProps[j].name in e
    ensures DecodeColumns(e, i).Err? ==> DecodeColumns(e, i).error.DecodeError?
    decreases |FieldProps| - i
  {
    if i < |FieldProps| { DecodeColumnsErrors(e, i + 1); }
  }

  /** A decoded package's name is the text the hashed name column was made from. */
  lemma NameFromHashedContent(e: Entry, p: Package)
    requires FromEntry(e) == Ok(p)
    ensures "name" in e && e["name"].Hashed? && Decode(e["name"].content) == Some(p.name)
  {
    CheckTypesNone(e, 0);
    assert FieldProps[1].name == "name";
    DecodeColumnsLength(e, 0);
    var vs := DecodeColumns(e, 0).value;
    assert DecodeColumns(e, 0) == Ok([vs[0]] + DecodeColumns(e, 1).value);
  }
}
