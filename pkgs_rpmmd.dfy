/** The rpm-md (repodata) provider (yakusoku/modules/pkgs/providers/rpmmd.py).
    The XML parser is not part of this model: `repomd.xml` is given as the
    start and end events of its elements, and the primary metadata as the
    end events of its elements, in document order, as `iterparse` reports them. */
module PkgsRpmMd {

  import opened Wrappers
  import opened Text
  import opened PkgsTypes

  const DataTag := "{http://linux.duke.edu/metadata/repo}data"
  const RepoLocationTag := "{http://linux.duke.edu/metadata/repo}location"

  const NameTag := "{http://linux.duke.edu/metadata/common}name"
  const ArchTag := "{http://linux.duke.edu/metadata/common}arch"
  const VersionTag := "{http://linux.duke.edu/metadata/common}version"
  const SummaryTag := "{http://linux.duke.edu/metadata/common}summary"
  const LocationTag := "{http://linux.duke.edu/metadata/common}location"
  const PackageTag := "{http://linux.duke.edu/metadata/common}package"
  const MetadataTag := "{http://linux.duke.edu/metadata/common}metadata"

  datatype RpmMdRepository = RpmMdRepository(source: string)

  /** `RpmMdRepository.identifier` is the source itself. */
  function Identifier(r: RpmMdRepository): (id: string)
    ensures id == r.source
  {
    r.source
  }

  /** `RpmMdRepository.url(*paths)`. */
  function Url(r: RpmMdRepository, paths: seq<string>): string
  {
    Join(r.source, paths)
  }

  /** The repository index is `<source>/repodata/repomd.xml`, and a plain
      relative location is appended to the source with one separator. */
  lemma UrlShapes(r: RpmMdRepository, location: string)
    ensures Url(r, ["repodata", "repomd.xml"]) == Dir(r.source) + "repodata/repomd.xml"
    ensures Plain(location) ==> Url(r, [location]) == Dir(r.source) + location
  {
    JoinPlain(r.source, ["repodata", "repomd.xml"]);
    assert ["repodata", "repomd.xml"] == ["repodata"] + ["repomd.xml"];
    SlashJoinCons("repodata", ["repomd.xml"]);
    if Plain(location) {
      JoinPlain(r.source, [location]);
    }
  }

  datatype Element = Element(tag: string, attrib: map<string, string>, text: Option<string>)

  datatype EventKind = Start | End

  datatype Event = Event(kind: EventKind, elem: Element)

  // ---------------------------------------------------------------------------
  // Finding the primary metadata in repomd.xml

  /** ValueError when no location is found, KeyError for a missing attribute. */
  datatype LocateError = NotFound | MissingAttribute(name: string)

  /** `_find_primary_data_location` from event `evs[0]` on, `read` being the flag. */
  function Locate(evs: seq<Event>, read: bool): Result<string, LocateError>
    decreases |evs|
  {
    if evs == [] then Err(NotFound)
    else
      var ev := evs[0];
      var e := ev.elem;
      if ev.kind == Start && e.tag == DataTag && "type" !in e.attrib then Err(MissingAttribute("type"))
      else
        var read' := read || (ev.kind == Start && e.tag == DataTag && e.attrib["type"] == "primary");
        if read' && ev.kind == End && e.tag == DataTag then Err(NotFound)
        else if read' && e.tag == RepoLocationTag then
          if "href" in e.attrib then Ok(e.attrib["href"]) else Err(MissingAttribute("href"))
        else Locate(evs[1..], read')
  }

  /** `RpmMd._find_primary_data_location`. */
  method FindPrimaryDataLocation(evs: seq<Event>) returns (r: Result<string, LocateError>)
    ensures r == Locate(evs, false)
  {
    var read := false;
    var i := 0;
    while i < |evs|
      invariant 0 <= i <= |evs|
      invariant Locate(evs, false) == Locate(evs[i..], read)
    {
      var ev := evs[i];
      assert evs[i..][1..] == evs[i + 1..];
      if ev.kind == Start && ev.elem.tag == DataTag {
        if "type" !in ev.elem.attrib {
          return Err(MissingAttribute("type"));
        }
        if ev.elem.attrib["type"] == "primary" {
          read := true;
        }
      }
      if read && ev.kind == End && ev.elem.tag == DataTag {
        break;
      }
      if read && ev.elem.tag == RepoLocationTag {
        if "href" !in ev.elem.attrib {
          return Err(MissingAttribute("href"));
        }
        return Ok(ev.elem.attrib["href"]);
      }
      i := i + 1;
    }
    return Err(NotFound);
  }

  /** A start event of a data element that declares a type. */
  predicate TypedDataStart(ev: Event)
  {
    ev.kind == Start && ev.elem.tag == DataTag && "type" in ev.elem.attrib
  }

  predicate PrimaryStart(ev: Event)
  {
    TypedDataStart(ev) && ev.elem.attrib["type"] == "primary"
  }

  /** Events that do not set or consult the flag while it is clear. */
  predicate Quiet(ev: Event)
  {
    (ev.kind == Start && ev.elem.tag == DataTag) ==> TypedDataStart(ev) && !PrimaryStart(ev)
  }

  /** Everything before the primary data element, location elements included,
      is ignored. */
  lemma {:induction false} IgnoredBeforePrimary(pre: seq<Event>, rest: seq<Event>)
    requires forall j :: 0 <= j < |pre| ==> Quiet(pre[j])
    ensures Locate(pre + rest, false) == Locate(rest, false)
    decreases |pre|
  {
    if pre == [] {
      assert pre + rest == rest;
    } else {
      assert (pre + rest)[0] == pre[0] && (pre + rest)[1..] == pre[1..] + rest;
      assert Quiet(pre[0]);
      IgnoredBeforePrimary(pre[1..], rest);
    }
  }

  /** After the primary data element starts, the answer is the href of the
      first location element, unless that element's end comes first. */
  lemma {:induction false} FirstLocationAfterPrimary(mid: seq<Event>, loc: Event, rest: seq<Event>)
    requires forall j :: 0 <= j < |mid| ==> Quiet(mid[j]) && mid[j].elem.tag != RepoLocationTag
                                            && !(mid[j].kind == End && mid[j].elem.tag == DataTag)
    requires loc.elem.tag == RepoLocationTag && "href" in loc.elem.attrib
    ensures Locate(mid + [loc] + rest, true) == Ok(loc.elem.attrib["href"])
    decreases |mid|
  {
    if mid == [] {
      assert mid + [loc] + rest == [loc] + rest;
    } else {
      assert (mid + [loc] + rest)[0] == mid[0];
      assert (mid + [loc] + rest)[1..] == mid[1..] + [loc] + rest;
      assert Quiet(mid[0]);
      FirstLocationAfterPrimary(mid[1..], loc, rest);
    }
  }

  /** The whole answer for a well-typed index: skip to the primary data start,
      then take the first location inside it. */
  lemma LocateExample(pre: seq<Event>, primary: Event, mid: seq<Event>, loc: Event, rest: seq<Event>)
    requires forall j :: 0 <= j < |pre| ==> Quiet(pre[j])
    requires PrimaryStart(primary)
    requires forall j :: 0 <= j < |mid| ==> Quiet(mid[j]) && mid[j].elem.tag != RepoLocationTag
                                            && !(mid[j].kind == End && mid[j].elem.tag == DataTag)
    requires loc.elem.tag == RepoLocationTag && "href" in loc.elem.attrib
    ensures Locate(pre + [primary] + mid + [loc] + rest, false) == Ok(loc.elem.attrib["href"])
  {
    var tail := mid + [loc] + rest;
    assert pre + [primary] + mid + [loc] + rest == pre + ([primary] + tail);
    IgnoredBeforePrimary(pre, [primary] + tail);
    assert ([primary] + tail)[1..] == tail;
    FirstLocationAfterPrimary(mid, loc, rest);
  }

  /** An index with no primary data element has no primary location. */
  lemma {:induction false} NoPrimaryNotFound(evs: seq<Event>)
    requires forall j :: 0 <= j < |evs| ==> Quiet(evs[j])
    ensures Locate(evs, false) == Err(NotFound)
    decreases |evs|
  {
    if evs != [] {
      assert Quiet(evs[0]);
      NoPrimaryNotFound(evs[1..]);
    }
  }

  // ---------------------------------------------------------------------------
  // Reading the primary metadata

  /** The five accumulators of `_parse_primary_data`; `None` until seen. */
  datatype Acc = Acc(name: Option<string>, arch: Option<string>, version: Option<string>,
                     summary: Option<string>, location: Option<string>)

  const Empty := Acc(None, None, None, None, None)

  /** Python truthiness of an optional string. */
  predicate Present(x: Option<string>)
  {
    x.Some? && x.value != ""
  }

  predicate Complete(a: Acc)
  {
    Present(a.name) && Present(a.arch) && Present(a.version) && Present(a.summary) && Present(a.location)
  }

  const MissingFields := "some fields are missing."

  /** What `_parse_primary_data` yields from element `els[0]` on with accumulators `a`. */
  function Primary(els: seq<Element>, a: Acc, r: RpmMdRepository): Stream
    decreases |els|
  {
    if els == [] then Stream([], None)
    else
      var e := els[0];
      if e.tag == NameTag then Primary(els[1..], a.(name := e.text), r)
      else if e.tag == ArchTag then Primary(els[1..], a.(arch := e.text), r)
      else if e.tag == VersionTag then
        if "ver" !in e.attrib then Stream([], Some(MissingKey("ver")))
        else if "rel" !in e.attrib then Stream([], Some(MissingKey("rel")))
        else Primary(els[1..], a.(version := Some(e.attrib["ver"] + "-" + e.attrib["rel"])), r)
      else if e.tag == SummaryTag then Primary(els[1..], a.(summary := e.text), r)
      else if e.tag == LocationTag then
        if "href" !in e.attrib then Stream([], Some(MissingKey("href")))
        else Primary(els[1..], a.(location := Some(e.attrib["href"])), r)
      else if e.tag == PackageTag then
        if !Complete(a) then Stream([], Some(AssertionFailed(MissingFields)))
        else
          var p := Package(Identifier(r), a.name.value, a.arch.value, a.version.value,
                           a.summary.value, Url(r, [a.location.value]));
          var rest := Primary(els[1..], Empty, r);
          Stream([p] + rest.packages, rest.failure)
      else if e.tag == MetadataTag then Stream([], None)
      else Primary(els[1..], a, r)
  }

  /** `RpmMd._parse_primary_data`. */
  method ParsePrimaryData(els: seq<Element>, r: RpmMdRepository) returns (s: Stream)
    ensures s == Primary(els, Empty, r)
  {
    var name, arch, version, summary, location: Option<string> := None, None, None, None, None;
    var out: seq<Package> := [];
    var i := 0;
    while i < |els|
      invariant 0 <= i <= |els|
      invariant Primary(els, Empty, r)
                == Stream(out + Primary(els[i..], Acc(name, arch, version, summary, location), r).packages,
                          Primary(els[i..], Acc(name, arch, version, summary, location), r).failure)
    {
      var e := els[i];
      assert els[i..][1..] == els[i + 1..];
      if e.tag == NameTag {
        name := e.text;
      } else if e.tag == ArchTag {
        arch := e.text;
      } else if e.tag == VersionTag {
        if "ver" !in e.attrib {
          return Stream(out, Some(MissingKey("ver")));
        }
        if "rel" !in e.attrib {
          return Stream(out, Some(MissingKey("rel")));
        }
        version := Some(e.attrib["ver"] + "-" + e.attrib["rel"]);
      } else if e.tag == SummaryTag {
        summary := e.text;
      } else if e.tag == LocationTag {
        if "href" !in e.attrib {
          return Stream(out, Some(MissingKey("href")));
        }
        location := Some(e.attrib["href"]);
      } else if e.tag == PackageTag {
        if !(Present(name) && Present(arch) && Present(version) && Present(summary) && Present(location)) {
          return Stream(out, Some(AssertionFailed(MissingFields)));
        }
        var p := Package(Identifier(r), name.value, arch.value, version.value, summary.value,
                         Url(r, [location.value]));
        out := out + [p];
        name, arch, version, summary, location := None, None, None, None, None;
      } else if e.tag == MetadataTag {
        return Stream(out, None);
      }
      i := i + 1;
    }
    return Stream(out, None);
  }

  /** The data of one package as the primary metadata carries it. */
  datatype PackageData = PackageData(name: string, arch: string, ver: string, rel: string,
                                     summary: string, href: string)

  predicate Filled(d: PackageData)
  {
    d.name != "" && d.arch != "" && d.summary != "" && d.href != ""
  }

  /** The end events of one package element's children and of the element itself. */
  function PackageElements(d: PackageData): seq<Element>
  {
    [Element(NameTag, map[], Some(d.name)),
     Element(ArchTag, map[], Some(d.arch)),
     Element(VersionTag, map["ver" := d.ver, "rel" := d.rel], None),
     Element(SummaryTag, map[], Some(d.summary)),
     Element(LocationTag, map["href" := d.href], None),
     Element(PackageTag, map[], None)]
  }

  function ToPackage(d: PackageData, r: RpmMdRepository): Package
  {
    Package(r.source, d.name, d.arch, d.ver + "-" + d.rel, d.summary, Url(r, [d.href]))
  }

  function Document(ds: seq<PackageData>): seq<Element>
  {
    if ds == [] then [] else PackageElements(ds[0]) + Document(ds[1..])
  }

  function ToPackages(ds: seq<PackageData>, r: RpmMdRepository): (ps: seq<Package>)
    ensures |ps| == |ds|
  {
    if ds == [] then [] else [ToPackage(ds[0], r)] + ToPackages(ds[1..], r)
  }

  /** One package's elements yield that package, with version "ver-rel", and
      leave the accumulators empty for the next one. */
  lemma OnePackage(d: PackageData, rest: seq<Element>, r: RpmMdRepository)
    requires Filled(d)
    ensures Primary(PackageElements(d) + rest, Empty, r)
            == Stream([ToPackage(d, r)] + Primary(rest, Empty, r).packages, Primary(rest, Empty, r).failure)
  {
    var els := PackageElements(d) + rest;
    var a1 := Empty.(name := Some(d.name));
    var a2 := a1.(arch := Some(d.arch));
    var a3 := a2.(version := Some(d.ver + "-" + d.rel));
    var a4 := a3.(summary := Some(d.summary));
    var a5 := a4.(location := Some(d.href));
    assert els[1..] == PackageElements(d)[1..] + rest;
    assert Primary(els, Empty, r) == Primary(els[1..], a1, r);
    assert els[1..][1..] == els[2..];
    assert Primary(els[1..], a1, r) == Primary(els[2..], a2, r);
    assert els[2..][1..] == els[3..];
    assert Primary(els[2..], a2, r) == Primary(els[3..], a3, r);
    assert els[3..][1..] == els[4..];
    assert Primary(els[3..], a3, r) == Primary(els[4..], a4, r);
    assert els[4..][1..] == els[5..];
    assert Primary(els[4..], a4, r) == Primary(els[5..], a5, r);
    assert els[5..][1..] == rest;
    assert Complete(a5) by { assert d.ver + "-" + d.rel != ""; }
  }

  /** A document of complete packages ended by the metadata element yields
      those packages in document order, and nothing after the metadata end. */
  lemma {:induction false} DocumentRoundTrip(ds: seq<PackageData>, tail: seq<Element>, r: RpmMdRepository)
    requires forall i :: 0 <= i < |ds| ==> Filled(ds[i])
    ensures Primary(Document(ds) + [Element(MetadataTag, map[], None)] + tail, Empty, r)
            == Stream(ToPackages(ds, r), None)
    decreases |ds|
  {
    var meta := Element(MetadataTag, map[], None);
    if ds == [] {
      assert Document(ds) + [meta] + tail == [meta] + tail;
    } else {
      assert Filled(ds[0]);
      assert Document(ds) + [meta] + tail == PackageElements(ds[0]) + (Document(ds[1..]) + [meta] + tail);
      OnePackage(ds[0], Document(ds[1..]) + [meta] + tail, r);
      DocumentRoundTrip(ds[1..], tail, r);
    }
  }

  /** A package element whose fields were not all seen since the previous
      package (or the start) fails the assertion, so nothing carries over. */
  lemma IncompletePackageFails(a: Acc, rest: seq<Element>, r: RpmMdRepository)
    requires !Complete(a)
    ensures Primary([Element(PackageTag, map[], None)] + rest, a, r).failure == Some(AssertionFailed(MissingFields))
    ensures Primary([Element(PackageTag, map[], None)] + rest, a, r).packages == []
  {
  }

  /** Every yielded package names the repository by its source and has a
      non-empty name, architecture, version, description and location. */
  lemma {:induction false} PackagesNonEmpty(els: seq<Element>, a: Acc, r: RpmMdRepository)
    ensures forall p :: p in Primary(els, a, r).packages ==>
              p.repo == r.source && p.name != "" && p.arch != "" && p.version != "" && p.description != ""
    decreases |els|
  {
    if els != [] {
      var e := els[0];
      if e.tag == NameTag { PackagesNonEmpty(els[1..], a.(name := e.text), r); }
      else if e.tag == ArchTag { PackagesNonEmpty(els[1..], a.(arch := e.text), r); }
      else if e.tag == VersionTag {
        if "ver" in e.attrib && "rel" in e.attrib {
          PackagesNonEmpty(els[1..], a.(version := Some(e.attrib["ver"] + "-" + e.attrib["rel"])), r);
        }
      }
      else if e.tag == SummaryTag { PackagesNonEmpty(els[1..], a.(summary := e.text), r); }
      else if e.tag == LocationTag {
        if "href" in e.attrib { PackagesNonEmpty(els[1..], a.(location := Some(e.attrib["href"])), r); }
      }
      else if e.tag == PackageTag { PackagesNonEmpty(els[1..], Empty, r); }
      else if e.tag == MetadataTag { }
      else { PackagesNonEmpty(els[1..], a, r); }
    }
  }

  // ---------------------------------------------------------------------------
  // Decompression

  datatype Compression = Gzip | Zstd

  /** `_decompressor` as `fetch` uses it: XML is read as is, gzip and zstd are
      decompressed, anything else is a ValueError. */
  function Decompression(mime: string): (r: Result<Option<Compression>, ParseFailure>)
    ensures r.Ok? <==> mime in {"text/xml", "application/gzip", "application/zstd"}
    ensures r.Ok? && r.value.None? <==> mime == "text/xml"
  {
    if mime == "text/xml" then Ok(None)
    else if mime == "application/gzip" then Ok(Some(Gzip))
    else if mime == "application/zstd" then Ok(Some(Zstd))
    else Err(InvalidData)
  }
}
