# yakusoku core, modelled in Dafny

yakusoku is a Telegram group bot. This project models the logic at its core
and proves properties of that model. It covers both trees of the repository:
the current one under `src/yakusoku/` and the legacy one under `yakusoku/`.

- **Package index ("pkgs").**
  - The parsers for Debian `Packages` files (apt), Arch `desc` databases
    (alpm), Alpine `APKINDEX` (apk) and rpm-md `primary.xml` (as a stream of
    XML events).
  - The repository descriptors and the codec that turns a `Package` into a
    database entry and back.
  - Config expansion (`to_instance`) and the validator that refuses
    duplicate distribution names, current and legacy. The legacy scheme
    registry is modelled too.
  - Both `PackageManager`s: updating, name lookup and search. The current
    one rebuilds its store and looks names up through a hashed name column.
    The legacy one writes in batches with a commit every `commit_on` rows,
    and looks names up by plain equality.
- **Messages.** Both versions of `cut_message`, which splits a long text at
  the last separator that fits.
- **Shared services.**
  - The per-key mutex managers, current and legacy.
  - The state store.
  - The callback managers, current and legacy: registration, filters, query
    dispatch, cancellation, and the registration of expiry timers that
    cancelling unregisters. The timers' firing is not modelled.
  - The user and member stores.
- **Waifu.**
  - The marriage registry.
  - The per-chat property factories: candidates and their weights. The
    draw itself is any choice among the candidates.
  - The models and utilities.
- **Archive.** The archived group and user records and the group manager.
- **Small modules.**
  - The slash-command text transformations.
  - `formatted_join`.
  - The greeting table.
  - The `whois` record formatting.
  - The forbid table and its command checks.
  - The work/rest sleep log.

The code that changes state in place is modelled as classes whose methods
declare what they modify and state their whole new state. Loops in the
source are methods with loop invariants, each proved equal to a
specification function. The properties of those functions are lemmas: round
trips of the codecs, invariants the stores keep, what a parse accepts and
rejects, and what is left unchanged.

Where both trees hold the same function, one member models both. The older
`normalize_string` (yakusoku/modules/slash/process.py) differs only in its
pattern list, `SlashProcess.LegacyRules`. The general lemmas about
`SlashProcess.Normalize` take the pattern list as a parameter, so they cover
both lists, and `SlashProcess.CompleteUl` is the same in both. The older
`stringify_entries` (yakusoku/modules/whois/main.py:14-28) is identical to the
current one that `Whois.StringifyEntries` models.

## Model

| member | source | states |
|---|---|---|
| PkgsTypes.SchemaShape | src/yakusoku/modules/pkgs/types.py:17-24 | the schema lists repo, name, arch, version, description, url in that order; name is the only hashed column and no column is a float |
| PkgsTypes.ToEntry | src/yakusoku/modules/pkgs/types.py:33-41 | the entry has exactly the six schema keys, each holding the kind of value the schema declares |
| PkgsTypes.CheckTypesNone | src/yakusoku/modules/pkgs/types.py:45-53 | the type test passes exactly when every column is present with the declared kind |
| PkgsTypes.DecodeColumnsLength | src/yakusoku/modules/pkgs/types.py:55-62 | decoding yields one text per remaining column |
| PkgsTypes.DecodeColumnsAll | src/yakusoku/modules/pkgs/types.py:55-62 | when every column decodes, the decoded texts are those columns' texts in schema order |
| PkgsTypes.RoundTrip | src/yakusoku/modules/pkgs/types.py:33-62 | decoding an encoded package gives it back, whatever the hash method |
| PkgsTypes.EntryColumnsDecode | src/yakusoku/modules/pkgs/types.py:35-61 | each column of an encoded package decodes to the matching field, the name from the hashed wrapper's content |
| PkgsTypes.TypeErrorIff | src/yakusoku/modules/pkgs/types.py:45-53 | with all six keys present, TypeError is raised exactly when some column has the wrong kind of value |
| PkgsTypes.FirstTypeError | src/yakusoku/modules/pkgs/types.py:45-53 | a wrong-kind column from index i on makes the check report TypeError |
| PkgsTypes.DecodeColumnsErrors | src/yakusoku/modules/pkgs/types.py:56-61 | the only failure of decoding well-typed columns is a decode error |
| PkgsTypes.NameFromHashedContent | src/yakusoku/modules/pkgs/types.py:47-57 | a decoded package's name comes from the hashed wrapper's content |
| Utf8.EncodeChar | src/yakusoku/modules/pkgs/types.py:15-40 | a character takes one to four bytes |
| Utf8.DecodeChar | src/yakusoku/modules/pkgs/types.py:15-61 | a decoded character consumes between one byte and the whole input |
| Utf8.DecodeEncodeChar | src/yakusoku/modules/pkgs/types.py:15 | decoding the encoding of a character, whatever follows, gives the character and its byte length |
| Utf8.DecodeTwo | src/yakusoku/modules/pkgs/types.py:15 | a character from U+0080 to U+07FF round-trips through two bytes |
| Utf8.DecodeThree | src/yakusoku/modules/pkgs/types.py:15 | a character from U+0800 to U+FFFF round-trips through three bytes |
| Utf8.DecodeFour | src/yakusoku/modules/pkgs/types.py:15 | a character from U+10000 on round-trips through four bytes |
| Utf8.DecodeEncode | src/yakusoku/modules/pkgs/types.py:15-61 | decoding the encoding of a string gives it back |
| Utf8.EncodeInjective | src/yakusoku/modules/pkgs/types.py:15-40 | different strings have different encodings |
| PkgsApt.WithComponents | src/yakusoku/modules/pkgs/providers/apt.py:20-21 | one component per name, in order, each sharing the given source |
| PkgsApt.Identifier | src/yakusoku/modules/pkgs/providers/apt.py:29-31 | the identifier starts with the source stripped of trailing slashes and ends with ":" and the component |
| PkgsApt.IdentifierIgnoresTrailingSlash | src/yakusoku/modules/pkgs/providers/apt.py:29-31 | any number of trailing slashes on the source leaves the identifier unchanged |
| PkgsApt.PackagesUrlShape | src/yakusoku/modules/pkgs/providers/apt.py:36-44 | for slash-free parts the index URL is the source as a directory followed by dists/suite/component/binary-arch/Packages.xz |
| PkgsApt.PackagesPathJoined | src/yakusoku/modules/pkgs/providers/apt.py:36-44 | the posix join of the six parts is the source directory followed by the slash-joined remaining parts |
| PkgsApt.PackageUrlShape | src/yakusoku/modules/pkgs/providers/apt.py:33-34 | a relative file name is appended to the source directory; an absolute one replaces the source |
| PkgsApt.ParseFields | src/yakusoku/modules/pkgs/providers/apt.py:53-61 | succeeds exactly when Package, Architecture, Version, Description and Filename are present; the package carries the component identifier and the joined file URL; a failure names a missing field |
| PkgsApt.Step | src/yakusoku/modules/pkgs/providers/apt.py:76-84 | reading one line keeps the last key among the stored fields |
| PkgsApt.ApplyAppend | src/yakusoku/modules/pkgs/providers/apt.py:68-84 | reading two runs of lines one after the other is reading their concatenation, and a failure stops the rest |
| PkgsApt.RecordEnd | src/yakusoku/modules/pkgs/providers/apt.py:68-72 | the record stops at the first blank line or at the end of input |
| PkgsApt.ReadFields | src/yakusoku/modules/pkgs/providers/apt.py:63-89 | the loop returns exactly the record the line-by-line reading specifies, including both error outcomes |
| PkgsApt.RecordDone | src/yakusoku/modules/pkgs/providers/apt.py:71-89 | reaching the blank line or end of input decides the record: EOF without fields, otherwise the fields and the position after the blank line |
| PkgsApt.ErrorStops | src/yakusoku/modules/pkgs/providers/apt.py:77-82 | a failed assertion inside the record makes the whole record fail with that line |
| PkgsApt.ApplyKeepsKeys | src/yakusoku/modules/pkgs/providers/apt.py:78-84 | a field once read is never removed |
| PkgsApt.EofIff | src/yakusoku/modules/pkgs/providers/apt.py:68-87 | EOFError comes exactly at end of input or at a blank line at the start of a record |
| PkgsApt.RecordStopsAtBlank | src/yakusoku/modules/pkgs/providers/apt.py:71-72 | a record read up to a blank line resumes after it and holds the fields of the lines before it |
| PkgsApt.ContinuationsAppend | src/yakusoku/modules/pkgs/providers/apt.py:76-79 | lines starting with a space are appended verbatim to the last key's value |
| PkgsApt.OtherLinesKeep | src/yakusoku/modules/pkgs/providers/apt.py:76-84 | lines that are neither a key line for k nor continuations of k leave k's value alone |
| PkgsApt.FieldValue | src/yakusoku/modules/pkgs/providers/apt.py:76-84 | a field's value is the remainder after the first ':' with leading whitespace stripped, followed by its continuation lines, unless a later line repeats the key |
| PkgsApt.RecordKeys | src/yakusoku/modules/pkgs/providers/apt.py:81-84 | the keys of a record are exactly the prefixes before the first ':' of its key lines |
| PkgsApt.PackagesStep | src/yakusoku/modules/pkgs/providers/apt.py:94-97 | a readable record yields its package and the stream continues after the record |
| PkgsApt.IterPackages | src/yakusoku/modules/pkgs/providers/apt.py:91-99 | the generator loop yields exactly the specified stream of packages |
| PkgsApt.PackagesRepo | src/yakusoku/modules/pkgs/providers/apt.py:55-99 | every yielded package is tagged with the component identifier |
| PkgsApt.StopsAtEmptyRecord | src/yakusoku/modules/pkgs/providers/apt.py:86-99 | a blank line or end of input at a record's start ends the stream without error |
| PkgsAlpm.WithRepositories | src/yakusoku/modules/pkgs/providers/alpm.py:20-21 | one repository per name, in order, each sharing source and architecture |
| PkgsAlpm.Identifier | src/yakusoku/modules/pkgs/providers/alpm.py:29-31 | the identifier starts with the source stripped of trailing slashes and ends with ":" and the architecture |
| PkgsAlpm.IdentifierIgnoresTrailingSlash | src/yakusoku/modules/pkgs/providers/alpm.py:29-31 | any number of trailing slashes on the source leaves the identifier unchanged |
| PkgsAlpm.PackageUrlShape | src/yakusoku/modules/pkgs/providers/alpm.py:33-40 | for slash-free parts the package URL is the source directory followed by repo/os/arch/filename |
| PkgsAlpm.DbUrlShape | src/yakusoku/modules/pkgs/providers/alpm.py:42-43 | the database URL is the package URL of "<repo>.db.tar.gz" |
| PkgsAlpm.ParseFields | src/yakusoku/modules/pkgs/providers/alpm.py:52-60 | succeeds exactly when NAME, ARCH, VERSION, DESC and FILENAME are present; the package carries the repository identifier and the joined file URL; a failure names a missing key |
| PkgsAlpm.ApplyAppend | src/yakusoku/modules/pkgs/providers/alpm.py:67-87 | reading two runs of lines in turn is reading their concatenation, and a failure stops the rest |
| PkgsAlpm.ReadFields | src/yakusoku/modules/pkgs/providers/alpm.py:62-87 | the loop returns exactly the fields the line-by-line reading specifies, or the failed key line |
| PkgsAlpm.ErrorStops | src/yakusoku/modules/pkgs/providers/alpm.py:81-83 | a failed key assertion ends the whole read with that line |
| PkgsAlpm.FirstLineIsKey | src/yakusoku/modules/pkgs/providers/alpm.py:78-83 | a first line not both starting and ending with '%' fails the read |
| PkgsAlpm.TerminatedJoin | src/yakusoku/modules/pkgs/providers/alpm.py:74-87 | value lines accumulated with their line breaks are the lines joined by line breaks plus a final one |
| PkgsAlpm.ValueLines | src/yakusoku/modules/pkgs/providers/alpm.py:86-87 | non-blank lines after a key accumulate, line breaks included, into the open value |
| PkgsAlpm.BlockRead | src/yakusoku/modules/pkgs/providers/alpm.py:73-87 | a key line, its value lines and a blank line store the value with trailing line breaks stripped and reset key and value |
| PkgsAlpm.RenderRoundTrip | src/yakusoku/modules/pkgs/providers/alpm.py:62-87 | reading the rendering of well-formed blocks gives back exactly their fields, a repeated key keeping the last value |
| PkgsAlpm.UnclosedBlockDropped | src/yakusoku/modules/pkgs/providers/alpm.py:70-71 | at end of input a key whose value no blank line closed is dropped |
| PkgsAlpm.KeyAndValueAfter | src/yakusoku/modules/pkgs/providers/alpm.py:78-87 | after closed blocks, a key line and value lines leave that key open with the value accumulated |
| PkgsAlpm.BlankAfterKeyKept | src/yakusoku/modules/pkgs/providers/alpm.py:73-87 | a blank line right after a key becomes part of the value instead of closing it |
| PkgsAlpm.LastComponentSpec | src/yakusoku/modules/pkgs/providers/alpm.py:94 | the last path component has no '/' and is either the whole path or what follows its last '/' |
| PkgsAlpm.IterPackages | src/yakusoku/modules/pkgs/providers/alpm.py:89-104 | the loop over archive members yields exactly the specified stream |
| PkgsAlpm.OnePackagePerDesc | src/yakusoku/modules/pkgs/providers/alpm.py:93-104 | without failure one package is yielded per member named desc, each tagged with the repository identifier |
| PkgsApk.Identifier | yakusoku/modules/pkgs/providers/apk.py:22-24 | the identifier is the source string, unchanged |
| PkgsApk.UrlShapes | yakusoku/modules/pkgs/providers/apk.py:26-30 | the index URL is the source directory followed by APKINDEX.tar.gz, and a package URL is the source directory followed by "<name>-<version>.apk" |
| PkgsApk.ParseFields | yakusoku/modules/pkgs/providers/apk.py:39-47 | succeeds exactly when P, A, V and T are present, mapping them to name, architecture, version and description; the URL is built from P and V; a failure names a missing key |
| PkgsApk.ApplyAppend | yakusoku/modules/pkgs/providers/apk.py:53-62 | reading two runs of lines in turn is reading their concatenation, and a failure stops the rest |
| PkgsApk.RecordEnd | yakusoku/modules/pkgs/providers/apk.py:53-58 | the record stops at the first empty line or at the end of input |
| PkgsApk.ReadFields | yakusoku/modules/pkgs/providers/apk.py:49-67 | the loop returns exactly the record the line-by-line reading specifies, including both error outcomes |
| PkgsApk.RecordDone | yakusoku/modules/pkgs/providers/apk.py:57-67 | reaching the empty line or end of input decides the record: EOF without fields, otherwise the fields and the position after the empty line |
| PkgsApk.ErrorStops | yakusoku/modules/pkgs/providers/apk.py:60-61 | a line without ':' makes the whole record fail with that line |
| PkgsApk.EofIff | yakusoku/modules/pkgs/providers/apk.py:53-65 | EOFError comes exactly at end of input or at an empty line at the start of a record |
| PkgsApk.ApplyKeepsKeys | yakusoku/modules/pkgs/providers/apk.py:62 | a field once read is never removed |
| PkgsApk.RenderedLinesRead | yakusoku/modules/pkgs/providers/apk.py:60-62 | lines "key:value" with colon-free non-empty keys read back as those fields, the value kept verbatim and a repeated key keeping the last value |
| PkgsApk.RecordRoundTrip | yakusoku/modules/pkgs/providers/apk.py:50-67 | a rendered record followed by an empty line reads back as its fields, and reading resumes after the empty line |
| PkgsApk.FieldsOfNonEmpty | yakusoku/modules/pkgs/providers/apk.py:64-65 | a record with at least one field is not empty, so it does not raise EOFError |
| PkgsApk.IterPackages | yakusoku/modules/pkgs/providers/apk.py:69-83 | the record loop yields exactly the specified stream of packages |
| PkgsApk.StopsAtEmptyRecord | yakusoku/modules/pkgs/providers/apk.py:64-83 | an empty line or end of input at a record's start ends the stream without error |
| PkgsApk.PackagesTagged | yakusoku/modules/pkgs/providers/apk.py:39-83 | every yielded package carries the source as its repository and the URL built from its own name and version |
| PkgsRpmMd.Identifier | yakusoku/modules/pkgs/providers/rpmmd.py:24-26 | the identifier is the source string, unchanged |
| PkgsRpmMd.UrlShapes | yakusoku/modules/pkgs/providers/rpmmd.py:28-94 | the index URL is the source directory followed by repodata/repomd.xml, and a relative location is appended to the source directory |
| PkgsRpmMd.FindPrimaryDataLocation | yakusoku/modules/pkgs/providers/rpmmd.py:38-55 | the event loop returns exactly the location the event-by-event search specifies, or its error |
| PkgsRpmMd.IgnoredBeforePrimary | yakusoku/modules/pkgs/providers/rpmmd.py:44-53 | events before the start of the primary data element, location elements included, change nothing |
| PkgsRpmMd.FirstLocationAfterPrimary | yakusoku/modules/pkgs/providers/rpmmd.py:52-53 | inside the primary data element the first location element's href is the answer |
| PkgsRpmMd.LocateExample | yakusoku/modules/pkgs/providers/rpmmd.py:44-53 | the answer is the href of the first location after the start of a data element of type primary |
| PkgsRpmMd.NoPrimaryNotFound | yakusoku/modules/pkgs/providers/rpmmd.py:55 | without a primary data element the search ends with ValueError |
| PkgsRpmMd.ParsePrimaryData | yakusoku/modules/pkgs/providers/rpmmd.py:57-91 | the element loop yields exactly the specified stream of packages, or the failed assertion |
| PkgsRpmMd.ToPackages | yakusoku/modules/pkgs/providers/rpmmd.py:79-86 | one package per package element |
| PkgsRpmMd.OnePackage | yakusoku/modules/pkgs/providers/rpmmd.py:65-87 | a filled package's elements yield its package, with version "ver-rel" and the joined URL, and the accumulators start empty for the rest |
| PkgsRpmMd.DocumentRoundTrip | yakusoku/modules/pkgs/providers/rpmmd.py:62-89 | a document of filled packages followed by the metadata end yields exactly their packages, in order, and nothing after the metadata end |
| PkgsRpmMd.IncompletePackageFails | yakusoku/modules/pkgs/providers/rpmmd.py:76-78 | a package end with a missing or empty field fails the assertion and yields nothing more |
| PkgsRpmMd.PackagesNonEmpty | yakusoku/modules/pkgs/providers/rpmmd.py:76-86 | every yielded package carries the source as repository and non-empty name, architecture, version and description |
| PkgsRpmMd.Decompression | yakusoku/modules/pkgs/providers/rpmmd.py:104-127 | only text/xml, gzip and zstd are accepted, and text/xml alone is read without decompression |
| PkgsConfig.AptComponents | src/yakusoku/modules/pkgs/config.py:35-41 | one component per name for the configured architecture, followed, with with_noarch, by a copy of each with architecture "all", so len(comps) times one or two entries |
| PkgsConfig.AptRepositories | src/yakusoku/modules/pkgs/config.py:35-41 | the components become repositories one for one, in order |
| PkgsConfig.AlpmRepositories | src/yakusoku/modules/pkgs/config.py:50-52 | the repositories are kept one for one, in order |
| PkgsConfig.ApkRepositories | src/yakusoku/modules/pkgs/config.py:67-68 | one repository per URL, in order |
| PkgsConfig.ToInstance | src/yakusoku/modules/pkgs/config.py:35-68 | each kind of distribution gets its provider and one repository per configured name or URL in order, the apt ones expanded as AptComponents states |
| PkgsConfig.Names | src/yakusoku/modules/pkgs/config.py:84 | the distribution names, in order |
| PkgsConfig.FirstOccurrencesElements | src/yakusoku/modules/pkgs/config.py:84 | the counter's keys are the names, each once |
| PkgsConfig.RepeatedElements | src/yakusoku/modules/pkgs/config.py:83-85 | the names kept are those counted more than once |
| PkgsConfig.CountedTwice | src/yakusoku/modules/pkgs/config.py:84 | a count above one means two positions hold the name |
| PkgsConfig.DuplicatesSpec | src/yakusoku/modules/pkgs/config.py:83-85 | the duplicate list holds exactly the names that occur at two positions |
| PkgsConfig.NoDuplicatesIff | src/yakusoku/modules/pkgs/config.py:83-86 | the duplicate list is empty exactly when the names are distinct |
| PkgsConfig.DistrosNoDuplicate | src/yakusoku/modules/pkgs/config.py:81-87 | the list is accepted unchanged exactly when the names are distinct; otherwise the error lists exactly the repeated names |
| PkgsConfig.WithDefaults | src/yakusoku/modules/pkgs/config.py:74-87 | a valid list gets max_jobs 1, retry_after 5 s, commit_on 1000 and default_update 4 h; a duplicate name is refused |
| PkgsConfig.RpmMdRepositories | src/yakusoku/modules/pkgs/config.py:59-60 | one repository per URL, in order |
| PkgsConfigLegacy.SchemeRegistry.constructor | yakusoku/modules/pkgs/config.py:20 | the registry starts with no class registered |
| PkgsConfigLegacy.SchemeRegistry.Register | yakusoku/modules/pkgs/config.py:34-35 | defining a subclass registers it under its scheme, replacing an earlier class there, and changes nothing else |
| PkgsConfigLegacy.DefineConfigs | yakusoku/modules/pkgs/config.py:57-102 | after the four class definitions the registry maps exactly apt, alpm, rpm-md and apk to their classes |
| PkgsConfigLegacy.Construct | yakusoku/modules/pkgs/config.py:25-32 | a missing scheme is a KeyError and an unregistered one a ValueError; otherwise construction succeeds exactly when the registered class's required fields are present, and builds that class with the given name and update |
| PkgsConfigLegacy.BuiltinSchemes | yakusoku/modules/pkgs/config.py:25-35 | with the built-in classes, ValueError comes exactly for a scheme other than apt, alpm, rpm-md and apk, and each known scheme builds its own class |
| PkgsConfigLegacy.AptWithoutNoarch | yakusoku/modules/pkgs/config.py:63-72 | with_noarch defaults to false, so an apt configuration without it expands to one component per name on its architecture |
| PkgsManager.FirstMatch | src/yakusoku/modules/pkgs/manager.py:105-106 | the index of the first entry whose name equals the query value, or none exactly when no entry matches |
| PkgsManager.SearchErrors | src/yakusoku/modules/pkgs/manager.py:113-119 | search fails only on an entry that does not decode, never with NoSuchPackage |
| PkgsManager.Entries | src/yakusoku/modules/pkgs/manager.py:121-123 | one store entry per fetched package, in order, each the package's encoding |
| PkgsManager.EntriesAppend | src/yakusoku/modules/pkgs/manager.py:121-131 | encoding two runs of packages in turn is encoding their concatenation |
| PkgsManager.RebuildFetched | src/yakusoku/modules/pkgs/manager.py:125-133 | a rebuild succeeds exactly when no repository's fetch fails, and then holds every repository's packages in configured order and yielded order |
| PkgsManager.NameMatches | src/yakusoku/modules/pkgs/manager.py:103-106 | an encoded package's name field equals the hashed query exactly when the names are equal |
| PkgsManager.EntriesNames | src/yakusoku/modules/pkgs/manager.py:103-106 | among encoded packages, the entries matching the hashed query are exactly those of that name |
| PkgsManager.FirstNamed | src/yakusoku/modules/pkgs/manager.py:106 | the index of the first package of that name, or none exactly when there is none |
| PkgsManager.FirstMatchEntries | src/yakusoku/modules/pkgs/manager.py:103-106 | looking up the hashed name among the entries finds the first package of that name |
| PkgsManager.LookupFirstPackage | src/yakusoku/modules/pkgs/manager.py:102-111 | info on a rebuilt store returns the first package of that name and raises NoSuchPackage when there is none |
| PkgsManager.SearchRebuilt | src/yakusoku/modules/pkgs/manager.py:113-119 | search on a rebuilt store returns, in order, the packages whose stored name satisfies the query |
| PkgsManager.CreatedAt | src/yakusoku/modules/pkgs/manager.py:145-157 | None with nothing loaded or no created_at, TypeError exactly when created_at is not a float, otherwise its timestamp |
| PkgsManager.SnapshotWriter.constructor | src/yakusoku/modules/pkgs/manager.py:128 | a freshly created store holds no entries |
| PkgsManager.SnapshotWriter.AppendEntry | src/yakusoku/modules/pkgs/manager.py:123 | the entry is appended to the writer's entries |
| PkgsManager.PackageManager.constructor | src/yakusoku/modules/pkgs/manager.py:39-52 | a new manager is not updating and has loaded the file at its path if it is a store, nothing otherwise |
| PkgsManager.PackageManager.Close | src/yakusoku/modules/pkgs/manager.py:95-97 | the loaded store's handle is closed and nothing else changes |
| PkgsManager.PackageManager.Reload | src/yakusoku/modules/pkgs/manager.py:54-68 | afterwards the store is loaded exactly when the file exists and is a store; the handle of a previously loaded store is dropped without being closed |
| PkgsManager.PackageManager.Available | src/yakusoku/modules/pkgs/manager.py:99-100 | available exactly when a store is loaded |
| PkgsManager.PackageManager.Info | src/yakusoku/modules/pkgs/manager.py:74-111 | DatabaseIsEmpty with nothing loaded, otherwise the lookup of the hashed name in the loaded store |
| PkgsManager.PackageManager.SearchPackages | src/yakusoku/modules/pkgs/manager.py:74-119 | DatabaseIsEmpty with nothing loaded; no other failure but an entry that does not decode |
| PkgsManager.PackageManager.LastUpdated | src/yakusoku/modules/pkgs/manager.py:145-157 | the creation time of the loaded store as CreatedAt states it |
| PkgsManager.PackageManager.UpdateRepo | src/yakusoku/modules/pkgs/manager.py:121-123 | the writer gains the encodings of the packages the repository yields, in order, and the fetch's failure is passed on |
| PkgsManager.PackageManager.UpdateBuffered | src/yakusoku/modules/pkgs/manager.py:125-133 | the file is replaced by the rebuilt store only when every repository was fetched; a failure leaves the file alone |
| PkgsManager.PackageManager.Update | src/yakusoku/modules/pkgs/manager.py:135-143 | DatabaseUpdating without a change while updating; otherwise the flag is false afterwards, a failed rebuild keeps the old file and snapshot, and a successful one is loaded |
| PkgsManager.PackageManager.Clear | src/yakusoku/modules/pkgs/manager.py:159-165 | DatabaseUpdating without a change while updating; otherwise the file is removed and nothing is loaded, a missing file raising FileNotFoundError after the close |
| PkgsManager.RebuildStep | src/yakusoku/modules/pkgs/manager.py:130-131 | a rebuild stops at the first failing repository and otherwise continues after the first repository's entries |
| PkgsManager.PrependAssoc | src/yakusoku/modules/pkgs/manager.py:130-131 | entries written before two runs are the entries of both runs in turn |
| PkgsManagerLegacy.FirstFailure | yakusoku/modules/pkgs/manager.py:132-133 | no failure exactly when every repository's fetch succeeds |
| PkgsManagerLegacy.Matching | yakusoku/modules/pkgs/manager.py:91-98 | a row is returned exactly when its name satisfies the query, and no more rows than the table holds |
| PkgsManagerLegacy.SqlWriter.constructor | yakusoku/modules/pkgs/manager.py:100-104 | a fresh database has no committed row, no pending row and no commit |
| PkgsManagerLegacy.SqlWriter.Add | yakusoku/modules/pkgs/manager.py:106 | the package is added to the pending rows and nothing is committed |
| PkgsManagerLegacy.SqlWriter.Commit | yakusoku/modules/pkgs/manager.py:110-113 | the pending rows are committed in order and the commit is counted |
| PkgsManagerLegacy.SqlWriter.Rollback | yakusoku/modules/pkgs/manager.py:104-113 | leaving the session on an exception drops the pending rows and keeps the committed ones |
| PkgsManagerLegacy.DivisionOf | yakusoku/modules/pkgs/manager.py:107-111 | k full batches of c and r < c left over are n / c and n % c |
| PkgsManagerLegacy.CountStep | yakusoku/modules/pkgs/manager.py:107-111 | one more package either raises the count or completes a batch, restarting the count at zero |
| PkgsManagerLegacy.FullBatches | yakusoku/modules/pkgs/manager.py:107-111 | the committed full batches cover all but the last n % c packages |
| PkgsManagerLegacy.PackageManager.constructor | yakusoku/modules/pkgs/manager.py:35-44 | a new manager keeps its repositories and the database as found, and is not updating |
| PkgsManagerLegacy.PackageManager.Empty | yakusoku/modules/pkgs/manager.py:65-73 | empty exactly when the table does not exist or has no row |
| PkgsManagerLegacy.PackageManager.Info | yakusoku/modules/pkgs/manager.py:75-86 | DatabaseIsEmpty when empty; otherwise NoSuchPackage exactly when no row has that name, and a result is the first row with exactly that name |
| PkgsManagerLegacy.PackageManager.Search | yakusoku/modules/pkgs/manager.py:88-98 | DatabaseIsEmpty exactly when empty; otherwise a row is returned exactly when its name contains the query |
| PkgsManagerLegacy.PackageManager.LastUpdated | yakusoku/modules/pkgs/manager.py:146-152 | None exactly when empty, otherwise the file's modification time |
| PkgsManagerLegacy.PackageManager.AddInBatches | yakusoku/modules/pkgs/manager.py:102-111 | the count stays len % commit_on; every completed batch of commit_on packages is committed in order and the rest are pending |
| PkgsManagerLegacy.PackageManager.UpdateRepoEager | yakusoku/modules/pkgs/manager.py:100-113 | all packages are committed with one commit per full batch plus the final one; a failing fetch keeps only the full batches committed before it |
| PkgsManagerLegacy.PackageManager.UpdateRepoLazy | yakusoku/modules/pkgs/manager.py:115-119 | all packages are committed with a single commit; a failing fetch commits nothing |
| PkgsManagerLegacy.PackageManager.UpdateRepo | yakusoku/modules/pkgs/manager.py:121-125 | commit_on above zero selects batching, otherwise one commit after all packages |
| PkgsManagerLegacy.PackageManager.UpdateBuffered | yakusoku/modules/pkgs/manager.py:127-135 | the table becomes every repository's packages in configured order only when every fetch succeeds; a failure keeps the old database |
| PkgsManagerLegacy.PackageManager.Update | yakusoku/modules/pkgs/manager.py:137-144 | DatabaseUpdating without a change while updating; otherwise the flag is false afterwards and the table is rebuilt or kept as UpdateBuffered states |
| PkgsManagerLegacy.PackageManager.Clear | yakusoku/modules/pkgs/manager.py:154-161 | DatabaseUpdating while updating; otherwise the file is removed, a missing file raising FileNotFoundError, and the recreated database is empty |
| Message.CutStep | src/yakusoku/utils/message.py:18-33 | one pass of the loop yields the chunk up to the cut point, the pattern included or not, and continues on a strictly shorter rest |
| Message.CutMessage | src/yakusoku/utils/message.py:4-33 | the loop yields exactly the chunks, and the ValueError, that the recursive definition of the generator specifies |
| Message.ShortMessages | src/yakusoku/utils/message.py:13-16 | an empty message yields nothing, and one no longer than max_length yields exactly itself |
| Message.WithPatternKeepsText | src/yakusoku/utils/message.py:28-33 | with with_pattern the chunks put together are the message, or a prefix of it when the ValueError ends the generator |
| Message.PatternCut | src/yakusoku/utils/message.py:19-33 | when the pattern lies wholly in the first max_length characters, the chunk ends with its last such occurrence and is at most max_length long; without with_pattern the pattern is dropped from the output |
| Message.ForceCut | src/yakusoku/utils/message.py:23-33 | a force cut yields max_length plus len(pattern) characters with with_pattern, which can exceed max_length; without it, the first max_length characters, the len(pattern) characters after them being dropped |
| Message.NoForceCutRaises | src/yakusoku/utils/message.py:23-25 | with force_cut false and no pattern in the window the ValueError ends the generator before it yields anything |
| Message.EmptyPatternFixedChunks | src/yakusoku/utils/message.py:17-33 | an empty pattern with a positive max_length gives chunks of exactly max_length, the last one shorter or equal and non-empty |
| MessageLegacy.CutAfterStep | yakusoku/utils/message.py:12-24 | one pass of the loop yields the message up to one past the cut point and continues on the rest |
| MessageLegacy.ShortMessages | yakusoku/utils/message.py:7-10 | an empty message yields nothing, and one no longer than max_length yields exactly itself |
| MessageLegacy.CutMessage | yakusoku/utils/message.py:4-24 | the loop yields exactly the chunks, and the ValueError, that the recursive definition of the generator specifies |
| MessageLegacy.ChunksKeepText | yakusoku/utils/message.py:22-24 | the chunks put together are the message, or a prefix of it when the ValueError ends the generator |
| MessageLegacy.KeepsTextStep | yakusoku/utils/message.py:23-24 | a chunk followed by chunks that keep the rest's text keeps the message's text |
| MessageLegacy.ChunkSizes | yakusoku/utils/message.py:7-24 | every chunk is non-empty and at most max_length + 1 long, so every pass consumes a character |
| MessageLegacy.WrapCut | yakusoku/utils/message.py:13-23 | when wrap_after occurs in the first max_length characters, the chunk ends one past its last occurrence there and is at most max_length long; of a longer wrap_after only the first character stays in the chunk |
| MessageLegacy.ForceCutLength | yakusoku/utils/message.py:15-23 | a force cut, or an empty wrap_after, yields max_length + 1 characters |
| MessageLegacy.NoForceCutRaises | yakusoku/utils/message.py:17-19 | with force_cut false and no match the ValueError ends the generator before it yields anything |
| SharedMutex.DistinctCard | yakusoku/shared/mutex.py:31-32 | a tuple has at least as many entries as distinct keys, and as many exactly when no key repeats |
| SharedMutex.HeldCount | yakusoku/shared/mutex.py:31-32 | the held keys among the arguments number len(keys) exactly when every argument is held and none repeats |
| SharedMutex.OthersUntouched | yakusoku/shared/mutex.py:22-38 | keys outside the arguments keep their state through lock_all and unlock_all |
| SharedMutex.LockAllThenUnlockAll | yakusoku/shared/mutex.py:22-35 | a successful lock_all of distinct keys followed by unlock_all of the same keys succeeds and restores the held set |
| SharedMutex.GroupOutcomes | yakusoku/shared/mutex.py:22-35 | lock_all succeeds exactly when no argument is held, and then all are held; after a successful unlock_all none is held |
| SharedMutex.MutexManager.constructor | yakusoku/shared/mutex.py:7-8 | a new manager holds no key |
| SharedMutex.MutexManager.Lock | yakusoku/shared/mutex.py:10-13 | true exactly when the key was not held; afterwards it is held and nothing else changes |
| SharedMutex.MutexManager.Unlock | yakusoku/shared/mutex.py:15-20 | true exactly when the key was held; afterwards it is not held and nothing else changes |
| SharedMutex.MutexManager.LockAll | yakusoku/shared/mutex.py:22-26 | false with no change when any key is held; otherwise all keys are added and the answer is true |
| SharedMutex.MutexManager.LockAllUnchecked | yakusoku/shared/mutex.py:28-29 | all keys are added |
| SharedMutex.MutexManager.UnlockAll | yakusoku/shared/mutex.py:31-35 | false with no change unless every key is held and none repeats; otherwise all are removed and the answer is true |
| SharedMutex.MutexManager.UnlockAllUnchecked | yakusoku/shared/mutex.py:37-38 | all keys are removed |
| SharedState.LockAllAgreesWhenDistinct | yakusoku/shared/state.py:22-32 | on distinct keys the key-by-key lock_all answers and ends like the one of yakusoku/shared/mutex.py |
| SharedState.RepeatedKeyRefused | yakusoku/shared/state.py:22-32 | a repeated key makes the key-by-key lock_all fail with no change, where the set-based one succeeds |
| SharedState.Restore | yakusoku/shared/state.py:30-44 | rolling back the keys done restores the held set |
| SharedState.ElemsDisjoint | yakusoku/shared/state.py:24-27 | when no key is held, none of them is among the held keys |
| SharedState.MutexManager.constructor | yakusoku/shared/state.py:7-8 | a new manager holds no key |
| SharedState.MutexManager.Lock | yakusoku/shared/state.py:10-13 | true exactly when the key was not held; afterwards it is held |
| SharedState.MutexManager.Unlock | yakusoku/shared/state.py:15-20 | true exactly when the key was held; afterwards it is not held |
| SharedState.MutexManager.UnlockEach | yakusoku/shared/state.py:30-31 | the rollback loop removes exactly the keys locked so far |
| SharedState.MutexManager.LockEach | yakusoku/shared/state.py:42-43 | the rollback loop adds back exactly the keys unlocked so far |
| SharedState.MutexManager.LockAll | yakusoku/shared/state.py:22-32 | true and all keys held exactly when no key was held and none repeats; otherwise false with the held set restored |
| SharedState.MutexManager.UnlockAll | yakusoku/shared/state.py:34-44 | true and all keys released exactly when every key was held and none repeats; otherwise false with the held set restored |
| SharedCallback.UnpackPack | src/yakusoku/shared/callback.py:85-94 | the callback data packed for a uuid unpacks to that uuid under the same prefix |
| SharedCallback.Dispose | src/yakusoku/shared/callback.py:68-72 | disposing runs at most one callback and never revives a timer; an expiring task's timer is gone afterwards, and when it was already gone the raise of remove is suppressed and nothing runs |
| SharedCallback.DisposeAll | src/yakusoku/shared/callback.py:98-105 | disposing a chain only unregisters timers, and no expiring task of the chain keeps its timer |
| SharedCallback.CancelTwiceDisposesOnce | src/yakusoku/shared/callback.py:68-105 | cancelling an expiring task with a live timer runs its disposed callback and unregisters the timer; cancelling it again runs nothing and changes no timer |
| SharedCallback.DisposeAllGone | src/yakusoku/shared/callback.py:68-72 | a chain whose expiring tasks have all lost their timers is disposed without changing the live timers |
| SharedCallback.CancelButtonDisposesOnce | src/yakusoku/shared/callback.py:98-136 | after a cancel button's original chain is cancelled, the cancellation task's second disposal runs nothing and its own chain changes no timer |
| SharedCallback.Chain | src/yakusoku/shared/callback.py:98-105 | the tasks cancel_task reaches start with the task itself, and stop there when it has no cancellation task |
| SharedCallback.IdsCons | src/yakusoku/shared/callback.py:98-105 | the uuids of a task followed by a chain are its own and those of the chain |
| SharedCallback.ChainStep | src/yakusoku/shared/callback.py:98-105 | cancelling a task removes it and then reaches exactly its cancellation task's chain |
| SharedCallback.DisposeSingle | src/yakusoku/shared/callback.py:98-103 | cancelling a task without a cancellation task disposes it alone |
| SharedCallback.ChainIncreasing | src/yakusoku/shared/callback.py:104-126 | each cancellation task is younger than the task it cancels, so the recursion in cancel_task ends |
| SharedCallback.ChainReachesCancellation | src/yakusoku/shared/callback.py:104-105 | cancelling a task also reaches its cancellation task |
| SharedCallback.CancelThenChain | src/yakusoku/shared/callback.py:98-105 | removing and disposing a task and then cancelling its cancellation task's chain cancels its whole chain, disposers run in chain order with the timers threaded through |
| SharedCallback.RemovalKeepsTasksValid | src/yakusoku/shared/callback.py:99-100 | deleting tasks keeps every task under its own uuid |
| SharedCallback.CallbackQueryTaskManager.constructor | src/yakusoku/shared/callback.py:41-55 | a new manager has no task, no cancellation task and no live timer, and keeps its prefix and error answer |
| SharedCallback.CallbackQueryTaskManager.NewTask | src/yakusoku/shared/callback.py:57-96 | a task under a fresh uuid is stored with its callback data; a non-zero expiry gives it an expiry time, a registered timer and the expiring disposer, otherwise only the given disposer |
| SharedCallback.CallbackQueryTaskManager.CreateTask | src/yakusoku/shared/callback.py:57-96 | the new task is stored under a uuid not in use, its callback data unpacks to that uuid, a timer is registered exactly when it expires, and nothing else changes |
| SharedCallback.CallbackQueryTaskManager.CancelTask | src/yakusoku/shared/callback.py:98-105 | exactly the tasks of the chain are removed, their disposers run in chain order, and the live timers are those left by disposing the chain |
| SharedCallback.CallbackQueryTaskManager.CreateCancellationTask | src/yakusoku/shared/callback.py:107-127 | the assertion fails, changing nothing, for a task that already has one; otherwise a disposable cancellation task inheriting the original's expiry is stored, registered, and given a timer when it expires |
| SharedCallback.CallbackQueryTaskManager.RunCancel | src/yakusoku/shared/callback.py:115-119 | the cancel callback cancels the original's chain, then runs the post callback, then answers |
| SharedCallback.CallbackQueryTaskManager.Dispatch | src/yakusoku/shared/callback.py:129-136 | an unknown uuid gets the error answer; a user callback runs and a disposable task whose callback did not return False is cancelled with its chain; a cancel button cancels the original's chain, posts and answers, and then its own chain from the timers that left |
| SharedCallback.CancellationRemovesBoth | src/yakusoku/shared/callback.py:98-116 | pressing a cancel button removes both the original task and the cancellation task |
| SharedCallbackLegacy.UnifyFilter | yakusoku/shared/callback.py:35-42 | a filter given with an answer keeps that answer; a bare filter gets the fallback answer |
| SharedCallbackLegacy.UnifyFilters | yakusoku/shared/callback.py:35-90 | every filter keeps its place and gets its own answer, or the fallback answer when it had none |
| SharedCallbackLegacy.UnifyRewrap | yakusoku/shared/callback.py:35-42 | filters that already carry an answer come back unchanged, whatever the fallback |
| SharedCallbackLegacy.RemovePrefix | yakusoku/shared/callback.py:162 | removeprefix drops the prefix when the data starts with it and returns the data unchanged otherwise |
| SharedCallbackLegacy.QueryUuidOfCallbackData | yakusoku/shared/callback.py:56-163 | the callback data of a task leads the handler back to that task's uuid |
| SharedCallbackLegacy.FirstFailing | yakusoku/shared/callback.py:165-167 | none is found exactly when every filter passes; otherwise the found filter fails and every earlier one passes |
| SharedCallbackLegacy.CheckFilters | yakusoku/shared/callback.py:165-167 | the filter loop answers with the answer of the first failing filter, and lets the query through when all pass |
| SharedCallbackLegacy.Dispose | yakusoku/shared/callback.py:94-98 | an expiring task's wrapper runs the given callback first, then unregisters its timer and raises exactly when the timer was already gone; other disposers never raise nor touch a timer |
| SharedCallbackLegacy.CancelAll | yakusoku/shared/callback.py:127-133 | the chain is cancelled up to the first disposer that raises, which is an expiring task whose timer was gone; without a raise every task is reached; no reached expiring task keeps its timer |
| SharedCallbackLegacy.CancelThenChain | yakusoku/shared/callback.py:127-133 | removing and disposing a task without a raise and then cancelling its cancellation task's chain cancels its whole chain up to the same raise, disposers in chain order |
| SharedCallbackLegacy.RemovalKeepsTasksValid | yakusoku/shared/callback.py:128-129 | deleting tasks keeps every task under its own uuid |
| SharedCallbackLegacy.Chain | yakusoku/shared/callback.py:127-133 | the tasks cancel_task reaches start with the task itself, and stop there when it has no cancellation task |
| SharedCallbackLegacy.IdsCons | yakusoku/shared/callback.py:127-133 | the uuids of a task followed by a chain are its own and those of the chain |
| SharedCallbackLegacy.ChainStep | yakusoku/shared/callback.py:127-133 | cancelling a task reaches exactly its cancellation task's chain after it, or only the task itself when it has none |
| SharedCallbackLegacy.CancelSingle | yakusoku/shared/callback.py:127-133 | cancelling a lone task whose disposer does not raise reaches it and runs its disposer |
| SharedCallbackLegacy.CancelLiveChain | yakusoku/shared/callback.py:94-133 | a chain whose expiring tasks have distinct live timers is cancelled without a raise |
| SharedCallbackLegacy.CancelTwiceRaises | yakusoku/shared/callback.py:94-133 | cancelling an expiring task with a live timer does not raise; cancelling it again runs its disposed callback again and then raises ValueError |
| SharedCallbackLegacy.CancelButtonRaises | yakusoku/shared/callback.py:127-170 | when a cancel button expires, cancelling the original's chain unregisters the button's timer, so either that chain raises or cancelling the button itself afterwards does |
| SharedCallbackLegacy.CallbackQueryTaskManager.constructor | yakusoku/shared/callback.py:68-78 | a new manager has no task, no cancellation task and no live timer, and keeps its prefix and error answer |
| SharedCallbackLegacy.CallbackQueryTaskManager.NewTask | yakusoku/shared/callback.py:80-125 | a task under a fresh uuid is stored with its unified filters; a non-zero expiry gives it an expiry time, a registered timer and the expiring disposer, otherwise only the given disposer |
| SharedCallbackLegacy.CallbackQueryTaskManager.CreateTask | yakusoku/shared/callback.py:80-125 | the new task is stored under a uuid not in use, its callback data leads back to it, a timer is registered exactly when it expires, and nothing else changes |
| SharedCallbackLegacy.CallbackQueryTaskManager.CancelTask | yakusoku/shared/callback.py:127-133 | the chain is removed and disposed in order up to the first raise, which the call reports as TimerGone; the live timers are those left at that point |
| SharedCallbackLegacy.CallbackQueryTaskManager.CreateCancellationTask | yakusoku/shared/callback.py:135-159 | the assertion fails, changing nothing, for a task that already has one; otherwise a disposable cancellation task with the original's filters (or its own) and remaining expiry is stored, registered, and given a timer when it expires |
| SharedCallbackLegacy.CallbackQueryTaskManager.RunCancel | yakusoku/shared/callback.py:145-149 | the cancel callback cancels the original's chain, then runs the post callback, then answers; a raise while cancelling skips both and is passed on |
| SharedCallbackLegacy.CallbackQueryTaskManager.RunTask | yakusoku/shared/callback.py:168-170 | a user callback runs and a disposable task is then cancelled whatever it returned; pressing an expiring cancel button always ends in TimerGone |
| SharedCallbackLegacy.CallbackQueryTaskManager.RunCancellation | yakusoku/shared/callback.py:145-170 | a cancel button cancels the original's chain and stops at a raise; otherwise it posts and answers and, when disposable, cancels its own chain from the timers left; pressing an expiring one always ends in TimerGone |
| SharedCallbackLegacy.CallbackQueryTaskManager.Dispatch | yakusoku/shared/callback.py:161-170 | an unparsable uuid is InvalidUuid and changes nothing; an unknown one gets the error answer; the first failing filter's answer stops the query; otherwise the task runs, its raise passed on, and an expiring cancel button always ends in TimerGone |
| SharedUsers.UserStore.constructor | yakusoku/shared/users.py:7-8 | the store opens on the tables already saved in the database |
| SharedUsers.UserStore.GetMembers | yakusoku/shared/users.py:11-12 | an unknown chat has no members; a known chat has its stored set |
| SharedUsers.UserStore.DeleteMembers | yakusoku/shared/users.py:15-17 | the chat's entry is gone (nothing happens when there was none) and the user table is untouched |
| SharedUsers.UserStore.GetUser | yakusoku/shared/users.py:20-21 | a username is found exactly when it is stored, with its stored id |
| SharedUsers.UserStore.UpdateUser | yakusoku/shared/users.py:24-25 | the username now maps to the user and nothing else changes |
| SharedUsers.UserStore.AddMember | yakusoku/shared/users.py:32-35 | the chat's members gain the member, starting from none for an unknown chat, and nothing else changes |
| SharedUsers.UserStore.RemoveMember | yakusoku/shared/users.py:38-42 | the member leaves the chat's set; an unknown chat or a non-member leaves the table unchanged |
| BotMembers.MemberStore.constructor | yakusoku/bot/shared/members.py:5-6 | the store opens on the table already saved in the database |
| BotMembers.MemberStore.GetMembers | yakusoku/bot/shared/members.py:9-10 | an unknown chat has no members; a known chat has its stored set |
| BotMembers.MemberStore.ClearMembers | yakusoku/bot/shared/members.py:13-14 | the chat is stored with an empty set of members and nothing else changes |
| BotMembers.MemberStore.AddMember | yakusoku/bot/shared/members.py:21-25 | the chat's members gain the member, starting from none for an unknown or empty chat |
| BotMembers.MemberStore.RemoveMember | yakusoku/bot/shared/members.py:28-32 | the member leaves the chat's set; an unknown chat or a non-member leaves the table unchanged |
| WaifuRegistry.Registry.constructor | yakusoku/modules/waifu/registry.py:25-28 | a new registry has no pending proposal and no pending divorce request, over the factory's marriages and draws |
| WaifuRegistry.Registry.Partner | yakusoku/modules/waifu/registry.py:31-42 | a member has a partner exactly when the factory stores one; in a consistent registry the partner is non-zero and married back to the member |
| WaifuRegistry.Registry.Marry | yakusoku/modules/waifu/registry.py:30-38 | marrying someone already married fails and changes nothing; otherwise both are married to each other, then the first's draw is removed and then the second's; a missing draw raises KeyError there, so a missing first draw leaves the second's draw in place |
| WaifuRegistry.Registry.Divorce | yakusoku/modules/waifu/registry.py:40-45 | divorce succeeds exactly for a married member, and then both partners lose their marriage |
| WaifuRegistry.Registry.Propose | yakusoku/modules/waifu/registry.py:47-63 | self-proposal, an existing marriage, a pending proposal, or a target proposing to someone else each fail with their own error and change nothing; a first proposal is queued; a matching counter-proposal is consumed and marries the two as `marry` does, draws and KeyError included |
| WaifuRegistry.Registry.RequestDivorce | yakusoku/modules/waifu/registry.py:65-76 | only a married member may ask, and only once; a pending request by the partner is consumed and divorces the pair; otherwise the request is queued |
| WaifuRegistry.Registry.GetProposal | yakusoku/modules/waifu/registry.py:78-79 | the pending proposal's target is returned, and a KeyError when there is none |
| WaifuRegistry.Registry.RevokeProposal | yakusoku/modules/waifu/registry.py:81-82 | the pending proposal is removed, and a KeyError when there was none |
| WaifuRegistry.Registry.RevokeDivorceRequest | yakusoku/modules/waifu/registry.py:84-90 | only a married member may revoke; the member's own request, or else the partner's, is removed, and a ValueError when neither is pending |
| WaifuRegistry.MarryKeepsValid | yakusoku/modules/waifu/registry.py:35-36 | marrying two unmarried non-zero members keeps every marriage mutual |
| WaifuRegistry.DivorceKeepsValid | yakusoku/modules/waifu/registry.py:44-45 | clearing both sides of a marriage keeps every marriage mutual |
| WaifuFactory.NewLocalProperty | yakusoku/modules/waifu/factory.py:43-65 | a local property is built exactly when its rarity lies between 1 and 10, and a ValueError otherwise |
| WaifuFactory.Replace | yakusoku/modules/waifu/factory.py:138 | a successful replace takes every given field from the changes and keeps every other field |
| WaifuFactory.ReplaceNothing | yakusoku/modules/waifu/factory.py:138 | replacing nothing in a valid property gives it back unchanged |
| WaifuFactory.WeightRange | yakusoku/modules/waifu/factory.py:60-65 | the weight of a valid rarity lies between 0 and 0.9, and is 0 exactly at the top rarity |
| WaifuFactory.CandidateWeightPositive | yakusoku/modules/waifu/factory.py:112-122 | every member that can be drawn has a positive weight, so the weighted draw never fails on all-zero weights |
| WaifuFactory.WaifuFactory.constructor | yakusoku/modules/waifu/factory.py:93-104 | a new factory reads draws and local properties from the stored per-chat tables, loaded on first use, and global properties from the stored table; it is valid exactly when every stored local property has a valid rarity |
| WaifuFactory.WaifuFactory.GetLocalProperty | yakusoku/modules/waifu/factory.py:132-134 | a member without a record gets the default property; every stored property has a valid rarity |
| WaifuFactory.WaifuFactory.UpdateLocalProperty | yakusoku/modules/waifu/factory.py:136-139 | the replaced property is stored when its rarity is valid; a bad rarity raises and stores nothing; nothing else changes |
| WaifuFactory.WaifuFactory.GetGlobalProperty | yakusoku/modules/waifu/factory.py:141-143 | a user without a record gets the default global property |
| WaifuFactory.WaifuFactory.UpdateGlobalProperty | yakusoku/modules/waifu/factory.py:145-147 | the user's global property is stored with the given field replaced, and nothing else changes |
| WaifuFactory.WaifuFactory.Candidates | yakusoku/modules/waifu/factory.py:112-122 | the candidates are exactly the chat members other than the member who are below the top rarity and unmarried |
| WaifuFactory.WaifuFactory.FetchWaifu | yakusoku/modules/waifu/factory.py:149-173 | a married member gets the partner; a draw from today of a still choosable waifu is kept; otherwise a new candidate is drawn and stored with the time, or MemberNotEfficientError when there is none |
| WaifuFactory.WaifuFactory.RemoveWaifu | yakusoku/modules/waifu/factory.py:175-177 | the member's draw is deleted, and a KeyError when there was none |
| WaifuFactory.WaifuFactory.RemoveChat | yakusoku/modules/waifu/factory.py:179-181 | the chat's draws and local properties are cleared, and nothing else changes |
| WaifuModels.PartnerOf | yakusoku/modules/waifu/models.py:19-21 | the assertion fails exactly for a restricted record without a (truthy) partner; a restricted record yields its partner and an unrestricted one none |
| WaifuModels.ValidateRarity | yakusoku/modules/waifu/models.py:30-33 | a rarity passes the validator exactly when it lies between 1 and 10, and is returned unchanged |
| WaifuModels.WaifuData.constructor | yakusoku/modules/waifu/models.py:11-17 | a fresh record has no partner, no draw time, no restriction and rarity 5 |
| WaifuModels.WaifuData.SetPartner | yakusoku/modules/waifu/models.py:23-25 | the record is restricted exactly when a partner is given, and reading the partner back gives it (partner 0 trips the assertion) |
| WaifuModels.WaifuData.GetWeight | yakusoku/modules/waifu/models.py:27-28 | a valid rarity has a weight between 0 and 9, and the weight is 0 exactly at the top rarity |
| WaifuModels.SetThenGet | yakusoku/modules/waifu/models.py:19-25 | setting a partner and reading it back gives that partner, except that partner 0 trips the assertion |
| WaifuModels.ValidRarityWeight | yakusoku/modules/waifu/models.py:27-33 | the rarities that pass the validator are exactly those whose weight lies between 0 and 9 |
| WaifuUtils.LocalOrGlobal | yakusoku/modules/waifu/utils.py:8-16 | a setting made in the chat wins, and the global setting applies only when the chat has none |
| WaifuUtils.Mentionable | yakusoku/modules/waifu/utils.py:8-16 | mentionability is always decided: the chat's own setting when there is one, else the user's global setting |
| WaifuUtils.LocalFalseOverrides | yakusoku/modules/waifu/utils.py:16 | a chat setting of False wins over a global True, although it is falsy |
| WaifuUtils.DefaultNotMentionable | yakusoku/modules/waifu/utils.py:8-16 | a user with no record anywhere is not mentionable |
| BotWaifuFactory.DatabaseRoundTrip | yakusoku/bot/modules/waifu/factory.py:20-25 | a draw record and its database tuple convert into each other without loss |
| BotWaifuFactory.WaifuFactory.constructor | yakusoku/bot/modules/waifu/factory.py:32-39 | a new factory reads the draws from the stored per-chat tables, loaded on first use, and the forbidden sets from the stored table |
| BotWaifuFactory.WaifuFactory.GetForbidden | yakusoku/bot/modules/waifu/factory.py:66-67 | an unknown chat has no forbidden members |
| BotWaifuFactory.WaifuFactory.Allowed | yakusoku/bot/modules/waifu/factory.py:45-47 | the allowed members are exactly the chat's members that are not forbidden |
| BotWaifuFactory.WaifuFactory.ForbidWaifu | yakusoku/bot/modules/waifu/factory.py:55-58 | the member joins the chat's forbidden set and the draws are untouched |
| BotWaifuFactory.WaifuFactory.AllowWaifu | yakusoku/bot/modules/waifu/factory.py:60-64 | the member leaves the chat's forbidden set; an unknown chat or a member not forbidden leaves it unchanged |
| BotWaifuFactory.WaifuFactory.FetchWaifu | yakusoku/bot/modules/waifu/factory.py:69-80 | a draw from today is returned as not new; otherwise an allowed member is drawn and stored with the time, or IndexError when none is allowed |
| BotWaifuFactory.WaifuFactory.RemoveChat | yakusoku/bot/modules/waifu/factory.py:82-85 | the chat's draws are cleared and its forbidden set is deleted |
| SharedUser.DatabaseRoundTrip | yakusoku/shared/user.py:35-40 | a user's info and its stored tuple convert into each other without loss |
| SharedUser.InfoFromUser | yakusoku/shared/user.py:71-78 | the name becomes the user's full name, the avatar is kept, and the usernames only grow, by the user's username when it has one |
| SharedUser.UsernamesKept | yakusoku/shared/user.py:71-78 | updating from a user never loses a known username and always records the user's own |
| SharedUser.InfoFromChat | yakusoku/shared/user.py:94-111 | the name becomes the chat's full name, the usernames become exactly its active usernames, and the avatar is forced to refresh exactly when the photo changed or none was known |
| SharedUser.PointAll | yakusoku/shared/user.py:113-114 | every active username now points to the chat, and every other username keeps its user |
| SharedUser.PointAllTwice | yakusoku/shared/user.py:113-114 | pointing the same usernames at the same chat twice changes nothing more |
| SharedUser.UserFactory.constructor | yakusoku/shared/user.py:49-53 | the factory opens on the member, username and info tables saved in the database |
| SharedUser.UserFactory.GetMembers | yakusoku/shared/user.py:55-56 | an unknown chat has no members |
| SharedUser.UserFactory.ClearMembers | yakusoku/shared/user.py:58-60 | the chat's member entry is deleted and nothing else changes |
| SharedUser.UserFactory.GetUser | yakusoku/shared/user.py:62-65 | an empty username raises ValueError; otherwise the user is found exactly when the username is stored |
| SharedUser.UserFactory.GetUserInfo | yakusoku/shared/user.py:67-69 | an unknown user has empty info; a known user's info is the stored tuple read back |
| SharedUser.UserFactory.UpdateUser | yakusoku/shared/user.py:80-85 | the user's info is updated from the user, and its username (when it has one) now leads to the user |
| SharedUser.UserFactory.UpdateChat | yakusoku/shared/user.py:101-114 | a chat that is not private changes nothing; a private chat's info is updated from the chat and all its active usernames lead to it |
| SharedUser.UserFactory.AddMember | yakusoku/shared/user.py:180-183 | the chat's members gain the member, starting from none for an unknown chat, and nothing else changes |
| SharedUser.UserFactory.RemoveMember | yakusoku/shared/user.py:185-189 | the member leaves the chat's set; an unknown chat or a non-member leaves the table unchanged |
| SharedUser.UserFactory.RemoveUser | yakusoku/shared/user.py:191-199 | the user's info is deleted, every username leading to the user is dropped and the others kept, and the user leaves every chat's members |
| ArchiveModels.MergeUsername | yakusoku/archive/models.py:57-61 | without a username the list is emptied; with one, the old usernames are kept, the new one is present, at most one is added, and a list without repeats stays without repeats |
| ArchiveModels.UsernamesOf | yakusoku/archive/models.py:51 | a user's list holds exactly its username when it has one, and is empty otherwise |
| ArchiveModels.FromUserThenUpdate | yakusoku/archive/models.py:47-61 | updating a record from the same user it was built from leaves its usernames as they were |
| ArchiveModels.MergeIdempotent | yakusoku/archive/models.py:55-61 | updating twice from the same username gives the same list as updating once |
| ArchiveModels.GroupData.constructor | yakusoku/archive/models.py:5-9 | a group record holds the given id, name, username and members |
| ArchiveModels.GroupData.FromChat | yakusoku/archive/models.py:11-18 | only a group or supergroup makes a record, with the chat's id, name and username and no members; any other chat fails the assertion |
| ArchiveModels.GroupData.UpdateFromChat | yakusoku/archive/models.py:20-24 | a group chat sets the id, name and username and keeps the members; any other chat fails the assertion and changes nothing |
| ArchiveModels.UserData.constructor | yakusoku/archive/models.py:27-31 | a user record holds the given id, name, usernames and bot flag |
| ArchiveModels.UserData.FromChat | yakusoku/archive/models.py:33-39 | only a private chat makes a record, with the chat's id and active usernames, no name and no bot flag; any other chat fails the assertion |
| ArchiveModels.UserData.UpdateFromChat | yakusoku/archive/models.py:41-44 | a private chat sets the id and the active usernames and keeps the rest; any other chat fails the assertion and changes nothing |
| ArchiveModels.UserData.FromUser | yakusoku/archive/models.py:46-53 | a record built from a user has its id, full name, bot flag, and its username as the only username when it has one |
| ArchiveModels.UserData.UpdateFromUser | yakusoku/archive/models.py:55-62 | the id and bot flag come from the user, the name is kept, and the usernames are merged with the user's |
| ArchiveGroup.WithMember | yakusoku/archive/group.py:49-53 | the member is present afterwards; a present member leaves the list unchanged and a new one is appended at the end |
| ArchiveGroup.WithoutMember | yakusoku/archive/group.py:58-62 | an absent member leaves the list unchanged; a present one is removed once and nothing else |
| ArchiveGroup.AddKeepsDistinct | yakusoku/archive/group.py:49-53 | adding a member keeps the member list free of repeats |
| ArchiveGroup.RemoveKeepsDistinct | yakusoku/archive/group.py:58-62 | in a list without repeats, removing a member removes it entirely and keeps the list free of repeats |
| ArchiveGroup.AddThenRemove | yakusoku/archive/group.py:47-63 | adding a new member and removing it again gives back the original list |
| ArchiveGroup.GroupManager.constructor | yakusoku/archive/group.py:10-11 | the manager works on the stored group rows |
| ArchiveGroup.GroupManager.GetGroup | yakusoku/archive/group.py:28-32 | a stored group is found exactly when its id is stored, and NoResultFound otherwise |
| ArchiveGroup.GroupManager.UpdateGroupFromChat | yakusoku/archive/group.py:13-20 | a group chat is stored with its id, name and username, keeping the stored members or starting with none; any other chat stores nothing |
| ArchiveGroup.GroupManager.AddMember | yakusoku/archive/group.py:47-54 | an unknown group raises NoResultFound and changes nothing; otherwise its members gain the member |
| ArchiveGroup.GroupManager.RemoveMember | yakusoku/archive/group.py:56-63 | an unknown group raises NoResultFound and changes nothing; otherwise the member leaves its members |
| SlashProcess.Sub | src/yakusoku/modules/slash/process.py:14 | one substitution pass keeps the first character and at most doubles the length |
| SlashProcess.SubSpaced | src/yakusoku/modules/slash/process.py:14 | a pass only inserts spaces: removing the inserted ones gives back the input |
| SlashProcess.SubNoPair | src/yakusoku/modules/slash/process.py:14 | after a pass no two neighbouring characters match its pattern any more |
| SlashProcess.SubKeepsNoPair | src/yakusoku/modules/slash/process.py:13-14 | a pass never creates a pair for another pattern, because a space is in none of the classes |
| SlashProcess.SubIdentity | src/yakusoku/modules/slash/process.py:14 | a pass over text with no matching pair changes nothing |
| SlashProcess.NormalizeString | src/yakusoku/modules/slash/process.py:12-15 | the loop applies the passes one after the other, in the order of the pattern list |
| SlashProcess.NormalizeSpaced | src/yakusoku/modules/slash/process.py:12-15 | normalising only inserts spaces into the text |
| SlashProcess.NormalizeKeepsNoPair | src/yakusoku/modules/slash/process.py:12-15 | normalising never creates a pair for a pattern the text had none of |
| SlashProcess.NormalizeNoPair | src/yakusoku/modules/slash/process.py:12-15 | after normalising no two neighbouring characters match any of the patterns |
| SlashProcess.NormalizeIdentity | src/yakusoku/modules/slash/process.py:12-15 | text with no matching pair for any pattern is left unchanged |
| SlashProcess.NormalizeIdempotent | src/yakusoku/modules/slash/process.py:12-15 | normalising twice gives the same text as normalising once |
| SlashProcess.NormalizeOnePair | src/yakusoku/modules/slash/process.py:12-15 | text with exactly one pair, for one pattern, gets exactly one space, after the pair's first character |
| SlashProcess.QuirkAdmitsPunctuation | src/yakusoku/modules/slash/process.py:4-5 | the range A-z in the first two patterns also admits the six ASCII punctuation characters between Z and a |
| SlashProcess.CurrentLatinThenHanExample | src/yakusoku/modules/slash/process.py:4 | foo先生 becomes foo 先生 |
| SlashProcess.CurrentHanThenLatinExample | src/yakusoku/modules/slash/process.py:5 | 你好foo becomes 你好 foo |
| SlashProcess.CurrentCommaExample | src/yakusoku/modules/slash/process.py:6 | foo,bar becomes foo, bar |
| SlashProcess.CurrentHanThenDigitsExample | src/yakusoku/modules/slash/process.py:5-7 | 正在0721 becomes 正在 0721 |
| SlashProcess.CurrentDigitsThenHanExample | src/yakusoku/modules/slash/process.py:4-8 | 0721对身体好 becomes 0721 对身体好 |
| SlashProcess.LegacyLatinThenHanExample | yakusoku/modules/slash/process.py:5 | with the older patterns foo先生 becomes foo 先生 |
| SlashProcess.LegacyHanThenLatinExample | yakusoku/modules/slash/process.py:6 | with the older patterns 你好foo becomes 你好 foo |
| SlashProcess.LegacyCommaExample | yakusoku/modules/slash/process.py:7 | with the older patterns foo,bar becomes foo, bar |
| SlashProcess.LegacySymbolThenWordExample | yakusoku/modules/slash/process.py:9 | with the older patterns foo &bar becomes foo & bar |
| SlashProcess.LegacyLeadingSymbolExample | yakusoku/modules/slash/process.py:9 | with the older patterns #foo becomes # foo |
| SlashProcess.LegacySymbolSpacing | yakusoku/modules/slash/process.py:8-9 | the older patterns always separate a word character from a following symbol and a symbol from a following word character |
| SlashProcess.CompleteUl | src/yakusoku/modules/slash/process.py:18-21 | the result always contains 了; text that has one is unchanged, otherwise 了 is appended |
| SlashProcess.CompleteUlIdempotent | src/yakusoku/modules/slash/process.py:18-21 | completing twice is the same as completing once |
| SlashMain.GetReply | yakusoku/modules/slash/main.py:20-25 | with a second part the reply is sender, action, target, second part and " !"; without one the action is completed with 了 |
| SlashMain.ReplyFrame | yakusoku/modules/slash/main.py:20-25 | every reply starts with the sender's mention and a space and ends with " !" |
| SlashMain.NoSecondHasUl | yakusoku/modules/slash/main.py:23-25 | a reply without a second part always contains 了 |
| BotString.Step | yakusoku/bot/utils/string.py:7-9 | one piece raises IndexError exactly when it is empty and the buffer does not end in a space; otherwise it is appended, with a space in between exactly when the buffer does not end in one and exactly one side is printable |
| BotString.Buffer | yakusoku/bot/utils/string.py:5-9 | the buffer always starts with the leading space |
| BotString.FormattedJoin | yakusoku/bot/utils/string.py:4-10 | the loop returns the joined text, or the IndexError of the first failing piece |
| BotString.ErrStays | yakusoku/bot/utils/string.py:6-9 | once a piece fails, the whole join fails |
| BotString.JoinNothing | yakusoku/bot/utils/string.py:4-10 | joining no pieces gives the empty string |
| BotString.JoinedSpaced | yakusoku/bot/utils/string.py:4-10 | the result is the pieces concatenated, with only spaces inserted |
| BotString.NonEmptyPiecesJoin | yakusoku/bot/utils/string.py:4-10 | when every piece is non-empty the join never fails |
| BotString.BufferExtends | yakusoku/bot/utils/string.py:6-9 | each later buffer extends every earlier one |
| BotString.FirstPieceLeads | yakusoku/bot/utils/string.py:4-10 | a successful join starts with the first piece |
| BotString.EmptyPieceCases | yakusoku/bot/utils/string.py:7 | an empty piece after a non-space raises IndexError, while an empty piece right at the start is accepted |
| BotString.MixedPiecesSpaced | yakusoku/bot/utils/string.py:7-8 | a space goes between printable and non-printable neighbours, and none between two printable ones |
| Greeting.FirstLater | yakusoku/modules/greeting/basic.py:13-15 | the entry found is the first whose time is later than the query; none is found when no entry is later |
| Greeting.BasicGreeting | yakusoku/modules/greeting/basic.py:12-16 | the greeting is always one of the table's greetings |
| Greeting.Greet | yakusoku/modules/greeting/basic.py:12-16 | the loop returns the greeting of the first entry later than the query, or the first entry's greeting |
| Greeting.BeforeSix | yakusoku/modules/greeting/basic.py:3-16 | before 06:00 the greeting is 晚上好哦夜猫子 |
| Greeting.Morning | yakusoku/modules/greeting/basic.py:3-16 | from 06:00 to before 11:00 the greeting is 早上好 |
| Greeting.Noon | yakusoku/modules/greeting/basic.py:3-16 | from 11:00 to before 13:00 the greeting is 中午好 |
| Greeting.Afternoon | yakusoku/modules/greeting/basic.py:3-16 | from 13:00 to before 17:00 the greeting is 傍晚好 |
| Greeting.Evening | yakusoku/modules/greeting/basic.py:3-16 | from 17:00 on no entry is later, so the greeting is the first entry's 晚上好 |
| Whois.SplitOn | src/yakusoku/modules/whois/main.py:24 | splitting always gives at least one part |
| Whois.SplitJoin | src/yakusoku/modules/whois/main.py:24 | joining the parts of a split with the same separator gives the key back |
| Whois.SplitPartsFree | src/yakusoku/modules/whois/main.py:24 | no part of a split contains the separator |
| Whois.SplitLastEmpty | src/yakusoku/modules/whois/main.py:24 | the last part is empty exactly when the key is empty or ends with the separator |
| Whois.LowerAll | src/yakusoku/modules/whois/main.py:24 | lower-casing keeps the length and lower-cases each character in place |
| Whois.TitleBySplitIsKeyTitle | src/yakusoku/modules/whois/main.py:24 | the displayed key is the key with each underscore turned into a space, each part's first character upper-cased and every other character lower-cased |
| Whois.ItemLines | src/yakusoku/modules/whois/main.py:27-28 | a list gives exactly one line per item |
| Whois.ItemLinesSpec | src/yakusoku/modules/whois/main.py:27-28 | the line of each item is the displayed key, a colon and a space, and the item, in the list's order |
| Whois.EntryLinesSpec | src/yakusoku/modules/whois/main.py:21-30 | a falsy value gives no line, a list one line per item, and any other value one line with its text |
| Whois.LinesStep | src/yakusoku/modules/whois/main.py:21 | the entries are handled one after the other in dictionary order, each adding its own lines |
| Whois.StringifyEntries | src/yakusoku/modules/whois/main.py:18-32 | the loops return the lines of all entries, in order, joined by newlines |
| Whois.AllFalsyEmpty | src/yakusoku/modules/whois/main.py:18-32 | when no value is truthy, including when there are no entries, the result is the empty string |
| Whois.FalsyEntrySkipped | src/yakusoku/modules/whois/main.py:22-23 | an entry with a falsy value adds nothing wherever it stands |
| Forbid.ParseInt | yakusoku/modules/forbid.py:39 | only a leading minus sign gives a negative number |
| Forbid.ParseIntToString | yakusoku/modules/forbid.py:39 | the decimal form of any integer parses back to it |
| Forbid.Decide | yakusoku/modules/forbid.py:36-52 | the usage reply comes exactly for more than one argument or an argument that is not a non-zero integer; no argument is a permanent ban; negative and over-long lengths get their own replies; an accepted length lies between one minute and 366 days |
| Forbid.DecideAcceptsInRange | yakusoku/modules/forbid.py:36-52 | every length from one minute to 366 days, written in decimal, is accepted as it is |
| Forbid.ForbidStore.constructor | yakusoku/modules/forbid.py:11 | a new store holds no entries and every entry is valid |
| Forbid.ForbidStore.SetForbid | yakusoku/modules/forbid.py:36-52 | the reply is the decision; a permanent ban stores None, an accepted length stores the length, and every other reply stores nothing; stored entries stay valid |
| Forbid.ForbidStore.Unset | yakusoku/modules/forbid.py:24-27 | the chat's entry is gone, whether or not there was one |
| Forbid.ForbidStore.OnJoin | yakusoku/modules/forbid.py:55-77 | a ban happens exactly when someone becomes a plain member of a chat with an entry and the updating user is no administrator; None bans for good, a length bans for that many minutes, always between one and the maximum |
| Workrest.ToDatabase | yakusoku/bot/modules/workrest.py:23-24 | the stored tuple holds the awake flag and the time, in that order |
| Workrest.FromDatabase | yakusoku/bot/modules/workrest.py:19-21 | the record reads the awake flag and the time from the tuple, in that order |
| Workrest.CodecRoundTrip | yakusoku/bot/modules/workrest.py:14-24 | a record and its stored tuple convert into each other without loss |
| Workrest.After | yakusoku/bot/modules/workrest.py:35-44 | a command asking for the state already stored changes nothing; any other stores the asked state with the current time |
| Workrest.ReplyTo | yakusoku/bot/modules/workrest.py:35-42 | a command is refused exactly when the stored state is the one asked for; otherwise it reports the time since the last change exactly when there was a record |
| Workrest.AcceptedThenRefused | yakusoku/bot/modules/workrest.py:32-44 | after an accepted command the user's state is the one asked for, and repeating the command is refused and changes nothing |
| Workrest.AcceptedThenOther | yakusoku/bot/modules/workrest.py:32-59 | after an accepted command the opposite command is accepted and reports the time in between |
| Workrest.OthersUntouched | yakusoku/bot/modules/workrest.py:43-59 | a command changes no other user's record |
| Workrest.SleepLog.constructor | yakusoku/bot/modules/workrest.py:11 | the log opens on the table saved in the database |
| Workrest.SleepLog.Morning | yakusoku/bot/modules/workrest.py:32-44 | the reply and the new table are those of a command asking for awake |
| Workrest.SleepLog.Goodnight | yakusoku/bot/modules/workrest.py:47-59 | the reply and the new table are those of a command asking for asleep |

## Left out

- Network fetching, decompression and archive reading in every provider's `fetch` (aiohttp, lzma, gzip, zstandard, tarfile, libmagic) are I/O. The model takes what they produce: index lines, (member path, lines) pairs, or XML events.
- XML parsing (`ElementTree.iterparse`) is a foreign library. The rpm-md walkers take the start and end events it would report.
- PkgsApt.Packages takes lines as text. The source decodes each byte line with `bytes.decode()`, and a line that is not UTF-8 raises UnicodeDecodeError; that error is not modelled.
- The alpm provider's `assert fp is not None` after `extractfile` is not modelled. The model is given each `desc` member's lines, so a member that is not a regular file does not arise.
- Lines are given without their trailing newline. `readline` only returns an empty string at end of input, so a blank line is `""` and end of input is the end of the sequence.
- The ZakoDb, SQLModel and SQLAlchemy stores are foreign libraries. A store is a sequence of entries (or a table of rows), and a hashed value compares by content and hash method. The substring `contains` of `search` is a parameter.
- Filesystem effects (`aioshutil.move`, `os.stat`, `os.remove`, temporary files) are OS behaviour. The file at a manager's path is a field, and the move is an assignment.
- The update scheduler and command handlers of both `pkgs/main.py` files are concurrency and chat replies.
- The expiry timers of both callback managers (`asyncio.create_task` with `sleep`) never fire in the model. An expiring task records its expiry time and registers its timer in the set of live timers, which cancelling a task removes it from. The expiry path (`expire`), which deletes the task when the time is up, is concurrency and is not modelled.
- `uuid1` is a counter: the only property used is that each uuid is new.
- Randomness (`random.choices`, `random.choice`) is a choice from the candidate set, with no distribution.
- Clock reads are parameters: times are integer timestamps, a draw's date is the timestamp divided by 86400, and a greeting's time of day is seconds since midnight.
- Floats are not modelled. The float weight `(10 - rarity) / 10` of `WaifuLocalProperty.get_weight` is kept in tenths. The reply of `workrest` carries the elapsed time as an integer instead of the `format_timedelta` text.
- The avatar download and cache code and the `get_avatar*` helpers of `shared/user.py` are network I/O.
- Telegram objects are plain values. Chat type, member status and administrator rights are fields or booleans; mentions are strings.
- Python's `\w` and `\d` in the slash patterns cover all of Unicode. Here a character class decides them for ASCII and the CJK ideographs, which the documented examples use.
- `str.capitalize`, `str.upper` and `str.lower` in `whois` are ASCII-only here. Other letters are left as they are.
- `whois` values come from a foreign library. Here a value is `None`, a string, an integer, a list of strings, or any other value given by its printed text (a date, say), with Python's truthiness.
- Forbid.ParseInt: Python's `int()` also accepts surrounding whitespace, underscores between digits and non-ASCII digits; the model accepts an optional leading `-` or `+` and ASCII digits only.
- Forbid.ForbidStore.constructor starts from an empty table. The stored-entry invariant assumes entries only arrive through the command's checks.
- The methods of `WaifuFactory.WaifuFactory` that read local properties require `Valid()`, that every stored local property has a valid rarity. In the source, reading a stored record with a bad rarity raises ValueError. Only the checked update writes that table, so that path is not modelled.
- Workrest: `now` is a parameter of the commands rather than a clock read.
- Message.CutMessage requires `Terminates` (`max_length >= 0`, and `max_length > 0` for an empty pattern), because otherwise the source loops forever. A negative `max_length` is not modelled.
- MessageLegacy.CutMessage takes `max_length` as a natural number. A negative one is not modelled.
- PkgsManagerLegacy.UpdateRepoEager requires `commit_on > 0`. The source asserts this, and `update` only calls eager mode with a positive `commit_on`.
- SharedUser.UserFactory.RemoveUser removes every username mapped to the user and the user's membership in every chat. The source deletes entries from its persistent dictionary while a generator is still iterating over it. What that foreign store does in that case is not modelled.
- ArchiveModels.UserData.FromChat leaves the name absent (`None`), because the source passes no name from a private chat. The database's non-null constraint on `name` is not modelled.
- The `GroupManager` methods `get_groups`, `remove_group` and `update_group` are SQL session plumbing with no rule of their own.
- The slash command handlers and their `PATTERN` regex matching are chat glue. Only `get_reply`, `normalize_string` and `complete_ul` are modelled.
- The `whois` handler itself is network I/O. Only `stringify_entries` is modelled.
- The other bot modules, the reflection and patching helpers, and the query-only database managers are glue around the modelled core.
