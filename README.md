# Sentinel-1 product handler, modelled in Dafny

This project models the product-type plugin that lets the muninn archive
system recognise and catalogue Sentinel-1 products. The plugin does five
things:

- it **identifies** a product from its file names;
- it derives the product's **properties**:
  - from the filename alone;
  - or also from the product's own metadata: the SAFE `manifest.safe`, the
    Earth Explorer header of an orbit file, or the global attributes of an
    RVL NetCDF file;
- it computes the product's **archive path**;
- it says whether a product lives in an **enclosing directory**;
- it **exports** SAFE and AUX products as zip files.

A **registry** maps every known product-type code to the handler for its
family. There are four families:

| handler | products | containers |
|---|---|---|
| `SAFEProduct` | level 0, 1 and 2 and ETAD products | `.SAFE` directories or `.SAFE.zip` files |
| `AUXProduct` | auxiliary SAFE products | `.SAFE` directories or `.SAFE.zip` files |
| `EOFProduct` | Earth Explorer orbit files | one `.EOF` file, or a `.DBL`/`.HDR` pair, plain or packed as `.EOF.zip` / `.TGZ` |
| `RVLProduct` | radial-velocity NetCDF products | `.nc` files |

Every filename pattern of the mission is a chain of fixed-width fields joined
by `_`, followed by a container suffix. Module `FilenameGrammar` models such a
pattern as a list of per-character classes, and a regular-expression match as
a split of the name at fixed offsets. The lemma `FilenameGrammar.AnchoredMatch`
shows that this split accepts exactly the names made of fitting fields and
gives those fields back as the match's groups. Every later statement about
identification and parsing rests on it.

The metadata readers work on abstract records, not files:

- `Manifests.SafeManifest` and `Manifests.AuxManifest`: the elements and
  attributes that `find`/`findall` return, each optional;
- `EofHeaders.EofHeader`: header element texts;
- `RvlAttributes.NetCdfAttributes`: NetCDF global attributes.

An element the handler insists on but which is absent is a `MissingElement`
error; where the handler would raise, the model returns an `Err`. Datetimes
are field records. `datetime.max` is the concrete record
9999-12-31 23:59:59.999999. No compact filename timestamp and no `UTC=`
header timestamp equals it (`Timestamps.SentinelIsDistinguished`), so the
all-nines stops of the EOF products are the only way to reach it there. A
manifest or NetCDF time with microseconds can be `datetime.max` itself:
`9999-12-31T23:59:59.999999` reads as it.

The `analyze` methods build a fresh property record field by field and then
let the metadata step overwrite some fields. In the model each step is a
function from the old record to the new one. Frame lemmas
(`Manifests.SafeManifestKeeps`, `Manifests.ManifestOrbitValues`,
`Manifests.ManifestSourcesValues`, `Manifests.AuxManifestValues`,
`EofHeaders.EofHeaderValues`, `RvlAttributes.NetCdfValues`) say which
fields a step sets and that every other field is left as it was. The two
footprint builders append in loops; they are methods whose loops are proved
equal to specification functions.

Where the code and the documentation disagree, the model follows the code:

- `archive_path` strips only the placeholder `_` from the mission (`S1_` gives
  `S1`). Named units such as `S1A` stay in the path, as
  `muninn_sentinel1.py:247-248` does (`Handlers.MissionNameKept`).
- A level-2 code whose class is `A` reads its manifest with the level-1
  namespace, because the level-1 test comes first
  (`muninn_sentinel1.py:301`; `Registry.CatalogNamespaces`).
- The split, unzipped EOF pattern has no end anchor. Its filename parse
  accepts any name that begins with the fields
  (`FilenameGrammar.UnanchoredMatch`).

## Model

| member | source | states |
|---|---|---|
| FilenameGrammar.AnchoredMatch | muninn_sentinel1.py:233-237 | an anchored pattern matches a name exactly when the name is fitting fields joined by `_` plus the suffix, and the groups are those fields |
| FilenameGrammar.UnanchoredMatch | muninn_sentinel1.py:477-478 | without the end anchor, any name that begins with fitting fields and the suffix matches, and a match implies such a prefix |
| FilenameGrammar.ExtendMatch | muninn_sentinel1.py:499-501 | pattern + `.DBL`/`.HDR` + `$` matches exactly the fitting fields followed by that extension |
| FilenameGrammar.ScanSound | muninn_sentinel1.py:233-237 | the split yields fitting fields whose `_`-join, plus the rest, is the input |
| FilenameGrammar.ScanComplete | muninn_sentinel1.py:233-237 | the split reads back any fitting fields from their join |
| FilenameGrammar.MatchFits | muninn_sentinel1.py:233-237 | every group of a match has its field's form |
| FilenameGrammar.MatchedName | muninn_sentinel1.py:233-237 | a name without `/` that an anchored pattern matches is its groups joined by `_` plus the suffix, and starts with the `S` of the mission |
| FilenameGrammar.FitsAllTail | muninn_sentinel1.py:233-237 | fitting fields fit field by field, the first with its field's width |
| FilenameGrammar.MatchEndsWithSuffix | muninn_sentinel1.py:273-275 | a name an anchored pattern matches ends with the container suffix |
| FilenameGrammar.FitsMission | muninn_sentinel1.py:264 | the mission field is `S1` followed by one of `_ABCD` |
| FilenameGrammar.FitsLiteral | muninn_sentinel1.py:265 | a product-type field accepts exactly the handler's own code |
| FilenameGrammar.FitsConcat | muninn_sentinel1.py:265 | code-plus-polarisation fits exactly when each part fits its part |
| FilenameGrammar.JoinFieldsAvoids | muninn_sentinel1.py:273 | a non-`_` character absent from every field is absent from the joined name |
| FilenameGrammar.JoinFieldsStart | muninn_sentinel1.py:264 | the joined name starts with its first field |
| Handlers.ParseFilename | muninn_sentinel1.py:233-237 | a parse exists exactly when the pattern matches the basename; it names the handler's code and a well-formed mission and start |
| Handlers.ParseFilenameOf | muninn_sentinel1.py:233-237 | a basename matched with given groups parses to the attributes named by those groups |
| Handlers.GroupDictFields | muninn_sentinel1.py:263-271 | the product-type group equals the handler's code, and every group has its field's width and class |
| Handlers.FitsPrefixedStamp | muninn_sentinel1.py:409-410 | a `V`/`G` field is that letter followed by a fifteen-character stamp |
| Handlers.IdentifySingle | muninn_sentinel1.py:239-242 | a single-file handler identifies exactly one path whose basename, whatever its directory, is fitting fields plus the handler's suffix |
| Handlers.IdentifiedTypeIsCode | muninn_sentinel1.py:239-242 | an identified product's product-type group is the handler's code |
| Handlers.IdentifyNeedsOnePath | muninn_sentinel1.py:505-506 | every handler except the split unzipped EOF rejects zero or several paths |
| Handlers.IdentifySplit | muninn_sentinel1.py:494-503 | a split unzipped EOF product is two paths whose basenames, in the sorted order of the full paths, are fields + `.DBL` and fields + `.HDR` |
| Handlers.SplitFileFields | muninn_sentinel1.py:499-501 | one file of a split product matches exactly when its name is fitting fields followed by the extension |
| Handlers.SplitNeedsTwoPaths | muninn_sentinel1.py:496-497 | a split unzipped EOF product is never one path, nor three |
| Handlers.SplitOrderIndependent | muninn_sentinel1.py:498 | the order of the two paths does not change identification |
| Handlers.SplitSameSuffix | muninn_sentinel1.py:499-502 | two `.DBL` files, or two `.HDR` files, are never a split product |
| Handlers.EndsWith | muninn_sentinel1.py:499-502 | a name ending in another four-character extension never matches |
| Handlers.DataBeforeHeader | muninn_sentinel1.py:498 | the `.DBL` file of a product sorts before its `.HDR` file, in either input order |
| Handlers.SplitFileMatches | muninn_sentinel1.py:499-501 | a file named by fitting fields and an extension matches the extended pattern in any directory |
| Handlers.SplitPairIdentified | muninn_sentinel1.py:494-503 | the `.DBL`/`.HDR` pair of one product in one directory is identified in both orders |
| Handlers.MissionNameKept | muninn_sentinel1.py:246-248 | only the placeholder is stripped: `S1_` gives `S1`, and `S1A`..`S1D` are kept |
| Handlers.JoinPathPlain | muninn_sentinel1.py:249 | joining two plain components inserts one `/` |
| Handlers.ArchivePathLayout | muninn_sentinel1.py:244-255 | an archive path exists exactly when the name matches, and is mission/code/YYYY/MM/DD of the validity start |
| Handlers.ArchivePathJoined | muninn_sentinel1.py:244-255 | a parsed name's archive path is the mission, the code and the year, month and day of the start, joined by `/` |
| Handlers.JoinArchiveLevels | muninn_sentinel1.py:249-255 | joining the five levels with `os.path.join` puts one `/` between each |
| Analysis.ReadTimeValid | muninn_sentinel1.py:196-202 | a time read from an element text is a valid datetime |
| Analysis.ReadTimeRoundTrip | muninn_sentinel1.py:196-202 | an element text holding a time written with microseconds and `Z` reads back as that time |
| Analysis.ReadInt | muninn_sentinel1.py:317-319 | `int(text)` succeeds exactly on a non-empty string of decimal digits, and the number written back with as many digits is the text |
| Analysis.ParseFilenameGroups | muninn_sentinel1.py:263-271 | SAFE and RVL names have product groups, AUX names AUX groups, EOF names EOF groups |
| Analysis.CompactFitsStamp | muninn_sentinel1.py:266 | a written timestamp fits the `[\dT]{15}` field |
| Analysis.RenderFitsDigits | muninn_sentinel1.py:268 | a zero-padded decimal orbit fits `[\d]{6}` |
| Analysis.RenderFitsAny | muninn_sentinel1.py:269 | a zero-padded hexadecimal datatake fits `.{6}` |
| Analysis.MatchedStem | muninn_sentinel1.py:357 | a matched basename is the joined fields plus the suffix, and the fields hold no `/` |
| Analysis.StripExtension | muninn_sentinel1.py:357 | `splitext` removes one container extension from a plain name |
| Analysis.StemOfContainer | muninn_sentinel1.py:357-359 | `.SAFE.zip` loses `.zip` on the first step and `.SAFE` on the second; `.EOF.zip` loses only `.zip` |
| Analysis.ProductNameIsStem | muninn_sentinel1.py:357-359 | the product name is the joined fields; a zipped EOF product's name keeps `.EOF` (line 540 strips once) |
| Analysis.DigitSlice | muninn_sentinel1.py:376-379 | `int(code[i:i+1])` succeeds exactly on a digit and gives its value |
| Analysis.SafeCodeFieldsSpec | muninn_sentinel1.py:367-380 | mode/beam, type, resolution, level and class are the code's slices, with the `SM`/`AN` remap, `_` resolution unset and a non-digit level unset |
| Analysis.SafeCodeSlicing | muninn_sentinel1.py:367-380 | the same slicing holds for the properties of every analysed SAFE name |
| Analysis.SafeNamePropertiesCode | muninn_sentinel1.py:360-380 | the SAFE filename properties hold the code's slices, the rest coming from the groups |
| Analysis.RvlCodeFieldsSpec | muninn_sentinel1.py:637-641 | RVL keeps the beam as the mode and leaves the resolution unchanged; its level must be a digit |
| Analysis.RvlCodeSlicing | muninn_sentinel1.py:637-641 | an analysed RVL name has mode = beam, no resolution and a numeric level |
| Analysis.RvlNamePropertiesCode | muninn_sentinel1.py:622-644 | the RVL filename properties hold the code's slices, which must read, the start and stop of the time groups, no creation date, the decimal orbit, the hexadecimal datatake and the polarisation group |
| Analysis.SafeFieldsFit | muninn_sentinel1.py:263-271 | the pieces a SAFE name is built from fit its fields and hold no `/` |
| Analysis.SafeNameParses | muninn_sentinel1.py:233-237 | parsing a SAFE name built from values gives those values' texts back, in any directory |
| Analysis.SafeNameMatches | muninn_sentinel1.py:233-237 | the SAFE pattern matches a SAFE name built from values, in any directory, with the values' texts as its groups |
| Analysis.SafeGroups | muninn_sentinel1.py:263-271 | the groups of such a name split the code from the polarisation and name each value |
| Analysis.SafeValuesRead | muninn_sentinel1.py:360-383 | the properties of such groups are the original times, decimal orbit, hexadecimal datatake, polarisation and stripped mission |
| Analysis.SafeNameRoundTrip | muninn_sentinel1.py:350-383 | analysing a SAFE name built from values returns those values and the name without its suffix |
| Analysis.AuxStopIsOpen | muninn_sentinel1.py:430-438 | an AUX product from its filename never expires, starts at its validity time and has its generation date as creation date |
| Analysis.AuxNamePropertiesValues | muninn_sentinel1.py:430-438 | the AUX filename properties never expire, start at the validity group, were created at the generation group and carry only the mission |
| Analysis.EofStopSentinel | muninn_sentinel1.py:544-547 | the EOF filename stop is the maximum time exactly when it is `99999999T999999` |
| Analysis.EofFilenameSentinel | muninn_sentinel1.py:529-547 | an analysed EOF name is open-ended exactly when its stop field is all nines |
| Analysis.HeaderStem | muninn_sentinel1.py:532-540 | a header file's name is its stem followed by `.HDR` |
| Analysis.EofProductName | muninn_sentinel1.py:530-540 | the EOF product name is the stem of the input path: the header file when split, else the one path |
| Analysis.EofNamePropertiesValues | muninn_sentinel1.py:539-554 | the EOF filename properties keep the given product name, take creation, start and (unless open-ended) stop from their groups, and carry the mission and the processing facility |
| Analysis.SplitProductName | muninn_sentinel1.py:487-492 | a split product's name is its header's name without `.HDR`, in either order, and is the enclosing directory |
| Timestamps.Make | muninn_sentinel1.py:360 | only valid calendar dates and times become datetimes |
| Timestamps.ParseCompact | muninn_sentinel1.py:360 | `%Y%m%dT%H%M%S` yields a valid time with no microseconds |
| Timestamps.ParseIsoSeconds | muninn_sentinel1.py:202 | `%Y-%m-%dT%H:%M:%S` yields a valid time with no microseconds |
| Timestamps.ParseIsoFraction | muninn_sentinel1.py:200 | `%Y-%m-%dT%H:%M:%S.%f` yields a valid time |
| Timestamps.CompactRoundTrip | muninn_sentinel1.py:360 | reading a written compact timestamp gives the time back |
| Timestamps.CompactReadBack | muninn_sentinel1.py:360 | a string read as a compact timestamp is exactly the compact form of that time, so the reading is one-to-one |
| Timestamps.IsoSecondsReadBack | muninn_sentinel1.py:202 | a string read as an ISO timestamp is exactly the ISO form of that time |
| Timestamps.UtcReadBack | muninn_sentinel1.py:560 | a header timestamp read is `UTC=` followed by the ISO form of that time |
| Timestamps.IsoSecondsRoundTrip | muninn_sentinel1.py:202 | reading a written ISO timestamp gives the time to the second |
| Timestamps.IsoFractionRoundTrip | muninn_sentinel1.py:200 | reading a written ISO timestamp with six fraction digits gives the time back, microseconds included |
| Timestamps.IsoZRoundTrip | muninn_sentinel1.py:196-202 | `parse_datetime` and the NetCDF form read back a time written with microseconds and `Z` |
| Timestamps.SentinelIsDistinguished | muninn_sentinel1.py:544-547 | no compact or header timestamp equals `datetime.max` |
| Timestamps.AllNinesDoNotParse | muninn_sentinel1.py:544-547 | the all-nines stops are not timestamps, so only the special case accepts them |
| Timestamps.CompactNinesRejected | muninn_sentinel1.py:544-547 | `99999999T999999` is not a compact timestamp |
| Timestamps.UtcNinesRejected | muninn_sentinel1.py:561-565 | `UTC=9999-99-99T99:99:99` is not a header timestamp |
| Timestamps.MaxIsLatest | muninn_sentinel1.py:421 | `datetime.max` is a valid time no other time follows |
| Timestamps.BeforeIsStrictTotalOrder | muninn_sentinel1.py:326 | datetime comparison is a strict total order |
| Timestamps.LatestIsMaximum | muninn_sentinel1.py:326 | `max` of the times is one of them and none is later |
| Numerals.ParseRender | muninn_sentinel1.py:382-383 | reading a zero-padded decimal or hexadecimal number gives the number back |
| Numerals.ValueOfRender | muninn_sentinel1.py:382-383 | the digits written for a number denote that number |
| Numerals.RenderValue | muninn_sentinel1.py:382 | a decimal digit string is its value re-padded to its width |
| Numerals.ValueBelowPow | muninn_sentinel1.py:382-383 | a digit string denotes less than base to the power of its width |
| Numerals.DigitValue | muninn_sentinel1.py:383 | a hexadecimal digit's value is below 16, and below 10 exactly for decimal digits |
| Numerals.Digit | muninn_sentinel1.py:383 | the written digit reads back as its value |
| Numerals.Render | muninn_sentinel1.py:382-383 | a rendered number has its width and only digits of its base |
| Text.Slice | muninn_sentinel1.py:367-380 | Python slicing clamps out-of-range bounds and keeps the characters in place |
| Text.LastIndexOf | muninn_sentinel1.py:234 | the last index of a character, with no later occurrence |
| Text.StripTrailingSlashes | muninn_sentinel1.py:208 | the result is a prefix that does not end in `/`, and only `/` characters were removed |
| Text.Lower | muninn_sentinel1.py:322 | `lower()` keeps the length, turns each upper-case letter into its lower-case counterpart and leaves other characters alone |
| Text.RunLength | muninn_sentinel1.py:281 | a token run stops at the first comma or whitespace |
| Text.TokensAreRuns | muninn_sentinel1.py:281 | splitting on commas and whitespace yields non-empty separator-free tokens |
| Text.TokensKeepText | muninn_sentinel1.py:281 | the tokens together are the text minus its separators |
| Text.ConcatAppend | muninn_sentinel1.py:281 | concatenating tokens distributes over appending lists |
| Text.WithoutSeparatorsRun | muninn_sentinel1.py:281 | removing separators passes a separator-free prefix through |
| Text.SortPair | muninn_sentinel1.py:498 | `sorted` of two strings is a permutation in non-decreasing order |
| Text.LexMax | muninn_sentinel1.py:532 | `sorted(paths)[-1]` is one of the paths |
| Text.LexMaxIsGreatest | muninn_sentinel1.py:532 | `sorted(paths)[-1]` is no smaller than any path |
| Text.LexMaxOfPair | muninn_sentinel1.py:498-532 | of two paths the last in sorted order is the second of the sorted pair |
| Text.LexLessAsymmetric | muninn_sentinel1.py:498 | string order is asymmetric |
| Text.LexLessTotal | muninn_sentinel1.py:498 | string order is total |
| Text.LexLessTransitive | muninn_sentinel1.py:498 | string order is transitive |
| Text.LexLessCommonPrefix | muninn_sentinel1.py:498 | a common prefix does not change string order |
| Text.BasenameAfterSlash | muninn_sentinel1.py:234 | `basename` of dir/name is the name |
| Text.BasenameHasNoSlash | muninn_sentinel1.py:234 | a basename holds no `/` |
| Text.BasenameNoSlash | muninn_sentinel1.py:234 | a name without `/` is its own basename |
| Text.RootOfSuffixed | muninn_sentinel1.py:357 | `splitext` removes exactly a final extension |
| Geometry.LatLonPoints | muninn_sentinel1.py:285-286 | one point per complete token pair, taking the longitude from the second token |
| Geometry.GetFootprintFromManifest | muninn_sentinel1.py:277-294 | the append loops build exactly the specified footprint |
| Geometry.SafeFootprintShape | muninn_sentinel1.py:277-294 | a multipoint exactly for one text of at most four tokens; otherwise one single-ring polygon per text in order; no text gives an empty multipolygon |
| Geometry.OuterRing | muninn_sentinel1.py:609-610 | a feature's ring exists exactly when its coordinates are well formed, and has one `Point(c[0], c[1])` per position |
| Geometry.FailureSticks | muninn_sentinel1.py:608-610 | a feature that fails makes the whole footprint fail with the same error |
| Geometry.FeaturePolygonsSpec | muninn_sentinel1.py:607-610 | the polygons exist exactly when every feature is well formed, one per feature in order |
| Geometry.FeaturePolygonsOk | muninn_sentinel1.py:607-610 | the polygons are built exactly when every feature is well formed |
| Geometry.FeaturePolygonsValues | muninn_sentinel1.py:607-610 | the polygons are the features' outer rings, one per feature in order |
| Geometry.BuildRvlFootprint | muninn_sentinel1.py:605-614 | the append loop builds exactly the specified RVL footprint |
| Geometry.RvlFootprintShape | muninn_sentinel1.py:605-614 | an RVL footprint needs a FeatureCollection of well-formed features; it is a lone polygon exactly when there is one feature |
| Manifests.SafeNamespaceTable | muninn_sentinel1.py:300-306 | level 1 or `2A` gives level-1, another level 2 gives level-2, other levels the default; no level and `ETA` gives level-1 |
| Manifests.NamespaceForCode | muninn_sentinel1.py:300-306 | the namespace chosen from a code's level digit, its `2A` class and its `ETA` type |
| Manifests.DownlinkTimesSpec | muninn_sentinel1.py:326 | all downlink stops are read, in order, or the read fails |
| Manifests.DownlinkTimesOk | muninn_sentinel1.py:326 | the stops are read exactly when every stream's stop reads as a time |
| Manifests.DownlinkTimesValues | muninn_sentinel1.py:326 | the times read are the streams' stops, in order |
| Manifests.DownlinkTimesRead | muninn_sentinel1.py:326 | when every stream's stop reads as a time, the list comprehension completes |
| Manifests.ManifestCore | muninn_sentinel1.py:307-313 | a successful core step required a processing element and keeps the product name |
| Manifests.ManifestCoreValues | muninn_sentinel1.py:307-313 | the manifest's start, stop, creation date and footprint replace the filename's |
| Manifests.ManifestOrbitValues | muninn_sentinel1.py:316-322 | orbit numbers and cycle are decimal; the direction is the pass in lower case when present, else unchanged; nothing else changes |
| Manifests.ManifestSourcesValues | muninn_sentinel1.py:323-338 | configuration, latest downlink, the first facility's site, the software element's name and version, and optional timeliness; nothing else changes |
| Manifests.SoftwareFallback | muninn_sentinel1.py:330-335 | the processing element's own software wins; otherwise it is that of the first facility that has software, and there is software exactly when one of them gives one |
| Manifests.FacilitySoftwareFirst | muninn_sentinel1.py:333 | the first software under the facilities is that of the first facility with software, and exists exactly when a facility has software |
| Manifests.DownlinkDateIsLatest | muninn_sentinel1.py:324-326 | the downlink date is one of the stops and no stop is later |
| Manifests.SafeManifestKeeps | muninn_sentinel1.py:296-338 | the manifest leaves the product name and the code- and name-derived fields alone, and writes the direction in lower case |
| Manifests.SafeManifestValues | muninn_sentinel1.py:296-338 | the manifest's period, footprint, orbit, configuration of the chosen namespace, timeliness and downlink date |
| Manifests.SafeManifestRequires | muninn_sentinel1.py:307-323 | a manifest missing the period, processing, orbit reference or configuration makes the analysis fail |
| Manifests.SafeFilenameOnly | muninn_sentinel1.py:385-389 | filename-only analysis ignores the manifest |
| Manifests.ApplyAuxManifest | muninn_sentinel1.py:417-424 | an AUX manifest never ends the validity |
| Manifests.AuxManifestValues | muninn_sentinel1.py:417-424 | an AUX manifest gives start, creation date, configuration and facility site, and keeps name, mission and footprint |
| Manifests.AuxAlwaysOpen | muninn_sentinel1.py:421-447 | an AUX product is open-ended with or without its manifest |
| EofHeaders.HeaderStop | muninn_sentinel1.py:561-565 | the header stop is the maximum time exactly for `UTC=9999-99-99T99:99:99`, else the parsed time |
| EofHeaders.EofHeaderValues | muninn_sentinel1.py:556-573 | the header's period, creation date, system, creator and version replace the filename's; the configuration is read when present |
| EofHeaders.BadConfigurationFails | muninn_sentinel1.py:571-573 | a configuration identifier that is not a number makes the analysis fail |
| EofHeaders.EofOpenEnded | muninn_sentinel1.py:544-565 | an EOF product is open-ended exactly when the stop it is read from is all nines |
| EofHeaders.EofFilenameOnly | muninn_sentinel1.py:556 | filename-only analysis ignores the header |
| RvlAttributes.NetCdfValues | muninn_sentinel1.py:598-620 | the attributes give period, creation, footprint, first orbit and cycle, centre and processor; nothing else changes |
| RvlAttributes.NetCdfRequires | muninn_sentinel1.py:605-620 | a non-FeatureCollection, a malformed feature or an empty orbit or cycle array makes the analysis fail |
| RvlAttributes.RvlWithoutReader | muninn_sentinel1.py:594-597 | without the NetCDF reader, or filename-only, the result is the filename properties |
| Registry.CatalogShapes | muninn_sentinel1.py:49-190 | codes of each catalog have their catalog's shape: level digit, class, `ETA`, `V`, width |
| Registry.FamilyShapes | muninn_sentinel1.py:49-190 | every SAFE, RVL, AUX and EOF catalog code has its family's shape |
| Registry.CatalogFamilies | muninn_sentinel1.py:652-668 | every catalog code gets its family's default handler, built for that code |
| Registry.UnknownCode | muninn_sentinel1.py:663-668 | a code has a handler exactly when it is in a catalog, and the listed codes are those |
| Registry.RegisteredHandlers | muninn_sentinel1.py:487-489 | a registered handler has its own code, never uses an enclosing directory, and meets the archive-path layout's condition on codes |
| Registry.ShapeNamespaces | muninn_sentinel1.py:300-306 | the namespace for each catalog shape |
| Registry.CatalogNamespaces | muninn_sentinel1.py:300-306 | level 0 default, level 1 level-1, level 2 class `A` level-1 and class `S` level-2, ETAD level-1 |
| Registry.CatalogNamespacesOf | muninn_sentinel1.py:300-306 | for the fields sliced from a catalog code, the namespace of its catalog |
| Packaging.ZipMemberNameKeepsProductName | muninn_sentinel1.py:208-212 | each file is stored under the product directory's own name, wherever it lies |
| Packaging.ZipMemberNameTrailingSlash | muninn_sentinel1.py:208-212 | a product directory given with a trailing `/` is stored under its own name as well |
| Packaging.CorrectedAgreesBelowDirectory | muninn_sentinel1.py:208-212 | below a named directory the corrected rule gives what the code gives |
| Packaging.AsWrittenBelowDirectory | muninn_sentinel1.py:208-212 | below a named directory the code keeps the product name |
| Packaging.AsWrittenRelative | muninn_sentinel1.py:208-212 | for a product path without a directory part the code drops the name's first character, so the member is not named after the product |
| Packaging.AsWrittenRooted | muninn_sentinel1.py:208-212 | for a product directly under `/` the code drops the name's first character as well |
| Packaging.AsWrittenTrailingSlash | muninn_sentinel1.py:208-212 | for a product path with a trailing `/` the code takes the directory itself as the root, so files are stored without the product name |
| Packaging.StripOneSlash | muninn_sentinel1.py:208 | `rstrip('/')` of dir/name/ is dir/name |
| Packaging.DirnameOfName | muninn_sentinel1.py:208 | `dirname` of a name without `/` is empty |
| Packaging.WalkedFileOf | muninn_sentinel1.py:209-211 | a walked file is the directory, `/` and its relative path |
| Packaging.LastSlash | muninn_sentinel1.py:208 | the last `/` of dir/name is the one before the name |
| Packaging.DirnameBelow | muninn_sentinel1.py:208 | `dirname` of dir/name is dir |
| Packaging.DirnameAtRoot | muninn_sentinel1.py:208 | `dirname` of /name is `/` |
| Packaging.ExportZipTarget | muninn_sentinel1.py:391-398 | a zipped product must be one path and keeps its file name; an unzipped one becomes physical name + `.zip`; both in the target directory |

## Left out

- File, zip and tar access are outside the model: `read_xml_component`, `read_xml_header`, `copy_path`, and the `os.walk`/`archive.write` loop of `package_zip`. Metadata arrives as records of optional values, and an export is its target path.
- XML and JSON parsing and the `coda` NetCDF reader are foreign libraries. The model starts from the values they would return. The reader being absent (`ImportError`) is a `None` reader.
- An element that is found but has no text, an attribute that holds Python `None`, and a missing `Earth_Explorer_Header` are not distinguished from an absent value, or are not modelled.
- `float()` of coordinates: coordinates stay as the token texts. The model records which token becomes which axis and how many points and rings there are.
- Regular-expression leniencies are not modelled: Unicode `\d`, and `$` matching before a trailing newline. `\d` is an ASCII digit.
- `strptime` leniencies are not modelled. Its one-digit month, day, hour, minute and second fields and its space-padded day are not accepted, and every timestamp field has a fixed width. Its literals are matched case-sensitively: `strptime` ignores case, so it also accepts a lower-case `t` separator, a `utc=` prefix and a `z` suffix, on which `ParseIsoSeconds`, `ParseIsoFraction`, `ParseUtc` and `ParseFractionZ` return `None` and the manifest, header and NetCDF steps report `BadTimestamp`. A compact filename stamp arrives through the `[\dT]{15}` group, which admits only an upper-case `T`. `strptime` and the model both reject surrounding whitespace. The read-back lemmas (`CompactReadBack`, `IsoSecondsReadBack`, `UtcReadBack`) are about this fixed-width, case-sensitive reading.
- `Timestamps.ParseIsoSeconds`: rejects a lower-case `t` separator and one-digit or space-padded fields, which `strptime` accepts, because the literals are matched case-sensitively and the widths are fixed (line above).
- `Timestamps.ParseIsoFraction`: rejects a lower-case `t` separator and one-digit or space-padded fields, which `strptime` accepts, for the same reason.
- `Timestamps.ParseUtc` and `Timestamps.ParseFractionZ`: reject a lower-case `utc=` prefix and `z` suffix, which `strptime` accepts, for the same reason.
- `int()` leniencies are not modelled: signs, `_`, whitespace and the `0x` prefix. Numbers are plain ASCII digit strings.
- `lower()` applies to ASCII letters only.
- `Packaging.ExportZip`: `os.path.abspath` of the target is not applied, because it depends on the working directory.
- `Sentinel1Namespace`, `namespaces`, `namespace` and `hash_type` are declarative constants with no behaviour to prove.
- `MUNINN_PRODUCT_TYPES` is unused by the handlers; the registry is built from the seven catalogs.
- `setup.py` is not part of this model.

## Findings

| source | as written | input that shows it | evidently intended | confidence | as-written member | corrected member |
|---|---|---|---|---|---|---|
| muninn_sentinel1.py:208-212 | each member is named `fn[len(os.path.dirname(path)) + 1:]` | `path = "X.SAFE"` or `"/X.SAFE"` stores `manifest.safe` as `.SAFE/manifest.safe`; `path = "/data/X.SAFE/"` stores it as `manifest.safe` | members are named `X.SAFE/…`, the product directory's own name, as they are for `/data/X.SAFE` | not executed | Packaging.ZipMemberNameAsWritten (Packaging.AsWrittenRelative, Packaging.AsWrittenRooted, Packaging.AsWrittenTrailingSlash) | Packaging.ZipMemberName (Packaging.ZipMemberNameKeepsProductName, Packaging.ZipMemberNameTrailingSlash) |
