/**
 * The product properties and the part of each handler's `analyze` that
 * needs only the filename (`filename_only=True`).
 */
module Analysis {
  import opened Wrappers
  import opened Text
  import opened Numerals
  import opened Timestamps
  import opened FilenameGrammar
  import opened Failures
  import opened Geometry
  import opened Handlers

  /** The `core` properties every product has. */
  datatype CoreProperties = CoreProperties(
    productName: string,
    validityStart: DateTime,
    validityStop: DateTime,
    creationDate: Option<DateTime>,
    footprint: Option<Geometry>)

  /** The `sentinel1` namespace; an absent value is an attribute the handler did not set. */
  datatype Sentinel1Properties = Sentinel1Properties(
    mission: string,
    mode: Option<string>,
    modeBeam: Option<string>,
    productType: Option<string>,
    resolutionClass: Option<string>,
    processingLevel: Option<nat>,
    productClass: Option<string>,
    polarisation: Option<string>,
    absoluteOrbit: Option<int>,
    relativeOrbit: Option<int>,
    orbitDirection: Option<string>,
    datatakeId: Option<nat>,
    instrConfId: Option<int>,
    processingFacility: Option<string>,
    processorName: Option<string>,
    processorVersion: Option<string>,
    timeliness: Option<string>,
    cycle: Option<int>,
    downlinkDate: Option<DateTime>)

  datatype Properties = Properties(core: CoreProperties, sentinel1: Sentinel1Properties)

  /** A fresh `sentinel1` namespace holding only the mission. */
  function MissionOnly(mission: string): Sentinel1Properties {
    Sentinel1Properties(mission, None, None, None, None, None, None, None, None, None,
                        None, None, None, None, None, None, None, None, None)
  }

  /** The acquisition mode of a SAFE product: stripmap and Envisat-continuity beams are grouped. */
  function SafeMode(modeBeam: string): string
    requires |modeBeam| > 0
  {
    if modeBeam[0] == 'S' then "SM" else if modeBeam[0] == 'N' then "AN" else modeBeam
  }

  /** `splitext(basename(path))[0]`, applied twice for a zipped SAFE container. */
  function StemOf(path: string, twice: bool): string {
    var name := Root(Basename(path));
    if twice then Root(name) else name
  }

  /**
   * The fields a SAFE handler slices out of its product type code: the beam
   * `[0:2]`, the type `[3:6]`, the resolution `[6:7]` unless it is `_`, the
   * level `[8:9]` when it is a number and the class `[9:10]`.
   */
  function SafeCodeFields(code: string, s1: Sentinel1Properties): Sentinel1Properties
    requires |code| > 0
  {
    var modeBeam := Slice(code, 0, 2);
    var resolution := Slice(code, 6, 7);
    s1.(modeBeam := Some(modeBeam),
        mode := Some(SafeMode(modeBeam)),
        productType := Some(Slice(code, 3, 6)),
        resolutionClass := if resolution != "_" then Some(resolution) else None,
        processingLevel := ParseInt(Slice(code, 8, 9), 10),
        productClass := Some(Slice(code, 9, 10)))
  }

  /** The properties of a SAFE or RVL name from the groups of its match and the handler's code. */
  function SafeNameProperties(code: string, productName: string, attrs: NameAttrs): Result<Properties, Error>
    requires attrs.ProductName? && |attrs.mission| == 3
  {
    var start :- Need(ParseCompact(attrs.validityStart), BadTimestamp(attrs.validityStart));
    var stop :- Need(ParseCompact(attrs.validityStop), BadTimestamp(attrs.validityStop));
    if |code| == 0 then Err(IndexError("mode[0]"))
    else
      var orbit :- Need(ParseInt(attrs.absoluteOrbit, 10), BadInteger(attrs.absoluteOrbit));
      var datatake :- Need(ParseInt(attrs.datatakeId, 16), BadInteger(attrs.datatakeId));
      Ok(Properties(
        CoreProperties(productName, start, stop, None, None),
        SafeCodeFields(code, MissionOnly(MissionName(attrs.mission))).(
          polarisation := Some(attrs.polarisation),
          absoluteOrbit := Some(orbit),
          datatakeId := Some(datatake))))
  }

  /** `SAFEProduct.analyze(paths, filename_only=True)`. */
  function AnalyzeSafeName(code: string, zipped: bool, paths: seq<string>): Result<Properties, Error> {
    if |paths| == 0 then Err(IndexError("paths[0]"))
    else
      var h := Safe(code, zipped);
      ParseFilenameGroups(h, paths[0]);
      match ParseFilename(h, paths[0])
      case None => Err(NameMismatch(paths[0]))
      case Some(attrs) => SafeNameProperties(code, StemOf(paths[0], zipped), attrs)
  }

  /** The fields an RVL handler slices out of its code: the beam is also the mode, and the level must be a number. */
  function RvlCodeFields(code: string, s1: Sentinel1Properties): Result<Sentinel1Properties, Error> {
    var modeBeam := Slice(code, 0, 2);
    var level :- Need(ParseInt(Slice(code, 8, 9), 10), BadInteger(Slice(code, 8, 9)));
    Ok(s1.(modeBeam := Some(modeBeam),
           mode := Some(modeBeam),
           productType := Some(Slice(code, 3, 6)),
           processingLevel := Some(level),
           productClass := Some(Slice(code, 9, 10))))
  }

  function RvlNameProperties(code: string, productName: string, attrs: NameAttrs): Result<Properties, Error>
    requires attrs.ProductName? && |attrs.mission| == 3
  {
    var start :- Need(ParseCompact(attrs.validityStart), BadTimestamp(attrs.validityStart));
    var stop :- Need(ParseCompact(attrs.validityStop), BadTimestamp(attrs.validityStop));
    var s1 :- RvlCodeFields(code, MissionOnly(MissionName(attrs.mission)));
    var orbit :- Need(ParseInt(attrs.absoluteOrbit, 10), BadInteger(attrs.absoluteOrbit));
    var datatake :- Need(ParseInt(attrs.datatakeId, 16), BadInteger(attrs.datatakeId));
    Ok(Properties(
      CoreProperties(productName, start, stop, None, None),
      s1.(polarisation := Some(attrs.polarisation), absoluteOrbit := Some(orbit), datatakeId := Some(datatake))))
  }

  /** `RVLProduct.analyze(paths, filename_only=True)`: no mode remapping and a level that must parse. */
  function AnalyzeRvlName(code: string, paths: seq<string>): Result<Properties, Error> {
    if |paths| == 0 then Err(IndexError("paths[0]"))
    else
      ParseFilenameGroups(Rvl(code), paths[0]);
      match ParseFilename(Rvl(code), paths[0])
      case None => Err(NameMismatch(paths[0]))
      case Some(attrs) => RvlNameProperties(code, StemOf(paths[0], false), attrs)
  }

  function AuxNameProperties(productName: string, attrs: NameAttrs): Result<Properties, Error>
    requires attrs.AuxName? && |attrs.mission| == 3
  {
    var start :- Need(ParseCompact(attrs.validityStart), BadTimestamp(attrs.validityStart));
    var creation :- Need(ParseCompact(attrs.generationDate), BadTimestamp(attrs.generationDate));
    Ok(Properties(
      CoreProperties(productName, start, MaxDateTime, Some(creation), None),
      MissionOnly(MissionName(attrs.mission))))
  }

  /** `AUXProduct.analyze(paths, filename_only=True)`: validity is open-ended. */
  function AnalyzeAuxName(code: string, zipped: bool, paths: seq<string>): Result<Properties, Error> {
    if |paths| == 0 then Err(IndexError("paths[0]"))
    else
      ParseFilenameGroups(Aux(code, zipped), paths[0]);
      match ParseFilename(Aux(code, zipped), paths[0])
      case None => Err(NameMismatch(paths[0]))
      case Some(attrs) => AuxNameProperties(StemOf(paths[0], zipped), attrs)
  }

  /** The filename stop of an EOF product that never expires. */
  const OpenEndedStop := "99999999T999999"

  function EofNameProperties(productName: string, attrs: NameAttrs): Result<Properties, Error>
    requires attrs.EofName? && |attrs.mission| == 3
  {
    var creation :- Need(ParseCompact(attrs.creationDate), BadTimestamp(attrs.creationDate));
    var start :- Need(ParseCompact(attrs.validityStart), BadTimestamp(attrs.validityStart));
    var stop :- if attrs.validityStop == OpenEndedStop then Ok(MaxDateTime)
                else Need(ParseCompact(attrs.validityStop), BadTimestamp(attrs.validityStop));
    Ok(Properties(
      CoreProperties(productName, start, stop, Some(creation), None),
      MissionOnly(MissionName(attrs.mission)).(processingFacility := Some(attrs.processingFacility))))
  }

  /** Where a split, unzipped EOF product's name groups come from: the stem of its first path. */
  function EofNameSource(h: Handler, paths: seq<string>): string
    requires |paths| > 0
  {
    if UseEnclosingDirectory(h) then Root(Basename(paths[0])) else paths[0]
  }

  /** The path an EOF product's metadata come from: for a split product the greatest, its header file. */
  function EofInputPath(h: Handler, paths: seq<string>): string
    requires |paths| > 0
  {
    if UseEnclosingDirectory(h) then LexMax(paths) else paths[0]
  }

  /** `EOFProduct.analyze(paths, filename_only=True)`. */
  function AnalyzeEofName(code: string, split: bool, zipped: bool, paths: seq<string>): Result<Properties, Error> {
    if |paths| == 0 then Err(IndexError("paths[0]"))
    else
      var h := Eof(code, split, zipped);
      var source := EofNameSource(h, paths);
      ParseFilenameGroups(h, source);
      match ParseFilename(h, source)
      case None => Err(NameMismatch(source))
      case Some(attrs) => EofNameProperties(StemOf(EofInputPath(h, paths), false), attrs)
  }

  /** `parse_datetime` of an element text; a text it rejects raises. */
  function ReadTime(text: string): (r: Result<DateTime, Error>)
    ensures r.Ok? <==> ParseDateTime(text).Some?
    ensures r.Ok? ==> r.value == ParseDateTime(text).value
  {
    Need(ParseDateTime(text), BadTimestamp(text))
  }

  /** A time read from an element text is a valid datetime. */
  lemma ReadTimeValid(text: string)
    ensures ReadTime(text).Ok? ==> Valid(ReadTime(text).value)
  {
  }

  /** An element text holding a time written with microseconds and `Z` reads back as that time. */
  lemma ReadTimeRoundTrip(t: DateTime)
    requires Valid(t)
    ensures ReadTime(FormatIsoZ(t)) == Ok(t)
  {
    IsoZRoundTrip(t);
  }

  /**
   * `int` of an element text: it succeeds exactly on a non-empty string of
   * decimal digits, and the number read, written back with as many digits,
   * is the text.
   */
  function ReadInt(text: string): (r: Result<nat, Error>)
    ensures r.Ok? <==> |text| > 0 && forall k :: 0 <= k < |text| ==> IsDigit(text[k])
    ensures r.Ok? ==> Render(r.value, |text|, 10) == text
    ensures r.Ok? ==> ParseInt(text, 10) == Some(r.value)
  {
    match ParseInt(text, 10)
    case None => Err(BadInteger(text))
    case Some(n) => RenderValue(text); Ok(n)
  }

  /** Which groups a handler's filename match has. */
  lemma ParseFilenameGroups(h: Handler, filename: string)
    ensures ParseFilename(h, filename).Some? ==>
              (ParseFilename(h, filename).value.ProductName? <==> h.Safe? || h.Rvl?) &&
              (ParseFilename(h, filename).value.AuxName? <==> h.Aux?) &&
              (ParseFilename(h, filename).value.EofName? <==> h.Eof?)
  {
  }

  /** `enclosing_directory`: the directory a split product is stored in is named after the product. */
  function EnclosingDirectory(p: Properties): string {
    p.core.productName
  }

  /** The characters of a compact timestamp are digits and `T`. */
  lemma CompactFitsStamp(t: DateTime)
    requires Valid(t)
    ensures Fits(Stamp(), FormatCompact(t))
  {
    var s := FormatCompact(t);
    var y := Render(t.year, 4, 10);
    var mo := Render(t.month, 2, 10);
    var d := Render(t.day, 2, 10);
    var h := Render(t.hour, 2, 10);
    var mi := Render(t.minute, 2, 10);
    var sec := Render(t.second, 2, 10);
    assert s == y + mo + d + "T" + h + mi + sec;
    forall k | 0 <= k < 15
      ensures Admits(DigitOrT, s[k])
    {
      if k < 4 { assert s[k] == y[k]; }
      else if k < 6 { assert s[k] == mo[k - 4]; }
      else if k < 8 { assert s[k] == d[k - 6]; }
      else if k == 8 { assert s[k] == 'T'; }
      else if k < 11 { assert s[k] == h[k - 9]; }
      else if k < 13 { assert s[k] == mi[k - 11]; }
      else { assert s[k] == sec[k - 13]; }
    }
  }

  lemma RenderFitsDigits(n: nat)
    ensures Fits(Digits(6), Render(n, 6, 10))
  {
  }

  lemma RenderFitsAny(n: nat)
    ensures Fits(AnyChars(6), Render(n, 6, 16))
  {
    var s := Render(n, 6, 16);
    forall k | 0 <= k < 6
      ensures s[k] != '\n'
    {
      assert IsHexDigit(s[k]);
    }
  }

  /** A basename matched by an anchored pattern ends with the suffix; what precedes it is the joined fields. */
  lemma MatchedStem(h: Handler, path: string)
    requires (FilenamePattern(h)).anchored && Matches(FilenamePattern(h), Basename(path))
    ensures var f := Match(FilenamePattern(h), Basename(path)).value;
            Basename(path) == JoinFields(f) + FilenamePattern(h).suffix &&
            FitsAll(NameFields(h), f) && '/' !in JoinFields(f) && |JoinFields(f)| > 0 && JoinFields(f)[0] == 'S'
  {
    BasenameHasNoSlash(path);
    PatternFields(h);
    MatchedName(FilenamePattern(h), Basename(path));
  }

  /** Removing a plain extension from a name that starts with a letter and has no directory. */
  lemma StripExtension(j: string, ext: string)
    requires |j| > 0 && j[0] == 'S' && '/' !in j
    requires ext in {".SAFE", ".EOF", ".TGZ", ".nc", ".zip", ".HDR", ".DBL"}
    ensures Root(j + ext) == j
  {
    assert |ext| > 0 && ext[0] == '.' && '.' !in ext[1..] && '/' !in ext;
    RootOfSuffixed(j, ext);
  }

  /** The stem of a container name; a double extension loses only its last part at each step. */
  lemma StemOfContainer(path: string, j: string, suffix: string)
    requires Basename(path) == j + suffix && |j| > 0 && j[0] == 'S' && '/' !in j
    requires suffix in {".SAFE", ".SAFE.zip", ".EOF", ".EOF.zip", ".TGZ", ".nc"}
    ensures suffix == ".SAFE.zip" ==> StemOf(path, false) == j + ".SAFE" && StemOf(path, true) == j
    ensures suffix == ".EOF.zip" ==> StemOf(path, false) == j + ".EOF"
    ensures suffix !in {".SAFE.zip", ".EOF.zip"} ==> StemOf(path, false) == j
  {
    if suffix == ".SAFE.zip" {
      assert j + suffix == (j + ".SAFE") + ".zip";
      assert '/' !in j + ".SAFE";
      StripExtension(j + ".SAFE", ".zip");
      StripExtension(j, ".SAFE");
    } else if suffix == ".EOF.zip" {
      assert j + suffix == (j + ".EOF") + ".zip";
      assert '/' !in j + ".EOF";
      StripExtension(j + ".EOF", ".zip");
    } else {
      StripExtension(j, suffix);
    }
  }

  /**
   * The product name is the basename without its container suffix: `.SAFE`
   * and `.SAFE.zip` are both removed, while only `.zip` is removed from a
   * zipped EOF product, whose name keeps `.EOF`.
   */
  lemma ProductNameIsStem(h: Handler, path: string)
    requires !UseEnclosingDirectory(h) && Matches(FilenamePattern(h), Basename(path))
    ensures var f := Match(FilenamePattern(h), Basename(path)).value;
            var twice := (h.Safe? || h.Aux?) && h.zipped;
            var keep := if h.Eof? && !h.split && h.zipped then ".EOF" else "";
            StemOf(path, twice) == JoinFields(f) + keep
  {
    var p := FilenamePattern(h);
    MatchedStem(h, path);
    var j := JoinFields(Match(p, Basename(path)).value);
    StemOfContainer(path, j, p.suffix);
  }

  /** The one-character slice `code[i:i+1]` reads as a decimal number exactly when it is a digit. */
  lemma DigitSlice(code: string, i: nat)
    requires i < |code|
    ensures ParseInt(Slice(code, i, i + 1), 10).Some? <==> IsDigit(code[i])
    ensures IsDigit(code[i]) ==> ParseInt(Slice(code, i, i + 1), 10) == Some(DigitValue(code[i]))
  {
    var c := Slice(code, i, i + 1);
    assert c == [code[i]];
    assert c[..0] == [];
    if IsDigit(code[i]) {
      assert AllDigitsIn(c, 10);
      assert Value(c, 10) == Value(c[..0], 10) * 10 + DigitValue(c[0]);
    }
  }

  lemma SafeCodeFieldsSpec(code: string, s1: Sentinel1Properties)
    requires |code| > 0
    ensures var r := SafeCodeFields(code, s1);
            r.modeBeam == Some(code[..if |code| < 2 then |code| else 2]) &&
            (code[0] == 'S' ==> r.mode == Some("SM")) &&
            (code[0] == 'N' ==> r.mode == Some("AN")) &&
            (code[0] != 'S' && code[0] != 'N' ==> r.mode == r.modeBeam) &&
            r.productType == Some(Slice(code, 3, 6)) &&
            (r.resolutionClass.None? <==> |code| > 6 && code[6] == '_') &&
            (r.processingLevel.Some? <==> |code| > 8 && IsDigit(code[8])) &&
            (r.processingLevel.Some? ==> r.processingLevel.value == DigitValue(code[8])) &&
            r.productClass == Some(Slice(code, 9, 10))
  {
    assert Slice(code, 0, 2) == code[..if |code| < 2 then |code| else 2];
    if |code| > 6 {
      assert Slice(code, 6, 7) == [code[6]];
    } else {
      assert Slice(code, 6, 7) == "";
    }
    if |code| > 8 {
      DigitSlice(code, 8);
    } else {
      assert Slice(code, 8, 9) == "";
    }
  }

  /**
   * The SAFE product-type code decides the mode, beam, type, resolution,
   * level and class: the mode groups `S` beams as `SM` and `N` beams as
   * `AN`, the resolution is unset for `_`, and the level is unset when its
   * character is not a digit. An empty code is rejected.
   */
  lemma SafeCodeSlicing(code: string, zipped: bool, paths: seq<string>)
    requires AnalyzeSafeName(code, zipped, paths).Ok?
    ensures var s1 := AnalyzeSafeName(code, zipped, paths).value.sentinel1;
            |code| > 0 &&
            s1.modeBeam == Some(code[..if |code| < 2 then |code| else 2]) &&
            (code[0] == 'S' ==> s1.mode == Some("SM")) &&
            (code[0] == 'N' ==> s1.mode == Some("AN")) &&
            (code[0] != 'S' && code[0] != 'N' ==> s1.mode == s1.modeBeam) &&
            s1.productType == Some(Slice(code, 3, 6)) &&
            (s1.resolutionClass.None? <==> |code| > 6 && code[6] == '_') &&
            (s1.processingLevel.Some? <==> |code| > 8 && IsDigit(code[8])) &&
            (s1.processingLevel.Some? ==> s1.processingLevel.value == DigitValue(code[8])) &&
            s1.productClass == Some(Slice(code, 9, 10))
  {
    var h := Safe(code, zipped);
    ParseFilenameGroups(h, paths[0]);
    var m := ParseFilename(h, paths[0]);
    assert m.Some? && m.value.ProductName?;
    var name := StemOf(paths[0], zipped);
    assert AnalyzeSafeName(code, zipped, paths) == SafeNameProperties(code, name, m.value);
    SafeNamePropertiesCode(code, name, m.value);
    SafeCodeFieldsSpec(code, MissionOnly(MissionName(m.value.mission)));
  }

  /** The SAFE filename properties hold the fields sliced from the code. */
  lemma SafeNamePropertiesCode(code: string, productName: string, attrs: NameAttrs)
    requires attrs.ProductName? && |attrs.mission| == 3 && SafeNameProperties(code, productName, attrs).Ok?
    ensures var s1 := SafeNameProperties(code, productName, attrs).value.sentinel1;
            |code| > 0 &&
            s1 == SafeCodeFields(code, MissionOnly(MissionName(attrs.mission))).(
                    polarisation := s1.polarisation, absoluteOrbit := s1.absoluteOrbit, datatakeId := s1.datatakeId)
  {
  }

  lemma RvlCodeFieldsSpec(code: string, s1: Sentinel1Properties)
    requires RvlCodeFields(code, s1).Ok?
    ensures var r := RvlCodeFields(code, s1).value;
            r.mode == r.modeBeam && r.modeBeam == Some(Slice(code, 0, 2)) &&
            r.processingLevel.Some? && |code| > 8 && IsDigit(code[8]) &&
            r.processingLevel.value == DigitValue(code[8]) && r.resolutionClass == s1.resolutionClass
  {
    assert |code| > 8;
    DigitSlice(code, 8);
  }

  /** The RVL handler keeps the beam as the mode, sets no resolution and requires a numeric level. */
  lemma RvlCodeSlicing(code: string, paths: seq<string>)
    requires AnalyzeRvlName(code, paths).Ok?
    ensures var s1 := AnalyzeRvlName(code, paths).value.sentinel1;
            s1.mode == s1.modeBeam && s1.modeBeam == Some(Slice(code, 0, 2)) &&
            s1.processingLevel.Some? && |code| > 8 && IsDigit(code[8]) &&
            s1.processingLevel.value == DigitValue(code[8]) && s1.resolutionClass.None?
  {
    ParseFilenameGroups(Rvl(code), paths[0]);
    var m := ParseFilename(Rvl(code), paths[0]);
    assert m.Some? && m.value.ProductName?;
    var name := StemOf(paths[0], false);
    assert AnalyzeRvlName(code, paths) == RvlNameProperties(code, name, m.value);
    RvlNamePropertiesCode(code, name, m.value);
    RvlCodeFieldsSpec(code, MissionOnly(MissionName(m.value.mission)));
  }

  /**
   * The RVL filename properties hold the fields sliced from the code, the
   * validity period of the start and stop groups, the decimal orbit, the
   * hexadecimal datatake and the polarisation of their groups.
   */
  lemma RvlNamePropertiesCode(code: string, productName: string, attrs: NameAttrs)
    requires attrs.ProductName? && |attrs.mission| == 3 && RvlNameProperties(code, productName, attrs).Ok?
    ensures var s1 := RvlNameProperties(code, productName, attrs).value.sentinel1;
            RvlCodeFields(code, MissionOnly(MissionName(attrs.mission))).Ok? &&
            s1 == RvlCodeFields(code, MissionOnly(MissionName(attrs.mission))).value.(
                    polarisation := s1.polarisation, absoluteOrbit := s1.absoluteOrbit, datatakeId := s1.datatakeId)
    ensures var q := RvlNameProperties(code, productName, attrs).value;
            q.core.productName == productName &&
            Some(q.core.validityStart) == ParseCompact(attrs.validityStart) &&
            Some(q.core.validityStop) == ParseCompact(attrs.validityStop) &&
            q.core.creationDate.None? && q.core.footprint.None? &&
            q.sentinel1.absoluteOrbit == ParseInt(attrs.absoluteOrbit, 10) &&
            q.sentinel1.datatakeId == ParseInt(attrs.datatakeId, 16) &&
            q.sentinel1.polarisation == Some(attrs.polarisation)
  {
  }

  /** The fields of a SAFE name built from its values. */
  function SafeFields(mission: string, code: string, polarisation: string, start: DateTime, stop: DateTime,
                      orbit: nat, datatake: nat, crc: string): seq<string>
    requires Valid(start) && Valid(stop)
  {
    [mission, code + polarisation, FormatCompact(start), FormatCompact(stop),
     Render(orbit, 6, 10), Render(datatake, 6, 16), crc]
  }

  /** The pieces a SAFE name is built from fit its fields and hold no `/`. */
  lemma SafeFieldsFit(mission: string, code: string, polarisation: string, start: DateTime, stop: DateTime,
                      orbit: nat, datatake: nat, crc: string, zipped: bool)
    requires Fits(Mission(), mission)
    requires Valid(start) && Valid(stop)
    requires |polarisation| == 2 && |crc| == 4
    requires '/' !in code && '/' !in polarisation && '/' !in crc
    requires '\n' !in polarisation && '\n' !in crc
    ensures var f := SafeFields(mission, code, polarisation, start, stop, orbit, datatake, crc);
            FitsAll(NameFields(Safe(code, zipped)), f) && '/' !in JoinFields(f)
  {
    var f := SafeFields(mission, code, polarisation, start, stop, orbit, datatake, crc);
    var fields := NameFields(Safe(code, zipped));
    FitsConcat(Literal(code), AnyChars(2), code + polarisation);
    assert (code + polarisation)[..|code|] == code && (code + polarisation)[|code|..] == polarisation;
    FitsLiteral(code, code);
    CompactFitsStamp(start);
    CompactFitsStamp(stop);
    RenderFitsDigits(orbit);
    RenderFitsAny(datatake);
    assert Fits(fields[1], f[1]);
    forall i | 0 <= i < 7
      ensures '/' !in f[i]
    {
      if i == 0 || i == 2 || i == 3 || i == 4 || i == 5 {
        assert Fits(fields[i], f[i]);
        forall k | 0 <= k < |f[i]|
          ensures f[i][k] != '/'
        {
          assert Admits(fields[i][k], f[i][k]);
        }
      }
    }
    JoinFieldsAvoids(f, '/');
  }

  /** The groups of a SAFE name built from values are those values. */
  lemma SafeNameParses(mission: string, code: string, polarisation: string, start: DateTime, stop: DateTime,
                       orbit: nat, datatake: nat, crc: string, zipped: bool, dir: string)
    requires Fits(Mission(), mission)
    requires Valid(start) && Valid(stop)
    requires |polarisation| == 2 && |crc| == 4
    requires '/' !in code && '/' !in polarisation && '/' !in crc
    requires '\n' !in polarisation && '\n' !in crc
    ensures var f := SafeFields(mission, code, polarisation, start, stop, orbit, datatake, crc);
            var path := dir + "/" + JoinFields(f) + (if zipped then ".SAFE.zip" else ".SAFE");
            ParseFilename(Safe(code, zipped), path) ==
              Some(ProductName(mission, code, polarisation, FormatCompact(start), FormatCompact(stop),
                               Render(orbit, 6, 10), Render(datatake, 6, 16), crc)) &&
            StemOf(path, zipped) == JoinFields(f)
  {
    var h := Safe(code, zipped);
    var f := SafeFields(mission, code, polarisation, start, stop, orbit, datatake, crc);
    var path := dir + "/" + JoinFields(f) + (if zipped then ".SAFE.zip" else ".SAFE");
    SafeNameMatches(mission, code, polarisation, start, stop, orbit, datatake, crc, zipped, dir);
    ParseFilenameOf(h, path, f);
    SafeGroups(mission, code, polarisation, start, stop, orbit, datatake, crc, zipped);
    ProductNameIsStem(h, path);
  }

  /** The groups of a SAFE name built from values name those values. */
  lemma SafeGroups(mission: string, code: string, polarisation: string, start: DateTime, stop: DateTime,
                   orbit: nat, datatake: nat, crc: string, zipped: bool)
    requires Valid(start) && Valid(stop)
    requires FitsAll(NameFields(Safe(code, zipped)), SafeFields(mission, code, polarisation, start, stop, orbit, datatake, crc))
    ensures GroupDict(Safe(code, zipped), SafeFields(mission, code, polarisation, start, stop, orbit, datatake, crc)) ==
              ProductName(mission, code, polarisation, FormatCompact(start), FormatCompact(stop),
                          Render(orbit, 6, 10), Render(datatake, 6, 16), crc)
  {
    assert (code + polarisation)[..|code|] == code && (code + polarisation)[|code|..] == polarisation;
  }

  /** A SAFE name built from values matches the SAFE pattern with the values as its groups. */
  lemma SafeNameMatches(mission: string, code: string, polarisation: string, start: DateTime, stop: DateTime,
                        orbit: nat, datatake: nat, crc: string, zipped: bool, dir: string)
    requires Fits(Mission(), mission)
    requires Valid(start) && Valid(stop)
    requires |polarisation| == 2 && |crc| == 4
    requires '/' !in code && '/' !in polarisation && '/' !in crc
    requires '\n' !in polarisation && '\n' !in crc
    ensures var f := SafeFields(mission, code, polarisation, start, stop, orbit, datatake, crc);
            var path := dir + "/" + JoinFields(f) + (if zipped then ".SAFE.zip" else ".SAFE");
            Match(FilenamePattern(Safe(code, zipped)), Basename(path)) == Some(f)
  {
    var h := Safe(code, zipped);
    var f := SafeFields(mission, code, polarisation, start, stop, orbit, datatake, crc);
    var p := FilenamePattern(h);
    var name := JoinFields(f) + p.suffix;
    SafeFieldsFit(mission, code, polarisation, start, stop, orbit, datatake, crc, zipped);
    assert '/' !in name;
    BasenameAfterSlash(dir, name);
    AnchoredMatch(p, name, f);
    assert dir + "/" + name == dir + "/" + JoinFields(f) + (if zipped then ".SAFE.zip" else ".SAFE");
  }

  /** The properties of the groups of a SAFE name built from values hold those values. */
  lemma SafeValuesRead(mission: string, code: string, polarisation: string, start: DateTime, stop: DateTime,
                       orbit: nat, datatake: nat, crc: string, productName: string)
    requires |mission| == 3 && |code| > 0
    requires Valid(start) && start.microsecond == 0 && Valid(stop) && stop.microsecond == 0
    requires orbit < 1000000 && datatake < 16777216
    ensures var attrs := ProductName(mission, code, polarisation, FormatCompact(start), FormatCompact(stop),
                                     Render(orbit, 6, 10), Render(datatake, 6, 16), crc);
            var r := SafeNameProperties(code, productName, attrs);
            r.Ok? && r.value.core.productName == productName &&
            r.value.core.validityStart == start && r.value.core.validityStop == stop &&
            r.value.sentinel1.mission == MissionName(mission) &&
            r.value.sentinel1.polarisation == Some(polarisation) &&
            r.value.sentinel1.absoluteOrbit == Some(orbit) &&
            r.value.sentinel1.datatakeId == Some(datatake)
  {
    CompactRoundTrip(start);
    CompactRoundTrip(stop);
    assert Pow(10, 6) == 1000000 && Pow(16, 6) == 16777216;
    ParseRender(orbit, 6, 10);
    ParseRender(datatake, 6, 16);
  }

  /**
   * Analysing a SAFE name built from values gives those values back: the
   * validity times, the decimal orbit, the hexadecimal datatake, the
   * polarisation, the mission without placeholder, and the name without its
   * container suffix, in whatever directory the product lies.
   */
  lemma SafeNameRoundTrip(mission: string, code: string, polarisation: string, start: DateTime, stop: DateTime,
                          orbit: nat, datatake: nat, crc: string, zipped: bool, dir: string)
    requires Fits(Mission(), mission) && |code| > 0
    requires Valid(start) && start.microsecond == 0 && Valid(stop) && stop.microsecond == 0
    requires orbit < 1000000 && datatake < 16777216
    requires |polarisation| == 2 && |crc| == 4
    requires '/' !in code && '/' !in polarisation && '/' !in crc
    requires '\n' !in polarisation && '\n' !in crc
    ensures var f := SafeFields(mission, code, polarisation, start, stop, orbit, datatake, crc);
            var path := dir + "/" + JoinFields(f) + (if zipped then ".SAFE.zip" else ".SAFE");
            var r := AnalyzeSafeName(code, zipped, [path]);
            r.Ok? && r.value.core.productName == JoinFields(f) &&
            r.value.core.validityStart == start && r.value.core.validityStop == stop &&
            r.value.sentinel1.mission == MissionName(mission) &&
            r.value.sentinel1.polarisation == Some(polarisation) &&
            r.value.sentinel1.absoluteOrbit == Some(orbit) &&
            r.value.sentinel1.datatakeId == Some(datatake)
  {
    var f := SafeFields(mission, code, polarisation, start, stop, orbit, datatake, crc);
    SafeNameParses(mission, code, polarisation, start, stop, orbit, datatake, crc, zipped, dir);
    SafeValuesRead(mission, code, polarisation, start, stop, orbit, datatake, crc, JoinFields(f));
  }

  /**
   * An AUX product's validity never ends, starts at its validity group's
   * time, and its generation date is its creation date.
   */
  lemma AuxStopIsOpen(code: string, zipped: bool, paths: seq<string>)
    requires AnalyzeAuxName(code, zipped, paths).Ok?
    ensures AnalyzeAuxName(code, zipped, paths).value.core.validityStop == MaxDateTime
    ensures AnalyzeAuxName(code, zipped, paths).value.core.creationDate.Some?
    ensures var m := ParseFilename(Aux(code, zipped), paths[0]);
            var q := AnalyzeAuxName(code, zipped, paths).value;
            m.Some? && m.value.AuxName? &&
            Some(q.core.validityStart) == ParseCompact(m.value.validityStart) &&
            q.core.creationDate == ParseCompact(m.value.generationDate)
  {
    ParseFilenameGroups(Aux(code, zipped), paths[0]);
    var m := ParseFilename(Aux(code, zipped), paths[0]);
    assert m.Some? && m.value.AuxName?;
    var name := StemOf(paths[0], zipped);
    assert AnalyzeAuxName(code, zipped, paths) == AuxNameProperties(name, m.value);
    AuxNamePropertiesValues(name, m.value);
  }

  /**
   * The AUX filename properties are open-ended, start at the validity
   * group's time, were created at the generation group's time, and name
   * only the mission.
   */
  lemma AuxNamePropertiesValues(productName: string, attrs: NameAttrs)
    requires attrs.AuxName? && |attrs.mission| == 3 && AuxNameProperties(productName, attrs).Ok?
    ensures AuxNameProperties(productName, attrs).value.core.validityStop == MaxDateTime
    ensures AuxNameProperties(productName, attrs).value.core.creationDate.Some?
    ensures var q := AuxNameProperties(productName, attrs).value;
            Some(q.core.validityStart) == ParseCompact(attrs.validityStart) &&
            q.core.creationDate == ParseCompact(attrs.generationDate) &&
            q.core.productName == productName && q.core.footprint.None? &&
            q.sentinel1 == MissionOnly(MissionName(attrs.mission))
  {
  }

  lemma EofStopSentinel(productName: string, attrs: NameAttrs)
    requires attrs.EofName? && |attrs.mission| == 3 && EofNameProperties(productName, attrs).Ok?
    ensures (EofNameProperties(productName, attrs).value.core.validityStop == MaxDateTime) <==>
              (attrs.validityStop == OpenEndedStop)
  {
    SentinelIsDistinguished(attrs.validityStop);
  }

  /**
   * An EOF product's filename validity is open-ended exactly when its stop
   * field is all nines; any other stop is a real timestamp.
   */
  lemma EofFilenameSentinel(code: string, split: bool, zipped: bool, paths: seq<string>)
    requires AnalyzeEofName(code, split, zipped, paths).Ok?
    ensures var h := Eof(code, split, zipped);
            var attrs := ParseFilename(h, EofNameSource(h, paths)).value;
            attrs.EofName? &&
            (AnalyzeEofName(code, split, zipped, paths).value.core.validityStop == MaxDateTime <==>
               attrs.validityStop == OpenEndedStop)
  {
    var h := Eof(code, split, zipped);
    var source := EofNameSource(h, paths);
    ParseFilenameGroups(h, source);
    var m := ParseFilename(h, source);
    assert m.Some? && m.value.EofName?;
    var name := StemOf(EofInputPath(h, paths), false);
    assert AnalyzeEofName(code, split, zipped, paths) == EofNameProperties(name, m.value);
    EofStopSentinel(name, m.value);
  }

  /** The header file's name is the product name followed by `.HDR`. */
  lemma HeaderStem(h: Handler, hdr: string)
    requires UseEnclosingDirectory(h) && Matches(Extend(FilenamePattern(h), ".HDR"), Basename(hdr))
    ensures StemOf(hdr, false) + ".HDR" == Basename(hdr)
  {
    var q := Extend(FilenamePattern(h), ".HDR");
    BasenameHasNoSlash(hdr);
    PatternFields(h);
    MatchedName(q, Basename(hdr));
    assert q.suffix == ".HDR";
    var j := JoinFields(Match(q, Basename(hdr)).value);
    assert Basename(hdr) == j + ".HDR";
    StripExtension(j, ".HDR");
  }

  /** The product name of an EOF product is the stem of its input path. */
  lemma EofProductName(code: string, split: bool, zipped: bool, paths: seq<string>)
    requires AnalyzeEofName(code, split, zipped, paths).Ok?
    ensures AnalyzeEofName(code, split, zipped, paths).value.core.productName ==
              StemOf(EofInputPath(Eof(code, split, zipped), paths), false)
  {
    var h := Eof(code, split, zipped);
    var source := EofNameSource(h, paths);
    ParseFilenameGroups(h, source);
    var m := ParseFilename(h, source);
    assert m.Some? && m.value.EofName?;
    var name := StemOf(EofInputPath(h, paths), false);
    assert AnalyzeEofName(code, split, zipped, paths) == EofNameProperties(name, m.value);
    EofNamePropertiesValues(name, m.value);
  }

  /**
   * The EOF filename properties keep the product name they are given, take
   * the creation, start and (unless open-ended) stop times from their
   * groups, and name the mission and the processing facility.
   */
  lemma EofNamePropertiesValues(productName: string, attrs: NameAttrs)
    requires attrs.EofName? && |attrs.mission| == 3 && EofNameProperties(productName, attrs).Ok?
    ensures EofNameProperties(productName, attrs).value.core.productName == productName
    ensures var q := EofNameProperties(productName, attrs).value;
            q.core.creationDate == ParseCompact(attrs.creationDate) &&
            Some(q.core.validityStart) == ParseCompact(attrs.validityStart) &&
            (attrs.validityStop != OpenEndedStop ==> Some(q.core.validityStop) == ParseCompact(attrs.validityStop)) &&
            q.core.footprint.None? &&
            q.sentinel1 == MissionOnly(MissionName(attrs.mission)).(processingFacility := Some(attrs.processingFacility))
  {
  }

  /**
   * The two files of an identified split product give the product the name
   * of its header file without `.HDR`, whichever order they come in; that
   * name is also the enclosing directory.
   */
  lemma SplitProductName(code: string, a: string, b: string)
    requires Identify(Eof(code, true, false), [a, b])
    requires AnalyzeEofName(code, true, false, [a, b]).Ok?
    ensures var p := AnalyzeEofName(code, true, false, [a, b]).value;
            EnclosingDirectory(p) == p.core.productName &&
            p.core.productName + ".HDR" == Basename(SortPair(a, b).1) &&
            (AnalyzeEofName(code, true, false, [b, a]).Ok? ==>
               AnalyzeEofName(code, true, false, [b, a]).value.core.productName == p.core.productName)
  {
    var h := Eof(code, true, false);
    var hdr := SortPair(a, b).1;
    LexMaxOfPair(a, b);
    LexMaxOfPair(b, a);
    LexLessAsymmetric(a, b);
    LexLessTotal(a, b);
    assert SortPair(b, a).1 == hdr;
    HeaderStem(h, hdr);
    EofProductName(code, true, false, [a, b]);
    if AnalyzeEofName(code, true, false, [b, a]).Ok? {
      EofProductName(code, true, false, [b, a]);
    }
  }
}
