/**
 * What the SAFE and AUX handlers take from `manifest.safe` when the product
 * is analysed in full. The XML document is reduced to the elements and
 * attributes the handlers look up: an absent value stands for a `find` that
 * gives `None` or a `get` of a missing attribute. Applying a manifest turns
 * the filename properties into the full properties, or fails where the
 * handler raises.
 */
module Manifests {
  import opened Wrappers
  import opened Text
  import opened Numerals
  import opened Timestamps
  import opened Failures
  import opened Geometry
  import opened Analysis

  /** The namespace the `s1sar` prefix stands for: plain `sar`, `sar/level-1` or `sar/level-2`. */
  datatype SarNamespace = SarDefault | SarLevel1 | SarLevel2

  /**
   * The `s1sar` namespace for a product: level 1 and `2A`-class products use
   * the level-1 namespace, other level-2 products the level-2 one, and a
   * product without a level (ETAD) the level-1 one when its type is `ETA`.
   */
  function SarNamespaceFor(code: string, s1: Sentinel1Properties): SarNamespace {
    if s1.processingLevel.Some? then
      if s1.processingLevel.value == 1 || Slice(code, 8, 10) == "2A" then SarLevel1
      else if s1.processingLevel.value == 2 then SarLevel2
      else SarDefault
    else if s1.productType == Some("ETA") then SarLevel1
    else SarDefault
  }

  /**
   * The namespace decision read off the product type code: a level digit
   * `1`, or the class `2A`, selects level 1; another level `2` selects level
   * 2; any other level digit keeps the default; without a level digit, the
   * type `ETA` selects level 1 and anything else the default.
   */
  lemma NamespaceForCode(code: string, s1: Sentinel1Properties)
    requires s1.processingLevel.Some? <==> |code| > 8 && IsDigit(code[8])
    requires s1.processingLevel.Some? ==> s1.processingLevel.value == DigitValue(code[8])
    requires s1.productType == Some(Slice(code, 3, 6))
    ensures var ns := SarNamespaceFor(code, s1);
            var level := |code| > 8 && IsDigit(code[8]);
            (level && (code[8] == '1' || Slice(code, 8, 10) == "2A") ==> ns == SarLevel1) &&
            (level && code[8] == '2' && Slice(code, 8, 10) != "2A" ==> ns == SarLevel2) &&
            (level && code[8] != '1' && code[8] != '2' ==> ns == SarDefault) &&
            (!level && Slice(code, 3, 6) == "ETA" ==> ns == SarLevel1) &&
            (!level && Slice(code, 3, 6) != "ETA" ==> ns == SarDefault)
  {
  }

  /** The same decision for the properties of an analysed SAFE name. */
  lemma SafeNamespaceTable(code: string, zipped: bool, paths: seq<string>)
    requires AnalyzeSafeName(code, zipped, paths).Ok?
    ensures var ns := SarNamespaceFor(code, AnalyzeSafeName(code, zipped, paths).value.sentinel1);
            var level := |code| > 8 && IsDigit(code[8]);
            (level && (code[8] == '1' || Slice(code, 8, 10) == "2A") ==> ns == SarLevel1) &&
            (level && code[8] == '2' && Slice(code, 8, 10) != "2A" ==> ns == SarLevel2) &&
            (level && code[8] != '1' && code[8] != '2' ==> ns == SarDefault) &&
            (!level && Slice(code, 3, 6) == "ETA" ==> ns == SarLevel1) &&
            (!level && Slice(code, 3, 6) != "ETA" ==> ns == SarDefault)
  {
    SafeCodeSlicing(code, zipped, paths);
    NamespaceForCode(code, AnalyzeSafeName(code, zipped, paths).value.sentinel1);
  }

  datatype Software = Software(name: Option<string>, version: Option<string>)

  /** A `safe:facility` element: its `site` attribute and its first `safe:software` child. */
  datatype Facility = Facility(site: Option<string>, software: Option<Software>)

  /**
   * The `safe:processing` element of `xmlData`: its `stop` attribute, its
   * `safe:facility` children in document order and its first direct
   * `safe:software` child.
   */
  datatype Processing = Processing(stop: Option<string>, facilities: seq<Facility>, software: Option<Software>)

  datatype AcquisitionPeriod = AcquisitionPeriod(startTime: Option<string>, stopTime: Option<string>)

  /** `safe:orbitReference`: the start orbit numbers, the cycle and the `s1:pass` extension. */
  datatype OrbitReference = OrbitReference(
    orbitNumber: Option<string>,
    relativeOrbitNumber: Option<string>,
    cycleNumber: Option<string>,
    pass: Option<string>)

  /**
   * A SAFE manifest: the first element found on each path (of the
   * processing element, all its facilities), the texts of all
   * footprint coordinates in document order, the `stop` attribute of each
   * downlinked raw-data stream in document order, and the elements that are
   * looked up in the `s1sar` namespace, by the namespace they are found in.
   */
  datatype SafeManifest = SafeManifest(
    acquisitionPeriod: Option<AcquisitionPeriod>,
    processing: Option<Processing>,
    footprints: seq<string>,
    orbitReference: Option<OrbitReference>,
    instrumentConfigurationIds: map<SarNamespace, string>,
    downlinkStops: seq<Option<string>>,
    timeliness: map<SarNamespace, string>)

  function Lookup(elements: map<SarNamespace, string>, ns: SarNamespace): (r: Option<string>)
    ensures r.Some? <==> ns in elements
    ensures r.Some? ==> r.value == elements[ns]
  {
    if ns in elements then Some(elements[ns]) else None
  }

  /** The `stop` attribute of one downlinked stream, read as a time. */
  function StopTime(stop: Option<string>): (r: Result<DateTime, Error>)
    ensures r.Ok? <==> stop.Some? && ParseDateTime(stop.value).Some?
    ensures r.Ok? ==> Some(r.value) == ParseDateTime(stop.value)
  {
    var text :- Need(stop, MissingElement("safe:processing/@stop"));
    ReadTime(text)
  }

  /** The times of the downlinked streams, in order; the first stream without a readable stop fails the whole. */
  function DownlinkTimes(stops: seq<Option<string>>): Result<seq<DateTime>, Error> {
    if stops == [] then Ok([])
    else
      var init :- DownlinkTimes(stops[..|stops| - 1]);
      var t :- StopTime(stops[|stops| - 1]);
      Ok(init + [t])
  }

  lemma DownlinkTimesSpec(stops: seq<Option<string>>)
    ensures DownlinkTimes(stops).Ok? <==> forall i :: 0 <= i < |stops| ==> StopTime(stops[i]).Ok?
    ensures DownlinkTimes(stops).Ok? ==>
              var ts := DownlinkTimes(stops).value;
              |ts| == |stops| && forall i :: 0 <= i < |ts| ==> ts[i] == StopTime(stops[i]).value
  {
    DownlinkTimesOk(stops);
    if DownlinkTimes(stops).Ok? {
      DownlinkTimesValues(stops);
    }
  }

  /** The times are read exactly when every stream's stop reads as a time. */
  lemma DownlinkTimesOk(stops: seq<Option<string>>)
    ensures DownlinkTimes(stops).Ok? <==> forall i :: 0 <= i < |stops| ==> StopTime(stops[i]).Ok?
  {
    if DownlinkTimes(stops).Ok? {
      DownlinkTimesValues(stops);
    } else if forall i :: 0 <= i < |stops| ==> StopTime(stops[i]).Ok? {
      DownlinkTimesRead(stops);
    }
  }

  /** When every stream's stop reads as a time, the times are read. */
  lemma {:induction false} DownlinkTimesRead(stops: seq<Option<string>>)
    requires forall i :: 0 <= i < |stops| ==> StopTime(stops[i]).Ok?
    ensures DownlinkTimes(stops).Ok?
  {
    if stops != [] {
      var init := stops[..|stops| - 1];
      forall i | 0 <= i < |init|
        ensures StopTime(init[i]).Ok?
      {
        assert init[i] == stops[i];
      }
      DownlinkTimesRead(init);
      assert StopTime(stops[|stops| - 1]).Ok?;
    }
  }

  /** The times are the streams' stops, in order. */
  lemma {:induction false} DownlinkTimesValues(stops: seq<Option<string>>)
    requires DownlinkTimes(stops).Ok?
    ensures var ts := DownlinkTimes(stops).value;
            |ts| == |stops| &&
            forall i :: 0 <= i < |ts| ==> StopTime(stops[i]).Ok? && ts[i] == StopTime(stops[i]).value
  {
    if stops != [] {
      var init := stops[..|stops| - 1];
      var r := DownlinkTimes(init);
      var t := StopTime(stops[|stops| - 1]);
      assert r.Ok? && t.Ok?;
      DownlinkTimesValues(init);
      var ts := r.value + [t.value];
      assert DownlinkTimes(stops).value == ts;
      forall i | 0 <= i < |ts|
        ensures StopTime(stops[i]).Ok? && ts[i] == StopTime(stops[i]).value
      {
        if i < |init| {
          assert init[i] == stops[i];
          assert StopTime(init[i]).Ok? && r.value[i] == StopTime(init[i]).value;
          assert ts[i] == r.value[i];
        } else {
          assert i == |stops| - 1;
          assert ts[i] == t.value;
        }
      }
    }
  }

  /** `find("./safe:facility/safe:software")`: the first software element under any of the facilities. */
  function FacilitySoftware(facilities: seq<Facility>): Option<Software> {
    if facilities == [] then None
    else if facilities[0].software.Some? then facilities[0].software
    else FacilitySoftware(facilities[1..])
  }

  /**
   * The first software under the facilities is that of the first facility
   * that has one; there is none exactly when no facility has software.
   */
  lemma {:induction false} FacilitySoftwareFirst(facilities: seq<Facility>)
    ensures FacilitySoftware(facilities).Some? <==> exists i :: 0 <= i < |facilities| && facilities[i].software.Some?
    ensures FacilitySoftware(facilities).Some? ==>
              exists i :: 0 <= i < |facilities| && facilities[i].software == FacilitySoftware(facilities) &&
                          forall j :: 0 <= j < i ==> facilities[j].software.None?
  {
    if facilities != [] && facilities[0].software.None? {
      var rest := facilities[1..];
      FacilitySoftwareFirst(rest);
      if exists i :: 0 <= i < |facilities| && facilities[i].software.Some? {
        var i :| 0 <= i < |facilities| && facilities[i].software.Some?;
        assert i > 0 && rest[i - 1] == facilities[i];
      }
      if FacilitySoftware(rest).Some? {
        var i :| 0 <= i < |rest| && rest[i].software == FacilitySoftware(rest) &&
                 forall j :: 0 <= j < i ==> rest[j].software.None?;
        assert facilities[i + 1] == rest[i];
        forall j | 0 <= j < i + 1
          ensures facilities[j].software.None?
        {
          if j > 0 { assert facilities[j] == rest[j - 1]; }
        }
      }
    }
  }

  /** The software element: the one under `processing`, else the first one under its facilities. */
  function SoftwareElement(processing: Processing): Option<Software> {
    if processing.software.Some? then processing.software
    else FacilitySoftware(processing.facilities)
  }

  /** The validity period, the creation date and the footprint. */
  function ManifestCore(m: SafeManifest, core: CoreProperties): (r: Result<CoreProperties, Error>)
    ensures r.Ok? ==> m.processing.Some? && r.value.productName == core.productName
  {
    var period :- Need(m.acquisitionPeriod, MissingElement("safe:acquisitionPeriod"));
    var startText :- Need(period.startTime, MissingElement("safe:startTime"));
    var start :- ReadTime(startText);
    var stopText :- Need(period.stopTime, MissingElement("safe:stopTime"));
    var stop :- ReadTime(stopText);
    var processing :- Need(m.processing, MissingElement("safe:processing"));
    var creationText :- Need(processing.stop, MissingElement("safe:processing/@stop"));
    var creation :- ReadTime(creationText);
    Ok(core.(validityStart := start, validityStop := stop, creationDate := Some(creation),
             footprint := Some(SafeFootprint(m.footprints))))
  }

  /** The orbit numbers, the cycle and, when given, the orbit direction. */
  function ManifestOrbit(orbit: Option<OrbitReference>, s1: Sentinel1Properties): Result<Sentinel1Properties, Error> {
    var ref :- Need(orbit, MissingElement("safe:orbitReference"));
    var absText :- Need(ref.orbitNumber, MissingElement("safe:orbitNumber"));
    var absolute :- ReadInt(absText);
    var relText :- Need(ref.relativeOrbitNumber, MissingElement("safe:relativeOrbitNumber"));
    var relative :- ReadInt(relText);
    var cycleText :- Need(ref.cycleNumber, MissingElement("safe:cycleNumber"));
    var cycle :- ReadInt(cycleText);
    Ok(s1.(absoluteOrbit := Some(absolute), relativeOrbit := Some(relative), cycle := Some(cycle),
           orbitDirection := if ref.pass.Some? then Some(Lower(ref.pass.value)) else s1.orbitDirection))
  }

  /** The instrument configuration, the downlink date, the facility, the software and the timeliness. */
  function ManifestSources(ns: SarNamespace, m: SafeManifest, processing: Processing,
                           s1: Sentinel1Properties): Result<Sentinel1Properties, Error> {
    var confText :- Need(Lookup(m.instrumentConfigurationIds, ns), MissingElement("s1sar:instrumentConfigurationID"));
    var conf :- ReadInt(confText);
    var downlinks :- DownlinkTimes(m.downlinkStops);
    var software := SoftwareElement(processing);
    Ok(s1.(instrConfId := Some(conf),
           downlinkDate := if downlinks != [] then Some(Latest(downlinks)) else s1.downlinkDate,
           processingFacility := if processing.facilities != [] then processing.facilities[0].site
                                 else s1.processingFacility,
           processorName := if software.Some? then software.value.name else s1.processorName,
           processorVersion := if software.Some? then software.value.version else s1.processorVersion,
           timeliness := if ns in m.timeliness then Some(m.timeliness[ns]) else s1.timeliness))
  }

  /** `SAFEProduct._analyze_manifest`: the properties after reading the manifest, in the handler's order. */
  function ApplySafeManifest(code: string, m: SafeManifest, p: Properties): Result<Properties, Error> {
    var ns := SarNamespaceFor(code, p.sentinel1);
    var core :- ManifestCore(m, p.core);
    var orbit :- ManifestOrbit(m.orbitReference, p.sentinel1);
    var s1 :- ManifestSources(ns, m, m.processing.value, orbit);
    Ok(Properties(core, s1))
  }

  /** `SAFEProduct.analyze`: the filename properties, then the manifest unless only the filename is asked for. */
  function AnalyzeSafe(code: string, zipped: bool, paths: seq<string>, filenameOnly: bool,
                       m: SafeManifest): Result<Properties, Error> {
    var p :- AnalyzeSafeName(code, zipped, paths);
    if filenameOnly then Ok(p) else ApplySafeManifest(code, m, p)
  }

  /** The manifest replaces the validity and creation times with its own and adds the footprint. */
  lemma ManifestCoreValues(m: SafeManifest, core: CoreProperties)
    requires ManifestCore(m, core).Ok?
    ensures var c := ManifestCore(m, core).value;
            var period := m.acquisitionPeriod.value;
            m.acquisitionPeriod.Some? && period.startTime.Some? && period.stopTime.Some? &&
            m.processing.value.stop.Some? &&
            Some(c.validityStart) == ParseDateTime(period.startTime.value) &&
            Some(c.validityStop) == ParseDateTime(period.stopTime.value) &&
            c.creationDate == ParseDateTime(m.processing.value.stop.value) &&
            c.footprint == Some(SafeFootprint(m.footprints)) &&
            c.productName == core.productName
  {
  }

  /**
   * The orbit numbers and the cycle are read as decimals; the orbit direction
   * is the pass in lower case when the manifest gives one, and is otherwise
   * left as it was.
   */
  lemma ManifestOrbitValues(orbit: Option<OrbitReference>, s1: Sentinel1Properties)
    requires ManifestOrbit(orbit, s1).Ok?
    ensures var r := ManifestOrbit(orbit, s1).value;
            var ref := orbit.value;
            orbit.Some? && ref.orbitNumber.Some? && ref.relativeOrbitNumber.Some? && ref.cycleNumber.Some? &&
            r.absoluteOrbit == ParseInt(ref.orbitNumber.value, 10) &&
            r.relativeOrbit == ParseInt(ref.relativeOrbitNumber.value, 10) &&
            r.cycle == ParseInt(ref.cycleNumber.value, 10) &&
            (ref.pass.Some? ==> r.orbitDirection == Some(Lower(ref.pass.value))) &&
            (ref.pass.None? ==> r.orbitDirection == s1.orbitDirection) &&
            r == s1.(absoluteOrbit := r.absoluteOrbit, relativeOrbit := r.relativeOrbit,
                     cycle := r.cycle, orbitDirection := r.orbitDirection)
  {
  }

  /**
   * The instrument configuration comes from the chosen namespace; the
   * downlink date is the latest downlink stop when there is one; the
   * first facility's site is taken when there is a facility; the software
   * element, when there is one, gives the processor; the timeliness is taken
   * only when the chosen namespace has one. Nothing else changes.
   */
  lemma ManifestSourcesValues(ns: SarNamespace, m: SafeManifest, processing: Processing, s1: Sentinel1Properties)
    requires ManifestSources(ns, m, processing, s1).Ok?
    ensures var r := ManifestSources(ns, m, processing, s1).value;
            var software := SoftwareElement(processing);
            ns in m.instrumentConfigurationIds &&
            r.instrConfId == ParseInt(m.instrumentConfigurationIds[ns], 10) &&
            (m.downlinkStops == [] ==> r.downlinkDate == s1.downlinkDate) &&
            (m.downlinkStops != [] ==> r.downlinkDate == Some(Latest(DownlinkTimes(m.downlinkStops).value))) &&
            (processing.facilities != [] ==> r.processingFacility == processing.facilities[0].site) &&
            (processing.facilities == [] ==> r.processingFacility == s1.processingFacility) &&
            (software.Some? ==> r.processorName == software.value.name &&
                                r.processorVersion == software.value.version) &&
            (software.None? ==> r.processorName == s1.processorName && r.processorVersion == s1.processorVersion) &&
            (ns in m.timeliness ==> r.timeliness == Some(m.timeliness[ns])) &&
            (ns !in m.timeliness ==> r.timeliness == s1.timeliness) &&
            r == s1.(instrConfId := r.instrConfId, downlinkDate := r.downlinkDate,
                     processingFacility := r.processingFacility, processorName := r.processorName,
                     processorVersion := r.processorVersion, timeliness := r.timeliness)
  {
    DownlinkTimesSpec(m.downlinkStops);
  }

  /**
   * The software fallback: the processing element's own software, else that
   * of the first facility that has software, else none.
   */
  lemma SoftwareFallback(processing: Processing)
    ensures processing.software.Some? ==> SoftwareElement(processing) == processing.software
    ensures SoftwareElement(processing).Some? <==>
              processing.software.Some? ||
              exists i :: 0 <= i < |processing.facilities| && processing.facilities[i].software.Some?
    ensures processing.software.None? && SoftwareElement(processing).Some? ==>
              exists i :: 0 <= i < |processing.facilities| &&
                          processing.facilities[i].software == SoftwareElement(processing) &&
                          forall j :: 0 <= j < i ==> processing.facilities[j].software.None?
  {
    FacilitySoftwareFirst(processing.facilities);
  }

  /** The downlink date is one of the downlink stops, and no downlink stop is later. */
  lemma DownlinkDateIsLatest(stops: seq<Option<string>>)
    requires stops != [] && DownlinkTimes(stops).Ok?
    ensures var d := Latest(DownlinkTimes(stops).value);
            (exists i :: 0 <= i < |stops| && StopTime(stops[i]) == Ok(d)) &&
            forall i :: 0 <= i < |stops| ==> StopTime(stops[i]).Ok? && !Before(d, StopTime(stops[i]).value)
  {
    DownlinkTimesSpec(stops);
    var ts := DownlinkTimes(stops).value;
    LatestIsMaximum(ts);
    var k :| 0 <= k < |ts| && ts[k] == Latest(ts);
    assert StopTime(stops[k]) == Ok(Latest(ts));
  }

  /**
   * Reading a SAFE manifest keeps the product name and every property the
   * filename gave except the validity period and the absolute orbit, which
   * the manifest gives anew; the orbit direction comes out in lower case.
   */
  lemma SafeManifestKeeps(code: string, m: SafeManifest, p: Properties)
    requires ApplySafeManifest(code, m, p).Ok?
    ensures var q := ApplySafeManifest(code, m, p).value;
            q.core.productName == p.core.productName &&
            q.sentinel1.mission == p.sentinel1.mission &&
            q.sentinel1.mode == p.sentinel1.mode &&
            q.sentinel1.modeBeam == p.sentinel1.modeBeam &&
            q.sentinel1.productType == p.sentinel1.productType &&
            q.sentinel1.resolutionClass == p.sentinel1.resolutionClass &&
            q.sentinel1.processingLevel == p.sentinel1.processingLevel &&
            q.sentinel1.productClass == p.sentinel1.productClass &&
            q.sentinel1.polarisation == p.sentinel1.polarisation &&
            q.sentinel1.datatakeId == p.sentinel1.datatakeId &&
            (q.sentinel1.orbitDirection != p.sentinel1.orbitDirection ==>
               q.sentinel1.orbitDirection.Some? &&
               forall k :: 0 <= k < |q.sentinel1.orbitDirection.value| ==> !IsUpper(q.sentinel1.orbitDirection.value[k]))
  {
    var orbit := ManifestOrbit(m.orbitReference, p.sentinel1).value;
    ManifestOrbitValues(m.orbitReference, p.sentinel1);
    ManifestSourcesValues(SarNamespaceFor(code, p.sentinel1), m, m.processing.value, orbit);
  }

  /**
   * The manifest's own values: its validity period, creation date, footprint,
   * orbit numbers, and the instrument configuration of the namespace chosen
   * from the product's level.
   */
  lemma SafeManifestValues(code: string, m: SafeManifest, p: Properties)
    requires ApplySafeManifest(code, m, p).Ok?
    ensures var q := ApplySafeManifest(code, m, p).value;
            var ns := SarNamespaceFor(code, p.sentinel1);
            var period := m.acquisitionPeriod.value;
            var ref := m.orbitReference.value;
            m.acquisitionPeriod.Some? && period.startTime.Some? && period.stopTime.Some? &&
            m.orbitReference.Some? && ref.orbitNumber.Some? && ns in m.instrumentConfigurationIds &&
            Some(q.core.validityStart) == ParseDateTime(period.startTime.value) &&
            Some(q.core.validityStop) == ParseDateTime(period.stopTime.value) &&
            q.core.footprint == Some(SafeFootprint(m.footprints)) &&
            q.sentinel1.absoluteOrbit == ParseInt(ref.orbitNumber.value, 10) &&
            q.sentinel1.instrConfId == ParseInt(m.instrumentConfigurationIds[ns], 10) &&
            (ns in m.timeliness ==> q.sentinel1.timeliness == Some(m.timeliness[ns])) &&
            (ns !in m.timeliness ==> q.sentinel1.timeliness == p.sentinel1.timeliness) &&
            (m.downlinkStops != [] ==> q.sentinel1.downlinkDate.Some?) &&
            (m.downlinkStops == [] ==> q.sentinel1.downlinkDate == p.sentinel1.downlinkDate)
  {
    ManifestCoreValues(m, p.core);
    var orbit := ManifestOrbit(m.orbitReference, p.sentinel1).value;
    ManifestOrbitValues(m.orbitReference, p.sentinel1);
    ManifestSourcesValues(SarNamespaceFor(code, p.sentinel1), m, m.processing.value, orbit);
  }

  /** A manifest without the element the handler requires makes the analysis fail. */
  lemma SafeManifestRequires(code: string, m: SafeManifest, p: Properties)
    ensures m.acquisitionPeriod.None? ==> ApplySafeManifest(code, m, p) == Err(MissingElement("safe:acquisitionPeriod"))
    ensures m.processing.None? || m.orbitReference.None? ==> ApplySafeManifest(code, m, p).Err?
    ensures SarNamespaceFor(code, p.sentinel1) !in m.instrumentConfigurationIds ==> ApplySafeManifest(code, m, p).Err?
  {
    if ApplySafeManifest(code, m, p).Ok? {
      SafeManifestValues(code, m, p);
    }
  }

  /** Analysing the filename only gives the filename properties. */
  lemma SafeFilenameOnly(code: string, zipped: bool, paths: seq<string>, m: SafeManifest)
    ensures AnalyzeSafe(code, zipped, paths, true, m) == AnalyzeSafeName(code, zipped, paths)
  {
  }

  /** An AUX manifest: the validity and generation texts, the instrument configuration and the facility. */
  datatype AuxManifest = AuxManifest(
    validity: Option<string>,
    generation: Option<string>,
    instrumentConfigurationId: Option<string>,
    facility: Option<Facility>)

  /** `AUXProduct._analyze_manifest`: the validity never ends, whatever the manifest says. */
  function ApplyAuxManifest(m: AuxManifest, p: Properties): (r: Result<Properties, Error>)
    ensures r.Ok? ==> r.value.core.validityStop == MaxDateTime
  {
    var startText :- Need(m.validity, MissingElement("s1auxsar:validity"));
    var start :- ReadTime(startText);
    var creationText :- Need(m.generation, MissingElement("s1auxsar:generation"));
    var creation :- ReadTime(creationText);
    var confText :- Need(m.instrumentConfigurationId, MissingElement("s1auxsar:instrumentConfigurationId"));
    var conf :- ReadInt(confText);
    var facility :- Need(m.facility, MissingElement("safe:facility"));
    Ok(Properties(
      p.core.(validityStart := start, validityStop := MaxDateTime, creationDate := Some(creation)),
      p.sentinel1.(instrConfId := Some(conf), processingFacility := facility.site)))
  }

  /** `AUXProduct.analyze`. */
  function AnalyzeAux(code: string, zipped: bool, paths: seq<string>, filenameOnly: bool,
                      m: AuxManifest): Result<Properties, Error> {
    var p :- AnalyzeAuxName(code, zipped, paths);
    if filenameOnly then Ok(p) else ApplyAuxManifest(m, p)
  }

  /**
   * An AUX manifest gives the start, the creation date, the instrument
   * configuration and the facility's site; every other field, among them
   * the product name, the mission and the footprint, stays as the filename
   * left it.
   */
  lemma AuxManifestValues(m: AuxManifest, p: Properties)
    requires ApplyAuxManifest(m, p).Ok?
    ensures var q := ApplyAuxManifest(m, p).value;
            m.validity.Some? && m.generation.Some? && m.instrumentConfigurationId.Some? && m.facility.Some? &&
            Some(q.core.validityStart) == ParseDateTime(m.validity.value) &&
            q.core.creationDate == ParseDateTime(m.generation.value) &&
            q.sentinel1.instrConfId == ParseInt(m.instrumentConfigurationId.value, 10) &&
            q.sentinel1.processingFacility == m.facility.value.site &&
            q.core.productName == p.core.productName && q.core.footprint == p.core.footprint &&
            q.sentinel1.mission == p.sentinel1.mission &&
            q.core == p.core.(validityStart := q.core.validityStart, validityStop := MaxDateTime,
                              creationDate := q.core.creationDate) &&
            q.sentinel1 == p.sentinel1.(instrConfId := q.sentinel1.instrConfId,
                                        processingFacility := q.sentinel1.processingFacility)
  {
  }

  /** An AUX product's validity is open-ended with or without its manifest. */
  lemma AuxAlwaysOpen(code: string, zipped: bool, paths: seq<string>, filenameOnly: bool, m: AuxManifest)
    requires AnalyzeAux(code, zipped, paths, filenameOnly, m).Ok?
    ensures AnalyzeAux(code, zipped, paths, filenameOnly, m).value.core.validityStop == MaxDateTime
  {
    var p := AnalyzeAuxName(code, zipped, paths);
    assert p.Ok?;
    if filenameOnly {
      AuxStopIsOpen(code, zipped, paths);
    } else {
      assert AnalyzeAux(code, zipped, paths, filenameOnly, m) == ApplyAuxManifest(m, p.value);
    }
  }
}
