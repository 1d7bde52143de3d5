/**
 * What the RVL handler takes from the global attributes of its NetCDF file
 * when the product is analysed in full and a NetCDF reader is installed.
 * The footprint attribute is a GeoJSON text, given here already decoded.
 */
module RvlAttributes {
  import opened Wrappers
  import opened Timestamps
  import opened Failures
  import opened Geometry
  import opened Analysis

  /** The global attributes the handler fetches; the orbit and the cycle are arrays. */
  datatype NetCdfAttributes = NetCdfAttributes(
    timeCoverageStart: string,
    timeCoverageEnd: string,
    dateCreated: string,
    footprint: FeatureCollection,
    relativeOrbit: seq<int>,
    orbitDirection: string,
    processingCenter: string,
    processorName: string,
    processorVersion: string,
    cycle: seq<int>)

  /** A `%Y-%m-%dT%H:%M:%S.%fZ` attribute. */
  function ReadFractionZ(text: string): Result<DateTime, Error> {
    Need(ParseFractionZ(text), BadTimestamp(text))
  }

  /** The first element of an array attribute. */
  function First(values: seq<int>, name: string): Result<int, Error> {
    if |values| == 0 then Err(IndexError(name + "[0]")) else Ok(values[0])
  }

  /** `RVLProduct._analyze_netcdf` with the file open, in the handler's order. */
  function ApplyNetCdf(a: NetCdfAttributes, p: Properties): Result<Properties, Error> {
    var start :- ReadFractionZ(a.timeCoverageStart);
    var stop :- ReadFractionZ(a.timeCoverageEnd);
    var creation :- ReadFractionZ(a.dateCreated);
    var footprint :- RvlFootprint(a.footprint);
    var relative :- First(a.relativeOrbit, "relative_orbit");
    var cycle :- First(a.cycle, "cycle");
    Ok(Properties(
      p.core.(validityStart := start, validityStop := stop, creationDate := Some(creation),
              footprint := Some(footprint)),
      p.sentinel1.(relativeOrbit := Some(relative), orbitDirection := Some(a.orbitDirection),
                   processingFacility := Some(a.processingCenter), processorName := Some(a.processorName),
                   processorVersion := Some(a.processorVersion), cycle := Some(cycle))))
  }

  /**
   * `RVLProduct.analyze`. `reader` is the file's attributes as the NetCDF
   * reader gives them, or `None` when no reader is installed, in which case
   * the analysis quietly keeps the filename properties.
   */
  function AnalyzeRvl(code: string, paths: seq<string>, filenameOnly: bool,
                      reader: Option<NetCdfAttributes>): Result<Properties, Error> {
    var p :- AnalyzeRvlName(code, paths);
    if filenameOnly || reader.None? then Ok(p) else ApplyNetCdf(reader.value, p)
  }

  /**
   * The file's attributes give the validity period, the creation date, the
   * footprint built from the feature collection, the first relative orbit
   * and cycle, and the processing centre and processor; the orbit direction
   * is kept as written. The product name and the name's fields stay.
   */
  lemma NetCdfValues(a: NetCdfAttributes, p: Properties)
    requires ApplyNetCdf(a, p).Ok?
    ensures var q := ApplyNetCdf(a, p).value;
            RvlFootprint(a.footprint).Ok? && |a.relativeOrbit| > 0 && |a.cycle| > 0 &&
            Some(q.core.validityStart) == ParseFractionZ(a.timeCoverageStart) &&
            Some(q.core.validityStop) == ParseFractionZ(a.timeCoverageEnd) &&
            q.core.creationDate == ParseFractionZ(a.dateCreated) &&
            q.core.footprint == Some(RvlFootprint(a.footprint).value) &&
            q.sentinel1.relativeOrbit == Some(a.relativeOrbit[0]) &&
            q.sentinel1.cycle == Some(a.cycle[0]) &&
            q.sentinel1.orbitDirection == Some(a.orbitDirection) &&
            q.sentinel1.processingFacility == Some(a.processingCenter) &&
            q.sentinel1.processorName == Some(a.processorName) &&
            q.sentinel1.processorVersion == Some(a.processorVersion) &&
            q.core.productName == p.core.productName &&
            q.sentinel1 == p.sentinel1.(relativeOrbit := q.sentinel1.relativeOrbit,
                                        orbitDirection := q.sentinel1.orbitDirection,
                                        processingFacility := q.sentinel1.processingFacility,
                                        processorName := q.sentinel1.processorName,
                                        processorVersion := q.sentinel1.processorVersion,
                                        cycle := q.sentinel1.cycle)
  {
  }

  /** A footprint that is not a FeatureCollection of well-formed features, or an empty orbit array, fails. */
  lemma NetCdfRequires(a: NetCdfAttributes, p: Properties)
    ensures a.footprint.kind != "FeatureCollection" ==> ApplyNetCdf(a, p).Err?
    ensures (exists i :: 0 <= i < |a.footprint.features| && !WellFormed(a.footprint.features[i])) ==>
              ApplyNetCdf(a, p).Err?
    ensures a.relativeOrbit == [] || a.cycle == [] ==> ApplyNetCdf(a, p).Err?
  {
    RvlFootprintShape(a.footprint);
    if ApplyNetCdf(a, p).Ok? {
      NetCdfValues(a, p);
    }
  }

  /** Without a NetCDF reader a full analysis gives the filename properties. */
  lemma RvlWithoutReader(code: string, paths: seq<string>, filenameOnly: bool, a: NetCdfAttributes)
    ensures AnalyzeRvl(code, paths, filenameOnly, None) == AnalyzeRvlName(code, paths)
    ensures AnalyzeRvl(code, paths, true, Some(a)) == AnalyzeRvlName(code, paths)
  {
  }
}
