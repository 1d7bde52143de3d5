/**
 * What the EOF handler takes from an Earth Explorer header when the product
 * is analysed in full: the header's validity period, creation date, source
 * system and creator override what the filename gave, and its optional
 * configuration identifier becomes the instrument configuration.
 */
module EofHeaders {
  import opened Wrappers
  import opened Timestamps
  import opened Numerals
  import opened Failures
  import opened Analysis
  import Handlers

  /** The `Fixed_Header` and `Variable_Header` texts the handler reads; an absent one is a `find` that gives `None`. */
  datatype EofHeader = EofHeader(
    validityStart: Option<string>,
    validityStop: Option<string>,
    creationDate: Option<string>,
    system: Option<string>,
    creator: Option<string>,
    creatorVersion: Option<string>,
    configurationIdentifier: Option<string>)

  /** The header's stop of a file that never expires. */
  const OpenEndedHeaderStop := "UTC=9999-99-99T99:99:99"

  function ReadUtc(text: string): Result<DateTime, Error> {
    Need(ParseUtc(text), BadTimestamp(text))
  }

  /**
   * The header's validity stop: the all-nines text is the open end, and any
   * other text is a timestamp, which can never be mistaken for the open end.
   */
  function HeaderStop(text: string): (r: Result<DateTime, Error>)
    ensures r.Ok? ==> (r.value == MaxDateTime <==> text == OpenEndedHeaderStop)
    ensures text != OpenEndedHeaderStop ==> r == ReadUtc(text)
  {
    SentinelIsDistinguished(text);
    if text == OpenEndedHeaderStop then Ok(MaxDateTime) else ReadUtc(text)
  }

  function Required(o: Option<string>, path: string): Result<string, Error> {
    Need(o, MissingElement(path))
  }

  /** The instrument configuration: the identifier as a number when the header has one, else unchanged. */
  function ConfigurationId(text: Option<string>, current: Option<int>): Result<Option<int>, Error> {
    if text.None? then Ok(current)
    else
      var n :- ReadInt(text.value);
      Ok(Some(n))
  }

  /** The header's part of `EOFProduct.analyze`, in the handler's order. */
  function ApplyEofHeader(hdr: EofHeader, p: Properties): Result<Properties, Error> {
    var startText :- Required(hdr.validityStart, "Fixed_Header/Validity_Period/Validity_Start");
    var start :- ReadUtc(startText);
    var stopText :- Required(hdr.validityStop, "Fixed_Header/Validity_Period/Validity_Stop");
    var stop :- HeaderStop(stopText);
    var creationText :- Required(hdr.creationDate, "Fixed_Header/Source/Creation_Date");
    var creation :- ReadUtc(creationText);
    var system :- Required(hdr.system, "Fixed_Header/Source/System");
    var creator :- Required(hdr.creator, "Fixed_Header/Source/Creator");
    var version :- Required(hdr.creatorVersion, "Fixed_Header/Source/Creator_Version");
    var conf :- ConfigurationId(hdr.configurationIdentifier, p.sentinel1.instrConfId);
    Ok(Properties(
      p.core.(validityStart := start, validityStop := stop, creationDate := Some(creation)),
      p.sentinel1.(processingFacility := Some(system), processorName := Some(creator),
                   processorVersion := Some(version), instrConfId := conf)))
  }

  /** `EOFProduct.analyze`: the filename properties, then the header unless only the filename is asked for. */
  function AnalyzeEof(code: string, split: bool, zipped: bool, paths: seq<string>, filenameOnly: bool,
                      hdr: EofHeader): Result<Properties, Error> {
    var p :- AnalyzeEofName(code, split, zipped, paths);
    if filenameOnly then Ok(p) else ApplyEofHeader(hdr, p)
  }

  /**
   * A header replaces the filename's validity period and creation date with
   * its own, and gives the facility, the processor and, when present, the
   * instrument configuration; every other field, among them the product
   * name, the mission and the footprint, stays.
   */
  lemma EofHeaderValues(hdr: EofHeader, p: Properties)
    requires ApplyEofHeader(hdr, p).Ok?
    ensures var q := ApplyEofHeader(hdr, p).value;
            hdr.validityStart.Some? && hdr.validityStop.Some? && hdr.creationDate.Some? &&
            hdr.system.Some? && hdr.creator.Some? && hdr.creatorVersion.Some? &&
            Some(q.core.validityStart) == ParseUtc(hdr.validityStart.value) &&
            (q.core.validityStop == MaxDateTime <==> hdr.validityStop.value == OpenEndedHeaderStop) &&
            (hdr.validityStop.value != OpenEndedHeaderStop ==> Some(q.core.validityStop) == ParseUtc(hdr.validityStop.value)) &&
            q.core.creationDate == ParseUtc(hdr.creationDate.value) &&
            q.sentinel1.processingFacility == hdr.system &&
            q.sentinel1.processorName == hdr.creator &&
            q.sentinel1.processorVersion == hdr.creatorVersion &&
            (hdr.configurationIdentifier.Some? ==>
               q.sentinel1.instrConfId == ParseInt(hdr.configurationIdentifier.value, 10)) &&
            (hdr.configurationIdentifier.None? ==> q.sentinel1.instrConfId == p.sentinel1.instrConfId) &&
            q.core.productName == p.core.productName && q.sentinel1.mission == p.sentinel1.mission &&
            q.core == p.core.(validityStart := q.core.validityStart, validityStop := q.core.validityStop,
                              creationDate := q.core.creationDate) &&
            q.sentinel1 == p.sentinel1.(processingFacility := q.sentinel1.processingFacility,
                                        processorName := q.sentinel1.processorName,
                                        processorVersion := q.sentinel1.processorVersion,
                                        instrConfId := q.sentinel1.instrConfId)
  {
  }

  /** A header whose configuration identifier is not a number makes the analysis fail. */
  lemma BadConfigurationFails(hdr: EofHeader, p: Properties)
    requires hdr.configurationIdentifier.Some? && ParseInt(hdr.configurationIdentifier.value, 10).None?
    ensures ApplyEofHeader(hdr, p).Err?
  {
    if ApplyEofHeader(hdr, p).Ok? {
      EofHeaderValues(hdr, p);
    }
  }

  /**
   * An EOF product is open-ended exactly when the stop it is read from is
   * the all-nines value: the filename's when only the filename is analysed,
   * the header's otherwise.
   */
  lemma EofOpenEnded(code: string, split: bool, zipped: bool, paths: seq<string>, filenameOnly: bool,
                     hdr: EofHeader)
    requires AnalyzeEof(code, split, zipped, paths, filenameOnly, hdr).Ok?
    ensures var h := Handlers.Eof(code, split, zipped);
            var attrs := Handlers.ParseFilename(h, EofNameSource(h, paths)).value;
            var stop := AnalyzeEof(code, split, zipped, paths, filenameOnly, hdr).value.core.validityStop;
            AnalyzeEofName(code, split, zipped, paths).Ok? && attrs.EofName? &&
            (filenameOnly ==> (stop == MaxDateTime <==> attrs.validityStop == OpenEndedStop)) &&
            (!filenameOnly ==> hdr.validityStop.Some? &&
                               (stop == MaxDateTime <==> hdr.validityStop.value == OpenEndedHeaderStop))
  {
    var p := AnalyzeEofName(code, split, zipped, paths);
    assert p.Ok?;
    EofFilenameSentinel(code, split, zipped, paths);
    if !filenameOnly {
      assert AnalyzeEof(code, split, zipped, paths, filenameOnly, hdr) == ApplyEofHeader(hdr, p.value);
      EofHeaderValues(hdr, p.value);
    }
  }

  /** Analysing the filename only gives the filename properties. */
  lemma EofFilenameOnly(code: string, split: bool, zipped: bool, paths: seq<string>, hdr: EofHeader)
    ensures AnalyzeEof(code, split, zipped, paths, true, hdr) == AnalyzeEofName(code, split, zipped, paths)
  {
  }
}
