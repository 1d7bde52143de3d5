/**
 * The four product handler families, their filename patterns,
 * `parse_filename`, `identify`, `archive_path` and
 * `use_enclosing_directory`.
 */
module Handlers {
  import opened Wrappers
  import opened Text
  import opened FilenameGrammar
  import opened Failures

  /**
   * A product handler: its family, the product type code it was built for
   * and its container flags.
   */
  datatype Handler =
    | Safe(code: string, zipped: bool)
    | Aux(code: string, zipped: bool)
    | Eof(code: string, split: bool, zipped: bool)
    | Rvl(code: string)

  /** The fields of a handler's filename pattern, in order. */
  function NameFields(h: Handler): seq<FieldSpec> {
    match h
    case Safe(code, _) =>
      [Mission(), Literal(code) + AnyChars(2), Stamp(), Stamp(), Digits(6), AnyChars(6), AnyChars(4)]
    case Rvl(code) =>
      [Mission(), Literal(code) + AnyChars(2), Stamp(), Stamp(), Digits(6), AnyChars(6), AnyChars(6)]
    case Aux(code, _) =>
      [Mission(), Literal(code), [Exactly('V')] + Stamp(), [Exactly('G')] + Stamp()]
    case Eof(code, _, _) =>
      [Mission(), AnyChars(4), Literal(code), AnyChars(4), Stamp(), [Exactly('V')] + Stamp(), Stamp()]
  }

  /**
   * The handler's `filename_pattern`. Only the split, unzipped EOF pattern
   * has neither a suffix nor an end anchor.
   */
  function FilenamePattern(h: Handler): Pattern {
    match h
    case Safe(_, zipped) => Pattern(NameFields(h), if zipped then ".SAFE.zip" else ".SAFE", true)
    case Aux(_, zipped) => Pattern(NameFields(h), if zipped then ".SAFE.zip" else ".SAFE", true)
    case Rvl(_) => Pattern(NameFields(h), ".nc", true)
    case Eof(_, split, zipped) =>
      if split && zipped then Pattern(NameFields(h), ".TGZ", true)
      else if split then Pattern(NameFields(h), "", false)
      else Pattern(NameFields(h), if zipped then ".EOF.zip" else ".EOF", true)
  }

  /** `use_enclosing_directory`: only a split, unzipped EOF product is a directory of two files. */
  predicate UseEnclosingDirectory(h: Handler) {
    h.Eof? && h.split && !h.zipped
  }

  /** The named groups of a filename match. */
  datatype NameAttrs =
    | ProductName(mission: string, productType: string, polarisation: string, validityStart: string,
                  validityStop: string, absoluteOrbit: string, datatakeId: string, crc: string)
    | AuxName(mission: string, productType: string, validityStart: string, generationDate: string)
    | EofName(mission: string, fileClass: string, productType: string, processingFacility: string,
              creationDate: string, validityStart: string, validityStop: string)

  /** `match.groupdict()` for the fields of a match. */
  function GroupDict(h: Handler, f: seq<string>): NameAttrs
    requires FitsAll(NameFields(h), f)
  {
    match h
    case Safe(code, _) => ProductName(f[0], f[1][..|code|], f[1][|code|..], f[2], f[3], f[4], f[5], f[6])
    case Rvl(code) => ProductName(f[0], f[1][..|code|], f[1][|code|..], f[2], f[3], f[4], f[5], f[6])
    case Aux(_, _) => AuxName(f[0], f[1], f[2][1..], f[3][1..])
    case Eof(_, _, _) => EofName(f[0], f[1], f[2], f[3], f[4], f[5][1..], f[6])
  }

  /** The fields of a `V`- or `G`-prefixed timestamp: the letter, then fifteen stamp characters. */
  lemma FitsPrefixedStamp(c: char, s: string)
    requires Fits([Exactly(c)] + Stamp(), s)
    ensures s[0] == c && Fits(Stamp(), s[1..])
  {
    FitsConcat([Exactly(c)], Stamp(), s);
  }

  /** The product type group of a match is the handler's own code, and every group has its field's form. */
  lemma GroupDictFields(h: Handler, f: seq<string>)
    requires FitsAll(NameFields(h), f)
    ensures var a := GroupDict(h, f);
            a.productType == h.code && Fits(Mission(), a.mission) && Fits(Stamp(), a.validityStart)
            && (a.ProductName? ==> Fits(Stamp(), a.validityStop) && Fits(Digits(6), a.absoluteOrbit)
                                   && |a.polarisation| == 2 && |a.datatakeId| == 6)
            && (a.AuxName? ==> Fits(Stamp(), a.generationDate))
            && (a.EofName? ==> Fits(Stamp(), a.validityStop) && Fits(Stamp(), a.creationDate)
                               && |a.fileClass| == 4 && |a.processingFacility| == 4)
  {
    var fields := NameFields(h);
    assert forall i :: 0 <= i < |fields| ==> Fits(fields[i], f[i]);
    match h
    case Safe(code, _) =>
      FitsConcat(Literal(code), AnyChars(2), f[1]);
      FitsLiteral(code, f[1][..|code|]);
    case Rvl(code) =>
      FitsConcat(Literal(code), AnyChars(2), f[1]);
      FitsLiteral(code, f[1][..|code|]);
    case Aux(code, _) =>
      FitsLiteral(code, f[1]);
      FitsPrefixedStamp('V', f[2]);
      FitsPrefixedStamp('G', f[3]);
    case Eof(code, _, _) =>
      FitsLiteral(code, f[2]);
      FitsPrefixedStamp('V', f[5]);
  }

  /** Every handler's pattern has the handler's fields, starting with the mission. */
  lemma PatternFields(h: Handler)
    ensures FilenamePattern(h).fields == NameFields(h)
    ensures |NameFields(h)| > 0 && NameFields(h)[0] == Mission()
  {
  }

  /** `parse_filename`: the groups of the handler's pattern on the basename, if it matches. */
  function ParseFilename(h: Handler, filename: string): (r: Option<NameAttrs>)
    ensures r.Some? ==> r.value.productType == h.code && Fits(Mission(), r.value.mission)
                        && Fits(Stamp(), r.value.validityStart)
    ensures r.Some? <==> Matches(FilenamePattern(h), Basename(filename))
  {
    var m := Match(FilenamePattern(h), Basename(filename));
    if m.None? then None
    else
      PatternFields(h);
      MatchFits(FilenamePattern(h), Basename(filename));
      GroupDictFields(h, m.value);
      Some(GroupDict(h, m.value))
  }

  /** A filename whose basename matches with groups `f` parses to the attributes those groups name. */
  lemma ParseFilenameOf(h: Handler, filename: string, f: seq<string>)
    requires Match(FilenamePattern(h), Basename(filename)) == Some(f)
    ensures FitsAll(NameFields(h), f) && ParseFilename(h, filename) == Some(GroupDict(h, f))
  {
    PatternFields(h);
    MatchFits(FilenamePattern(h), Basename(filename));
  }

  /** `identify(paths)`: whether the handler recognises the product given by these paths. */
  predicate Identify(h: Handler, paths: seq<string>) {
    if UseEnclosingDirectory(h) then
      |paths| == 2 &&
      var sorted := SortPair(paths[0], paths[1]);
      Matches(Extend(FilenamePattern(h), ".DBL"), Basename(sorted.0)) &&
      Matches(Extend(FilenamePattern(h), ".HDR"), Basename(sorted.1))
    else
      |paths| == 1 && Matches(FilenamePattern(h), Basename(paths[0]))
  }

  /**
   * A product held in one file or directory is identified exactly when there
   * is one path and its basename, whatever the directory, is the handler's
   * fields joined by `_` followed by the handler's suffix.
   */
  lemma IdentifySingle(h: Handler, paths: seq<string>)
    requires !UseEnclosingDirectory(h)
    ensures Identify(h, paths) <==>
              |paths| == 1 &&
              exists f :: FitsAll(NameFields(h), f) && Basename(paths[0]) == JoinFields(f) + FilenamePattern(h).suffix
  {
    if |paths| == 1 {
      var p := FilenamePattern(h);
      var b := Basename(paths[0]);
      if Matches(p, b) {
        AnchoredMatch(p, b, Match(p, b).value);
      }
      if exists f :: FitsAll(NameFields(h), f) && b == JoinFields(f) + p.suffix {
        var f :| FitsAll(NameFields(h), f) && b == JoinFields(f) + p.suffix;
        AnchoredMatch(p, b, f);
      }
    }
  }

  /** An identified product names the handler's own product type. */
  lemma IdentifiedTypeIsCode(h: Handler, paths: seq<string>)
    requires !UseEnclosingDirectory(h) && Identify(h, paths)
    ensures ParseFilename(h, paths[0]).Some? && ParseFilename(h, paths[0]).value.productType == h.code
  {
  }

  /**
   * A split, unzipped EOF product is identified exactly when there are two
   * paths and, in sorted order, the first basename is the fields followed by
   * `.DBL` and the second is fields followed by `.HDR`.
   */
  lemma IdentifySplit(h: Handler, paths: seq<string>)
    requires UseEnclosingDirectory(h)
    ensures Identify(h, paths) <==>
              |paths| == 2 &&
              (exists f :: FitsAll(NameFields(h), f) &&
                            Basename(SortPair(paths[0], paths[1]).0) == JoinFields(f) + ".DBL") &&
              (exists f :: FitsAll(NameFields(h), f) &&
                            Basename(SortPair(paths[0], paths[1]).1) == JoinFields(f) + ".HDR")
  {
    if |paths| == 2 {
      var sorted := SortPair(paths[0], paths[1]);
      SplitFileFields(h, Basename(sorted.0), ".DBL");
      SplitFileFields(h, Basename(sorted.1), ".HDR");
    }
  }

  /** One file of a split product matches its extended pattern exactly when it is the fields and the extension. */
  lemma SplitFileFields(h: Handler, name: string, ext: string)
    requires UseEnclosingDirectory(h)
    ensures Matches(Extend(FilenamePattern(h), ext), name) <==>
              exists f :: FitsAll(NameFields(h), f) && name == JoinFields(f) + ext
  {
    var p := FilenamePattern(h);
    assert p.fields == NameFields(h) && p.suffix == "" && !p.anchored;
    ExtendMatch(p, ext, name);
    forall f
      ensures JoinFields(f) + p.suffix + ext == JoinFields(f) + ext
    {
      assert JoinFields(f) + p.suffix == JoinFields(f);
    }
  }

  /** Every other handler needs exactly one path. */
  lemma IdentifyNeedsOnePath(h: Handler, paths: seq<string>)
    requires !UseEnclosingDirectory(h) && |paths| != 1
    ensures !Identify(h, paths)
  {
  }

  /** A split, unzipped EOF product is never a single path. */
  lemma SplitNeedsTwoPaths(h: Handler, paths: seq<string>)
    requires UseEnclosingDirectory(h) && |paths| != 2
    ensures !Identify(h, paths)
  {
  }

  /** The order in which the two files of a split product are given does not matter. */
  lemma SplitOrderIndependent(h: Handler, a: string, b: string)
    requires UseEnclosingDirectory(h)
    ensures Identify(h, [a, b]) == Identify(h, [b, a])
  {
    LexLessAsymmetric(a, b);
    LexLessTotal(a, b);
  }

  lemma EndsWith(s: string, suffix: string, p: Pattern)
    requires p.anchored && |suffix| == 4 && |p.suffix| >= 4 && p.suffix[|p.suffix| - 4..] != suffix
    requires |s| >= 4 && s[|s| - 4..] == suffix
    ensures !Matches(p, s)
  {
    MatchEndsWithSuffix(p, s);
    if |p.suffix| <= |s| {
      assert s[|s| - 4..] == s[|s| - |p.suffix|..][|p.suffix| - 4..];
    }
  }

  /** Two files with the same extension, `.DBL` or `.HDR`, are never a split product. */
  lemma SplitSameSuffix(h: Handler, a: string, b: string, ext: string)
    requires UseEnclosingDirectory(h) && (ext == ".DBL" || ext == ".HDR")
    requires |Basename(a)| >= 4 && Basename(a)[|Basename(a)| - 4..] == ext
    requires |Basename(b)| >= 4 && Basename(b)[|Basename(b)| - 4..] == ext
    ensures !Identify(h, [a, b])
  {
    var p := FilenamePattern(h);
    var sorted := SortPair(a, b);
    assert sorted == (a, b) || sorted == (b, a);
    if ext == ".DBL" {
      var q := Extend(p, ".HDR");
      assert q.anchored && q.suffix == ".HDR";
      EndsWith(Basename(sorted.1), ext, q);
    } else {
      var q := Extend(p, ".DBL");
      assert q.anchored && q.suffix == ".DBL";
      EndsWith(Basename(sorted.0), ext, q);
    }
  }

  /** The `.DBL` file of a product sorts before its `.HDR` file. */
  lemma DataBeforeHeader(stem: string)
    ensures SortPair(stem + ".HDR", stem + ".DBL") == (stem + ".DBL", stem + ".HDR")
    ensures SortPair(stem + ".DBL", stem + ".HDR") == (stem + ".DBL", stem + ".HDR")
  {
    assert LexLess(".DBL", ".HDR") by {
      assert ".DBL"[0] == ".HDR"[0] && ".DBL"[1..] == "DBL" && ".HDR"[1..] == "HDR";
      assert LexLess("DBL", "HDR");
    }
    LexLessCommonPrefix(stem, ".DBL", ".HDR");
    LexLessAsymmetric(stem + ".DBL", stem + ".HDR");
  }

  /** A file named by the fields and an extension, inside a directory, matches the extended pattern. */
  lemma SplitFileMatches(h: Handler, dir: string, f: seq<string>, ext: string)
    requires UseEnclosingDirectory(h) && FitsAll(NameFields(h), f) && '/' !in JoinFields(f) && '/' !in ext
    ensures Matches(Extend(FilenamePattern(h), ext), Basename(dir + "/" + JoinFields(f) + ext))
  {
    var name := JoinFields(f) + ext;
    assert '/' !in name;
    BasenameAfterSlash(dir, name);
    assert dir + "/" + JoinFields(f) + ext == dir + "/" + name;
    AnchoredMatch(Extend(FilenamePattern(h), ext), name, f);
  }

  /**
   * The two files of a split product in one directory are identified, in
   * either order: the `.DBL` file sorts before the `.HDR` file.
   */
  lemma SplitPairIdentified(h: Handler, dir: string, f: seq<string>)
    requires UseEnclosingDirectory(h) && FitsAll(NameFields(h), f) && '/' !in JoinFields(f)
    ensures Identify(h, [dir + "/" + JoinFields(f) + ".HDR", dir + "/" + JoinFields(f) + ".DBL"])
    ensures Identify(h, [dir + "/" + JoinFields(f) + ".DBL", dir + "/" + JoinFields(f) + ".HDR"])
  {
    DataBeforeHeader(dir + "/" + JoinFields(f));
    SplitFileMatches(h, dir, f, ".DBL");
    SplitFileMatches(h, dir, f, ".HDR");
  }

  /** The mission group with a placeholder third character `_` stripped. */
  function MissionName(m: string): string
    requires |m| == 3
  {
    if m[2] == '_' then m[..2] else m
  }

  /** Only the placeholder is stripped: `S1_` becomes `S1`, a named unit such as `S1A` is kept. */
  lemma MissionNameKept(m: string)
    requires Fits(Mission(), m)
    ensures MissionName(m) in {"S1", "S1A", "S1B", "S1C", "S1D"}
    ensures MissionName(m) == "S1" <==> m == "S1_"
    ensures MissionName(m) != "S1" ==> MissionName(m) == m
  {
    FitsMission(m);
    assert m == m[..2] + [m[2]];
    if m[2] == '_' {
      assert MissionName(m) == "S1";
    } else {
      assert MissionName(m) == m;
      assert m[2] in "ABCD";
      assert m == "S1" + [m[2]];
      if m[2] == 'A' {
        assert m == "S1A";
      } else if m[2] == 'B' {
        assert m == "S1B";
      } else if m[2] == 'C' {
        assert m == "S1C";
      } else {
        assert m == "S1D";
      }
    }
  }

  /** `archive_path`: the archive directory `mission/code/YYYY/MM/DD` of a physical name. */
  function ArchivePath(h: Handler, physicalName: string): Result<string, Error> {
    match ParseFilename(h, physicalName)
    case None => Err(NameMismatch(physicalName))
    case Some(attrs) =>
      var start := attrs.validityStart;
      Ok(JoinPath(JoinPath(JoinPath(JoinPath(MissionName(attrs.mission), h.code),
                                     Slice(start, 0, 4)), Slice(start, 4, 6)), Slice(start, 6, 8)))
  }

  lemma JoinPathPlain(a: string, b: string)
    requires |a| > 0 && a[|a| - 1] != '/' && |b| > 0 && b[0] != '/'
    ensures JoinPath(a, b) == a + "/" + b
  {
  }

  /**
   * The archive path of a matching name is the mission, the code and the
   * year, month and day of the validity start, separated by `/`; a name the
   * pattern rejects has no archive path.
   */
  lemma ArchivePathLayout(h: Handler, physicalName: string)
    requires |h.code| > 0 && h.code[0] != '/' && h.code[|h.code| - 1] != '/'
    ensures ArchivePath(h, physicalName).Ok? <==> Matches(FilenamePattern(h), Basename(physicalName))
    ensures ArchivePath(h, physicalName).Ok? ==>
              var attrs := ParseFilename(h, physicalName).value;
              var start := attrs.validityStart;
              ArchivePath(h, physicalName).value ==
                MissionName(attrs.mission) + "/" + h.code + "/" + start[0..4] + "/" + start[4..6] + "/" + start[6..8]
  {
    ArchivePathJoined(h, physicalName);
  }

  /** The archive path of a parsed name, with the joins of its levels written out. */
  lemma ArchivePathJoined(h: Handler, physicalName: string)
    requires |h.code| > 0 && h.code[0] != '/' && h.code[|h.code| - 1] != '/'
    ensures ParseFilename(h, physicalName).Some? ==>
              var attrs := ParseFilename(h, physicalName).value;
              var start := attrs.validityStart;
              ArchivePath(h, physicalName) ==
                Ok(MissionName(attrs.mission) + "/" + h.code + "/" + start[0..4] + "/" + start[4..6] + "/" + start[6..8])
  {
    if ParseFilename(h, physicalName).Some? {
      var attrs := ParseFilename(h, physicalName).value;
      var start := attrs.validityStart;
      var m := MissionName(attrs.mission);
      assert |m| > 0 && m[|m| - 1] != '/' by {
        MissionNameKept(attrs.mission);
      }
      assert |start| >= 8 && forall k :: 0 <= k < 8 ==> start[k] != '/' by {
        forall k | 0 <= k < 8
          ensures start[k] != '/'
        {
          assert Admits(DigitOrT, start[k]);
        }
      }
      JoinArchiveLevels(m, h.code, start);
    }
  }

  /** Joining the mission, the code and the date parts of a stamp puts one `/` between each. */
  lemma JoinArchiveLevels(m: string, code: string, start: string)
    requires |m| > 0 && m[|m| - 1] != '/'
    requires |code| > 0 && code[0] != '/' && code[|code| - 1] != '/'
    requires |start| >= 8 && forall k :: 0 <= k < 8 ==> start[k] != '/'
    ensures JoinPath(JoinPath(JoinPath(JoinPath(m, code), Slice(start, 0, 4)), Slice(start, 4, 6)), Slice(start, 6, 8)) ==
              m + "/" + code + "/" + start[0..4] + "/" + start[4..6] + "/" + start[6..8]
  {
    assert start[0..4][0] == start[0] && start[4..6][0] == start[4] && start[6..8][0] == start[6];
    JoinPathPlain(m, code);
    var a := m + "/" + code;
    assert Slice(start, 0, 4) == start[0..4];
    JoinPathPlain(a, start[0..4]);
    var b := a + "/" + start[0..4];
    assert b[|b| - 1] == start[3];
    assert Slice(start, 4, 6) == start[4..6];
    JoinPathPlain(b, start[4..6]);
    var c := b + "/" + start[4..6];
    assert c[|c| - 1] == start[5];
    assert Slice(start, 6, 8) == start[6..8];
    JoinPathPlain(c, start[6..8]);
  }
}
