/**
 * The product-type registry: the catalogs of product type codes the handler
 * module lists, and the table from each code to a handler of its family,
 * built with the default flags (not zipped, not split). Each catalog is the
 * concatenation of runs of at most 24 codes, in the order of its list.
 */
module Registry {
  import opened Wrappers
  import opened Text
  import opened Numerals
  import opened Handlers
  import opened Analysis
  import opened Manifests

  const L0ProductTypesPart1: seq<string> :=
    ["EN_RAW__0S", "EW_RAW__0A", "EW_RAW__0C", "EW_RAW__0N", "EW_RAW__0S", "IW_RAW__0A",
     "IW_RAW__0C", "IW_RAW__0N", "IW_RAW__0S", "N1_RAW__0S", "N2_RAW__0S", "N3_RAW__0S",
     "N4_RAW__0S", "N5_RAW__0S", "N6_RAW__0S", "S1_RAW__0A", "S1_RAW__0C", "S1_RAW__0N",
     "S1_RAW__0S", "S2_RAW__0A", "S2_RAW__0C", "S2_RAW__0N", "S2_RAW__0S", "S3_RAW__0A"]

  const L0ProductTypesPart2: seq<string> :=
    ["S3_RAW__0C", "S3_RAW__0N", "S3_RAW__0S", "S4_RAW__0A", "S4_RAW__0C", "S4_RAW__0N",
     "S4_RAW__0S", "S5_RAW__0A", "S5_RAW__0C", "S5_RAW__0N", "S5_RAW__0S", "S6_RAW__0A",
     "S6_RAW__0C", "S6_RAW__0N", "S6_RAW__0S", "WV_RAW__0A", "WV_RAW__0C", "WV_RAW__0N",
     "WV_RAW__0S", "RF_RAW__0S", "Z1_RAW__0S", "Z2_RAW__0S", "Z3_RAW__0S", "Z4_RAW__0S"]

  const L0ProductTypesPart3: seq<string> :=
    ["Z5_RAW__0S", "Z6_RAW__0S", "ZE_RAW__0S", "ZI_RAW__0S", "ZW_RAW__0S"]

  const L0ProductTypes: seq<string> := L0ProductTypesPart1 + L0ProductTypesPart2 + L0ProductTypesPart3

  const L1ProductTypesPart1: seq<string> :=
    ["EN_GRDF_1S", "EN_GRDH_1S", "EN_GRDM_1S", "EN_SLC__1S", "EW_GRDH_1A", "EW_GRDH_1S",
     "EW_GRDM_1A", "EW_GRDM_1S", "EW_SLC__1A", "EW_SLC__1S", "IW_GRDH_1A", "IW_GRDH_1S",
     "IW_GRDM_1A", "IW_GRDM_1S", "IW_SLC__1A", "IW_SLC__1S", "N1_GRDF_1A", "N1_GRDF_1S",
     "N1_GRDH_1A", "N1_GRDH_1S", "N1_GRDM_1A", "N1_GRDM_1S", "N1_SLC__1A", "N1_SLC__1S"]

  const L1ProductTypesPart2: seq<string> :=
    ["N2_GRDF_1A", "N2_GRDF_1S", "N2_GRDH_1A", "N2_GRDH_1S", "N2_GRDM_1A", "N2_GRDM_1S",
     "N2_SLC__1A", "N2_SLC__1S", "N3_GRDF_1A", "N3_GRDF_1S", "N3_GRDH_1A", "N3_GRDH_1S",
     "N3_GRDM_1A", "N3_GRDM_1S", "N3_SLC__1A", "N3_SLC__1S", "N4_GRDF_1A", "N4_GRDF_1S",
     "N4_GRDH_1A", "N4_GRDH_1S", "N4_GRDM_1A", "N4_GRDM_1S", "N4_SLC__1A", "N4_SLC__1S"]

  const L1ProductTypesPart3: seq<string> :=
    ["N5_GRDF_1A", "N5_GRDF_1S", "N5_GRDH_1A", "N5_GRDH_1S", "N5_GRDM_1A", "N5_GRDM_1S",
     "N5_SLC__1A", "N5_SLC__1S", "N6_GRDF_1A", "N6_GRDF_1S", "N6_GRDH_1A", "N6_GRDH_1S",
     "N6_GRDM_1A", "N6_GRDM_1S", "N6_SLC__1A", "N6_SLC__1S", "S1_GRDF_1A", "S1_GRDF_1S",
     "S1_GRDH_1A", "S1_GRDH_1S", "S1_GRDM_1A", "S1_GRDM_1S", "S1_SLC__1A", "S1_SLC__1S"]

  const L1ProductTypesPart4: seq<string> :=
    ["S2_GRDF_1A", "S2_GRDF_1S", "S2_GRDH_1A", "S2_GRDH_1S", "S2_GRDM_1A", "S2_GRDM_1S",
     "S2_SLC__1A", "S2_SLC__1S", "S3_GRDF_1A", "S3_GRDF_1S", "S3_GRDH_1A", "S3_GRDH_1S",
     "S3_GRDM_1A", "S3_GRDM_1S", "S3_SLC__1A", "S3_SLC__1S", "S4_GRDF_1A", "S4_GRDF_1S",
     "S4_GRDH_1A", "S4_GRDH_1S", "S4_GRDM_1A", "S4_GRDM_1S", "S4_SLC__1A", "S4_SLC__1S"]

  const L1ProductTypesPart5: seq<string> :=
    ["S5_GRDF_1A", "S5_GRDF_1S", "S5_GRDH_1A", "S5_GRDH_1S", "S5_GRDM_1A", "S5_GRDM_1S",
     "S5_SLC__1A", "S5_SLC__1S", "S6_GRDF_1A", "S6_GRDF_1S", "S6_GRDH_1A", "S6_GRDH_1S",
     "S6_GRDM_1A", "S6_GRDM_1S", "S6_SLC__1A", "S6_SLC__1S", "WV_SLC__1A", "WV_SLC__1S"]

  const L1ProductTypes: seq<string> := L1ProductTypesPart1 + L1ProductTypesPart2 + L1ProductTypesPart3 + L1ProductTypesPart4 + L1ProductTypesPart5

  const L2ProductTypes: seq<string> :=
    ["EW_OCN__2A", "EW_OCN__2S", "IW_OCN__2A", "IW_OCN__2S", "S1_OCN__2A", "S1_OCN__2S",
     "S2_OCN__2A", "S2_OCN__2S", "S3_OCN__2A", "S3_OCN__2S", "S4_OCN__2A", "S4_OCN__2S",
     "S5_OCN__2A", "S5_OCN__2S", "S6_OCN__2A", "S6_OCN__2S", "WV_OCN__2A", "WV_OCN__2S"]

  const EtadProductTypes: seq<string> :=
    ["EW_ETA__AX", "IW_ETA__AX", "S1_ETA__AX", "S2_ETA__AX", "S3_ETA__AX", "S4_ETA__AX",
     "S5_ETA__AX", "S6_ETA__AX"]

  const RvlProductTypes: seq<string> :=
    ["IW_RVC__2S"]

  const AuxSafeProductTypes: seq<string> :=
    ["AUX_CAL", "AUX_INS", "AUX_PP1", "AUX_PP2", "AUX_SCS", "AUX_ML2", "AUX_ICE", "AUX_WAV",
     "AUX_WND", "AUX_ITC", "AUX_SCF", "AUX_TEC", "AUX_TRO"]

  const AuxEofProductTypes: seq<string> :=
    ["AMH_ERRMAT", "AMV_ERRMAT", "AUX_POEORB", "AUX_PREORB", "AUX_RESATT", "AUX_RESORB"]

  /** A SAFE code: ten characters, a two-letter beam, `_`, a type whose second letter is not `V`. */
  predicate SafeCode(c: string) {
    |c| == 10 && c[0] != '/' && c[2] == '_' && c[4] != 'V' && c[9] != '/'
  }

  predicate CodeL0(c: string) { SafeCode(c) && c[8] == '0' }

  predicate CodeL1(c: string) { SafeCode(c) && c[8] == '1' }

  predicate CodeL2(c: string) { SafeCode(c) && c[8] == '2' && (c[9] == 'A' || c[9] == 'S') }

  predicate CodeEtad(c: string) { SafeCode(c) && c[3] == 'E' && c[4] == 'T' && c[5] == 'A' && c[8] == 'A' }

  predicate CodeRvl(c: string) { |c| == 10 && c[0] != '/' && c[2] == '_' && c[4] == 'V' && c[9] != '/' }

  predicate CodeAuxSafe(c: string) { |c| == 7 && c[0] != '/' && c[6] != '/' }

  predicate CodeAuxEof(c: string) { |c| == 10 && c[0] != '/' && c[2] != '_' && c[9] != '/' }

  lemma L0ProductTypesPart1Shape()
    ensures forall c :: c in L0ProductTypesPart1 ==> CodeL0(c)
  {
  }

  lemma L0ProductTypesPart2Shape()
    ensures forall c :: c in L0ProductTypesPart2 ==> CodeL0(c)
  {
  }

  lemma L0ProductTypesPart3Shape()
    ensures forall c :: c in L0ProductTypesPart3 ==> CodeL0(c)
  {
  }

  lemma L1ProductTypesPart1Shape()
    ensures forall c :: c in L1ProductTypesPart1 ==> CodeL1(c)
  {
  }

  lemma L1ProductTypesPart2Shape()
    ensures forall c :: c in L1ProductTypesPart2 ==> CodeL1(c)
  {
  }

  lemma L1ProductTypesPart3Shape()
    ensures forall c :: c in L1ProductTypesPart3 ==> CodeL1(c)
  {
  }

  lemma L1ProductTypesPart4Shape()
    ensures forall c :: c in L1ProductTypesPart4 ==> CodeL1(c)
  {
  }

  lemma L1ProductTypesPart5Shape()
    ensures forall c :: c in L1ProductTypesPart5 ==> CodeL1(c)
  {
  }

  lemma L2ProductTypesShape()
    ensures forall c :: c in L2ProductTypes ==> CodeL2(c)
  {
  }

  lemma EtadProductTypesShape()
    ensures forall c :: c in EtadProductTypes ==> CodeEtad(c)
  {
  }

  lemma RvlProductTypesShape()
    ensures forall c :: c in RvlProductTypes ==> CodeRvl(c)
  {
  }

  lemma AuxSafeProductTypesShape()
    ensures forall c :: c in AuxSafeProductTypes ==> CodeAuxSafe(c)
  {
  }

  lemma AuxEofProductTypesShape()
    ensures forall c :: c in AuxEofProductTypes ==> CodeAuxEof(c)
  {
  }

  lemma CatalogShapes(c: string)
    ensures c in L0ProductTypes ==> CodeL0(c)
    ensures c in L1ProductTypes ==> CodeL1(c)
    ensures c in L2ProductTypes ==> CodeL2(c)
    ensures c in EtadProductTypes ==> CodeEtad(c)
    ensures c in RvlProductTypes ==> CodeRvl(c)
    ensures c in AuxSafeProductTypes ==> CodeAuxSafe(c)
    ensures c in AuxEofProductTypes ==> CodeAuxEof(c)
  {
    L0ProductTypesPart1Shape();
    L0ProductTypesPart2Shape();
    L0ProductTypesPart3Shape();
    L1ProductTypesPart1Shape();
    L1ProductTypesPart2Shape();
    L1ProductTypesPart3Shape();
    L1ProductTypesPart4Shape();
    L1ProductTypesPart5Shape();
    L2ProductTypesShape();
    EtadProductTypesShape();
    RvlProductTypesShape();
    AuxSafeProductTypesShape();
    AuxEofProductTypesShape();
  }

  /** The SAFE product types: level 0, level 1, level 2 and ETAD, in that order. */
  const SafeProductTypes: seq<string> := L0ProductTypes + L1ProductTypes + L2ProductTypes + EtadProductTypes

  /** Each catalog's codes, registered with the handler of its family. */
  function SafeEntries(codes: seq<string>): (m: map<string, Handler>)
    ensures m.Keys == set c | c in codes
    ensures forall c :: c in m ==> m[c] == Safe(c, false)
  {
    map c | c in codes :: Safe(c, false)
  }

  function RvlEntries(codes: seq<string>): (m: map<string, Handler>)
    ensures m.Keys == set c | c in codes
    ensures forall c :: c in m ==> m[c] == Rvl(c)
  {
    map c | c in codes :: Rvl(c)
  }

  function AuxEntries(codes: seq<string>): (m: map<string, Handler>)
    ensures m.Keys == set c | c in codes
    ensures forall c :: c in m ==> m[c] == Aux(c, false)
  {
    map c | c in codes :: Aux(c, false)
  }

  function EofEntries(codes: seq<string>): (m: map<string, Handler>)
    ensures m.Keys == set c | c in codes
    ensures forall c :: c in m ==> m[c] == Eof(c, false, false)
  {
    map c | c in codes :: Eof(c, false, false)
  }

  /**
   * `_product_types`: a dictionary built from the pairs of all catalogs in
   * order, where a later pair for the same code wins; the map union is
   * right-biased in the same way.
   */
  function ProductTypes(): map<string, Handler> {
    SafeEntries(SafeProductTypes) + RvlEntries(RvlProductTypes) + AuxEntries(AuxSafeProductTypes) +
    EofEntries(AuxEofProductTypes)
  }

  /** `product_types()`: the registered codes. */
  function ProductTypeCodes(): set<string> {
    ProductTypes().Keys
  }

  /** `product_type_plugin`: the handler registered for a code, if any. */
  function ProductTypePlugin(code: string): Option<Handler> {
    if code in ProductTypes() then Some(ProductTypes()[code]) else None
  }

  /** The shape every code of a family has. */
  lemma FamilyShapes(c: string)
    ensures c in SafeProductTypes ==> SafeCode(c)
    ensures c in RvlProductTypes ==> CodeRvl(c)
    ensures c in AuxSafeProductTypes ==> CodeAuxSafe(c)
    ensures c in AuxEofProductTypes ==> CodeAuxEof(c)
  {
    CatalogShapes(c);
  }

  /**
   * Every code of a catalog is registered with a handler of that catalog's
   * family whose code is the code itself: SAFE for level 0, 1, 2 and ETAD,
   * RVL, AUX for the SAFE auxiliary files and EOF for the orbit files. No
   * code is in two catalogs, so no later pair overrides an earlier one.
   */
  lemma CatalogFamilies(code: string)
    ensures code in SafeProductTypes ==> ProductTypePlugin(code) == Some(Safe(code, false))
    ensures code in RvlProductTypes ==> ProductTypePlugin(code) == Some(Rvl(code))
    ensures code in AuxSafeProductTypes ==> ProductTypePlugin(code) == Some(Aux(code, false))
    ensures code in AuxEofProductTypes ==> ProductTypePlugin(code) == Some(Eof(code, false, false))
  {
    FamilyShapes(code);
    var s := SafeEntries(SafeProductTypes);
    var r := RvlEntries(RvlProductTypes);
    var a := AuxEntries(AuxSafeProductTypes);
    var e := EofEntries(AuxEofProductTypes);
    assert ProductTypes() == s + r + a + e;
    if code in SafeProductTypes {
      assert code in s && code !in r && code !in a && code !in e;
    }
    if code in RvlProductTypes {
      assert code in r && code !in a && code !in e;
    }
    if code in AuxSafeProductTypes {
      assert code in a && code !in e;
    }
    if code in AuxEofProductTypes {
      assert code in e;
    }
  }

  /** A code in no catalog has no handler. */
  lemma UnknownCode(code: string)
    ensures ProductTypePlugin(code).Some? <==>
              code in SafeProductTypes || code in RvlProductTypes || code in AuxSafeProductTypes ||
              code in AuxEofProductTypes
    ensures code in ProductTypeCodes() <==> ProductTypePlugin(code).Some?
  {
    var s := SafeEntries(SafeProductTypes);
    var r := RvlEntries(RvlProductTypes);
    var a := AuxEntries(AuxSafeProductTypes);
    var e := EofEntries(AuxEofProductTypes);
    assert code in ProductTypes() <==> code in s || code in r || code in a || code in e;
  }

  /**
   * A registered handler has the code it is registered under, never keeps
   * its product in an enclosing directory, and has a code with no `/` at
   * either end, so its archive paths have the form mission/code/year/month/day.
   */
  lemma RegisteredHandlers(code: string)
    requires ProductTypePlugin(code).Some?
    ensures ProductTypePlugin(code).value.code == code
    ensures !UseEnclosingDirectory(ProductTypePlugin(code).value)
    ensures |code| > 0 && code[0] != '/' && code[|code| - 1] != '/'
  {
    UnknownCode(code);
    CatalogFamilies(code);
    FamilyShapes(code);
  }

  /** The namespace decision for codes of each catalog's shape. */
  lemma ShapeNamespaces(code: string, s1: Sentinel1Properties)
    requires s1.processingLevel.Some? <==> |code| > 8 && IsDigit(code[8])
    requires s1.processingLevel.Some? ==> s1.processingLevel.value == DigitValue(code[8])
    requires s1.productType == Some(Slice(code, 3, 6))
    ensures var ns := SarNamespaceFor(code, s1);
            (CodeL0(code) ==> ns == SarDefault) &&
            (CodeL1(code) ==> ns == SarLevel1) &&
            (CodeL2(code) && code[9] == 'A' ==> ns == SarLevel1) &&
            (CodeL2(code) && code[9] == 'S' ==> ns == SarLevel2) &&
            (CodeEtad(code) ==> ns == SarLevel1)
  {
    NamespaceForCode(code, s1);
    if |code| == 10 {
      assert Slice(code, 8, 10) == code[8..10];
      assert Slice(code, 3, 6) == code[3..6];
      if CodeEtad(code) {
        assert code[3..6] == "ETA";
      }
      if CodeL2(code) && code[9] == 'A' {
        assert code[8..10] == "2A";
      }
    }
  }

  /**
   * The `s1sar` namespace each SAFE catalog reads its manifest with: level 0
   * the default one, level 1 the level-1 one, level 2 the level-1 one for
   * class `A` and the level-2 one for class `S`, and ETAD, which has no
   * level, the level-1 one.
   */
  lemma CatalogNamespaces(code: string, zipped: bool, paths: seq<string>)
    requires AnalyzeSafeName(code, zipped, paths).Ok?
    ensures var ns := SarNamespaceFor(code, AnalyzeSafeName(code, zipped, paths).value.sentinel1);
            (code in L0ProductTypes ==> ns == SarDefault) &&
            (code in L1ProductTypes ==> ns == SarLevel1) &&
            (code in L2ProductTypes && Slice(code, 9, 10) == "A" ==> ns == SarLevel1) &&
            (code in L2ProductTypes && Slice(code, 9, 10) == "S" ==> ns == SarLevel2) &&
            (code in EtadProductTypes ==> ns == SarLevel1)
  {
    SafeCodeSlicing(code, zipped, paths);
    CatalogNamespacesOf(code, AnalyzeSafeName(code, zipped, paths).value.sentinel1);
  }

  /** The namespace decision for the codes of each SAFE catalog, given the fields sliced from the code. */
  lemma CatalogNamespacesOf(code: string, s1: Sentinel1Properties)
    requires s1.processingLevel.Some? <==> |code| > 8 && IsDigit(code[8])
    requires s1.processingLevel.Some? ==> s1.processingLevel.value == DigitValue(code[8])
    requires s1.productType == Some(Slice(code, 3, 6))
    ensures var ns := SarNamespaceFor(code, s1);
            (code in L0ProductTypes ==> ns == SarDefault) &&
            (code in L1ProductTypes ==> ns == SarLevel1) &&
            (code in L2ProductTypes && Slice(code, 9, 10) == "A" ==> ns == SarLevel1) &&
            (code in L2ProductTypes && Slice(code, 9, 10) == "S" ==> ns == SarLevel2) &&
            (code in EtadProductTypes ==> ns == SarLevel1)
  {
    CatalogShapes(code);
    ShapeNamespaces(code, s1);
    if code in L2ProductTypes {
      assert Slice(code, 9, 10) == [code[9]];
    }
  }
}
