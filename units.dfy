/** The fixed catalogue of IAL Mathematics units, grouped as the calculator
    presents them: pure, further pure and applied. Every entry carries its
    short code, its title, the examination code it is sat under and whether
    it can be cashed in towards an award. */
module Units {
  import opened Sequences

  datatype Group = Pure | FurtherPure | Applied

  datatype Unit = Unit(code: string, name: string, examCode: string, cashable: bool)

  const PureGroup: seq<Unit> := [
    Unit("P1", "Pure Mathematics 1", "WMA11", true),
    Unit("P2", "Pure Mathematics 2", "WMA12", true),
    Unit("P3", "Pure Mathematics 3", "WMA13", true),
    Unit("P4", "Pure Mathematics 4", "WMA14", true)
  ]

  const FurtherGroup: seq<Unit> := [
    Unit("FP1", "Further Pure Mathematics 1", "WFM01", true),
    Unit("FP2", "Further Pure Mathematics 2", "WFM02", true),
    Unit("FP3", "Further Pure Mathematics 3", "WFM03", true)
  ]

  const AppliedGroup: seq<Unit> := [
    Unit("M1", "Mechanics 1", "WME01", true),
    Unit("M2", "Mechanics 2", "WME02", true),
    Unit("M3", "Mechanics 3", "WME03", true),
    Unit("S1", "Statistics 1", "WST01", true),
    Unit("S2", "Statistics 2", "WST02", true),
    Unit("S3", "Statistics 3", "WST03", true),
    Unit("D1", "Decision Mathematics 1", "WDM01", true)
  ]

  /** The units listed under one group of the catalogue. */
  function UnitsOf(g: Group): seq<Unit>
  {
    match g
    case Pure => PureGroup
    case FurtherPure => FurtherGroup
    case Applied => AppliedGroup
  }

  /** The whole catalogue, in the order the calculator shows its sections. */
  const Catalogue: seq<Unit> := PureGroup + FurtherGroup + AppliedGroup

  /** One field of every unit of a list, in the same order. */
  function Column(us: seq<Unit>, field: Unit -> string): (cs: seq<string>)
    ensures |cs| == |us|
    ensures forall i :: 0 <= i < |us| ==> cs[i] == field(us[i])
  {
    if us == [] then [] else [field(us[0])] + Column(us[1..], field)
  }

  /** The unit codes of a list of units, in the same order. */
  function Codes(us: seq<Unit>): seq<string>
  {
    Column(us, (u: Unit) => u.code)
  }

  /** The examination codes of a list of units, in the same order. */
  function ExamCodes(us: seq<Unit>): seq<string>
  {
    Column(us, (u: Unit) => u.examCode)
  }

  /** Taking one field of two joined lists gives the fields of the first list
      followed by those of the second. */
  lemma {:induction false} ColumnAppend(a: seq<Unit>, b: seq<Unit>, field: Unit -> string)
    ensures Column(a + b, field) == Column(a, field) + Column(b, field)
  {
    if a != [] {
      assert (a + b)[1..] == a[1..] + b;
      ColumnAppend(a[1..], b, field);
    }
  }

  /** The codes of each group, spelled out in order. */
  lemma GroupCodesListed(g: Group)
    ensures g == Pure ==> Codes(UnitsOf(g)) == ["P1", "P2", "P3", "P4"]
    ensures g == FurtherPure ==> Codes(UnitsOf(g)) == ["FP1", "FP2", "FP3"]
    ensures g == Applied ==> Codes(UnitsOf(g)) == ["M1", "M2", "M3", "S1", "S2", "S3", "D1"]
  {
  }

  /** The fourteen catalogue codes, in the order the groups list them. */
  lemma CatalogueCodesListed()
    ensures Codes(Catalogue) == ["P1", "P2", "P3", "P4", "FP1", "FP2", "FP3",
                                 "M1", "M2", "M3", "S1", "S2", "S3", "D1"]
  {
    GroupCodesListed(Pure);
    GroupCodesListed(FurtherPure);
    GroupCodesListed(Applied);
    ColumnAppend(PureGroup, FurtherGroup, (u: Unit) => u.code);
    ColumnAppend(PureGroup + FurtherGroup, AppliedGroup, (u: Unit) => u.code);
  }

  /** The examination codes of one group, spelled out in order. */
  lemma GroupExamCodesListed(g: Group)
    ensures g == Pure ==> ExamCodes(UnitsOf(g)) == ["WMA11", "WMA12", "WMA13", "WMA14"]
    ensures g == FurtherPure ==> ExamCodes(UnitsOf(g)) == ["WFM01", "WFM02", "WFM03"]
    ensures g == Applied ==>
              ExamCodes(UnitsOf(g)) == ["WME01", "WME02", "WME03", "WST01", "WST02", "WST03", "WDM01"]
  {
  }

  /** The fourteen examination codes, in catalogue order. */
  lemma CatalogueExamCodesListed()
    ensures ExamCodes(Catalogue) == ["WMA11", "WMA12", "WMA13", "WMA14", "WFM01", "WFM02", "WFM03",
                                     "WME01", "WME02", "WME03", "WST01", "WST02", "WST03", "WDM01"]
  {
    GroupExamCodesListed(Pure);
    GroupExamCodesListed(FurtherPure);
    GroupExamCodesListed(Applied);
    ColumnAppend(PureGroup, FurtherGroup, (u: Unit) => u.examCode);
    ColumnAppend(PureGroup + FurtherGroup, AppliedGroup, (u: Unit) => u.examCode);
  }

  /** Four pure units, three further pure units and seven applied units:
      fourteen in all. */
  lemma CatalogueSizes()
    ensures |UnitsOf(Pure)| == 4 && |UnitsOf(FurtherPure)| == 3 && |UnitsOf(Applied)| == 7
    ensures |Catalogue| == 14
  {
  }

  /** The position of a code in the catalogue, or -1 for any other string. */
  function CodeRank(c: string): int
  {
    if c == "P1" then 0 else if c == "P2" then 1 else if c == "P3" then 2
    else if c == "P4" then 3 else if c == "FP1" then 4 else if c == "FP2" then 5
    else if c == "FP3" then 6 else if c == "M1" then 7 else if c == "M2" then 8
    else if c == "M3" then 9 else if c == "S1" then 10 else if c == "S2" then 11
    else if c == "S3" then 12 else if c == "D1" then 13 else -1
  }

  /** No code is listed twice, within a group or across groups. */
  lemma CodesDistinct()
    ensures Distinct(Codes(Catalogue))
  {
    var cs := Codes(Catalogue);
    CatalogueCodesListed();
    forall i | 0 <= i < |cs| ensures CodeRank(cs[i]) == i {
    }
    DistinctByRank(cs, CodeRank);
  }

  /** No examination code is shared by two units. */
  lemma ExamCodesDistinct()
    ensures Distinct(ExamCodes(Catalogue))
  {
    CatalogueExamCodesListed();
    ExamCodesRanked(ExamCodes(Catalogue));
    DistinctByRank(ExamCodes(Catalogue), ExamCodeRank);
  }

  /** Each of the fourteen examination codes, in catalogue order, has its own
      position as its rank. */
  lemma ExamCodesRanked(cs: seq<string>)
    requires cs == ["WMA11", "WMA12", "WMA13", "WMA14", "WFM01", "WFM02", "WFM03",
                    "WME01", "WME02", "WME03", "WST01", "WST02", "WST03", "WDM01"]
    ensures forall i :: 0 <= i < |cs| ==> ExamCodeRank(cs[i]) == i
  {
  }

  /** The position of an examination code in the catalogue, or -1 for any
      other string. */
  function ExamCodeRank(c: string): int
  {
    if c == "WMA11" then 0 else if c == "WMA12" then 1 else if c == "WMA13" then 2
    else if c == "WMA14" then 3 else if c == "WFM01" then 4 else if c == "WFM02" then 5
    else if c == "WFM03" then 6 else if c == "WME01" then 7 else if c == "WME02" then 8
    else if c == "WME03" then 9 else if c == "WST01" then 10 else if c == "WST02" then 11
    else if c == "WST03" then 12 else if c == "WDM01" then 13 else -1
  }

  /** Every unit in the catalogue can be cashed in. */
  lemma AllCashable()
    ensures forall u :: u in Catalogue ==> u.cashable
  {
  }
}
