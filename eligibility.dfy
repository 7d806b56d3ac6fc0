/** The IAL Mathematics eligibility check: a three-step decision list over the
    codes a student has selected. The selection is the calculator's list of
    codes; the check only ever asks whether a code is included in it. */
module Eligibility {
  import Units

  /** The record the check produces: a verdict and the message shown with it. */
  datatype EligibilityResult = EligibilityResult(eligible: bool, message: string)

  const EmptySelectionMessage: string := "Please select at least one unit"
  const MissingPureMessage: string := "Missing one or more required Pure Mathematics units (P1-P4)"
  const MissingPairMessage: string := "Missing a valid applied pair"
  const EligibleMessage: string := "You are eligible for the IAL Mathematics qualification!"

  /** The pure units an IAL Mathematics award requires, all of them. */
  const PureUnits: seq<string> := ["P1", "P2", "P3", "P4"]

  /** The applied pairs accepted towards the award; one complete pair suffices. */
  const ValidPairs: seq<seq<string>> := [
    ["S1", "S2"], ["M1", "M2"], ["S1", "M1"],
    ["S1", "D1"], ["M1", "D1"]
  ]

  /** Every code of `codes` is included in the selection. */
  function AllIncluded(codes: seq<string>, selected: seq<string>): (b: bool)
    ensures b <==> forall c :: c in codes ==> c in selected
  {
    if codes == [] then true
    else codes[0] in selected && AllIncluded(codes[1..], selected)
  }

  /** Some group of `groups` is included in the selection in full. */
  function SomeIncluded(groups: seq<seq<string>>, selected: seq<string>): (b: bool)
    ensures b <==> exists i :: 0 <= i < |groups| && AllIncluded(groups[i], selected)
  {
    if groups == [] then false
    else AllIncluded(groups[0], selected) || SomeIncluded(groups[1..], selected)
  }

  /** All four pure units are selected. */
  function HasPureComplete(selected: seq<string>): (b: bool)
    ensures b <==> "P1" in selected && "P2" in selected && "P3" in selected && "P4" in selected
  {
    AllIncluded(PureUnits, selected)
  }

  /** Both members of at least one accepted applied pair are selected. */
  function HasValidPair(selected: seq<string>): (b: bool)
    ensures b <==> || ("S1" in selected && "S2" in selected)
                   || ("M1" in selected && "M2" in selected)
                   || ("S1" in selected && "M1" in selected)
                   || ("S1" in selected && "D1" in selected)
                   || ("M1" in selected && "D1" in selected)
  {
    ValidPairsListed(selected);
    SomeIncluded(ValidPairs, selected)
  }

  /** The five accepted pairs, one by one. */
  lemma ValidPairsListed(selected: seq<string>)
    ensures SomeIncluded(ValidPairs, selected) <==>
              || ("S1" in selected && "S2" in selected)
              || ("M1" in selected && "M2" in selected)
              || ("S1" in selected && "M1" in selected)
              || ("S1" in selected && "D1" in selected)
              || ("M1" in selected && "D1" in selected)
  {
    assert ValidPairs[0] == ["S1", "S2"] && ValidPairs[1] == ["M1", "M2"];
    assert ValidPairs[2] == ["S1", "M1"] && ValidPairs[3] == ["S1", "D1"];
    assert ValidPairs[4] == ["M1", "D1"];
  }

  /** The decision list: an empty selection first, then the pure units, then
      the applied pair; a selection that passes all three is eligible. */
  function Check(selected: seq<string>): (r: EligibilityResult)
    ensures selected == [] ==> r == EligibilityResult(false, EmptySelectionMessage)
    ensures selected != [] && !HasPureComplete(selected) ==>
              r == EligibilityResult(false, MissingPureMessage)
    ensures selected != [] && HasPureComplete(selected) && !HasValidPair(selected) ==>
              r == EligibilityResult(false, MissingPairMessage)
    ensures r.eligible <==> HasPureComplete(selected) && HasValidPair(selected)
    ensures r.eligible <==> r.message == EligibleMessage
  {
    if |selected| == 0 then EligibilityResult(false, EmptySelectionMessage)
    else if !HasPureComplete(selected) then EligibilityResult(false, MissingPureMessage)
    else if !HasValidPair(selected) then EligibilityResult(false, MissingPairMessage)
    else EligibilityResult(true, EligibleMessage)
  }

  /** Two selections that include the same codes. */
  ghost predicate SameCodes(a: seq<string>, b: seq<string>)
  {
    forall c :: c in a <==> c in b
  }

  /** Eligible exactly when all of P1 to P4 are selected together with both
      members of one of the five accepted pairs. */
  lemma EligibleIff(selected: seq<string>)
    ensures Check(selected).eligible <==>
              && "P1" in selected && "P2" in selected && "P3" in selected && "P4" in selected
              && (|| ("S1" in selected && "S2" in selected)
                  || ("M1" in selected && "M2" in selected)
                  || ("S1" in selected && "M1" in selected)
                  || ("S1" in selected && "D1" in selected)
                  || ("M1" in selected && "D1" in selected))
  {
  }

  /** A missing pure unit is reported even when an accepted pair is present:
      the pure check comes before the pair check. */
  lemma PureCheckFirst(selected: seq<string>, missing: string)
    requires selected != []
    requires missing in PureUnits && missing !in selected
    ensures Check(selected) == EligibilityResult(false, MissingPureMessage)
  {
  }

  /** All four pure units with a pair that is not on the list is refused for the
      missing pair, for instance M2 with M3, or S2 with D1. */
  lemma UnlistedPairsRefused()
    ensures Check(["P1", "P2", "P3", "P4", "M2", "M3"]) == EligibilityResult(false, MissingPairMessage)
    ensures Check(["P1", "P2", "P3", "P4", "S2", "D1"]) == EligibilityResult(false, MissingPairMessage)
  {
    var mechanics: seq<string> := ["P1", "P2", "P3", "P4", "M2", "M3"];
    assert "S1" !in mechanics && "M1" !in mechanics;
    var statsDecision: seq<string> := ["P1", "P2", "P3", "P4", "S2", "D1"];
    assert "S1" !in statsDecision && "M1" !in statsDecision;
  }

  /** All four pure units with Statistics 1 and 2 are eligible; the four pure
      units alone are refused for the missing pair. */
  lemma PureWithPairAccepted()
    ensures Check(["P1", "P2", "P3", "P4", "S1", "S2"]) == EligibilityResult(true, EligibleMessage)
    ensures Check(["P1", "P2", "P3", "P4"]) == EligibilityResult(false, MissingPairMessage)
  {
  }

  /** The outcome depends only on which codes are included: order and repeats
      do not matter. */
  lemma MembershipOnly(a: seq<string>, b: seq<string>)
    requires SameCodes(a, b)
    ensures Check(a) == Check(b)
  {
    if a != [] {
      assert a[0] in b;
    }
    if b != [] {
      assert b[0] in a;
    }
  }

  /** Appending a code other than P1 to P4 leaves the pure check as it was. */
  lemma PureCheckIgnores(selected: seq<string>, c: string)
    requires c != "P1" && c != "P2" && c != "P3" && c != "P4"
    ensures HasPureComplete(selected + [c]) == HasPureComplete(selected)
  {
  }

  /** Appending a code that occurs in no accepted pair leaves the pair check
      as it was. */
  lemma PairCheckIgnores(selected: seq<string>, c: string)
    requires c != "S1" && c != "S2" && c != "M1" && c != "M2" && c != "D1"
    ensures HasValidPair(selected + [c]) == HasValidPair(selected)
  {
  }

  /** A code outside the catalogue added to a non-empty selection changes
      nothing. */
  lemma ForeignCodeIgnored(selected: seq<string>, c: string)
    requires selected != []
    requires c !in Units.Codes(Units.Catalogue)
    ensures Check(selected + [c]) == Check(selected)
  {
    var codes := Units.Codes(Units.Catalogue);
    Units.CatalogueCodesListed();
    assert codes[0] != c && codes[1] != c && codes[2] != c && codes[3] != c;
    PureCheckIgnores(selected, c);
    assert codes[7] != c && codes[8] != c && codes[10] != c && codes[11] != c && codes[13] != c;
    PairCheckIgnores(selected, c);
  }

  /** Selecting more units never takes an eligible selection out of
      eligibility. */
  lemma EligibilityUpwardClosed(a: seq<string>, b: seq<string>)
    requires forall c :: c in a ==> c in b
    requires Check(a).eligible
    ensures Check(b).eligible
  {
  }

  /** The pure units the check asks for are the catalogue's pure group, and
      every code of an accepted pair belongs to the applied group. */
  lemma ListsAgreeWithCatalogue()
    ensures PureUnits == Units.Codes(Units.UnitsOf(Units.Pure))
    ensures forall i, c :: 0 <= i < |ValidPairs| && c in ValidPairs[i] ==>
              c in Units.Codes(Units.UnitsOf(Units.Applied))
  {
    Units.GroupCodesListed(Units.Pure);
    Units.GroupCodesListed(Units.Applied);
  }
}
