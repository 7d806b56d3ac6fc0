/** The calculator's state: the list of selected unit codes, the last
    eligibility result shown (if any) and which catalogue sections are
    expanded. The page owns this state; the calculator replaces it through
    three operations: toggle a unit, toggle a section, check eligibility. */
module Calculator {
  import Sequences
  import opened Eligibility

  datatype Option<T> = None | Some(value: T)

  /** The three catalogue sections, all collapsed when the page opens. */
  const InitialExpandStates: map<string, bool> :=
    map["pure" := false, "further" := false, "applied" := false]

  /** The selection with every occurrence of `code` filtered out, the other
      codes kept in their order. */
  function Without(s: seq<string>, code: string): (r: seq<string>)
    ensures forall x :: x in r <==> x in s && x != code
    ensures |r| <= |s|
    ensures code !in s ==> r == s
    ensures Sequences.Distinct(s) ==> Sequences.Distinct(r)
  {
    if s == [] then []
    else if s[0] == code then Without(s[1..], code)
    else
      var rest := Without(s[1..], code);
      Sequences.DistinctCons(s[0], s[1..]);
      Sequences.DistinctCons(s[0], rest);
      [s[0]] + rest
  }

  /** The selection after clicking on `code`: removed when it was selected,
      appended at the end when it was not. */
  function Toggled(s: seq<string>, code: string): (r: seq<string>)
    ensures forall x :: x in r <==> (x in s <==> x != code)
    ensures code !in s ==> r == s + [code]
    ensures Sequences.Distinct(s) ==> Sequences.Distinct(r)
  {
    if code in s then Without(s, code) else s + [code]
  }

  /** The expand flags after clicking on `section`: that flag is negated (a
      section never clicked counts as collapsed), every other flag is kept. */
  function Flip(m: map<string, bool>, section: string): (r: map<string, bool>)
    ensures r.Keys == m.Keys + {section}
    ensures r[section] <==> !(section in m && m[section])
    ensures forall k :: k in m && k != section ==> r[k] == m[k]
  {
    m[section := !(section in m && m[section])]
  }

  /** Filtering distributes over joining two lists, so filtering keeps the
      order of the codes it keeps. */
  lemma {:induction false} WithoutAppend(a: seq<string>, b: seq<string>, code: string)
    ensures Without(a + b, code) == Without(a, code) + Without(b, code)
  {
    if a != [] {
      assert (a + b)[0] == a[0] && (a + b)[1..] == a[1..] + b;
      WithoutAppend(a[1..], b, code);
      if a[0] != code {
        assert [a[0]] + (Without(a[1..], code) + Without(b, code))
            == ([a[0]] + Without(a[1..], code)) + Without(b, code);
      }
    } else {
      assert a + b == b;
    }
  }

  /** In a selection without repeats, removing a code cuts out exactly the
      one place where it stands. */
  lemma {:induction false} WithoutDistinct(s: seq<string>, i: nat)
    requires Sequences.Distinct(s)
    requires i < |s|
    ensures Without(s, s[i]) == s[..i] + s[i + 1..]
  {
    if i == 0 {
      assert s[0] !in s[1..];
    } else {
      assert s[1..][i - 1] == s[i];
      WithoutDistinct(s[1..], i - 1);
      assert s[1..][..i - 1] + s[1..][i..] == s[1..i] + s[i + 1..];
    }
  }

  /** Clicking the same unit twice leaves the same codes selected. When the
      code was not selected the list is back exactly as it was; when it was,
      it has moved to the end. */
  lemma ToggleTwice(s: seq<string>, code: string)
    ensures forall x :: x in Toggled(Toggled(s, code), code) <==> x in s
    ensures code !in s ==> Toggled(Toggled(s, code), code) == s
    ensures code in s ==> Toggled(Toggled(s, code), code) == Without(s, code) + [code]
  {
    if code !in s {
      WithoutAppend(s, [code], code);
    }
  }

  /** Clicking a section twice restores the flags when the section already
      had one; a section never clicked before ends up explicitly collapsed. */
  lemma FlipTwice(m: map<string, bool>, section: string)
    ensures section in m ==> Flip(Flip(m, section), section) == m
    ensures section !in m ==> Flip(Flip(m, section), section) == m[section := false]
  {
  }

  class CalculatorState {
    var selectedUnits: seq<string>
    var result: Option<EligibilityResult>
    var expandStates: map<string, bool>

    /** The selection never lists a code twice, and there is one expand flag
        for each of the three catalogue sections and no other. */
    ghost predicate Valid()
      reads this
    {
      && Sequences.Distinct(selectedUnits)
      && expandStates.Keys == InitialExpandStates.Keys
    }

    /** The page's initial state: nothing selected, no result, every section
        collapsed. */
    constructor ()
      ensures Valid()
      ensures selectedUnits == [] && result == None && expandStates == InitialExpandStates
    {
      selectedUnits := [];
      result := None;
      expandStates := InitialExpandStates;
    }

    /** Start over: back to the initial state. */
    method Reset()
      modifies this
      ensures Valid()
      ensures selectedUnits == [] && result == None && expandStates == InitialExpandStates
    {
      selectedUnits := [];
      result := None;
      expandStates := InitialExpandStates;
    }

    /** Expand or collapse one of the three sections of the catalogue. */
    method ToggleExpand(section: string)
      requires Valid() && section in expandStates
      modifies this`expandStates
      ensures Valid()
      ensures expandStates == Flip(old(expandStates), section)
    {
      var wasExpanded := section in expandStates && expandStates[section];
      expandStates := expandStates[section := !wasExpanded];
    }

    /** Select a unit that is not selected, or deselect one that is. */
    method ToggleUnit(code: string)
      modifies this`selectedUnits
      ensures selectedUnits == Toggled(old(selectedUnits), code)
      ensures old(Valid()) ==> Valid()
    {
      if code in selectedUnits {
        selectedUnits := Without(selectedUnits, code);
      } else {
        selectedUnits := selectedUnits + [code];
      }
    }

    /** Run the eligibility check on the current selection and record the
        outcome. */
    method CheckEligibility()
      modifies this`result
      ensures result == Some(Check(selectedUnits))
      ensures result.value.eligible <==> HasPureComplete(selectedUnits) && HasValidPair(selectedUnits)
    {
      result := Some(Check(selectedUnits));
    }
  }
}
