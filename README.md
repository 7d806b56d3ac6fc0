# IAL Mathematics eligibility calculator — Dafny model

The calculator lets a student pick Pearson Edexcel IAL Mathematics units from a
fixed catalogue of fourteen units. The units come in three groups: pure
(P1–P4), further pure (FP1–FP3) and applied (M1–M3, S1–S3, D1). The student then
asks whether the selection earns the IAL Mathematics award. This project models:

- `sequences.dfy`, module `Sequences`: lists without repeated elements, used
  for the catalogue's codes and for the selection.
- `units.dfy`, module `Units`: the unit catalogue as constant sequences of a
  `Unit` datatype, with code, title, examination code and the cashable flag.
- `eligibility.dfy`, module `Eligibility`: the eligibility check as pure
  functions. It is a decision list with four outcomes:
  1. an empty selection is refused;
  2. a selection missing any of P1–P4 is refused;
  3. a selection with no complete pair from the five accepted applied pairs
     ({S1,S2}, {M1,M2}, {S1,M1}, {S1,D1}, {M1,D1}) is refused;
  4. any other selection is eligible.
  `AllIncluded` and `SomeIncluded` model the source's `every`/`some` over its
  hard-coded lists; membership (`in`) models `includes`.
- `calculator.dfy`, module `Calculator`: the state the calculator updates.
  The class `CalculatorState` holds the selected codes (`seq<string>`), the
  last result (`Option<EligibilityResult>`, `None` before the first check) and
  the section expand flags (`map<string, bool>`). Its methods `ToggleUnit`,
  `ToggleExpand` and `CheckEligibility` replace those fields. The pure
  functions `Toggled`, `Without` and `Flip` specify them.
  The constructor and `Reset` give the page's initial state: nothing
  selected, no result, the sections `pure`, `further` and `applied` collapsed.

The model has only the code's three-outcome check, whose result record is
`{eligible, message}`. The result panel (src/components/ResultPanel.js:22,
:88) reads `result.qualification` and `result.alternativeMessage`, but
`checkIALEligibility` never sets either, so the record here has neither.

Two behaviours of the code worth knowing:
- Emptiness is decided on the length of the selection list. A non-empty
  selection made only of codes outside the catalogue is therefore refused
  for missing pure units, not for being empty. `ForeignCodeIgnored` is
  stated for non-empty selections for that reason.
- The page only ever toggles the sections `pure`, `further` and `applied`
  (src/components/Calculator.js:79, :117-119), which all have a flag from the
  start. `ToggleExpand` therefore requires a section that already has a flag,
  and the class invariant `Valid()` keeps exactly those three flags. `Flip`
  is also defined for a missing flag, which it reads as "collapsed", as
  `!undefined` is `true`.

## Model

| member | source | states |
|---|---|---|
| `Units.CatalogueSizes` | src/data/units.js:2-21 | 4 pure, 3 further pure and 7 applied units, 14 in all |
| `Units.GroupCodesListed` | src/data/units.js:2-21 | the pure group's codes are exactly P1, P2, P3, P4; the further and applied groups' codes, spelled out in order |
| `Units.CatalogueCodesListed` | src/data/units.js:3-20 | the fourteen codes of the whole catalogue, spelled out in order |
| `Units.GroupExamCodesListed` | src/data/units.js:2-21 | the examination codes of each group, spelled out in order |
| `Units.CatalogueExamCodesListed` | src/data/units.js:3-20 | the fourteen examination codes of the whole catalogue, spelled out in order |
| `Units.CodesDistinct` | src/data/units.js:3-20 | no unit code occurs twice, within or across groups |
| `Units.ExamCodesDistinct` | src/data/units.js:3-20 | no examination code occurs twice |
| `Units.AllCashable` | src/data/units.js:3-20 | every unit in the catalogue is cashable |
| `Eligibility.AllIncluded` | src/components/Calculator.js:35 | `every ... includes`: true exactly when every listed code is in the selection |
| `Eligibility.SomeIncluded` | src/components/Calculator.js:42-44 | `some ... every ... includes`: true exactly when some listed group is included in full |
| `Eligibility.HasPureComplete` | src/components/Calculator.js:34-35 | true exactly when P1, P2, P3 and P4 are all selected |
| `Eligibility.HasValidPair` | src/components/Calculator.js:38-44 | true exactly when both members of one of the five accepted pairs are selected |
| `Eligibility.ValidPairsListed` | src/components/Calculator.js:38-41 | the pair list accepts exactly {S1,S2}, {M1,M2}, {S1,M1}, {S1,D1} and {M1,D1} |
| `Eligibility.Check` | src/components/Calculator.js:27-73 | decision list: empty selection refused first, then missing pure units, then missing pair, each with its message; eligible exactly when the pure units and a pair are selected, and then with the eligible message |
| `Eligibility.EligibleIff` | src/components/Calculator.js:34-65 | eligible exactly when P1–P4 and both members of one of the five accepted pairs are selected |
| `Eligibility.PureCheckFirst` | src/components/Calculator.js:46-52 | a non-empty selection missing any pure unit gets the pure-units failure even when a pair is present |
| `Eligibility.UnlistedPairsRefused` | src/components/Calculator.js:54-60 | P1–P4 with M2+M3, or with S2+D1, is refused for the missing pair |
| `Eligibility.PureWithPairAccepted` | src/components/Calculator.js:54-65 | P1–P4 with S1+S2 is eligible; P1–P4 alone is refused for the missing pair |
| `Eligibility.MembershipOnly` | src/components/Calculator.js:29-44 | two selections that include the same codes get the same result, whatever their order and repeats |
| `Eligibility.PureCheckIgnores` | src/components/Calculator.js:35 | appending a code other than P1–P4 does not change the pure check |
| `Eligibility.PairCheckIgnores` | src/components/Calculator.js:42-44 | appending a code that is in no accepted pair does not change the pair check |
| `Eligibility.ForeignCodeIgnored` | src/components/Calculator.js:34-44 | appending a code outside the catalogue to a non-empty selection does not change the result |
| `Eligibility.EligibilityUpwardClosed` | src/components/Calculator.js:62-65 | if every code of an eligible selection is also in a second selection, the second is eligible too |
| `Eligibility.ListsAgreeWithCatalogue` | src/components/Calculator.js:34-41 | the hard-coded pure list equals the catalogue's pure group, and every code of an accepted pair is an applied unit |
| `Calculator.Without` | src/components/Calculator.js:21 | filtering keeps exactly the other codes, never lengthens the list, changes nothing when the code is absent and keeps a list free of repeats |
| `Calculator.WithoutAppend` | src/components/Calculator.js:21 | filtering distributes over joined lists, so the kept codes stay in order |
| `Calculator.WithoutDistinct` | src/components/Calculator.js:21 | in a list without repeats, removing a code cuts out exactly its one position |
| `Calculator.Toggled` | src/components/Calculator.js:19-25 | the new selection holds every old code except the toggled one, and holds the toggled one only if it was absent; an absent code is appended at the end; no repeats are introduced |
| `Calculator.ToggleTwice` | src/components/Calculator.js:19-25 | toggling a code twice leaves the same codes selected; an absent code leaves the list exactly as it was, a present one ends up moved to the end |
| `Calculator.Flip` | src/components/Calculator.js:12-17 | the named flag is negated, a missing flag read as false; every other flag keeps its value; the key set gains at most the named key |
| `Calculator.FlipTwice` | src/components/Calculator.js:12-17 | flipping a section twice restores the flags if it had one, else leaves it explicitly collapsed (see "Left out" for names JavaScript finds on every object) |
| `Calculator.CalculatorState.constructor` | src/App.js:6-12 | initial state: empty selection, no result, the three sections collapsed |
| `Calculator.CalculatorState.Reset` | src/App.js:14-22 | back to the initial state |
| `Calculator.CalculatorState.ToggleExpand` | src/components/Calculator.js:12-17 | for one of the sections that have a flag, the expand flags become `Flip` of the old flags; exactly the three section flags remain |
| `Calculator.CalculatorState.ToggleUnit` | src/components/Calculator.js:19-25 | the selection becomes `Toggled` of the old selection and stays free of repeats |
| `Calculator.CalculatorState.CheckEligibility` | src/components/Calculator.js:27-73 | the recorded result is `Check` of the current selection, eligible exactly when P1–P4 and an accepted pair are selected |

## Left out

- Rendering: the JSX sections, CSS classes, the arrow icon and the "Check
  Eligibility" button (src/components/Calculator.js:75-130). These are
  presentation only.
- The result panel, the selected-units panel, the dashboard and the page
  layout. They only display state. The selected-units panel also sends
  analytics events, a call into a library outside this model.
  src/index.js mounts the page and starts analytics; it is I/O.
- The try/catch around the check. The empty-selection error is modelled as
  the first branch of `Check`, giving the same result record the catch
  block builds.
- React's state setters. The model assigns the fields directly. Batching
  and re-rendering are not modelled.
- Unit titles are kept in the catalogue, but no property is stated about
  them.
- Calculator.Flip: a missing flag is read as `false`. In JavaScript,
  `expandStates[section]` also finds names every object inherits, such as
  `toString` or `constructor`, whose value is truthy, so flipping such a name
  stores `false` where `Flip` stores `true`. `FlipTwice`'s case for a missing
  flag does not hold for those names. The page never passes them, and
  `ToggleExpand` requires a section that already has a flag.
