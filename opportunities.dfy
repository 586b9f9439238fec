/** The record an AI opportunity is, its three-valued ratings, the maps that
    send a rating to a row or column of the matrix, and the colour token
    a risk rating is shown in. */
module Opportunities {

  /** The union type `'High' | 'Medium' | 'Low'` shared by impact,
      feasibility and risk rating. */
  datatype Level = High | Medium | Low

  /** The string literal TypeScript uses for each rating. */
  function LevelName(l: Level): string
  {
    match l
    case High => "High"
    case Medium => "Medium"
    case Low => "Low"
  }

  /** One opportunity. The free-text description is display-only and is
      not part of the model. */
  datatype Opportunity = Opportunity(
    id: int,
    name: string,
    impact: Level,
    feasibility: Level,
    riskRating: Level)

  /** `impactMap`: the matrix row of an impact rating (top row is High). */
  function ImpactRow(impact: Level): (row: nat)
    ensures row < 3
  {
    match impact
    case Low => 2
    case Medium => 1
    case High => 0
  }

  /** `feasibilityMap`: the matrix column of a feasibility rating (left
      column is High). */
  function FeasibilityColumn(feasibility: Level): (col: nat)
    ensures col < 3
  {
    match feasibility
    case Low => 2
    case Medium => 1
    case High => 0
  }

  /** The rating that sits at index `i` of either axis; the inverse of
      both maps. */
  function LevelAt(i: nat): Level
    requires i < 3
  {
    if i == 0 then High else if i == 1 then Medium else Low
  }

  /** Both maps are bijections from the three ratings onto {0, 1, 2}, with
      High at 0, Medium at 1 and Low at 2, and `LevelAt` inverts them. */
  lemma AxisMapsAreBijections()
    ensures ImpactRow(High) == 0 && ImpactRow(Medium) == 1 && ImpactRow(Low) == 2
    ensures FeasibilityColumn(High) == 0 && FeasibilityColumn(Medium) == 1 && FeasibilityColumn(Low) == 2
    ensures forall l: Level :: LevelAt(ImpactRow(l)) == l && LevelAt(FeasibilityColumn(l)) == l
    ensures forall i: nat :: i < 3 ==> ImpactRow(LevelAt(i)) == i && FeasibilityColumn(LevelAt(i)) == i
    ensures forall a: Level, b: Level :: ImpactRow(a) == ImpactRow(b) ==> a == b
    ensures forall a: Level, b: Level :: FeasibilityColumn(a) == FeasibilityColumn(b) ==> a == b
  {
  }

  /** `getRiskTextColor`. Its parameter is typed as a rating, but at run
      time it is a string, and the `switch` has a fallback for any other
      string. */
  function RiskTextColor(riskRating: string): string
  {
    if riskRating == "High" then "text-red-600"
    else if riskRating == "Medium" then "text-orange-600"
    else if riskRating == "Low" then "text-green-600"
    else "text-gray-500"
  }

  /** The inline colour choice of the detail view, a two-level conditional
      with no fallback of its own. */
  function ModalRiskTextColor(riskRating: string): string
  {
    if riskRating == "High" then "text-red-600"
    else if riskRating == "Medium" then "text-orange-600"
    else "text-green-600"
  }

  /** On well-typed input the colour is red, orange or green by rating, the
      three colours are distinct, and the grey fallback is never reached. */
  lemma RiskTextColorOfLevels(l: Level)
    ensures RiskTextColor(LevelName(l)) ==
      match l
      case High => "text-red-600"
      case Medium => "text-orange-600"
      case Low => "text-green-600"
    ensures RiskTextColor(LevelName(l)) != "text-gray-500"
    ensures forall m: Level :: RiskTextColor(LevelName(m)) == RiskTextColor(LevelName(l)) ==> m == l
  {
  }

  /** The grey fallback is reached exactly for the strings that are not a
      rating's literal. */
  lemma RiskTextColorFallback(riskRating: string)
    ensures RiskTextColor(riskRating) == "text-gray-500" <==>
      forall l: Level :: LevelName(l) != riskRating
  {
    if RiskTextColor(riskRating) != "text-gray-500" {
      assert riskRating == LevelName(High) || riskRating == LevelName(Medium) || riskRating == LevelName(Low);
    }
  }

  /** The detail view and the list colour a rating the same way. */
  lemma ModalColorAgreesWithList(l: Level)
    ensures ModalRiskTextColor(LevelName(l)) == RiskTextColor(LevelName(l))
  {
  }
}
