/** The fixed list of opportunities the matrix shows, and where each lands. */
module Seed {
  import opened Opportunities
  import opened Quadrants
  import opened Grouping

  /** `aiOpportunities`, without the free-text descriptions. */
  const AiOpportunities: seq<Opportunity> := [
    Opportunity(1, "Automated Text Extraction from PDFs", High, High, Low),
    Opportunity(2, "Classification Model for Design Elements", High, High, Medium),
    Opportunity(3, "AI-Powered Predictive Asset Popularity", High, Medium, Medium),
    Opportunity(4, "Automated Metadata Generation", High, Medium, Medium),
    Opportunity(5, "Generative AI for Initial Design Concepts", High, Low, High),
    Opportunity(6, "AI for Cross-Platform Design Consistency Audit", High, Low, High),
    Opportunity(7, "AI-Enhanced Search Query Understanding", Medium, High, Low),
    Opportunity(8, "Automated Reporting on Asset Usage", Medium, High, Low),
    Opportunity(9, "AI-Assisted User Onboarding", Medium, Medium, Medium),
    Opportunity(10, "Automated Rights & Licensing Tagging", Medium, Medium, High),
    Opportunity(11, "AI for Sentiment Analysis of Design Feedback", Medium, Low, Medium),
    Opportunity(12, "Automated Daily System Health Checks", Low, High, Low),
    Opportunity(13, "AI-Generated Welcome Emails for New Team Members", Low, Medium, Low),
    Opportunity(14, "AI for Predicting Office Supply Needs", Low, Low, Low)
  ]

  /** The identifiers of a list of opportunities, in order. */
  function Ids(ops: seq<Opportunity>): seq<int>
  {
    seq(|ops|, i requires 0 <= i < |ops| => ops[i].id)
  }

  /** The seed's identifiers are 1 to 14 in list order, so they are unique. */
  lemma SeedIdsAreUnique()
    ensures forall i :: 0 <= i < |AiOpportunities| ==> AiOpportunities[i].id == i + 1
    ensures forall i, j :: 0 <= i < j < |AiOpportunities| ==> AiOpportunities[i].id != AiOpportunities[j].id
  {
  }

  /** The seed is listed quadrant by quadrant, in declaration order: two
      members in each of the first five quadrants, then one in each of the
      last four. `QuadrantStart(t)` is where the `t`-th quadrant's run
      begins. */
  function QuadrantStart(t: nat): nat
  {
    if t <= 5 then 2 * t else t + 5
  }

  /** The position in `QuadrantOrder` of the quadrant of the `i`-th member. */
  function SeedQuadrant(i: nat): nat
  {
    if i < 10 then i / 2 else i - 5
  }

  lemma SeedPositions()
    ensures forall i :: 0 <= i < |AiOpportunities| ==>
      3 * ImpactRow(AiOpportunities[i].impact) + FeasibilityColumn(AiOpportunities[i].feasibility) == SeedQuadrant(i)
  {
  }

  lemma SeedKeys(t: nat)
    requires t < |QuadrantOrder|
    ensures forall i :: 0 <= i < |AiOpportunities| ==>
      (KeyOf(AiOpportunities[i]) == QuadrantOrder[t] <==> QuadrantStart(t) <= i < QuadrantStart(t + 1))
  {
    SeedPositions();
    forall i | 0 <= i < |AiOpportunities|
      ensures KeyOf(AiOpportunities[i]) == QuadrantOrder[t] <==> QuadrantStart(t) <= i < QuadrantStart(t + 1)
    {
      var op := AiOpportunities[i];
      KeyAtPosition(op.impact, op.feasibility, t);
      assert SeedQuadrant(i) == t <==> QuadrantStart(t) <= i < QuadrantStart(t + 1);
    }
  }

  /** Each quadrant's bucket is the seed's run for that quadrant. */
  lemma SeedBucket(t: nat)
    requires t < |QuadrantOrder|
    ensures Bucket(AiOpportunities, QuadrantOrder[t]) == AiOpportunities[QuadrantStart(t)..QuadrantStart(t + 1)]
  {
    SeedKeys(t);
    BucketOfRun(AiOpportunities, QuadrantOrder[t], QuadrantStart(t), QuadrantStart(t + 1));
  }

  /** The seed's identifiers from position `lo` up to `hi` are `lo + 1` up
      to `hi`. */
  lemma IdsOfSeedSlice(lo: nat, hi: nat)
    requires lo <= hi <= |AiOpportunities|
    ensures Ids(AiOpportunities[lo..hi]) == seq(hi - lo, i => lo + i + 1)
  {
    SeedIdsAreUnique();
  }

  /** Where the seed lands: every one of the nine quadrants is occupied, and
      the `t`-th lists the identifiers `QuadrantStart(t) + 1` up to
      `QuadrantStart(t + 1)` in order: 1 and 2 in the first, 3 and 4 in the
      second, and so on up to 14 alone in the last. */
  lemma SeedGrouping(t: nat)
    requires t < |QuadrantOrder|
    ensures Bucket(AiOpportunities, QuadrantOrder[t]) != []
    ensures Ids(Bucket(AiOpportunities, QuadrantOrder[t])) ==
      seq(QuadrantStart(t + 1) - QuadrantStart(t), i => QuadrantStart(t) + i + 1)
  {
    SeedBucket(t);
    IdsOfSeedSlice(QuadrantStart(t), QuadrantStart(t + 1));
  }
}
