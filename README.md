# AI Opportunities Prioritisation Matrix — classification and grouping model

The application is a single React component that shows a fixed list of
AI-adoption opportunities in a 3 by 3 matrix. Each opportunity carries three
ratings from `High | Medium | Low`: impact, feasibility and risk. Impact picks
the matrix row and feasibility the column. The component builds a quadrant
key `"{row}-{col}"` for each opportunity and groups the list into per-key
buckets with a `reduce`. It then renders the nine declared quadrants, parsing
each key back into a one-based grid position. Each listed item shows its risk
rating in a colour chosen by `getRiskTextColor`. Clicking an item opens a
detail view, which the Close button or a click on the background dismisses.

This project models that logic in Dafny and proves what it promises:

- `opportunities.dfy` (module `Opportunities`): the rating type, the
  opportunity record, `impactMap` and `feasibilityMap`, and the two risk
  colour choices.
- `quadrants.dfy` (module `Quadrants`): the decimal text of a number, the
  `Number` parse, `split`, the key build, the nine declared keys, and the key
  parse with its grid cell.
- `grouping.dfy` (module `Grouping`): the `reduce` as a loop over a `map`
  accumulator, proved against a specification function `Bucket`, and what
  the grouping guarantees.
- `seed.dfy` (module `Seed`): the fourteen-record list the component shows,
  and where each record lands.
- `matrix.dfy` (module `Matrix`): the rendered grid and a `MatrixView` class
  holding the `selectedOpportunity` state cell and its transitions.
- `wrappers.dfy` (module `Wrappers`): `Option`, which stands for `null`
  (and for `NaN` where a key part is not a number).

## Model

| member | source | states |
|---|---|---|
| `Opportunities.ImpactRow` | src/App.tsx:36-40 | every impact rating maps to a row in 0..2 |
| `Opportunities.FeasibilityColumn` | src/App.tsx:42-46 | every feasibility rating maps to a column in 0..2 |
| `Opportunities.AxisMapsAreBijections` | src/App.tsx:36-46 | both maps send High to 0, Medium to 1 and Low to 2; each is injective and onto {0,1,2}, with `LevelAt` as the inverse in both directions |
| `Opportunities.LevelName` | src/App.tsx:7-9 | the string literal of each rating; its partner `RiskTextColorFallback` states that these three literals are exactly the strings the colour `switch` recognises |
| `Opportunities.RiskTextColor` | src/App.tsx:77-84 | `getRiskTextColor` as a `switch` on the string; its partners `RiskTextColorOfLevels` and `RiskTextColorFallback` state the colour of each rating and that grey is returned exactly for strings that are not a rating |
| `Opportunities.ModalRiskTextColor` | src/App.tsx:204-208 | the detail view's nested conditional, with green as its final `else`; its partner `ModalColorAgreesWithList` states that it agrees with `getRiskTextColor` on every rating |
| `Opportunities.RiskTextColorOfLevels` | src/App.tsx:77-84 | for each well-typed rating the colour is red, orange or green as the `switch` lists; the three colours are distinct, and the grey `default` is never reached |
| `Opportunities.RiskTextColorFallback` | src/App.tsx:82 | the grey fallback is returned exactly for strings that are not one of the three rating literals |
| `Opportunities.ModalColorAgreesWithList` | src/App.tsx:204-208 | the detail view's inline colour conditional gives the same colour as `getRiskTextColor` for every rating |
| `Quadrants.DecimalString` | src/App.tsx:68 | the text a template literal writes for a number is non-empty, all decimal digits, with no leading zero |
| `Quadrants.ToNumberOfDecimalString` | src/App.tsx:132 | `Number` applied to the decimal text of a number gives that number back |
| `Quadrants.ToNumber` | src/App.tsx:132 | `Number` on a string of decimal digits; its partner `ToNumberOfDecimalString` states that it reads back the decimal text of every natural number |
| `Quadrants.Split` | src/App.tsx:132 | `split` returns at least one part, and no part contains the separator |
| `Quadrants.JoinSplit` | src/App.tsx:132 | joining the parts of a split with the same separator gives back the original string |
| `Quadrants.SplitAroundSeparator` | src/App.tsx:132 | a string with exactly one separator splits into exactly its two sides |
| `Quadrants.QuadrantKey` | src/App.tsx:68 | the template `${impactMap[impact]}-${feasibilityMap[feasibility]}`; its partners `QuadrantKeyRoundTrip` and `QuadrantKeyInjective` state that it parses back to the row and column and that distinct rating pairs get distinct keys |
| `Quadrants.KeyOf` | src/App.tsx:68 | the key of one opportunity, its impact and feasibility passed to `QuadrantKey`; `ExactlyOneBucket` states that it names the one bucket the opportunity lands in |
| `Quadrants.ParseKey` | src/App.tsx:132 | `key.split('-').map(Number)` destructured into row and column, `None` for a missing part or `NaN`; its partner `QuadrantKeyRoundTrip` states that it inverts `QuadrantKey` |
| `Quadrants.GridCell` | src/App.tsx:139 | a key has a grid cell exactly when it parses, and the cell's row and column (`row + 1`, `col + 1`) are both at least 1 |
| `Quadrants.QuadrantKeyRoundTrip` | src/App.tsx:132-139 | splitting the key built at line 68 and converting its parts gives back the row and column; the grid row and column (`+1`) each lie in [1,3] |
| `Quadrants.QuadrantKeyInjective` | src/App.tsx:68 | two opportunities get the same key if and only if they have the same impact and the same feasibility |
| `Quadrants.QuadrantOrderEntry` | src/App.tsx:54-64 | the constant `QuadrantOrder` holds the nine keys of `quadrantInfo` in declaration order; the t-th is the key of the (t/3)-th impact rating and the (t%3)-th feasibility rating |
| `Quadrants.KeyIsDeclared` | src/App.tsx:54-68 | every computed key is one of the nine keys of `quadrantInfo`, at position 3·row + column of its declaration order |
| `Quadrants.KeyAtPosition` | src/App.tsx:54-68 | a computed key equals the t-th declared key if and only if t is 3·row + column of its ratings |
| `Quadrants.QuadrantKeysDistinct` | src/App.tsx:54-64 | the nine declared keys are pairwise distinct |
| `Quadrants.QuadrantGridCell` | src/App.tsx:131-139 | the t-th declared key parses to grid row t/3+1 and column t%3+1 |
| `Quadrants.DeclaredKeysAreComputedKeys` | src/App.tsx:54-68 | a string is a declared key if and only if it is the key of some impact and feasibility pair |
| `Grouping.Bucket` | src/App.tsx:67-74 | a bucket is never longer than the list it is drawn from |
| `Grouping.Lookup` | src/App.tsx:133 | `groupedOpportunities[key]`, falling back to `[]` for a missing key; `GroupByQuadrant` states that it gives every key's `Bucket`, the empty list for a key with no bucket |
| `Grouping.GroupByQuadrant` | src/App.tsx:67-74 | the `reduce` creates a bucket for exactly the occupied keys; looking up any key, with `|| []` for a missing one, gives that key's `Bucket` |
| `Grouping.BucketMembership` | src/App.tsx:67-74 | an opportunity is in a bucket if and only if it is in the list and its own key is that bucket's key |
| `Grouping.BucketEmptyIffUnoccupied` | src/App.tsx:69-71 | a bucket is empty if and only if no opportunity has its key, so every unoccupied key reads as the empty list |
| `Grouping.ExactlyOneBucket` | src/App.tsx:67-74 | each listed opportunity is in exactly one bucket, the one of its own impact and feasibility, and that bucket is one of the nine rendered quadrants |
| `Grouping.OccupiedKeysAreDeclared` | src/App.tsx:54-74 | every key that gets a bucket is a declared quadrant, so no bucket goes unrendered |
| `Grouping.BucketIsOrderedSelection` | src/App.tsx:72 | a bucket is the input list taken at exactly the positions whose key matches, in increasing position order, so `push` keeps relative order |
| `Grouping.BucketIndicesExact` | src/App.tsx:67-74 | a position is among a bucket's recorded positions if and only if the opportunity there has that key |
| `Grouping.BucketSizesSum` | src/App.tsx:67-74 | the sizes of the nine buckets add up to the length of the list |
| `Grouping.BucketAppend` | src/App.tsx:67-74 | the bucket of a concatenated list is the bucket of the first part followed by the bucket of the second |
| `Grouping.BucketOfRun` | src/App.tsx:67-74 | if the members with a key form one contiguous run of the list, that run is the key's bucket |
| `Seed.SeedIdsAreUnique` | src/App.tsx:14-29 | the seed's identifiers are 1 to 14 in list order, so no two are equal |
| `Seed.SeedPositions` | src/App.tsx:14-29 | the constant `AiOpportunities` holds the fourteen records; the i-th lies in quadrant `SeedQuadrant(i)` (3·row + column of its impact and feasibility) |
| `Seed.SeedBucket` | src/App.tsx:14-29 | the seed is listed quadrant by quadrant: each declared quadrant's bucket is one contiguous slice of it |
| `Seed.SeedGrouping` | src/App.tsx:14-74 | every declared quadrant is occupied, and the t-th lists the consecutive identifiers from QuadrantStart(t)+1 to QuadrantStart(t+1) in list order (1 and 2 in "0-0", …, 14 alone in "2-2") |
| `Matrix.RenderCells` | src/App.tsx:131-133 | the renderer produces one cell per declared key |
| `Matrix.RenderGrid` | src/App.tsx:131-133 | `Object.entries(quadrantInfo).map(...)`: exactly nine cells, the t-th for the t-th declared key |
| `Matrix.GridLayout` | src/App.tsx:131-139 | the nine rendered cells sit at grid positions (1,1) to (3,3), row by row, each exactly once |
| `Matrix.GridShowsEachOpportunityOnce` | src/App.tsx:131-160 | for a correct grouping each cell lists its quadrant's bucket, and an opportunity appears in a cell if and only if the cell's key is its own key |
| `Matrix.GridItemCount` | src/App.tsx:133-163 | for a correct grouping the cells list as many items in all as the list has |
| `Matrix.MatrixView.constructor` | src/App.tsx:33 | on first render nothing is selected and the list is grouped with buckets for exactly the occupied keys |
| `Matrix.MatrixView.SelectItem` | src/App.tsx:150 | clicking an item selects exactly that record, which belongs to the list and has that cell's key |
| `Matrix.MatrixView.ClickBackground` | src/App.tsx:187 | a background click clears the selection and closes the detail view |
| `Matrix.MatrixView.ClickClose` | src/App.tsx:217 | the Close button clears the selection and closes the detail view |
| `Matrix.MatrixView.ClickInsideModal` | src/App.tsx:191 | a click inside the detail view leaves the selection unchanged |

The opportunity list and its grouping are `const` fields of `MatrixView`. No
selection transition can change them.

## Left out

- JSX markup, Tailwind class strings other than the risk colours, legend text
  and axis-label positioning (src/App.tsx:86-224): presentation with no
  stated behaviour.
- The CDN `<script>` and `<link>` tags: external resource loading.
- React's `useState` runtime, re-rendering and DOM event propagation
  (`stopPropagation`): only the resulting state transitions are modelled.
  `ClickInsideModal` stands for the propagation being stopped.
- The quadrant labels and background colours of `quadrantInfo`: display
  data. Only the nine keys and their declaration order are modelled.
- The free-text `description` of each record: display only, and no logic
  reads it.
- `Quadrants.ToNumber` models JavaScript's `Number` only on strings of
  decimal digits, including the empty string, which gives 0. Any other string
  gives `None` (NaN), including forms JavaScript would accept, such as
  surrounding whitespace, a sign, an exponent or a hexadecimal prefix. The
  renderer only ever parses the nine declared keys, so this makes no
  difference there.
- A property key such as `constructor`, which a plain JavaScript object
  inherits, is not modelled: keys are always of the form `"{row}-{col}"`.
- Numeric scoring, weighted risk, category thresholds, identifier
  allocation and the creation form: the component has none of them.
