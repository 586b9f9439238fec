/** Quadrant keys: the string `"{row}-{col}"` built for each opportunity, the
    nine keys the matrix declares, and the parse the renderer applies to a key
    to find its grid cell (split on '-', then `Number` on each part). */
module Quadrants {
  import opened Wrappers
  import opened Opportunities

  // ---------------------------------------------------------------------
  // Decimal text of a number, as a template literal `${n}` writes it

  function DigitChar(d: nat): char
    requires d < 10
  {
    ('0' as int + d) as char
  }

  predicate IsDigits(s: string)
  {
    forall i :: 0 <= i < |s| ==> '0' <= s[i] <= '9'
  }

  /** The decimal text of a non-negative integer, with no leading zero. */
  function DecimalString(n: nat): (s: string)
    ensures |s| >= 1 && IsDigits(s)
    ensures |s| > 1 ==> s[0] != '0'
    decreases n
  {
    if n < 10 then [DigitChar(n)] else DecimalString(n / 10) + [DigitChar(n % 10)]
  }

  /** The value of a string of decimal digits, most significant first. */
  function DigitsValue(s: string): nat
    requires IsDigits(s)
    decreases |s|
  {
    if s == [] then 0
    else DigitsValue(s[..|s| - 1]) * 10 + (s[|s| - 1] as int - '0' as int)
  }

  /** `Number(s)` on the strings a key splits into. A string of decimal
      digits gives its value (the empty string gives 0, as in JavaScript);
      any other string gives `None`, standing for `NaN`. */
  function ToNumber(s: string): Option<nat>
  {
    if IsDigits(s) then Some(DigitsValue(s)) else None
  }

  /** Reading back the decimal text of a number gives the number. */
  lemma {:induction false} ToNumberOfDecimalString(n: nat)
    ensures ToNumber(DecimalString(n)) == Some(n)
    decreases n
  {
    var s := DecimalString(n);
    if n < 10 {
      assert s[..|s| - 1] == [];
    } else {
      ToNumberOfDecimalString(n / 10);
      assert s[..|s| - 1] == DecimalString(n / 10);
      assert s[|s| - 1] as int - '0' as int == n % 10;
      assert DigitsValue(s) == (n / 10) * 10 + n % 10;
    }
  }

  // ---------------------------------------------------------------------
  // String.prototype.split with a one-character separator

  /** `s.split(sep)`: the maximal runs of `s` between separators; the empty
      string splits into one empty part. */
  function Split(s: string, sep: char): (parts: seq<string>)
    ensures |parts| >= 1
    ensures forall i :: 0 <= i < |parts| ==> sep !in parts[i]
    decreases |s|
  {
    if s == [] then [""]
    else if s[0] == sep then [""] + Split(s[1..], sep)
    else
      var rest := Split(s[1..], sep);
      [[s[0]] + rest[0]] + rest[1..]
  }

  /** `parts.join(sep)`. */
  function Join(parts: seq<string>, sep: char): string
    requires |parts| >= 1
    decreases |parts|
  {
    if |parts| == 1 then parts[0] else parts[0] + [sep] + Join(parts[1..], sep)
  }

  /** Splitting and joining on the same separator gives back the string. */
  lemma {:induction false} JoinSplit(s: string, sep: char)
    ensures Join(Split(s, sep), sep) == s
    decreases |s|
  {
    if s == [] {
    } else if s[0] == sep {
      JoinSplit(s[1..], sep);
      assert [sep] + s[1..] == s;
    } else {
      JoinSplit(s[1..], sep);
      var rest := Split(s[1..], sep);
      if |rest| == 1 {
        assert [s[0]] + rest[0] == s;
      } else {
        assert [s[0]] + rest[0] + [sep] + Join(rest[1..], sep) == s;
      }
    }
  }

  /** A string with no separator in it is one part. */
  lemma {:induction false} SplitWithoutSeparator(s: string, sep: char)
    requires sep !in s
    ensures Split(s, sep) == [s]
    decreases |s|
  {
    if s != [] {
      SplitWithoutSeparator(s[1..], sep);
      assert [s[0]] + s[1..] == s;
    }
  }

  /** A separator-free prefix followed by a separator becomes the first part. */
  lemma {:induction false} SplitAfterPrefix(a: string, sep: char, b: string)
    requires sep !in a
    ensures Split(a + [sep] + b, sep) == [a] + Split(b, sep)
    decreases |a|
  {
    var s := a + [sep] + b;
    if a == [] {
      assert s[1..] == b;
    } else {
      assert s[1..] == a[1..] + [sep] + b;
      SplitAfterPrefix(a[1..], sep, b);
      assert [a[0]] + a[1..] == a;
    }
  }

  /** A string with exactly one separator splits into the two sides. */
  lemma SplitAroundSeparator(a: string, sep: char, b: string)
    requires sep !in a && sep !in b
    ensures Split(a + [sep] + b, sep) == [a, b]
  {
    SplitAfterPrefix(a, sep, b);
    SplitWithoutSeparator(b, sep);
  }

  // ---------------------------------------------------------------------
  // Building and parsing quadrant keys

  /** The key `${impactMap[impact]}-${feasibilityMap[feasibility]}`. */
  function QuadrantKey(impact: Level, feasibility: Level): string
  {
    DecimalString(ImpactRow(impact)) + "-" + DecimalString(FeasibilityColumn(feasibility))
  }

  /** The quadrant key of one opportunity. */
  function KeyOf(op: Opportunity): string
  {
    QuadrantKey(op.impact, op.feasibility)
  }

  /** The keys of `quadrantInfo`, in declaration order: the order in which
      the grid's cells are rendered. Labels and colours are display data. */
  const QuadrantOrder: seq<string> :=
    ["0-0", "0-1", "0-2", "1-0", "1-1", "1-2", "2-0", "2-1", "2-2"]

  /** `const [row, col] = key.split('-').map(Number)`. A key with fewer than
      two parts leaves `col` undefined, and a part that is not a number
      gives `NaN`; both are `None` here. Parts after the second are ignored,
      as destructuring ignores them. */
  function ParseKey(key: string): Option<(nat, nat)>
  {
    var parts := Split(key, '-');
    if |parts| >= 2 && ToNumber(parts[0]).Some? && ToNumber(parts[1]).Some? then
      Some((ToNumber(parts[0]).value, ToNumber(parts[1]).value))
    else
      None
  }

  /** The one-based CSS grid row and column of a quadrant: `row + 1`, `col + 1`. */
  function GridCell(key: string): (cell: Option<(nat, nat)>)
    ensures cell.Some? <==> ParseKey(key).Some?
    ensures cell.Some? ==> cell.value.0 >= 1 && cell.value.1 >= 1
  {
    match ParseKey(key)
    case Some((row, col)) => Some((row + 1, col + 1))
    case None => None
  }

  /** Round trip: the key of an opportunity parses back to its row and
      column, and its grid cell lies inside the 3 by 3 grid. */
  lemma QuadrantKeyRoundTrip(impact: Level, feasibility: Level)
    ensures ParseKey(QuadrantKey(impact, feasibility)) ==
      Some((ImpactRow(impact), FeasibilityColumn(feasibility)))
    ensures GridCell(QuadrantKey(impact, feasibility)) ==
      Some((ImpactRow(impact) + 1, FeasibilityColumn(feasibility) + 1))
    ensures 1 <= ImpactRow(impact) + 1 <= 3 && 1 <= FeasibilityColumn(feasibility) + 1 <= 3
  {
    var a := DecimalString(ImpactRow(impact));
    var b := DecimalString(FeasibilityColumn(feasibility));
    assert '-' !in a && '-' !in b by {
      assert forall i :: 0 <= i < |a| ==> a[i] != '-';
      assert forall i :: 0 <= i < |b| ==> b[i] != '-';
    }
    SplitAroundSeparator(a, '-', b);
    ToNumberOfDecimalString(ImpactRow(impact));
    ToNumberOfDecimalString(FeasibilityColumn(feasibility));
  }

  /** Distinct (impact, feasibility) pairs get distinct keys. */
  lemma QuadrantKeyInjective(i1: Level, f1: Level, i2: Level, f2: Level)
    ensures QuadrantKey(i1, f1) == QuadrantKey(i2, f2) <==> i1 == i2 && f1 == f2
  {
    if QuadrantKey(i1, f1) == QuadrantKey(i2, f2) {
      QuadrantKeyRoundTrip(i1, f1);
      QuadrantKeyRoundTrip(i2, f2);
      AxisMapsAreBijections();
    }
  }

  /** The `t`-th declared key is the key of the `t / 3`-th impact rating and
      the `t % 3`-th feasibility rating. */
  lemma QuadrantOrderEntry(t: nat)
    requires t < |QuadrantOrder|
    ensures QuadrantOrder[t] == QuadrantKey(LevelAt(t / 3), LevelAt(t % 3))
  {
  }

  /** Every opportunity's key is one of the nine declared keys, at the
      position its row and column give. */
  lemma KeyIsDeclared(impact: Level, feasibility: Level)
    ensures 3 * ImpactRow(impact) + FeasibilityColumn(feasibility) < |QuadrantOrder|
    ensures QuadrantOrder[3 * ImpactRow(impact) + FeasibilityColumn(feasibility)] ==
      QuadrantKey(impact, feasibility)
    ensures QuadrantKey(impact, feasibility) in QuadrantOrder
  {
    var t := 3 * ImpactRow(impact) + FeasibilityColumn(feasibility);
    QuadrantOrderEntry(t);
    AxisMapsAreBijections();
  }

  /** A computed key equals the `t`-th declared key exactly when `t` is
      3 * row + column. */
  lemma KeyAtPosition(impact: Level, feasibility: Level, t: nat)
    requires t < |QuadrantOrder|
    ensures QuadrantKey(impact, feasibility) == QuadrantOrder[t] <==>
      t == 3 * ImpactRow(impact) + FeasibilityColumn(feasibility)
  {
    KeyIsDeclared(impact, feasibility);
    QuadrantOrderEntry(t);
    QuadrantKeyInjective(impact, feasibility, LevelAt(t / 3), LevelAt(t % 3));
    AxisMapsAreBijections();
  }

  /** The nine declared keys are distinct. */
  lemma QuadrantKeysDistinct()
    ensures forall s, t :: 0 <= s < t < |QuadrantOrder| ==> QuadrantOrder[s] != QuadrantOrder[t]
  {
    forall s, t | 0 <= s < t < |QuadrantOrder|
      ensures QuadrantOrder[s] != QuadrantOrder[t]
    {
      QuadrantOrderEntry(s);
      KeyAtPosition(LevelAt(s / 3), LevelAt(s % 3), t);
      AxisMapsAreBijections();
    }
  }

  /** The `t`-th declared key's grid cell is row `t / 3 + 1`, column
      `t % 3 + 1`. */
  lemma QuadrantGridCell(t: nat)
    requires t < |QuadrantOrder|
    ensures GridCell(QuadrantOrder[t]) == Some((t / 3 + 1, t % 3 + 1))
  {
    var i, f := LevelAt(t / 3), LevelAt(t % 3);
    QuadrantOrderEntry(t);
    QuadrantKeyRoundTrip(i, f);
    assert ImpactRow(i) == t / 3 && FeasibilityColumn(f) == t % 3;
  }

  /** A string is a declared key exactly when it is the key of some pair of
      ratings. */
  lemma DeclaredKeysAreComputedKeys(key: string)
    ensures key in QuadrantOrder <==> exists i: Level, f: Level :: QuadrantKey(i, f) == key
  {
    if key in QuadrantOrder {
      var t :| 0 <= t < |QuadrantOrder| && QuadrantOrder[t] == key;
      QuadrantOrderEntry(t);
    }
    if exists i: Level, f: Level :: QuadrantKey(i, f) == key {
      var i: Level, f: Level :| QuadrantKey(i, f) == key;
      KeyIsDeclared(i, f);
    }
  }
}
