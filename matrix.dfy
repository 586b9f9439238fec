/** The prioritisation matrix as the component renders it: nine cells laid
    out from the quadrant keys, each listing its bucket, and the selection
    state behind the detail view. */
module Matrix {
  import opened Wrappers
  import opened Opportunities
  import opened Quadrants
  import opened Grouping

  /** One rendered cell: its key, the grid position parsed from the key
      (`None` where CSS would get `NaN`), and the opportunities it lists. */
  datatype RenderedCell = RenderedCell(key: string, position: Option<(nat, nat)>, items: seq<Opportunity>)

  /** One cell per key of `keys`, in order. */
  function RenderCells(grouped: map<string, seq<Opportunity>>, keys: seq<string>): (cells: seq<RenderedCell>)
    ensures |cells| == |keys|
  {
    seq(|keys|, t requires 0 <= t < |keys| =>
      RenderedCell(keys[t], GridCell(keys[t]), Lookup(grouped, keys[t])))
  }

  /** `Object.entries(quadrantInfo).map(...)`: one cell per declared key, in
      declaration order. */
  function RenderGrid(grouped: map<string, seq<Opportunity>>): (cells: seq<RenderedCell>)
    ensures |cells| == |QuadrantOrder|
    ensures forall t :: 0 <= t < |cells| ==> cells[t].key == QuadrantOrder[t]
  {
    RenderCells(grouped, QuadrantOrder)
  }

  /** The number of list items shown in `cells`. */
  function ItemCount(cells: seq<RenderedCell>): nat
    decreases |cells|
  {
    if cells == [] then 0 else |cells[0].items| + ItemCount(cells[1..])
  }

  lemma {:induction false} ItemCountIsSumSizes(ops: seq<Opportunity>, grouped: map<string, seq<Opportunity>>, keys: seq<string>)
    requires forall key :: Lookup(grouped, key) == Bucket(ops, key)
    ensures ItemCount(RenderCells(grouped, keys)) == SumSizes(ops, keys)
    decreases |keys|
  {
    if keys != [] {
      ItemCountIsSumSizes(ops, grouped, keys[1..]);
      assert RenderCells(grouped, keys)[1..] == RenderCells(grouped, keys[1..]);
    }
  }

  /** The nine cells fill the 3 by 3 grid row by row. */
  lemma GridLayout(grouped: map<string, seq<Opportunity>>)
    ensures |RenderGrid(grouped)| == 9
    ensures forall t :: 0 <= t < |QuadrantOrder| ==>
      RenderGrid(grouped)[t].position == Some((t / 3 + 1, t % 3 + 1))
  {
    forall t | 0 <= t < |QuadrantOrder|
      ensures RenderGrid(grouped)[t].position == Some((t / 3 + 1, t % 3 + 1))
    {
      QuadrantGridCell(t);
    }
  }

  /** For a correct grouping of `ops`, each cell lists its quadrant's bucket
      (empty where the grouping has no bucket), and every opportunity appears
      in exactly the cell of its own key. */
  lemma GridShowsEachOpportunityOnce(ops: seq<Opportunity>, grouped: map<string, seq<Opportunity>>)
    requires forall key :: Lookup(grouped, key) == Bucket(ops, key)
    ensures forall t :: 0 <= t < |QuadrantOrder| ==>
      RenderGrid(grouped)[t].items == Bucket(ops, QuadrantOrder[t])
    ensures forall x, t :: x in ops && 0 <= t < |QuadrantOrder| ==>
      (x in RenderGrid(grouped)[t].items <==> QuadrantOrder[t] == KeyOf(x))
  {
    var cells := RenderGrid(grouped);
    forall x, t | x in ops && 0 <= t < |QuadrantOrder|
      ensures x in cells[t].items <==> QuadrantOrder[t] == KeyOf(x)
    {
      BucketMembership(ops, QuadrantOrder[t], x);
    }
  }

  /** For a correct grouping of `ops`, the cells list `|ops|` items in all. */
  lemma GridItemCount(ops: seq<Opportunity>, grouped: map<string, seq<Opportunity>>)
    requires forall key :: Lookup(grouped, key) == Bucket(ops, key)
    ensures ItemCount(RenderGrid(grouped)) == |ops|
  {
    ItemCountIsSumSizes(ops, grouped, QuadrantOrder);
    BucketSizesSum(ops);
  }

  /** The component's state: the fixed opportunity list, its grouping, and
      the nullable `selectedOpportunity`. The list and the grouping are
      constants, so no transition can change them. */
  class MatrixView {
    const opportunities: seq<Opportunity>
    const grouped: map<string, seq<Opportunity>>
    var selected: Option<Opportunity>

    ghost predicate Valid()
      reads this
    {
      && (forall key :: Lookup(grouped, key) == Bucket(opportunities, key))
      && (selected.Some? ==> selected.value in opportunities)
    }

    /** The detail view is shown exactly when something is selected. */
    predicate ModalOpen()
      reads this
    {
      selected.Some?
    }

    /** First render: the list is grouped and nothing is selected. */
    constructor (ops: seq<Opportunity>)
      ensures Valid()
      ensures opportunities == ops && selected == None
      ensures forall key :: key in grouped <==> key in Occupied(ops)
    {
      opportunities := ops;
      var g := GroupByQuadrant(ops);
      grouped := g;
      selected := None;
    }

    /** Clicking the `index`-th item of the cell of `key` selects exactly
      that record, which is a member of the list with that key. */
    method SelectItem(key: string, index: nat)
      requires Valid()
      requires key in QuadrantOrder && index < |Lookup(grouped, key)|
      modifies this
      ensures Valid()
      ensures selected == Some(Lookup(grouped, key)[index])
      ensures selected.value in opportunities && KeyOf(selected.value) == key
    {
      var op := Lookup(grouped, key)[index];
      BucketMembership(opportunities, key, op);
      selected := Some(op);
    }

    /** A click on the dimmed background clears the selection. */
    method ClickBackground()
      requires Valid() && ModalOpen()
      modifies this
      ensures Valid() && !ModalOpen()
      ensures selected == None
    {
      selected := None;
    }

    /** The Close button clears the selection. */
    method ClickClose()
      requires Valid() && ModalOpen()
      modifies this
      ensures Valid() && !ModalOpen()
      ensures selected == None
    {
      selected := None;
    }

    /** A click inside the detail view stops there and changes nothing. */
    method ClickInsideModal()
      requires Valid() && ModalOpen()
      ensures Valid() && ModalOpen()
      ensures selected == old(selected)
    {
    }
  }
}
