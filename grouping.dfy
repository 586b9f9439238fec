/** Grouping opportunities by quadrant key: the `reduce` that fills a
    dictionary of per-quadrant lists, the lookup the renderer does on it, and
    what the grouping promises (one bucket per opportunity, order kept,
    nothing lost). */
module Grouping {
  import opened Opportunities
  import opened Quadrants

  /** The opportunities of `ops` whose key is `key`, in list order. This is
      the specification the grouping is proved against. */
  function Bucket(ops: seq<Opportunity>, key: string): (b: seq<Opportunity>)
    ensures |b| <= |ops|
    decreases |ops|
  {
    if ops == [] then []
    else
      var last := ops[|ops| - 1];
      Bucket(ops[..|ops| - 1], key) + (if KeyOf(last) == key then [last] else [])
  }

  /** The keys at least one opportunity of `ops` falls under. */
  function Occupied(ops: seq<Opportunity>): set<string>
  {
    set op | op in ops :: KeyOf(op)
  }

  /** `groupedOpportunities[key] || []`: a quadrant without a bucket reads as
      the empty list. */
  function Lookup(grouped: map<string, seq<Opportunity>>, key: string): seq<Opportunity>
  {
    if key in grouped then grouped[key] else []
  }

  /** Appending one opportunity appends it to its own bucket only. */
  lemma BucketSnoc(ops: seq<Opportunity>, x: Opportunity, key: string)
    ensures Bucket(ops + [x], key) == Bucket(ops, key) + (if KeyOf(x) == key then [x] else [])
  {
    assert (ops + [x])[..|ops|] == ops;
  }

  /** Grouping distributes over concatenation: the bucket of a joined list
      is the bucket of the first part followed by that of the second. */
  lemma {:induction false} BucketAppend(a: seq<Opportunity>, b: seq<Opportunity>, key: string)
    ensures Bucket(a + b, key) == Bucket(a, key) + Bucket(b, key)
    decreases |b|
  {
    if b == [] {
      assert a + b == a;
    } else {
      var init, last := b[..|b| - 1], b[|b| - 1];
      assert b == init + [last];
      assert a + b == (a + init) + [last];
      BucketAppend(a, init, key);
      BucketSnoc(a + init, last, key);
      BucketSnoc(init, last, key);
    }
  }

  /** A list all of whose members have the key is its own bucket, and one
      none of whose members has it has an empty bucket. */
  lemma {:induction false} BucketOfUniform(ops: seq<Opportunity>, key: string)
    ensures (forall i :: 0 <= i < |ops| ==> KeyOf(ops[i]) == key) ==> Bucket(ops, key) == ops
    ensures (forall i :: 0 <= i < |ops| ==> KeyOf(ops[i]) != key) ==> Bucket(ops, key) == []
    decreases |ops|
  {
    if ops != [] {
      var init, last := ops[..|ops| - 1], ops[|ops| - 1];
      assert ops == init + [last];
      BucketOfUniform(init, key);
    }
  }

  /** The bucket of a slice none of whose members has the key is empty. */
  lemma BucketOfSliceWithout(ops: seq<Opportunity>, key: string, lo: nat, hi: nat)
    requires lo <= hi <= |ops|
    requires forall i :: lo <= i < hi ==> KeyOf(ops[i]) != key
    ensures Bucket(ops[lo..hi], key) == []
  {
    var part := ops[lo..hi];
    forall i | 0 <= i < |part| ensures KeyOf(part[i]) != key {
      assert part[i] == ops[lo + i];
    }
    BucketOfUniform(part, key);
  }

  /** The bucket of a slice all of whose members have the key is the slice. */
  lemma BucketOfSliceWith(ops: seq<Opportunity>, key: string, lo: nat, hi: nat)
    requires lo <= hi <= |ops|
    requires forall i :: lo <= i < hi ==> KeyOf(ops[i]) == key
    ensures Bucket(ops[lo..hi], key) == ops[lo..hi]
  {
    var part := ops[lo..hi];
    forall i | 0 <= i < |part| ensures KeyOf(part[i]) == key {
      assert part[i] == ops[lo + i];
    }
    BucketOfUniform(part, key);
  }

  lemma ThreeSlices<T>(s: seq<T>, lo: nat, hi: nat)
    requires lo <= hi <= |s|
    ensures s == s[0..lo] + s[lo..hi] + s[hi..|s|]
  {
  }

  /** When the members with a key form one run of the list, the bucket of
      that key is that run. */
  lemma BucketOfRun(ops: seq<Opportunity>, key: string, lo: nat, hi: nat)
    requires lo <= hi <= |ops|
    requires forall i :: 0 <= i < |ops| ==> (KeyOf(ops[i]) == key <==> lo <= i < hi)
    ensures Bucket(ops, key) == ops[lo..hi]
  {
    BucketOfSliceWithout(ops, key, 0, lo);
    BucketOfSliceWith(ops, key, lo, hi);
    BucketOfSliceWithout(ops, key, hi, |ops|);
    ThreeSlices(ops, lo, hi);
    BucketAppend(ops[0..lo], ops[lo..hi], key);
    BucketAppend(ops[0..lo] + ops[lo..hi], ops[hi..|ops|], key);
  }

  /** The `reduce` over the opportunity list. For each opportunity in turn it
      computes the key, creates the bucket if the key has none yet, and
      appends the opportunity to it. The result has a bucket exactly for the
      occupied keys, and each bucket is the specification's `Bucket`. */
  method GroupByQuadrant(ops: seq<Opportunity>) returns (grouped: map<string, seq<Opportunity>>)
    ensures grouped.Keys == Occupied(ops)
    ensures forall key :: Lookup(grouped, key) == Bucket(ops, key)
  {
    grouped := map[];
    for i := 0 to |ops|
      invariant forall key :: key in grouped ==> grouped[key] != []
      invariant forall key :: Lookup(grouped, key) == Bucket(ops[..i], key)
    {
      var op := ops[i];
      var key := KeyOf(op);
      ghost var before := grouped;
      if key !in grouped {
        grouped := grouped[key := []];
      }
      grouped := grouped[key := grouped[key] + [op]];
      assert grouped == before[key := Lookup(before, key) + [op]];
      PrefixSnoc(ops, i);
      PushKeepsBuckets(before, grouped, ops[..i], op);
    }
    assert ops[..|ops|] == ops;
    forall key ensures key in grouped <==> key in Occupied(ops) {
      BucketEmptyIffUnoccupied(ops, key);
    }
  }

  /** Pushing an opportunity onto its own key's list turns a grouping of a
      list into a grouping of that list extended by the opportunity. */
  lemma PushKeepsBuckets(before: map<string, seq<Opportunity>>, after: map<string, seq<Opportunity>>,
                         ops: seq<Opportunity>, op: Opportunity)
    requires forall key :: Lookup(before, key) == Bucket(ops, key)
    requires after == before[KeyOf(op) := Lookup(before, KeyOf(op)) + [op]]
    ensures forall key :: Lookup(after, key) == Bucket(ops + [op], key)
  {
    forall key ensures Lookup(after, key) == Bucket(ops + [op], key) {
      BucketSnoc(ops, op, key);
    }
  }

  lemma PrefixSnoc<T>(s: seq<T>, i: nat)
    requires i < |s|
    ensures s[..i + 1] == s[..i] + [s[i]]
  {
  }

  /** An opportunity is in a bucket exactly when it is in the list and its
      own key is the bucket's key. */
  lemma {:induction false} BucketMembership(ops: seq<Opportunity>, key: string, x: Opportunity)
    ensures x in Bucket(ops, key) <==> x in ops && KeyOf(x) == key
    decreases |ops|
  {
    if ops != [] {
      var init, last := ops[..|ops| - 1], ops[|ops| - 1];
      BucketMembership(init, key, x);
      assert ops == init + [last];
    }
  }

  /** A bucket is empty exactly when no opportunity has its key; so only
      occupied keys get a bucket, and every other key reads as empty. */
  lemma BucketEmptyIffUnoccupied(ops: seq<Opportunity>, key: string)
    ensures Bucket(ops, key) == [] <==> key !in Occupied(ops)
  {
    if key in Occupied(ops) {
      var x :| x in ops && KeyOf(x) == key;
      BucketMembership(ops, key, x);
    } else if Bucket(ops, key) != [] {
      BucketMembership(ops, key, Bucket(ops, key)[0]);
    }
  }

  /** Every opportunity of the list lands in exactly one bucket, the one of
      its own impact and feasibility, and that bucket is one of the nine
      rendered quadrants. */
  lemma ExactlyOneBucket(ops: seq<Opportunity>, x: Opportunity)
    requires x in ops
    ensures forall key :: x in Bucket(ops, key) <==> key == KeyOf(x)
    ensures KeyOf(x) in QuadrantOrder
  {
    forall key ensures x in Bucket(ops, key) <==> key == KeyOf(x) {
      BucketMembership(ops, key, x);
    }
    KeyIsDeclared(x.impact, x.feasibility);
  }

  /** No bucket is left out of the grid: every occupied key is declared. */
  lemma OccupiedKeysAreDeclared(ops: seq<Opportunity>)
    ensures forall key :: key in Occupied(ops) ==> key in QuadrantOrder
  {
    forall key | key in Occupied(ops) ensures key in QuadrantOrder {
      var x :| x in ops && KeyOf(x) == key;
      KeyIsDeclared(x.impact, x.feasibility);
    }
  }

  // ---------------------------------------------------------------------
  // Order within a bucket

  /** The positions in `ops` of the opportunities whose key is `key`, in
      increasing order. */
  function BucketIndices(ops: seq<Opportunity>, key: string): seq<nat>
    decreases |ops|
  {
    if ops == [] then []
    else
      BucketIndices(ops[..|ops| - 1], key)
        + (if KeyOf(ops[|ops| - 1]) == key then [|ops| - 1] else [])
  }

  lemma BucketIndicesSnoc(ops: seq<Opportunity>, x: Opportunity, key: string)
    ensures BucketIndices(ops + [x], key) == BucketIndices(ops, key) + (if KeyOf(x) == key then [|ops|] else [])
  {
    assert (ops + [x])[..|ops|] == ops;
  }

  lemma InitAndLast<T>(s: seq<T>)
    requires s != []
    ensures s == s[..|s| - 1] + [s[|s| - 1]]
  {
  }

  /** The positions are in range and strictly increasing. */
  lemma {:induction false} BucketIndicesIncrease(ops: seq<Opportunity>, key: string)
    ensures forall t :: 0 <= t < |BucketIndices(ops, key)| ==> BucketIndices(ops, key)[t] < |ops|
    ensures forall s, t :: 0 <= s < t < |BucketIndices(ops, key)| ==>
      BucketIndices(ops, key)[s] < BucketIndices(ops, key)[t]
    decreases |ops|
  {
    if ops != [] {
      var init, last := ops[..|ops| - 1], ops[|ops| - 1];
      BucketIndicesIncrease(init, key);
      InitAndLast(ops);
      BucketIndicesSnoc(init, last, key);
    }
  }

  /** The positions are exactly those whose key matches. */
  lemma {:induction false} BucketIndicesExact(ops: seq<Opportunity>, key: string)
    ensures forall i :: 0 <= i < |ops| ==> (KeyOf(ops[i]) == key <==> i in BucketIndices(ops, key))
    decreases |ops|
  {
    if ops != [] {
      var n := |ops|;
      var init, last := ops[..n - 1], ops[n - 1];
      BucketIndicesExact(init, key);
      BucketIndicesIncrease(init, key);
      InitAndLast(ops);
      BucketIndicesSnoc(init, last, key);
      var idx0 := BucketIndices(init, key);
      assert n - 1 !in idx0;
      forall i | 0 <= i < n
        ensures KeyOf(ops[i]) == key <==> i in BucketIndices(ops, key)
      {
        if i < n - 1 {
          assert ops[i] == init[i];
        }
      }
    }
  }

  /** The bucket holds the members at those positions, in that order. */
  lemma {:induction false} BucketAtIndices(ops: seq<Opportunity>, key: string)
    ensures |BucketIndices(ops, key)| == |Bucket(ops, key)|
    ensures forall t :: 0 <= t < |BucketIndices(ops, key)| ==>
      BucketIndices(ops, key)[t] < |ops| && Bucket(ops, key)[t] == ops[BucketIndices(ops, key)[t]]
    decreases |ops|
  {
    if ops != [] {
      var init, last := ops[..|ops| - 1], ops[|ops| - 1];
      BucketAtIndices(init, key);
      InitAndLast(ops);
      BucketIndicesSnoc(init, last, key);
      BucketSnoc(init, last, key);
      var idx0 := BucketIndices(init, key);
      assert forall t :: 0 <= t < |idx0| ==> ops[idx0[t]] == init[idx0[t]];
    }
  }

  /** A bucket is the sub-list of the input at exactly the positions whose
      key is the bucket's key, taken in increasing position order: appending
      one at a time keeps the input's relative order. */
  lemma BucketIsOrderedSelection(ops: seq<Opportunity>, key: string)
    ensures |BucketIndices(ops, key)| == |Bucket(ops, key)|
    ensures forall t :: 0 <= t < |BucketIndices(ops, key)| ==>
      BucketIndices(ops, key)[t] < |ops| && Bucket(ops, key)[t] == ops[BucketIndices(ops, key)[t]]
    ensures forall s, t :: 0 <= s < t < |BucketIndices(ops, key)| ==>
      BucketIndices(ops, key)[s] < BucketIndices(ops, key)[t]
    ensures forall i :: 0 <= i < |ops| ==> (KeyOf(ops[i]) == key <==> i in BucketIndices(ops, key))
  {
    BucketAtIndices(ops, key);
    BucketIndicesIncrease(ops, key);
    BucketIndicesExact(ops, key);
  }

  // ---------------------------------------------------------------------
  // Nothing is lost

  /** The total size of the buckets of `keys`. */
  function SumSizes(ops: seq<Opportunity>, keys: seq<string>): nat
    decreases |keys|
  {
    if keys == [] then 0 else |Bucket(ops, keys[0])| + SumSizes(ops, keys[1..])
  }

  /** How often `key` occurs in `keys`. */
  function Count(keys: seq<string>, key: string): nat
    decreases |keys|
  {
    if keys == [] then 0 else (if keys[0] == key then 1 else 0) + Count(keys[1..], key)
  }

  lemma {:induction false} CountOfDistinct(keys: seq<string>, key: string)
    requires forall s, t :: 0 <= s < t < |keys| ==> keys[s] != keys[t]
    requires key in keys
    ensures Count(keys, key) == 1
    decreases |keys|
  {
    if keys[0] == key {
      CountOfAbsent(keys[1..], key);
    } else {
      CountOfDistinct(keys[1..], key);
    }
  }

  lemma {:induction false} CountOfAbsent(keys: seq<string>, key: string)
    requires key !in keys
    ensures Count(keys, key) == 0
    decreases |keys|
  {
    if keys != [] {
      CountOfAbsent(keys[1..], key);
    }
  }

  lemma {:induction false} SumSizesOfNothing(keys: seq<string>)
    ensures SumSizes([], keys) == 0
    decreases |keys|
  {
    if keys != [] {
      SumSizesOfNothing(keys[1..]);
    }
  }

  /** Appending one opportunity grows the total by the number of times its
      key is listed. */
  lemma {:induction false} SumSizesSnoc(ops: seq<Opportunity>, x: Opportunity, keys: seq<string>)
    ensures SumSizes(ops + [x], keys) == SumSizes(ops, keys) + Count(keys, KeyOf(x))
    decreases |keys|
  {
    if keys != [] {
      assert (ops + [x])[..|ops|] == ops;
      SumSizesSnoc(ops, x, keys[1..]);
    }
  }

  /** The sizes of the nine rendered buckets add up to the length of the
      list. */
  lemma {:induction false} BucketSizesSum(ops: seq<Opportunity>)
    ensures SumSizes(ops, QuadrantOrder) == |ops|
    decreases |ops|
  {
    if ops == [] {
      SumSizesOfNothing(QuadrantOrder);
    } else {
      var init, last := ops[..|ops| - 1], ops[|ops| - 1];
      assert ops == init + [last];
      BucketSizesSum(init);
      SumSizesSnoc(init, last, QuadrantOrder);
      QuadrantKeysDistinct();
      KeyIsDeclared(last.impact, last.feasibility);
      CountOfDistinct(QuadrantOrder, KeyOf(last));
    }
  }
}
