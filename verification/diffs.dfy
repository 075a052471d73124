/** DiffSets: the added/removed overlay that every piece of transaction
    state is built from. `added` is kept duplicate-free in insertion order
    (the source's hash-set order is unspecified; the model fixes one),
    `removed` is a set, and the two never share an element. */
module Diffs {
  import opened Seqs

  datatype DiffSets<T(==,!new)> = DiffSets(added: seq<T>, removed: set<T>)
  {
    /** The two sides are disjoint and `added` holds each element once. */
    ghost predicate Valid()
    {
      NoDuplicates(added) && forall x :: x in added ==> x !in removed
    }

    /** `x` is pending addition; in a valid diff it is then not also pending removal. */
    predicate IsAdded(x: T)
      ensures Valid() && IsAdded(x) ==> x !in removed
    {
      x in added
    }

    /** `x` is pending removal; in a valid diff it is then not also pending addition. */
    predicate IsRemoved(x: T)
      ensures Valid() && IsRemoved(x) ==> x !in added
    {
      x in removed
    }

    predicate IsEmpty()
    {
      added == [] && removed == {}
    }

    /** Records `x` as added; a pending removal of `x` is cleared. */
    function Add(x: T): (r: DiffSets<T>)
      requires Valid()
      ensures r.Valid()
      ensures x in r.added && x !in r.removed
      ensures forall y :: y != x ==> (y in r.added <==> y in added) && (y in r.removed <==> y in removed)
    {
      var added' := if x in added then added else added + [x];
      assert NoDuplicates(added') by {
        if x !in added { ConcatNoDuplicates(added, [x]); }
      }
      DiffSets(added', removed - {x})
    }

    /** Records `x` as removed; a pending addition of `x` is cleared. */
    function Remove(x: T): (r: DiffSets<T>)
      requires Valid()
      ensures r.Valid()
      ensures x in r.removed && x !in r.added
      ensures forall y :: y != x ==> (y in r.added <==> y in added) && (y in r.removed <==> y in removed)
      ensures x !in added ==> r.added == added
    {
      var keep := y => y != x;
      FilterNoDuplicates(added, keep);
      assert x !in added ==> Filter(added, keep) == added by {
        if x !in added { FilterAll(added, keep); }
      }
      DiffSets(Filter(added, keep), removed + {x})
    }

    /** Cancels a pending removal of `x`, leaving `x` neither added nor removed. */
    function UnRemove(x: T): (r: DiffSets<T>)
      requires Valid()
      ensures r.Valid()
      ensures x !in r.removed && r.added == added
      ensures forall y :: y != x ==> (y in r.removed <==> y in removed)
    {
      DiffSets(added, removed - {x})
    }

    /** Keeps only the added elements satisfying `keep`; removals are untouched. */
    function FilterAdded(keep: T -> bool): (r: DiffSets<T>)
      requires Valid()
      ensures r.Valid()
      ensures forall y :: r.IsAdded(y) <==> IsAdded(y) && keep(y)
      ensures r.removed == removed
    {
      FilterNoDuplicates(added, keep);
      DiffSets(Filter(added, keep), removed)
    }

    /** Adds every element of `xs`, one after the other. */
    function AddAll(xs: seq<T>): (r: DiffSets<T>)
      requires Valid()
      ensures r.Valid()
      ensures forall y :: r.IsAdded(y) <==> IsAdded(y) || y in xs
      ensures forall y :: r.IsRemoved(y) <==> IsRemoved(y) && y !in xs
      decreases |xs|
    {
      if xs == [] then this
      else
        var r := Add(xs[0]).AddAll(xs[1..]);
        assert forall y :: y in xs <==> y == xs[0] || y in xs[1..] by {
          assert xs == [xs[0]] + xs[1..];
        }
        r
    }

    /** Removes every element of `xs`. */
    function RemoveAll(xs: set<T>): (r: DiffSets<T>)
      requires Valid()
      ensures r.Valid()
      ensures forall y :: r.IsAdded(y) <==> IsAdded(y) && y !in xs
      ensures forall y :: r.IsRemoved(y) <==> IsRemoved(y) || y in xs
    {
      FilterNoDuplicates(added, y => y !in xs);
      DiffSets(Filter(added, y => y !in xs), removed + xs)
    }

    /** The merged view over `base`: the elements of `base` not removed, in
        order, followed by the added elements not already among them. */
    function Apply(base: seq<T>): (r: seq<T>)
      ensures forall x :: x in r ==> (x in base && x !in removed) || x in added
      ensures forall x :: (x in base && x !in removed) || x in added ==> x in r
    {
      var kept := Filter(base, x => x !in removed);
      kept + Filter(added, x => x !in kept)
    }
  }

  function Empty<T(==,!new)>(): (r: DiffSets<T>)
    ensures r.Valid() && r.IsEmpty()
    ensures forall x :: !r.IsAdded(x) && !r.IsRemoved(x)
  {
    DiffSets([], {})
  }

  /** A removals-only diff, as the set of deleted nodes is presented. */
  function RemovalsOnly<T(==,!new)>(xs: set<T>): (r: DiffSets<T>)
    ensures r.Valid()
    ensures forall x :: !r.IsAdded(x) && (r.IsRemoved(x) <==> x in xs)
  {
    DiffSets([], xs)
  }

  /** Applying a valid diff to a duplicate-free base yields a duplicate-free sequence. */
  lemma ApplyNoDuplicates<T(!new)>(d: DiffSets<T>, base: seq<T>)
    requires d.Valid() && NoDuplicates(base)
    ensures NoDuplicates(d.Apply(base))
  {
    var kept := Filter(base, x => x !in d.removed);
    FilterNoDuplicates(base, x => x !in d.removed);
    FilterNoDuplicates(d.added, x => x !in kept);
    ConcatNoDuplicates(kept, Filter(d.added, x => x !in kept));
  }

  /** A diff with no opinion passes the base through unchanged. */
  lemma ApplyEmpty<T(!new)>(d: DiffSets<T>, base: seq<T>)
    requires d.IsEmpty()
    ensures d.Apply(base) == base
  {
    FilterAll(base, x => x !in d.removed);
  }

  /** Adding twice is adding once. */
  lemma AddIdempotent<T(!new)>(d: DiffSets<T>, x: T)
    requires d.Valid()
    ensures d.Add(x).Add(x) == d.Add(x)
  {
  }

  /** Cancelling a removal of an element the diff had no opinion on restores the diff. */
  lemma RemoveThenUnRemove<T(!new)>(d: DiffSets<T>, x: T)
    requires d.Valid() && !d.IsAdded(x) && !d.IsRemoved(x)
    ensures d.Remove(x).UnRemove(x) == d
  {
  }

  /** Removing after adding leaves `x` removed, whatever came before. */
  lemma RemoveAfterAdd<T(!new)>(d: DiffSets<T>, x: T)
    requires d.Valid()
    ensures d.Add(x).Remove(x).IsRemoved(x) && !d.Add(x).Remove(x).IsAdded(x)
    ensures d.Add(x).Remove(x).removed == d.removed + {x}
  {
  }
}
