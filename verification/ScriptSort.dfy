/** Orders of indices into a list of values, and merging two of them. */
module MergeSteps {
  import opened Collections

  type Less = (int, int) -> bool

  ghost predicate StrictWeak(less: Less) {
    && (forall a :: !less(a, a))
    && (forall a, b, c :: less(a, b) && less(b, c) ==> less(a, c))
    && (forall a, b, c :: !less(a, b) && !less(b, a) && !less(b, c) && !less(c, b) ==> !less(a, c))
  }

  /** `x` belongs before `y`: smaller, or equivalent and earlier in the list. */
  predicate Prec(values: seq<int>, less: Less, x: nat, y: nat) {
    x < |values| && y < |values| && !less(values[y], values[x]) && (!less(values[x], values[y]) ==> x < y)
  }

  lemma PrecTransitive(values: seq<int>, less: Less, x: nat, y: nat, z: nat)
    requires StrictWeak(less) && Prec(values, less, x, y) && Prec(values, less, y, z)
    ensures Prec(values, less, x, z)
  {
    NotLessTransitive(less, values[x], values[y], values[z]);
  }

  lemma NotLessTransitive(less: Less, a: int, b: int, c: int)
    requires StrictWeak(less) && !less(b, a) && !less(c, b)
    ensures !less(c, a) && (!less(a, c) ==> !less(a, b) && !less(b, c))
  {
  }

  lemma Asymmetric(less: Less, a: int, b: int)
    requires StrictWeak(less) && less(a, b)
    ensures !less(b, a)
  {
  }

  function Range(lo: nat, hi: nat): (r: seq<nat>)
    requires lo <= hi
    ensures |r| == hi - lo && forall i :: 0 <= i < |r| ==> r[i] == lo + i
  {
    seq(hi - lo, i requires 0 <= i < hi - lo => lo + i)
  }

  /** Places `lo` to `hi` are in order, equivalent values in list order. */
  ghost predicate Ordered(values: seq<int>, less: Less, s: seq<nat>, lo: nat, hi: nat) {
    hi <= |s| && forall i, j :: lo <= i < j < hi ==> Prec(values, less, s[i], s[j])
  }

  /** Everything in places `lo` to `hi` belongs before `x`. */
  ghost predicate Before(values: seq<int>, less: Less, s: seq<nat>, lo: nat, hi: nat, x: nat) {
    hi <= |s| && forall i :: lo <= i < hi ==> Prec(values, less, s[i], x)
  }

  /** Places `lo` to `hi` hold indices from `first` to `last`. */
  ghost predicate Within(s: seq<nat>, lo: nat, hi: nat, first: nat, last: nat) {
    hi <= |s| && forall i :: lo <= i < hi ==> first <= s[i] < last
  }

  /** Places `lo` to `hi` hold exactly the indices `lo` to `hi`, in order if the comparator is `pure`. */
  ghost predicate Block(values: seq<int>, less: Less, pure: bool, s: seq<nat>, lo: nat, hi: nat) {
    && lo <= hi <= |s| == |values|
    && Within(s, lo, hi, lo, hi)
    && multiset(s[lo..hi]) == multiset(Range(lo, hi))
    && (pure ==> Ordered(values, less, s, lo, hi))
  }

  lemma StoreOrdered(values: seq<int>, less: Less, s: seq<nat>, lo: nat, hi: nat, x: nat)
    requires hi < |s| && Ordered(values, less, s, lo, hi) && Before(values, less, s, lo, hi, x)
    ensures Ordered(values, less, s[hi := x], lo, hi + 1)
  {
  }

  lemma StoreBefore(values: seq<int>, less: Less, s: seq<nat>, lo: nat, hi: nat, x: nat, y: nat)
    requires hi < |s| && Before(values, less, s, lo, hi, y) && Prec(values, less, x, y)
    ensures Before(values, less, s[hi := x], lo, hi + 1, y)
  {
  }

  lemma BeforeNext(values: seq<int>, less: Less, s: seq<nat>, lo: nat, hi: nat, x: nat, y: nat)
    requires StrictWeak(less) && Before(values, less, s, lo, hi, x) && Prec(values, less, x, y)
    ensures Before(values, less, s, lo, hi, y)
  {
    forall i | lo <= i < hi ensures Prec(values, less, s[i], y) { PrecTransitive(values, less, s[i], x, y); }
  }

  lemma StoreMultiset(s: seq<nat>, lo: nat, hi: nat, x: nat)
    requires lo <= hi < |s|
    ensures multiset(s[hi := x][lo..hi + 1]) == multiset(s[lo..hi]) + multiset{x}
    ensures s[hi := x][..lo] == s[..lo]
  {
    assert s[hi := x][lo..hi + 1] == s[lo..hi] + [x];
  }

  // ---------------------------------------------------------------- merging

  /** What was taken is what the two runs lost. */
  ghost predicate SameIndices(order: seq<nat>, next: seq<nat>, begin: nat, middle: nat, l: nat, r: nat)
    requires begin <= l <= middle <= r <= |order| == |next|
  {
    multiset(next[begin..l + (r - middle)]) == multiset(order[begin..l]) + multiset(order[middle..r])
  }

  lemma SameRight(order: seq<nat>, next: seq<nat>, begin: nat, middle: nat, l: nat, r: nat)
    requires begin <= l <= middle <= r < |order| == |next| && SameIndices(order, next, begin, middle, l, r)
    ensures SameIndices(order, next[l + (r - middle) := order[r]], begin, middle, l, r + 1)
  {
    var x, next' := order[r], next[l + (r - middle) := order[r]];
    StoreMultiset(next, begin, l + (r - middle), x);
    assert order[middle..r + 1] == order[middle..r] + [x];
    assert multiset(order[middle..r + 1]) == multiset(order[middle..r]) + multiset{x};
    assert l + (r - middle) + 1 == l + (r + 1 - middle);
  }

  lemma SameLeft(order: seq<nat>, next: seq<nat>, begin: nat, middle: nat, l: nat, r: nat)
    requires begin <= l < middle <= r <= |order| == |next| && SameIndices(order, next, begin, middle, l, r)
    ensures SameIndices(order, next[l + (r - middle) := order[l]], begin, middle, l + 1, r)
  {
    var x, next' := order[l], next[l + (r - middle) := order[l]];
    StoreMultiset(next, begin, l + (r - middle), x);
    assert order[begin..l + 1] == order[begin..l] + [x];
    assert multiset(order[begin..l + 1]) == multiset(order[begin..l]) + multiset{x};
    assert l + (r - middle) + 1 == l + 1 + (r - middle);
  }

  /** A merge of the runs `begin..middle` and `middle..end` of `order` under way: `next` holds, from `begin` on,
      what was taken of the left run up to `l` and of the right one up to `r`. */
  ghost predicate Merging(values: seq<int>, less: Less, pure: bool, order: seq<nat>, next: seq<nat>, begin: nat, middle: nat, end: nat,
                          l: nat, r: nat) {
    && begin <= l <= middle <= r <= end <= |order| == |next|
    && Within(next, begin, l + (r - middle), begin, end)
    && SameIndices(order, next, begin, middle, l, r)
    && (pure ==> Sorting(values, less, order, next, begin, middle, end, l, r))
  }

  /** What was taken is in order, and belongs before what is left of either run. */
  ghost predicate Sorting(values: seq<int>, less: Less, order: seq<nat>, next: seq<nat>, begin: nat, middle: nat, end: nat, l: nat, r: nat)
    requires begin <= l <= middle <= r <= end <= |order| == |next|
  {
    var dest := l + (r - middle);
    && Ordered(values, less, next, begin, dest)
    && (l < middle ==> Before(values, less, next, begin, dest, order[l]))
    && (r < end ==> Before(values, less, next, begin, dest, order[r]))
  }

  lemma SortingRight(values: seq<int>, less: Less, order: seq<nat>, next: seq<nat>, begin: nat, middle: nat, end: nat, l: nat, r: nat)
    requires StrictWeak(less) && Block(values, less, true, order, begin, middle) && Block(values, less, true, order, middle, end)
    requires begin <= l <= middle <= r < end && |next| == |order| && Sorting(values, less, order, next, begin, middle, end, l, r)
    requires l < middle ==> less(values[order[r]], values[order[l]])
    ensures Sorting(values, less, order, next[l + (r - middle) := order[r]], begin, middle, end, l, r + 1)
  {
    var dest, x := l + (r - middle), order[r];
    StoreOrdered(values, less, next, begin, dest, x);
    if l < middle {
      Asymmetric(less, values[x], values[order[l]]);
      StoreBefore(values, less, next, begin, dest, x, order[l]);
    }
    if r + 1 < end {
      BeforeNext(values, less, next, begin, dest, x, order[r + 1]);
      StoreBefore(values, less, next, begin, dest, x, order[r + 1]);
    }
  }

  lemma SortingLeft(values: seq<int>, less: Less, order: seq<nat>, next: seq<nat>, begin: nat, middle: nat, end: nat, l: nat, r: nat)
    requires StrictWeak(less) && Block(values, less, true, order, begin, middle) && Block(values, less, true, order, middle, end)
    requires begin <= l < middle <= r <= end && |next| == |order| && Sorting(values, less, order, next, begin, middle, end, l, r)
    requires r < end ==> !less(values[order[r]], values[order[l]])
    ensures Sorting(values, less, order, next[l + (r - middle) := order[l]], begin, middle, end, l + 1, r)
  {
    var dest, x := l + (r - middle), order[l];
    StoreOrdered(values, less, next, begin, dest, x);
    if r < end {
      StoreBefore(values, less, next, begin, dest, x, order[r]);
    }
    if l + 1 < middle {
      BeforeNext(values, less, next, begin, dest, x, order[l + 1]);
      StoreBefore(values, less, next, begin, dest, x, order[l + 1]);
    }
  }

  /** Taking the head of the right run, which the comparator put first, or which was all that was left. */
  lemma RightTaken(values: seq<int>, less: Less, pure: bool, order: seq<nat>, next: seq<nat>, begin: nat, middle: nat, end: nat, l: nat, r: nat)
    requires Block(values, less, pure, order, begin, middle) && Block(values, less, pure, order, middle, end)
    requires Merging(values, less, pure, order, next, begin, middle, end, l, r) && r < end
    requires pure ==> StrictWeak(less) && (l < middle ==> less(values[order[r]], values[order[l]]))
    ensures Merging(values, less, pure, order, next[l + (r - middle) := order[r]], begin, middle, end, l, r + 1)
  {
    SameRight(order, next, begin, middle, l, r);
    if pure { SortingRight(values, less, order, next, begin, middle, end, l, r); }
  }

  lemma LeftTaken(values: seq<int>, less: Less, pure: bool, order: seq<nat>, next: seq<nat>, begin: nat, middle: nat, end: nat, l: nat, r: nat)
    requires Block(values, less, pure, order, begin, middle) && Block(values, less, pure, order, middle, end)
    requires Merging(values, less, pure, order, next, begin, middle, end, l, r) && l < middle
    requires pure ==> StrictWeak(less) && (r < end ==> !less(values[order[r]], values[order[l]]))
    ensures Merging(values, less, pure, order, next[l + (r - middle) := order[l]], begin, middle, end, l + 1, r)
  {
    SameLeft(order, next, begin, middle, l, r);
    if pure { SortingLeft(values, less, order, next, begin, middle, end, l, r); }
  }

  lemma Taken(values: seq<int>, less: Less, pure: bool, order: seq<nat>, next: seq<nat>, next': seq<nat>, begin: nat, middle: nat, end: nat,
              l: nat, r: nat, takeRight: bool)
    requires Block(values, less, pure, order, begin, middle) && Block(values, less, pure, order, middle, end)
    requires Merging(values, less, pure, order, next, begin, middle, end, l, r) && if takeRight then r < end else l < middle
    requires l + (r - middle) < |next| && next' == next[l + (r - middle) := if takeRight then order[r] else order[l]]
    requires pure ==> StrictWeak(less) && (l < middle && r < end ==> takeRight == less(values[order[r]], values[order[l]]))
    ensures Merging(values, less, pure, order, next', begin, middle, end, if takeRight then l else l + 1, if takeRight then r + 1 else r)
    ensures next'[..begin] == next[..begin]
  {
    if takeRight {
      RightTaken(values, less, pure, order, next, begin, middle, end, l, r);
    } else {
      LeftTaken(values, less, pure, order, next, begin, middle, end, l, r);
    }
  }

  lemma MergeStart(values: seq<int>, less: Less, pure: bool, order: seq<nat>, next: seq<nat>, begin: nat, middle: nat, end: nat)
    requires begin <= middle <= end <= |order| == |next|
    ensures Merging(values, less, pure, order, next, begin, middle, end, begin, middle)
  {
    assert next[begin..begin] == order[begin..begin] == order[middle..middle] == [];
  }

  /** A finished merge is a block. */
  lemma Merged(values: seq<int>, less: Less, pure: bool, order: seq<nat>, next: seq<nat>, begin: nat, middle: nat, end: nat)
    requires Block(values, less, pure, order, begin, middle) && Block(values, less, pure, order, middle, end)
    requires Merging(values, less, pure, order, next, begin, middle, end, middle, end)
    ensures Block(values, less, pure, next, begin, end)
  {
    assert Range(begin, end) == Range(begin, middle) + Range(middle, end);
  }

  // ---------------------------------------------------------------- runs

  function RunEnd(lo: nat, width: nat, n: nat): (end: nat)
  {
    if lo + width < n then lo + width else n
  }

  /** From `lo` to `hi` the order is made of runs of `width` indices; only the last of the list may be shorter. */
  ghost predicate Runs(values: seq<int>, less: Less, pure: bool, s: seq<nat>, lo: nat, hi: nat, width: nat)
    decreases hi - lo
  {
    lo >= hi || (width > 0 && RunEnd(lo, width, |values|) <= hi && Block(values, less, pure, s, lo, RunEnd(lo, width, |values|)) &&
                 (lo < RunEnd(lo, width, |values|)) && Runs(values, less, pure, s, RunEnd(lo, width, |values|), hi, width))
  }

  /** One block is untouched by what happens behind it. */
  lemma BlockKept(values: seq<int>, less: Less, pure: bool, s: seq<nat>, t: seq<nat>, lo: nat, hi: nat)
    requires Block(values, less, pure, s, lo, hi) && |t| == |s| && t[..hi] == s[..hi]
    ensures Block(values, less, pure, t, lo, hi)
  {
    assert forall i :: 0 <= i < hi ==> t[..hi][i] == t[i] && s[..hi][i] == s[i];
    assert t[lo..hi] == s[lo..hi];
  }

  /** A run more, behind runs that stayed as they were. */
  lemma {:induction false} RunsGrow(values: seq<int>, less: Less, pure: bool, s: seq<nat>, t: seq<nat>, lo: nat, hi: nat, width: nat)
    requires lo <= hi < |values| == |s| == |t| && width > 0 && t[..hi] == s[..hi] && Runs(values, less, pure, s, lo, hi, width)
    requires Block(values, less, pure, t, hi, RunEnd(hi, width, |values|))
    ensures Runs(values, less, pure, t, lo, RunEnd(hi, width, |values|), width)
    decreases hi - lo
  {
    var end := RunEnd(lo, width, |values|);
    if lo < hi {
      PrefixOfPrefix(s, t, end, hi);
      BlockKept(values, less, pure, s, t, lo, end);
      RunsGrow(values, less, pure, s, t, end, hi, width);
    } else {
      assert Runs(values, less, pure, t, end, end, width);
    }
  }

  /** The next two runs to merge; the second is empty at the end of a list with an odd number of runs. */
  lemma {:induction false} NextTwoRuns(values: seq<int>, less: Less, pure: bool, s: seq<nat>, begin: nat, width: nat)
    requires begin < |values| == |s| && Runs(values, less, pure, s, begin, |values|, width)
    ensures Block(values, less, pure, s, begin, RunEnd(begin, width, |values|))
    ensures Block(values, less, pure, s, RunEnd(begin, width, |values|), RunEnd(begin, 2 * width, |values|))
    ensures Runs(values, less, pure, s, begin + 2 * width, |values|, width)
  {
    var middle := RunEnd(begin, width, |values|);
    if middle == |values| {
      assert s[middle..middle] == Range(middle, middle) == [];
    }
  }

  /** When the runs are as wide as the list there is only one. */
  lemma OneRun(values: seq<int>, less: Less, pure: bool, s: seq<nat>, width: nat)
    requires |values| == |s| <= width && Runs(values, less, pure, s, 0, |values|, width)
    ensures Block(values, less, pure, s, 0, |values|)
  {
    if |values| == 0 { assert s[0..0] == Range(0, 0) == []; }
  }

  lemma PrefixOfPrefix(s: seq<nat>, t: seq<nat>, i: nat, j: nat)
    requires i <= j <= |s| == |t| && t[..j] == s[..j]
    ensures t[..i] == s[..i]
  {
    assert t[..i] == t[..j][..i] && s[..i] == s[..j][..i];
  }

  /** Before the first pass every index is a run by itself. */
  lemma {:induction false} SingleRuns(values: seq<int>, less: Less, pure: bool, lo: nat)
    requires lo <= |values|
    ensures Runs(values, less, pure, Range(0, |values|), lo, |values|, 1)
    decreases |values| - lo
  {
    if lo < |values| {
      var s := Range(0, |values|);
      assert s[lo..lo + 1] == [s[lo]] == Range(lo, lo + 1);
      SingleRuns(values, less, pure, lo + 1);
    }
  }

  // ---------------------------------------------------------------- values

  function Pick(values: seq<int>, order: seq<nat>): (r: seq<int>)
    requires forall i :: 0 <= i < |order| ==> order[i] < |values|
    ensures |r| == |order| && forall i :: 0 <= i < |r| ==> r[i] == values[order[i]]
  {
    seq(|order|, i requires 0 <= i < |order| => values[order[i]])
  }

  /** Rearranging the indices rearranges the values. */
  lemma {:induction false} PickPermutes(values: seq<int>, s: seq<nat>, t: seq<nat>)
    requires multiset(s) == multiset(t)
    requires forall i :: 0 <= i < |s| ==> s[i] < |values|
    requires forall i :: 0 <= i < |t| ==> t[i] < |values|
    ensures multiset(Pick(values, s)) == multiset(Pick(values, t))
    decreases |s|
  {
    if s == [] {
      assert |t| == |multiset(t)| == 0;
    } else {
      var k := Partner(s, t);
      var t' := t[..k] + t[k + 1..];
      PickPermutes(values, s[1..], t');
      PickFirst(values, s);
      PickWithout(values, t, k);
    }
  }

  /** Where the first element of `s` is in a rearrangement of `s`. */
  lemma Partner(s: seq<nat>, t: seq<nat>) returns (k: nat)
    requires multiset(s) == multiset(t) && s != []
    ensures k < |t| && t[k] == s[0] && multiset(s[1..]) == multiset(t[..k] + t[k + 1..])
  {
    assert s[0] in multiset(t);
    k :| 0 <= k < |t| && t[k] == s[0];
    var before, after := t[..k], t[k + 1..];
    assert s == [s[0]] + s[1..];
    assert t == before + [t[k]] + after;
    assert multiset(s) == multiset{s[0]} + multiset(s[1..]);
    assert multiset(t) == multiset(before) + multiset{t[k]} + multiset(after);
    assert multiset(before + after) == multiset(before) + multiset(after);
    assert multiset(s[1..]) == multiset(s) - multiset{s[0]};
    assert multiset(before + after) == multiset(t) - multiset{t[k]};
  }

  lemma PickFirst(values: seq<int>, s: seq<nat>)
    requires s != [] && forall i :: 0 <= i < |s| ==> s[i] < |values|
    ensures multiset(Pick(values, s)) == multiset(Pick(values, s[1..])) + multiset{values[s[0]]}
  {
    assert Pick(values, s) == [values[s[0]]] + Pick(values, s[1..]);
  }

  lemma PickWithout(values: seq<int>, t: seq<nat>, k: nat)
    requires k < |t| && forall i :: 0 <= i < |t| ==> t[i] < |values|
    ensures multiset(Pick(values, t)) == multiset(Pick(values, t[..k] + t[k + 1..])) + multiset{values[t[k]]}
  {
    var x, y := Pick(values, t), Pick(values, t[..k] + t[k + 1..]);
    assert x == x[..k] + [x[k]] + x[k + 1..];
    assert y == x[..k] + x[k + 1..];
  }

  // ---------------------------------------------------------------- the order is determined

  /** The first of an order in order is the least of its indices. */
  lemma FirstIsLeast(values: seq<int>, less: Less, s: seq<nat>, t: seq<nat>)
    requires multiset(s) == multiset(t) && t != [] && Ordered(values, less, s, 0, |s|)
    ensures s != [] && (s[0] == t[0] || Prec(values, less, s[0], t[0]))
  {
    var m := Partner(t, s);
  }

  lemma SameTails(s: seq<nat>, t: seq<nat>)
    requires s != [] && t != [] && s[0] == t[0] && multiset(s) == multiset(t)
    ensures multiset(s[1..]) == multiset(t[1..])
  {
    WithoutFirst(s);
    WithoutFirst(t);
  }

  lemma WithoutFirst(s: seq<nat>)
    requires s != []
    ensures multiset(s[1..]) == multiset(s) - multiset{s[0]}
  {
    assert s == [s[0]] + s[1..];
  }

  /** Two orders of the same indices, each in order, are the same: there is only one stable sorting. */
  lemma {:induction false} StableOrderIsUnique(values: seq<int>, less: Less, s: seq<nat>, t: seq<nat>)
    requires multiset(s) == multiset(t)
    requires Ordered(values, less, s, 0, |s|) && Ordered(values, less, t, 0, |t|)
    ensures s == t
    decreases |s|
  {
    if s == [] {
      assert |t| == |multiset(t)| == 0;
    } else {
      FirstIsLeast(values, less, t, s);
      FirstIsLeast(values, less, s, t);
      SameTails(s, t);
      StableOrderIsUnique(values, less, s[1..], t[1..]);
      assert s == [s[0]] + s[1..] && t == [t[0]] + t[1..];
    }
  }

  /** What the final order means for the values: the same values, none before a smaller one, equivalent ones as they stood. */
  lemma SortedStably(values: seq<int>, less: Less, pure: bool, order: seq<nat>)
    requires Block(values, less, pure, order, 0, |values|)
    ensures forall i :: 0 <= i < |order| ==> order[i] < |values|
    ensures multiset(Pick(values, order)) == multiset(values)
    ensures pure ==> forall i, j :: 0 <= i < j < |order| ==> !less(Pick(values, order)[j], Pick(values, order)[i])
    ensures pure ==> forall i, j :: 0 <= i < j < |order| && !less(values[order[i]], values[order[j]]) ==> order[i] < order[j]
  {
    var all := Range(0, |values|);
    assert order[0..|values|] == order;
    PickPermutes(values, order, all);
    assert Pick(values, all) == values;
    if pure {
      forall i, j | 0 <= i < j < |order|
        ensures !less(values[order[j]], values[order[i]]) && (!less(values[order[i]], values[order[j]]) ==> order[i] < order[j])
      {
        assert Prec(values, less, order[i], order[j]);
      }
    }
  }
}

/** Sorting a script list with a comparator that is itself a script function. */
module ScriptSort {
  import opened Collections
  import opened MergeSteps

  datatype Answer = Bool(value: bool) | NotBool | Fault

  /** What a script can do to the list: assign an element, or insert, append, remove, resize or sort. */
  datatype Change = Write(at: nat, value: int) | Reshape(items: seq<int>)

  /** What one call of the comparator does: its answer, and what it did to the list on the way. */
  datatype Reply = Reply(answer: Answer, changes: seq<Change>)

  /** The comparator may answer differently at every call. */
  type Compare = (nat, int, int) -> Reply

  function After(items: seq<int>, changes: seq<Change>): (r: seq<int>)
    ensures Reshapes(changes) == 0 ==> |r| == |items|
    decreases |changes|
  {
    if changes == [] then items
    else match changes[0]
      case Write(at, value) => After(if at < |items| then items[at := value] else items, changes[1..])
      case Reshape(reshaped) => After(reshaped, changes[1..])
  }

  /** Only a change of shape counts in the list's mutation version. */
  function Reshapes(changes: seq<Change>): nat {
    if changes == [] then 0 else (if changes[0].Reshape? then 1 else 0) + Reshapes(changes[1..])
  }

  /** The comparator gave a bool and left the shape of the list alone. */
  predicate Answers(reply: Reply) {
    reply.answer.Bool? && Reshapes(reply.changes) == 0
  }

  /** A comparator, however inconsistent, that always gives a bool and leaves the shape of the list alone. */
  ghost predicate AlwaysAnswers(compare: Compare) {
    forall k, a, b :: Answers(compare(k, a, b))
  }

  /** A comparator that answers by a strict weak order and never changes the shape of the list. */
  ghost predicate Consistent(compare: Compare, less: Less) {
    StrictWeak(less) && AlwaysAnswers(compare) && forall k, a, b :: compare(k, a, b).answer == Bool(less(a, b))
  }

  class ListInfo {
    var items: seq<int>
    var version: nat
    ghost var left: seq<int>   // the contents as the comparator last left them

    /** Calls the comparator; anything but a bool on a list of the same shape ends the sort. */
    method TestCall(compare: Compare, call: nat, a: int, b: int) returns (ok: bool, result: bool)
      requires left == items
      modifies this
      ensures left == items == After(old(items), compare(call, a, b).changes)
      ensures ok <==> Answers(compare(call, a, b))
      ensures ok ==> version == old(version) && result == compare(call, a, b).answer.value
    {
      var before := version;
      var reply := compare(call, a, b);
      items := After(items, reply.changes);
      version := version + Reshapes(reply.changes);
      left := items;
      result := false;
      if reply.answer.Fault? { return false, false; }
      if version != before { return false, false; }
      if reply.answer.NotBool? { return false, false; }
      return true, reply.answer.value;
    }

    /** Puts the next index of one of the runs into its place; the comparator decides while both have one left. */
    method MergeOne(values: seq<int>, order: seq<nat>, next: seq<nat>, l: nat, r: nat, middle: nat, end: nat, compare: Compare, call: nat)
      returns (ok: bool, takeRight: bool, next': seq<nat>)
      requires left == items && |order| == |next| == |values|
      requires l <= middle <= r <= end <= |order| && l + r < middle + end
      requires forall i :: l <= i < middle ==> order[i] < |values|
      requires forall i :: r <= i < end ==> order[i] < |values|
      modifies this
      ensures left == items
      ensures ok ==> |items| == |old(items)| && version == old(version)
      ensures ok ==> if takeRight then r < end else l < middle
      ensures ok && l < middle && r < end ==> compare(call, values[order[r]], values[order[l]]).answer == Bool(takeRight)
      ensures ok <== !(l < middle && r < end) || Answers(compare(call, values[order[r]], values[order[l]]))
      ensures ok ==> next' == next[l + (r - middle) := if takeRight then order[r] else order[l]]
    {
      ok, takeRight, next' := true, l == middle, next;
      if l < middle && r < end {
        ok, takeRight := TestCall(compare, call, values[order[r]], values[order[l]]);
        if !ok { return; }
      }
      next' := next'[l + (r - middle) := if takeRight then order[r] else order[l]];
    }

    /** One step of the loop: the merge moves on by one index. */
    method MergeNext(values: seq<int>, order: seq<nat>, next: seq<nat>, ghost begin: nat, l: nat, r: nat, middle: nat, end: nat,
                     compare: Compare, call: nat, ghost less: Less, ghost pure: bool)
      returns (ok: bool, next': seq<nat>, l': nat, r': nat)
      requires left == items
      requires Block(values, less, pure, order, begin, middle) && Block(values, less, pure, order, middle, end)
      requires Merging(values, less, pure, order, next, begin, middle, end, l, r) && l + r < middle + end
      requires pure ==> Consistent(compare, less)
      modifies this
      ensures left == items && (AlwaysAnswers(compare) ==> ok)
      ensures ok ==> |items| == |old(items)| && version == old(version)
      ensures ok ==> Merging(values, less, pure, order, next', begin, middle, end, l', r') && l' + r' == l + r + 1
      ensures ok ==> next'[..begin] == next[..begin]
    {
      if l < middle && r < end {
        ghost var a, b := values[order[r]], values[order[l]];
        assert AlwaysAnswers(compare) ==> Answers(compare(call, a, b));
        assert pure ==> compare(call, a, b).answer == Bool(less(a, b));
      }
      var takeRight;
      ok, takeRight, next' := MergeOne(values, order, next, l, r, middle, end, compare, call);
      l', r' := l, r;
      if !ok { return; }
      Taken(values, less, pure, order, next, next', begin, middle, end, l, r, takeRight);
      l', r' := if takeRight then l else l + 1, if takeRight then r + 1 else r;
    }

    /** Merges the runs from `begin` to `middle` and from there to `end` into `next`. */
    method MergeRuns(values: seq<int>, order: seq<nat>, next0: seq<nat>, begin: nat, middle: nat, end: nat, compare: Compare, call0: nat,
                     ghost less: Less, ghost pure: bool)
      returns (ok: bool, next: seq<nat>, call: nat)
      requires left == items && |next0| == |order|
      requires Block(values, less, pure, order, begin, middle) && Block(values, less, pure, order, middle, end)
      requires pure ==> Consistent(compare, less)
      modifies this
      ensures left == items && (AlwaysAnswers(compare) ==> ok)
      ensures ok ==> |items| == |old(items)| && version == old(version)
      ensures ok ==> |next| == |next0| && next[..begin] == next0[..begin] && Block(values, less, pure, next, begin, end)
    {
      next, call := next0, call0;
      var l: nat, r: nat := begin, middle;
      MergeStart(values, less, pure, order, next0, begin, middle, end);
      while l + r < middle + end
        invariant Merging(values, less, pure, order, next, begin, middle, end, l, r) && next[..begin] == next0[..begin]
        invariant left == items && |items| == |old(items)| && version == old(version)
        decreases end + middle - l - r
      {
        ok, next, l, r := MergeNext(values, order, next, begin, l, r, middle, end, compare, call, less, pure);
        if !ok { return; }
        call := call + 1;
      }
      ok := true;
      Merged(values, less, pure, order, next, begin, middle, end);
    }

    /** Merges the two runs from `begin` on. */
    method MergeTwoRuns(values: seq<int>, order: seq<nat>, next: seq<nat>, begin: nat, width: nat, compare: Compare, call0: nat,
                        ghost less: Less, ghost pure: bool)
      returns (ok: bool, next': seq<nat>, call: nat)
      requires left == items && |next| == |order| == |values| && 0 < width && begin < |values|
      requires Runs(values, less, pure, order, begin, |values|, width) && Runs(values, less, pure, next, 0, begin, 2 * width)
      requires pure ==> Consistent(compare, less)
      modifies this
      ensures left == items && (AlwaysAnswers(compare) ==> ok)
      ensures ok ==> |items| == |old(items)| && version == old(version)
      ensures ok ==> |next'| == |order| && Runs(values, less, pure, next', 0, RunEnd(begin, 2 * width, |values|), 2 * width)
      ensures Runs(values, less, pure, order, begin + 2 * width, |values|, width)
    {
      var middle, end := RunEnd(begin, width, |values|), RunEnd(begin, 2 * width, |values|);
      NextTwoRuns(values, less, pure, order, begin, width);
      ok, next', call := MergeRuns(values, order, next, begin, middle, end, compare, call0, less, pure);
      if ok { RunsGrow(values, less, pure, next, next', 0, begin, 2 * width); }
    }

    /** One pass: every two adjoining runs of `width` indices become one. */
    method MergePass(values: seq<int>, order: seq<nat>, next0: seq<nat>, width: nat, compare: Compare, call0: nat, ghost less: Less, ghost pure: bool)
      returns (ok: bool, next: seq<nat>, call: nat)
      requires left == items && |next0| == |order| == |values| && 0 < width < |values|
      requires Runs(values, less, pure, order, 0, |values|, width)
      requires pure ==> Consistent(compare, less)
      modifies this
      ensures left == items && (AlwaysAnswers(compare) ==> ok)
      ensures ok ==> |items| == |old(items)| && version == old(version)
      ensures ok ==> |next| == |order| && Runs(values, less, pure, next, 0, |values|, 2 * width)
    {
      next, call, ok := next0, call0, true;
      var begin: nat := 0;
      ghost var done: nat := 0;
      while begin < |values|
        invariant ok && |next| == |order|
        invariant Runs(values, less, pure, order, begin, |values|, width)
        invariant done == RunEnd(begin, 0, |values|) && Runs(values, less, pure, next, 0, done, 2 * width)
        invariant left == items && |items| == |old(items)| && version == old(version)
      {
        ok, next, call := MergeTwoRuns(values, order, next, begin, width, compare, call, less, pure);
        if !ok { return; }
        done := RunEnd(begin, 2 * width, |values|);
        begin := begin + 2 * width;
      }
    }

    /** Writes the values of the snapshot into the list in the sorted order. */
    method WriteBack(values: seq<int>, order: seq<nat>)
      requires |order| == |items| && forall i :: 0 <= i < |order| ==> order[i] < |values|
      modifies this`items, this`version
      ensures items == Pick(values, order) && version == old(version) + 1
    {
      var i := 0;
      while i < |order|
        invariant 0 <= i <= |order| == |items| && version == old(version)
        invariant forall k :: 0 <= k < i ==> items[k] == values[order[k]]
      {
        items := items[i := values[order[i]]];
        i := i + 1;
      }
      version := version + 1;
    }

    /** Sorts the list by a bottom-up merge sort of the indices of a snapshot, written back only at the end. */
    method Sort(compare: Compare, ghost less: Less, ghost pure: bool) returns (ok: bool, ghost order: seq<nat>)
      requires pure ==> Consistent(compare, less)
      modifies this
      ensures AlwaysAnswers(compare) ==> ok
      ensures !ok ==> items == left
      ensures ok ==> Block(old(items), less, pure, order, 0, |old(items)|)
      ensures ok ==> (forall i :: 0 <= i < |order| ==> order[i] < |old(items)|) && items == Pick(old(items), order)
      ensures ok ==> multiset(items) == multiset(old(items))
      ensures ok && pure ==> forall i, j :: 0 <= i < j < |items| ==> !less(items[j], items[i])
      ensures ok && pure ==> forall i, j :: 0 <= i < j < |order| && !less(items[i], items[j]) ==> order[i] < order[j]
      ensures ok ==> version == old(version) + if |items| > 1 then 1 else 0
    {
      left, order := items, [];
      var values, n := items, |items|;
      var current, next, width: nat, call := Range(0, n), seq(n, i => 0), 1, 0;
      SingleRuns(values, less, pure, 0);
      while width < n
        invariant left == items && |items| == n && version == old(version) && values == old(items)
        invariant n <= 1 ==> items == values
        invariant width > 0 && |current| == |next| == n && Runs(values, less, pure, current, 0, n, width)
        decreases n - width
      {
        ok, next, call := MergePass(values, current, next, width, compare, call, less, pure);
        if !ok { return; }
        current, next, width := next, current, 2 * width;
      }
      OneRun(values, less, pure, current, width);
      SortedStably(values, less, pure, current);
      ok, order := true, current;
      if n > 1 {
        WriteBack(values, current);
      } else {
        assert n == 1 ==> 0 <= current[0] < 1;
        assert items == Pick(values, current);
      }
    }
  }
}
