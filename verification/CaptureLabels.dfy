/**
 * The discipline of `CaptureAlignment` is needed in every tree: whichever types
 * its nodes happen to have, others would show a parameter out of place.
 */
module CaptureLabels {
  import opened CaptureAlignment
  import opened Fragments
  import opened Parameters
  import opened QueryTree

  /** The same tree up to the types of its nodes. */
  predicate SameTree(n: Node, n': Node)
    decreases n
  {
    match n
    case Expr(_, children, body) =>
      && n'.Expr? && n'.body == body && |n'.children| == |children|
      && forall i :: 0 <= i < |children| ==>
           && SameTree(ChildAt(n, i), ChildAt(n', i))
           && n'.children[i].catchesEmpty == children[i].catchesEmpty
           && n'.children[i].catchesFull == children[i].catchesFull
    case RawSql(_, text, rawParams) => n'.RawSql? && n'.text == text && n'.rawParams == rawParams
    case Subquery(_, query) => n'.Subquery? && n'.query == query
  }

  lemma {:induction false} SameTreeBack(n: Node, n': Node)
    requires SameTree(n, n')
    ensures SameTree(n', n)
    decreases n
  {
    if n.Expr? {
      forall i | 0 <= i < |n.children|
        ensures SameTree(ChildAt(n', i), ChildAt(n, i))
      {
        SameTreeBack(ChildAt(n, i), ChildAt(n', i));
      }
    }
  }

  // ---- What does not depend on the types ----

  /** Types decide neither what compiling yields nor how much it captures. */
  lemma {:induction false} SameOutcome(n: Node, n': Node)
    requires SameTree(n, n')
    ensures CompileNode(n).outcome == CompileNode(n').outcome
    ensures |CompileNode(n).captured| == |CompileNode(n').captured|
    decreases n, 1
  {
    if n.Expr? {
      SameRun(n, n', 0);
      assert n.children[0..] == n.children && n'.children[0..] == n'.children;
    }
  }

  lemma {:induction false} SameRun(n: Node, n': Node, j: nat)
    requires SameTree(n, n') && n.Expr? && j <= |n.children|
    ensures var run, run' := RunChildren(n.children[j..]), RunChildren(n'.children[j..]);
            run'.results == run.results && run'.stopped == run.stopped && |run'.captured| == |run.captured|
    decreases n, 0, |n.children| - j
  {
    if j < |n.children| {
      var cs, cs' := n.children[j..], n'.children[j..];
      assert cs[0] == n.children[j] && cs[1..] == n.children[j + 1..];
      assert cs'[0] == n'.children[j] && cs'[1..] == n'.children[j + 1..];
      SameOutcome(ChildAt(n, j), ChildAt(n', j));
      SameRun(n, n', j + 1);
    }
  }

  lemma SameCarrying(n: Node, n': Node, i: nat)
    requires SameTree(n, n') && n.Expr?
    ensures CarryingChild(n, i) <==> CarryingChild(n', i)
  {
    if i < |n.children| {
      SameOutcome(ChildAt(n, i), ChildAt(n', i));
    }
  }

  lemma {:induction false} SameCarriers(n: Node, n': Node, items: seq<Item>)
    requires SameTree(n, n') && n.Expr?
    ensures Carriers(items, n) == Carriers(items, n')
  {
    if items != [] {
      SameCarriers(n, n', items[1..]);
      if items[0].Ref? { SameCarrying(n, n', items[0].child); }
    }
  }

  lemma {:induction false} SameRefs(n: Node, n': Node, j: nat)
    requires SameTree(n, n') && n.Expr? && j <= |n.children|
    ensures ChildRefs(n, j) == ChildRefs(n', j)
    decreases |n.children| - j
  {
    if j < |n.children| {
      SameRefs(n, n', j + 1);
      SameCarrying(n, n', j);
    }
  }

  lemma SameDiscipline(n: Node, n': Node)
    requires SameTree(n, n') && n.Expr? && n.body.Template? && Disciplined(n)
    ensures Disciplined(n')
  {
    SameCarriers(n, n', n.body.items);
    SameRefs(n, n', 0);
    forall i | 0 <= i < |n'.children| && !CompileNode(ChildAt(n', i)).outcome.Ok?
      ensures CompileNode(ChildAt(n', i)).captured == []
    {
      SameOutcome(ChildAt(n, i), ChildAt(n', i));
      assert CompileNode(ChildAt(n, i)).captured == [];
    }
  }

  lemma {:induction false} SameBehaviour(n: Node, n': Node)
    requires SameTree(n, n') && WellBehaved(n)
    ensures WellBehaved(n')
    decreases n
  {
    if n.Expr? {
      SameRun(n, n', 0);
      assert n.children[0..] == n.children && n'.children[0..] == n'.children;
      forall i | 0 <= i < Reached(n')
        ensures WellBehaved(ChildAt(n', i))
      {
        SameBehaviour(ChildAt(n, i), ChildAt(n', i));
      }
      SameOutcome(n, n');
      if CompileNode(n).outcome.Ok? && n.body.Template? {
        SameDiscipline(n, n');
      }
    }
  }

  // ---- Types that tell all nodes apart ----

  function Size(n: Node): nat
    decreases n, 1
  {
    1 + if n.Expr? then SizeFrom(n, 0) else 0
  }

  function SizeFrom(n: Node, j: nat): nat
    requires n.Expr? && j <= |n.children|
    decreases n, 0, |n.children| - j
  {
    if j == |n.children| then 0 else Size(ChildAt(n, j)) + SizeFrom(n, j + 1)
  }

  function Label(k: nat): FieldType {
    DecimalField(k, 0)
  }

  predicate Labelled(t: FieldType, from_: nat, to: nat) {
    t.DecimalField? && t.scale == 0 && from_ <= t.precision < to
  }

  /** The tree with its nodes numbered from `k`, each before its children. */
  function Fresh(n: Node, k: nat): Node
    decreases n, 1
  {
    match n
    case Expr(_, _, body) => Expr(Label(k), FreshFrom(n, 0, k + 1), body)
    case RawSql(_, text, rawParams) => RawSql(Label(k), text, rawParams)
    case Subquery(_, query) => Subquery(Label(k), query)
  }

  function FreshFrom(n: Node, j: nat, k: nat): seq<Child>
    requires n.Expr? && j <= |n.children|
    decreases n, 0, |n.children| - j
  {
    if j == |n.children| then []
    else
      var c := n.children[j];
      [Child(Fresh(ChildAt(n, j), k), c.catchesEmpty, c.catchesFull)]
      + FreshFrom(n, j + 1, k + Size(ChildAt(n, j)))
  }

  /** `n'` is the same tree with these numbers for types. */
  predicate Numbered(n: Node, n': Node, k: nat)
    decreases n, 1
  {
    n'.ty == Label(k) &&
    match n
    case Expr(_, _, body) => n'.Expr? && n'.body == body && NumberedFrom(n, 0, n'.children, k + 1)
    case RawSql(_, text, rawParams) => n'.RawSql? && n'.text == text && n'.rawParams == rawParams
    case Subquery(_, query) => n'.Subquery? && n'.query == query
  }

  predicate NumberedFrom(n: Node, j: nat, cs: seq<Child>, k: nat)
    requires n.Expr? && j <= |n.children|
    decreases n, 0, |n.children| - j
  {
    if j == |n.children| then cs == []
    else
      && cs != [] && Numbered(ChildAt(n, j), cs[0].node, k)
      && cs[0].catchesEmpty == n.children[j].catchesEmpty && cs[0].catchesFull == n.children[j].catchesFull
      && NumberedFrom(n, j + 1, cs[1..], k + Size(ChildAt(n, j)))
  }

  lemma {:induction false} FreshIsNumbered(n: Node, k: nat)
    ensures Numbered(n, Fresh(n, k), k)
    decreases n, 1
  {
    if n.Expr? {
      FreshFromIsNumbered(n, 0, k + 1);
    }
  }

  lemma {:induction false} FreshFromIsNumbered(n: Node, j: nat, k: nat)
    requires n.Expr? && j <= |n.children|
    ensures NumberedFrom(n, j, FreshFrom(n, j, k), k)
    decreases n, 0, |n.children| - j
  {
    if j < |n.children| {
      FreshIsNumbered(ChildAt(n, j), k);
      FreshFromIsNumbered(n, j + 1, k + Size(ChildAt(n, j)));
      assert FreshFrom(n, j, k)[1..] == FreshFrom(n, j + 1, k + Size(ChildAt(n, j)));
    }
  }

  lemma {:induction false} NumberedIsSame(n: Node, n': Node, k: nat)
    requires Numbered(n, n', k)
    ensures SameTree(n, n')
    decreases n, 1
  {
    if n.Expr? {
      NumberedFromIsSame(n, 0, n'.children, k + 1);
    }
  }

  lemma {:induction false} NumberedFromIsSame(n: Node, j: nat, cs: seq<Child>, k: nat)
    requires n.Expr? && j <= |n.children| && NumberedFrom(n, j, cs, k)
    ensures |cs| == |n.children| - j
    ensures forall i :: j <= i < |n.children| ==>
              && SameTree(ChildAt(n, i), cs[i - j].node)
              && cs[i - j].catchesEmpty == n.children[i].catchesEmpty
              && cs[i - j].catchesFull == n.children[i].catchesFull
    decreases n, 0, |n.children| - j
  {
    if j < |n.children| {
      NumberedIsSame(ChildAt(n, j), cs[0].node, k);
      NumberedFromIsSame(n, j + 1, cs[1..], k + Size(ChildAt(n, j)));
    }
  }

  lemma {:induction false} NumberedTypes(n: Node, n': Node, k: nat)
    requires Numbered(n, n', k)
    ensures forall t :: t in TypesIn(n') ==> Labelled(t, k, k + Size(n))
    decreases n, 1
  {
    if n.Expr? {
      NumberedFromIsSame(n, 0, n'.children, k + 1);
      assert n'.children[0..] == n'.children;
      NumberedTypesFrom(n, n', 0, k + 1);
    }
  }

  lemma {:induction false} NumberedTypesFrom(n: Node, n': Node, j: nat, k: nat)
    requires n.Expr? && n'.Expr? && j <= |n.children| == |n'.children|
    requires NumberedFrom(n, j, n'.children[j..], k)
    ensures forall t :: t in TypesFrom(n', j) ==> Labelled(t, k, k + SizeFrom(n, j))
    decreases n, 0, |n.children| - j
  {
    if j < |n.children| {
      NextNumbered(n, n', j, k);
      NumberedTypes(ChildAt(n, j), ChildAt(n', j), k);
      NumberedTypesFrom(n, n', j + 1, k + Size(ChildAt(n, j)));
    }
  }

  lemma NextNumbered(n: Node, n': Node, j: nat, k: nat)
    requires n.Expr? && n'.Expr? && j < |n.children| == |n'.children|
    requires NumberedFrom(n, j, n'.children[j..], k)
    ensures Numbered(ChildAt(n, j), ChildAt(n', j), k)
    ensures NumberedFrom(n, j + 1, n'.children[j + 1..], k + Size(ChildAt(n, j)))
  {
    var cs := n'.children[j..];
    assert cs[0] == n'.children[j] && cs[1..] == n'.children[j + 1..];
  }

  lemma {:induction false} NumberedIsDistinct(n: Node, n': Node, k: nat)
    requires Numbered(n, n', k)
    ensures DistinctTypes(n')
    decreases n, 1
  {
    if n.Expr? {
      NumberedFromIsSame(n, 0, n'.children, k + 1);
      assert n'.children[0..] == n'.children;
      NumberedTypesFrom(n, n', 0, k + 1);
      ChildrenDistinct(n, n', 0, k + 1);
    }
  }

  lemma {:induction false} ChildrenDistinct(n: Node, n': Node, j: nat, k: nat)
    requires n.Expr? && n'.Expr? && j <= |n.children| == |n'.children|
    requires NumberedFrom(n, j, n'.children[j..], k)
    ensures forall i :: j <= i < |n'.children| ==> DistinctTypes(ChildAt(n', i))
    ensures forall i, l :: j <= i < l < |n'.children| ==> TypesIn(ChildAt(n', i)) !! TypesIn(ChildAt(n', l))
    decreases n, 0, |n.children| - j
  {
    if j < |n.children| {
      var next := k + Size(ChildAt(n, j));
      NextNumbered(n, n', j, k);
      ChildrenDistinct(n, n', j + 1, next);
      NumberedIsDistinct(ChildAt(n, j), ChildAt(n', j), k);
      NumberedTypes(ChildAt(n, j), ChildAt(n', j), k);
      NumberedTypesFrom(n, n', j + 1, next);
      assert TypesIn(ChildAt(n', j)) !! TypesFrom(n', j + 1);
    }
  }

  // ---- The discipline is exact ----

  lemma MisbehaviourShows(n: Node)
    requires !WellBehaved(n)
    ensures SameTree(n, Fresh(n, 0)) && !EveryCallAligned(Fresh(n, 0))
  {
    var n' := Fresh(n, 0);
    FreshIsNumbered(n, 0);
    NumberedIsSame(n, n', 0);
    NumberedIsDistinct(n, n', 0);
    AlignedIffWellBehaved(n');
    SameTreeBack(n, n');
    if WellBehaved(n') {
      SameBehaviour(n', n);
    }
  }

  /** A tree is well behaved exactly when the buffer is right in every call, whatever the types of its nodes. */
  lemma WellBehavedIffAlwaysAligned(n: Node)
    ensures WellBehaved(n) <==> forall n' :: SameTree(n, n') ==> EveryCallAligned(n')
  {
    if WellBehaved(n) {
      forall n' | SameTree(n, n')
        ensures EveryCallAligned(n')
      {
        SameBehaviour(n, n');
        WellBehavedIsAligned(n');
      }
    } else {
      MisbehaviourShows(n);
    }
  }
}
