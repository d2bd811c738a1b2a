/**
 * The capture buffer against the parameters: when does `compile` record, for
 * every parameter it emits, the type of the node that emitted it?
 */
module CaptureAlignment {
  import opened Parameters
  import opened Fragments
  import opened QueryTree
  import opened Lists

  /** The types of the nodes that emitted the parameters of `n`, in order. */
  function Owners(n: Node): seq<FieldType>
    decreases n, 1
  {
    if !CompileNode(n).outcome.Ok? then []
    else match n
      case Expr(_, _, Template(items)) => AllOwners(items, n)
      case _ => Repeat(n.ty, |CompileNode(n).outcome.value.params|)
  }

  function AllOwners(items: seq<Item>, n: Node): seq<FieldType>
    requires n.Expr?
    decreases n, 0, |items|
  {
    if items == [] then [] else ItemOwners(items[0], n) + AllOwners(items[1..], n)
  }

  function ItemOwners(item: Item, n: Node): seq<FieldType>
    requires n.Expr?
    decreases n, 0, 0
  {
    match item
    case Text(_) => []
    case Own(_) => [n.ty]
    case Ref(i) => if i < |n.children| then Owners(ChildAt(n, i)) else []
  }

  function ChildAt(n: Node, i: nat): (c: Node)
    requires n.Expr? && i < |n.children|
    ensures c < n
  {
    var c := n.children[i];
    assert c < n;
    c.node
  }

  // ---- The children of a run ----

  lemma {:induction false} RunResult(cs: seq<Child>, i: nat)
    requires i < |RunChildren(cs).results|
    ensures RunChildren(cs).results[i] == CompileNode(cs[i].node).outcome
  {
    if i > 0 {
      RunResult(cs[1..], i - 1);
    }
  }

  function CapturedFrom(n: Node, j: nat): seq<FieldType>
    requires n.Expr? && j <= |n.children|
    decreases |n.children| - j
  {
    if j == |n.children| then [] else CompileNode(ChildAt(n, j)).captured + CapturedFrom(n, j + 1)
  }

  lemma {:induction false} RunCaptured(n: Node, j: nat)
    requires n.Expr? && j <= |n.children| && !RunChildren(n.children[j..]).stopped
    ensures RunChildren(n.children[j..]).captured == CapturedFrom(n, j)
    decreases |n.children| - j
  {
    if j < |n.children| {
      var cs := n.children[j..];
      assert cs[0] == n.children[j] && cs[1..] == n.children[j + 1..];
      RunCaptured(n, j + 1);
    }
  }

  /** A template that is filled has seen the outcome of every child. */
  lemma FilledRun(n: Node)
    requires n.Expr? && CompileNode(n).outcome.Ok?
    ensures n.body.Template? && !RunChildren(n.children).stopped
    ensures RunChildren(n.children).captured == CapturedFrom(n, 0)
    ensures forall i :: 0 <= i < |n.children| ==>
              RunChildren(n.children).results[i] == CompileNode(ChildAt(n, i)).outcome
  {
    assert n.children[0..] == n.children;
    RunCaptured(n, 0);
    forall i | 0 <= i < |n.children|
      ensures RunChildren(n.children).results[i] == CompileNode(ChildAt(n, i)).outcome
    {
      RunResult(n.children, i);
    }
  }

  lemma {:induction false} OwnersLength(n: Node)
    requires CompileNode(n).outcome.Ok?
    ensures |Owners(n)| == |CompileNode(n).outcome.value.params|
    decreases n, 1
  {
    if n.Expr? {
      FilledRun(n);
      ItemsLength(n.body.items, n);
    }
  }

  lemma {:induction false} ItemsLength(items: seq<Item>, n: Node)
    requires n.Expr? && CompileNode(n).outcome.Ok?
    ensures |AllOwners(items, n)| == |Expand(items, RunChildren(n.children).results).params|
    decreases n, 0, |items|
  {
    if items != [] {
      ItemLength(items[0], n);
      ItemsLength(items[1..], n);
    }
  }

  lemma {:induction false} ItemLength(item: Item, n: Node)
    requires n.Expr? && CompileNode(n).outcome.Ok?
    ensures |ItemOwners(item, n)| == |ExpandItem(item, RunChildren(n.children).results).params|
    decreases n, 0, 0
  {
    FilledRun(n);
    if item.Ref? && item.child < |n.children| {
      var c := ChildAt(n, item.child);
      assert ItemOwners(item, n) == Owners(c);
      assert RunChildren(n.children).results[item.child] == CompileNode(c).outcome;
      if CompileNode(c).outcome.Ok? { OwnersLength(c); }
    }
  }

  // ---- When the buffer is right ----

  predicate CarryingChild(n: Node, i: nat)
    requires n.Expr?
  {
    i < |n.children| && CompileNode(ChildAt(n, i)).outcome.Ok?
    && CompileNode(ChildAt(n, i)).outcome.value.params != []
  }

  /** Items that bring parameters into the template. */
  predicate Carries(item: Item, n: Node)
    requires n.Expr?
  {
    item.Own? || (item.Ref? && CarryingChild(n, item.child))
  }

  function Carriers(items: seq<Item>, n: Node): (cs: seq<Item>)
    requires n.Expr?
    ensures forall c :: c in cs ==> Carries(c, n)
  {
    if items == [] then []
    else (if Carries(items[0], n) then [items[0]] else []) + Carriers(items[1..], n)
  }

  /** References to the children from `j` on that have parameters, in the order of compilation. */
  function ChildRefs(n: Node, j: nat): seq<Item>
    requires n.Expr? && j <= |n.children|
    decreases |n.children| - j
  {
    if j == |n.children| then []
    else (if CarryingChild(n, j) then [Ref(j)] else []) + ChildRefs(n, j + 1)
  }

  /** `refs` first, then nothing but parameters of the node itself. */
  predicate RefsThenOwn(carriers: seq<Item>, refs: seq<Item>) {
    refs <= carriers && forall i :: |refs| <= i < |carriers| ==> carriers[i].Own?
  }

  /** A child whose exception was swallowed left nothing in the buffer. */
  predicate NoStrays(n: Node, j: nat)
    requires n.Expr?
  {
    forall i :: j <= i < |n.children| && !CompileNode(ChildAt(n, i)).outcome.Ok? ==>
      CompileNode(ChildAt(n, i)).captured == []
  }

  /**
   * The discipline of `as_sql` that the buffer relies on: nested parameters are
   * used once each, in the order they were compiled and before the node's own,
   * and no exception is swallowed after a partial capture.
   */
  predicate Disciplined(n: Node)
    requires n.Expr? && n.body.Template?
  {
    NoStrays(n, 0) && RefsThenOwn(Carriers(n.body.items, n), ChildRefs(n, 0))
  }

  function Reached(n: Node): (r: nat)
    requires n.Expr?
    ensures r <= |n.children|
  {
    |RunChildren(n.children).results|
  }

  predicate WellBehaved(n: Node)
    decreases n
  {
    n.Expr? ==>
      && (forall i :: 0 <= i < Reached(n) ==> WellBehaved(ChildAt(n, i)))
      && (CompileNode(n).outcome.Ok? && n.body.Template? ==> Disciplined(n))
  }

  predicate Aligned(n: Node) {
    CompileNode(n).outcome.Ok? ==> CompileNode(n).captured == Owners(n)
  }

  /** Every `compile` made during the walk keeps the buffer right. */
  predicate EveryCallAligned(n: Node)
    decreases n
  {
    Aligned(n) && (n.Expr? ==> forall i :: 0 <= i < Reached(n) ==> EveryCallAligned(ChildAt(n, i)))
  }

  // ---- Discipline is enough ----

  lemma {:induction false} OwnersOfCarriers(items: seq<Item>, n: Node)
    requires n.Expr? && CompileNode(n).outcome.Ok?
    ensures AllOwners(items, n) == AllOwners(Carriers(items, n), n)
  {
    if items != [] {
      OwnersOfCarriers(items[1..], n);
      if Carries(items[0], n) {
        OwnersCons(items[0], Carriers(items[1..], n), n);
      } else {
        Unit(Carriers(items[1..], n));
        IdleItem(items[0], n);
        Unit(AllOwners(items[1..], n));
      }
    }
  }

  lemma OwnersCons(item: Item, items: seq<Item>, n: Node)
    requires n.Expr?
    ensures AllOwners([item] + items, n) == ItemOwners(item, n) + AllOwners(items, n)
  {
    assert ([item] + items)[1..] == items;
  }

  lemma IdleItem(item: Item, n: Node)
    requires n.Expr? && CompileNode(n).outcome.Ok? && !Carries(item, n)
    ensures ItemOwners(item, n) == []
  {
    FilledRun(n);
    ItemLength(item, n);
  }

  lemma {:induction false} OwnersOfRefs(n: Node, j: nat, rest: seq<Item>)
    requires n.Expr? && j <= |n.children| && NoStrays(n, j)
    requires forall i :: j <= i < |n.children| ==> Aligned(ChildAt(n, i))
    ensures AllOwners(ChildRefs(n, j) + rest, n) == CapturedFrom(n, j) + AllOwners(rest, n)
    decreases |n.children| - j
  {
    if j == |n.children| {
      Unit(rest);
      Unit(AllOwners(rest, n));
    } else {
      var c := ChildAt(n, j);
      OwnersOfRefs(n, j + 1, rest);
      if CompileNode(c).outcome.Ok? { OwnersLength(c); }
      if CarryingChild(n, j) {
        var later := ChildRefs(n, j + 1);
        Assoc([Ref(j)], later, rest);
        Cons([Ref(j)], later + rest);
        Single(Ref(j));
        Unit(later + rest);
        Assoc(CompileNode(c).captured, CapturedFrom(n, j + 1), AllOwners(rest, n));
      } else {
        assert CompileNode(c).captured == [];
        EmptyBlock(n, j);
      }
    }
  }

  lemma {:induction false} OwnersOfOwn(items: seq<Item>, n: Node)
    requires n.Expr? && forall i :: 0 <= i < |items| ==> items[i].Own?
    ensures AllOwners(items, n) == Repeat(n.ty, |items|)
  {
    if items != [] {
      OwnersOfOwn(items[1..], n);
    }
  }

  /** Under the discipline the owners are what the children captured, then the node itself. */
  lemma DisciplinedOwners(n: Node) returns (own: nat)
    requires n.Expr? && CompileNode(n).outcome.Ok? && n.body.Template? && Disciplined(n)
    requires forall i :: 0 <= i < |n.children| ==> Aligned(ChildAt(n, i))
    ensures AllOwners(n.body.items, n) == CapturedFrom(n, 0) + Repeat(n.ty, own)
  {
    var carriers, refs := Carriers(n.body.items, n), ChildRefs(n, 0);
    var rest := carriers[|refs|..];
    assert carriers == refs + rest;
    OwnersOfCarriers(n.body.items, n);
    OwnersOfRefs(n, 0, rest);
    OwnersOfOwn(rest, n);
    own := |rest|;
  }

  lemma DisciplinedIsAligned(n: Node)
    requires n.Expr? && CompileNode(n).outcome.Ok? && n.body.Template? && Disciplined(n)
    requires forall i :: 0 <= i < |n.children| ==> Aligned(ChildAt(n, i))
    ensures Aligned(n)
  {
    var own := DisciplinedOwners(n);
    OwnersLength(n);
    RecordedTypes(n);
    assert Owners(n) == AllOwners(n.body.items, n);
  }

  /** The buffer after a node: what its children left, then its own type for the parameters beyond. */
  lemma RecordedTypes(n: Node)
    requires n.Expr? && CompileNode(n).outcome.Ok?
    requires |CapturedFrom(n, 0)| <= |CompileNode(n).outcome.value.params|
    ensures CompileNode(n).captured
         == CapturedFrom(n, 0)
            + Repeat(n.ty, |CompileNode(n).outcome.value.params| - |CapturedFrom(n, 0)|)
  {
    FilledRun(n);
    Unit(CapturedFrom(n, 0));
  }

  /**
   * Under the discipline every call grows the buffer by one entry per parameter,
   * and each entry is the type of the node that emitted the parameter.
   */
  lemma {:induction false} WellBehavedIsAligned(n: Node)
    requires WellBehaved(n)
    ensures EveryCallAligned(n)
    ensures CompileNode(n).outcome.Ok? ==> |CompileNode(n).captured| == |CompileNode(n).outcome.value.params|
    decreases n
  {
    if n.Expr? {
      forall i | 0 <= i < Reached(n)
        ensures EveryCallAligned(ChildAt(n, i))
      {
        WellBehavedIsAligned(ChildAt(n, i));
      }
      if CompileNode(n).outcome.Ok? {
        FilledRun(n);
        DisciplinedIsAligned(n);
      }
    }
    if CompileNode(n).outcome.Ok? { OwnersLength(n); }
  }

  // ---- Templates that show every child once, in order ----

  /** The items refer to the children from `j` to `k` once each and in order, and emit nothing of their own. */
  predicate InOrder(items: seq<Item>, j: nat, k: nat) {
    if items == [] then j == k
    else match items[0]
      case Text(_) => InOrder(items[1..], j, k)
      case Own(_) => false
      case Ref(i) => i == j && j < k && InOrder(items[1..], j + 1, k)
  }

  lemma {:induction false} InOrderCarriers(items: seq<Item>, n: Node, j: nat)
    requires n.Expr? && j <= |n.children| && InOrder(items, j, |n.children|)
    ensures Carriers(items, n) == ChildRefs(n, j)
    decreases |items|
  {
    if items != [] {
      if items[0].Text? {
        InOrderCarriers(items[1..], n, j);
        Unit(Carriers(items[1..], n));
      } else {
        InOrderCarriers(items[1..], n, j + 1);
      }
    }
  }

  lemma {:induction false} NothingSwallowed(cs: seq<Child>, i: nat)
    requires i < |cs| && !RunChildren(cs).stopped && forall c :: c in cs ==> !c.catchesEmpty && !c.catchesFull
    ensures CompileNode(cs[i].node).outcome.Ok?
  {
    assert cs[0] in cs && forall c :: c in cs[1..] ==> c in cs;
    if i > 0 {
      NothingSwallowed(cs[1..], i - 1);
    }
  }

  /** Such a node keeps the buffer right, if it swallows no exception and its children keep it right. */
  lemma InOrderIsWellBehaved(n: Node)
    requires n.Expr? && n.body.Template? && InOrder(n.body.items, 0, |n.children|)
    requires forall c :: c in n.children ==> !c.catchesEmpty && !c.catchesFull
    requires forall i :: 0 <= i < |n.children| ==> WellBehaved(ChildAt(n, i))
    ensures WellBehaved(n)
  {
    if CompileNode(n).outcome.Ok? {
      FilledRun(n);
      InOrderCarriers(n.body.items, n, 0);
      forall i | 0 <= i < |n.children|
        ensures CompileNode(ChildAt(n, i)).outcome.Ok?
      {
        NothingSwallowed(n.children, i);
      }
    }
  }

  // ---- Discipline is needed, where types tell the nodes apart ----

  function TypesIn(n: Node): set<FieldType>
    decreases n, 1
  {
    {n.ty} + if n.Expr? then TypesFrom(n, 0) else {}
  }

  function TypesFrom(n: Node, j: nat): (ts: set<FieldType>)
    requires n.Expr? && j <= |n.children|
    ensures forall i :: j <= i < |n.children| ==> TypesIn(ChildAt(n, i)) <= ts
    decreases n, 0, |n.children| - j
  {
    if j == |n.children| then {} else TypesIn(ChildAt(n, j)) + TypesFrom(n, j + 1)
  }

  /** No two nodes of the tree share a type. */
  predicate DistinctTypes(n: Node)
    decreases n
  {
    n.Expr? ==>
      && n.ty !in TypesFrom(n, 0)
      && (forall i, j :: 0 <= i < j < |n.children| ==> TypesIn(ChildAt(n, i)) !! TypesIn(ChildAt(n, j)))
      && (forall i :: 0 <= i < |n.children| ==> DistinctTypes(ChildAt(n, i)))
  }

  lemma {:induction false} CapturedTypes(n: Node)
    ensures forall t :: t in CompileNode(n).captured ==> t in TypesIn(n)
    decreases n, 1
  {
    if n.Expr? {
      RunTypes(n, 0);
      assert n.children[0..] == n.children;
    }
  }

  lemma {:induction false} RunTypes(n: Node, j: nat)
    requires n.Expr? && j <= |n.children|
    ensures forall t :: t in RunChildren(n.children[j..]).captured ==> t in TypesFrom(n, j)
    decreases n, 0, |n.children| - j
  {
    if j < |n.children| {
      var cs := n.children[j..];
      assert cs[0] == n.children[j] && cs[1..] == n.children[j + 1..];
      CapturedTypes(ChildAt(n, j));
      RunTypes(n, j + 1);
    }
  }

  lemma FirstOwner(n: Node, i: nat)
    requires n.Expr? && CarryingChild(n, i) && Aligned(ChildAt(n, i))
    ensures Owners(ChildAt(n, i)) != [] && Owners(ChildAt(n, i))[0] in TypesIn(ChildAt(n, i))
    ensures TypesIn(ChildAt(n, i)) <= TypesFrom(n, 0)
  {
    var c := ChildAt(n, i);
    OwnersLength(c);
    CapturedTypes(c);
    assert Owners(c)[0] in CompileNode(c).captured;
  }

  lemma HeadOwner(n: Node, items: seq<Item>)
    requires n.Expr? && items != [] && Carries(items[0], n)
    requires forall i :: 0 <= i < |n.children| ==> Aligned(ChildAt(n, i))
    ensures AllOwners(items, n) != []
    ensures items[0].Ref? ==>
              AllOwners(items, n)[0] in TypesIn(ChildAt(n, items[0].child)) && AllOwners(items, n)[0] in TypesFrom(n, 0)
    ensures items[0].Own? ==> AllOwners(items, n)[0] == n.ty
  {
    if items[0].Ref? {
      FirstOwner(n, items[0].child);
      assert AllOwners(items, n)[0] == Owners(ChildAt(n, items[0].child))[0];
    }
  }

  /** Only own parameters can account for entries of the node's own type. */
  lemma {:induction false} OnlyOwn(n: Node, items: seq<Item>, k: nat)
    requires n.Expr? && DistinctTypes(n)
    requires forall i :: 0 <= i < |n.children| ==> Aligned(ChildAt(n, i))
    requires forall c :: c in items ==> Carries(c, n)
    requires AllOwners(items, n) == Repeat(n.ty, k)
    ensures forall i :: 0 <= i < |items| ==> items[i].Own?
    decreases |items|
  {
    if items != [] {
      assert items[0] in items;
      HeadOwner(n, items);
      assert AllOwners(items, n)[1..] == AllOwners(items[1..], n);
      assert Repeat(n.ty, k)[1..] == Repeat(n.ty, k - 1);
      OnlyOwn(n, items[1..], k - 1);
    }
  }

  /** Reading the buffer from the left forces the order of the template. */
  lemma {:induction false} Peel(n: Node, j: nat, items: seq<Item>, k: nat)
    requires n.Expr? && j <= |n.children| && DistinctTypes(n)
    requires forall i :: 0 <= i < |n.children| ==> Aligned(ChildAt(n, i))
    requires forall c :: c in items ==> Carries(c, n)
    requires CapturedFrom(n, j) + Repeat(n.ty, k) == AllOwners(items, n)
    ensures NoStrays(n, j) && RefsThenOwn(items, ChildRefs(n, j))
    decreases |n.children| - j
  {
    if j == |n.children| {
      assert CapturedFrom(n, j) + Repeat(n.ty, k) == Repeat(n.ty, k);
      OnlyOwn(n, items, k);
    } else if CompileNode(ChildAt(n, j)).captured == [] {
      EmptyBlock(n, j);
      Peel(n, j + 1, items, k);
    } else {
      PeelBlock(n, j, items, k);
      Peel(n, j + 1, items[1..], k);
      assert ChildRefs(n, j) == [Ref(j)] + ChildRefs(n, j + 1);
      ConsRefs(Ref(j), items[1..], ChildRefs(n, j + 1));
      assert items == [Ref(j)] + items[1..];
    }
  }

  lemma ConsRefs(r: Item, items: seq<Item>, refs: seq<Item>)
    requires RefsThenOwn(items, refs)
    ensures RefsThenOwn([r] + items, [r] + refs)
  {
  }

  lemma EmptyBlock(n: Node, j: nat)
    requires n.Expr? && j < |n.children|
    requires Aligned(ChildAt(n, j)) && CompileNode(ChildAt(n, j)).captured == []
    ensures CapturedFrom(n, j) == CapturedFrom(n, j + 1) && ChildRefs(n, j) == ChildRefs(n, j + 1)
  {
    var c := ChildAt(n, j);
    if CompileNode(c).outcome.Ok? { OwnersLength(c); }
  }

  /** What a child captured can only stand where the template refers to that child. */
  lemma PeelBlock(n: Node, j: nat, items: seq<Item>, k: nat)
    requires n.Expr? && j < |n.children| && DistinctTypes(n)
    requires forall i :: 0 <= i < |n.children| ==> Aligned(ChildAt(n, i))
    requires forall c :: c in items ==> Carries(c, n)
    requires CapturedFrom(n, j) + Repeat(n.ty, k) == AllOwners(items, n)
    requires CompileNode(ChildAt(n, j)).captured != []
    ensures CarryingChild(n, j) && items != [] && items[0] == Ref(j)
    ensures CapturedFrom(n, j + 1) + Repeat(n.ty, k) == AllOwners(items[1..], n)
  {
    var c := ChildAt(n, j);
    var block := CompileNode(c).captured;
    var rest := CapturedFrom(n, j + 1) + Repeat(n.ty, k);
    assert CapturedFrom(n, j) + Repeat(n.ty, k) == block + rest;
    CapturedTypes(c);
    assert AllOwners(items, n)[0] == block[0] && block[0] in block;
    assert items != [] && items[0] in items;
    HeadOwner(n, items);
    assert TypesIn(c) <= TypesFrom(n, 0);
    assert items[0].Ref? && items[0].child == j;
    assert AllOwners(items, n) == block + AllOwners(items[1..], n);
    StripPrefix(block, rest, AllOwners(items[1..], n));
  }

  lemma StripPrefix<T>(a: seq<T>, b: seq<T>, c: seq<T>)
    requires a + b == a + c
    ensures b == c
  {
    assert (a + b)[|a|..] == b && (a + c)[|a|..] == c;
  }

  lemma AlignedIsDisciplined(n: Node)
    requires n.Expr? && CompileNode(n).outcome.Ok? && DistinctTypes(n) && Aligned(n)
    requires forall i :: 0 <= i < |n.children| ==> Aligned(ChildAt(n, i))
    ensures Disciplined(n)
  {
    FilledRun(n);
    OwnersOfCarriers(n.body.items, n);
    var k := |CompileNode(n).captured| - |CapturedFrom(n, 0)|;
    assert CompileNode(n).captured == CapturedFrom(n, 0) + Repeat(n.ty, k);
    Peel(n, 0, Carriers(n.body.items, n), k);
  }

  lemma {:induction false} AlignedIsWellBehaved(n: Node)
    requires DistinctTypes(n) && EveryCallAligned(n)
    ensures WellBehaved(n)
    decreases n
  {
    if n.Expr? {
      forall i | 0 <= i < Reached(n)
        ensures WellBehaved(ChildAt(n, i)) && Aligned(ChildAt(n, i))
      {
        assert EveryCallAligned(ChildAt(n, i));
        AlignedIsWellBehaved(ChildAt(n, i));
      }
      if CompileNode(n).outcome.Ok? {
        FilledRun(n);
        assert Reached(n) == |n.children|;
        AlignedIsDisciplined(n);
      }
    }
  }

  /**
   * Where no two nodes share a type, the buffer is right in every call exactly
   * when the tree keeps the discipline.
   */
  lemma AlignedIffWellBehaved(n: Node)
    requires DistinctTypes(n)
    ensures EveryCallAligned(n) <==> WellBehaved(n)
  {
    if WellBehaved(n) {
      WellBehavedIsAligned(n);
    }
    if EveryCallAligned(n) {
      AlignedIsWellBehaved(n);
    }
  }

  /**
   * A disjunction whose first operand raises after its left side was compiled,
   * as an empty `IN` does: the stale entry is taken for the type of the second
   * operand's parameter.
   */
  lemma SwallowedOperandMisaligns(v: PyValue, w: PyValue, stale: FieldType, right: FieldType)
    requires stale != right
    ensures var lhs := Expr(stale, [], Template([Own(v)]));
            var in_ := Expr(Unresolved, [Child(lhs, false, false)], RaiseEmpty);
            var eq := Expr(right, [], Template([Own(w)]));
            var or := Expr(Unresolved, [Child(in_, true, false), Child(eq, false, false)], Template([Ref(1)]));
            && CompileNode(or).outcome.Ok?
            && CompileNode(or).captured == [stale, right]
            && Owners(or) == [right]
            && CompileNode(or).outcome.value.params == [Plain(w)]
  {
    var lhs := Expr(stale, [], Template([Own(v)]));
    var in_ := Expr(Unresolved, [Child(lhs, false, false)], RaiseEmpty);
    var eq := Expr(right, [], Template([Own(w)]));
    var cs := [Child(in_, true, false), Child(eq, false, false)];
    var or := Expr(Unresolved, cs, Template([Ref(1)]));
    Leaf(stale, v);
    Leaf(right, w);
    assert [Child(lhs, false, false)][1..] == [] && cs[1..][1..] == [];
    assert RunChildren([Child(lhs, false, false)]).captured == [stale];
    assert CompileNode(in_) == Compiled(EmptyResultSet, [stale]);
    assert RunChildren(cs[1..]) == Run([CompileNode(eq).outcome], [right], false);
    assert RunChildren(cs).captured == [stale] + [right];
    assert Expand([Ref(1)][1..], RunChildren(cs).results) == Frag("", []);
    assert AllOwners([Ref(1)][1..], or) == [];
    assert ChildAt(or, 1) == eq && ItemOwners(Ref(1), or) == Owners(eq);
    assert AllOwners([Ref(1)], or) == Owners(eq) + AllOwners([Ref(1)][1..], or);
  }

  lemma Leaf(ty: FieldType, v: PyValue)
    ensures CompileNode(Expr(ty, [], Template([Own(v)]))) == Compiled(Ok(Frag("%s", [Plain(v)])), [ty])
    ensures Owners(Expr(ty, [], Template([Own(v)]))) == [ty]
  {
    var items := [Own(v)];
    var n := Expr(ty, [], Template(items));
    var none: seq<FieldType> := [];
    assert items[1..] == [];
    assert RunChildren([]) == Run([], none, false);
    assert Expand(items[1..], []) == Frag("", []);
    assert ExpandItem(items[0], []) == Frag("%s", [Plain(v)]);
    assert "%s" + "" == "%s" && [Plain(v)] + [] == [Plain(v)];
    assert Expand(items, []) == Frag("%s", [Plain(v)]);
    assert none + Repeat(ty, 1) == [ty];
    assert AllOwners(items, n) == [ty] + AllOwners(items[1..], n);
  }
}
