/**
 `canonicalize` (pipeline/hashing.ts) as it runs: over objects that may be shared or cyclic,
 with the set of objects it is inside of. It fails exactly on values that have no finite
 unfolding or hold a non-finite number, and otherwise prints the unfolding.
 */
module CanonicalGraphs {
  import opened JsonText
  import opened CanonicalJson

  type Id = nat

  datatype Value = Primitive(value: CanonicalJson.Primitive) | Reference(id: Id)

  /// The objects and arrays, by identity.
  type Heap = map<Id, Node<Value>>

  predicate Known(heap: Heap, v: Value) {
    v.Reference? ==> v.id in heap
  }

  /// Every reference leads somewhere, and the keys of an object are distinct.
  predicate ValidNode(heap: Heap, node: Node<Value>) {
    WellFormed(node) && forall i | 0 <= i < |node.values| :: Known(heap, node.values[i])
  }

  predicate ValidHeap(heap: Heap) {
    forall id | id in heap :: ValidNode(heap, heap[id])
  }

  datatype Failure = NonFiniteNumber | Cycle

  datatype Result<+T> = Ok(value: T) | Err(failure: Failure)

  // ---------------------------------------------------------------------- the specification

  /// What is printed at each place, given what the values print as.
  function Slots(node: Node<Value>, results: seq<Result<Text>>): (slots: seq<Result<Text>>)
    requires WellFormed(node) && |results| == |node.values|
  {
    seq(|results|, i requires 0 <= i < |results| =>
      var at := Order(node)[i];
      match results[at]
      case Err(failure) => Err(failure)
      case Ok(text) => Ok(Prefix(node, at) + text))
  }

  /// The first `n` texts, or the first failure.
  function Collect(slots: seq<Result<Text>>, n: nat): Result<seq<Text>>
    requires n <= |slots|
  {
    if n == 0 then Ok([]) else
    match Collect(slots, n - 1)
    case Err(failure) => Err(failure)
    case Ok(texts) =>
      match slots[n - 1]
      case Err(failure) => Err(failure)
      case Ok(text) => Ok(texts + [text])
  }

  function Canonical(number: Printer, heap: Heap, v: Value, seen: set<Id>): Result<Text>
    requires ValidHeap(heap) && Known(heap, v)
    decreases heap.Keys - seen, 0
  {
    match v
    case Primitive(p) => if !Finite(p) then Err(NonFiniteNumber) else Ok(PrimitiveText(number, p))
    case Reference(id) =>
      if id in seen then Err(Cycle) else
      assert id in heap.Keys - seen && id !in heap.Keys - (seen + {id});
      match Collect(Slots(heap[id], ValueResults(number, heap, heap[id], seen + {id})), |heap[id].values|)
      case Err(failure) => Err(failure)
      case Ok(texts) => Ok(Bracketed(heap[id], texts))
  }

  function ValueResults(number: Printer, heap: Heap, node: Node<Value>, seen: set<Id>): (results: seq<Result<Text>>)
    requires ValidHeap(heap) && ValidNode(heap, node)
    decreases heap.Keys - seen, 1
  {
    seq(|node.values|, i requires 0 <= i < |node.values| => Canonical(number, heap, node.values[i], seen))
  }

  lemma {:induction false} FirstFailureStays(slots: seq<Result<Text>>, n: nat, m: nat)
    requires n <= m <= |slots| && Collect(slots, n).Err?
    ensures Collect(slots, m) == Collect(slots, n)
  {
    if n < m {
      FirstFailureStays(slots, n, m - 1);
    }
  }

  // -------------------------------------------------------------------------- the algorithm

  /// The mutable set of objects that the recursion is inside of.
  class Seen {
    var ids: set<Id>

    constructor ()
      ensures ids == {}
    {
      ids := {};
    }
  }

  lemma SlotAt(node: Node<Value>, results: seq<Result<Text>>, i: nat)
    requires WellFormed(node) && |results| == |node.values| && i < |results|
    ensures var at := Order(node)[i];
      Slots(node, results)[i] ==
      match results[at]
      case Err(failure) => Err(failure)
      case Ok(text) => Ok(Prefix(node, at) + text)
  {
  }

  lemma {:induction false} CollectNext(slots: seq<Result<Text>>, texts: seq<Text>, i: nat)
    requires i < |slots| && Collect(slots, i) == Ok(texts)
    ensures match slots[i]
      case Err(failure) => Collect(slots, |slots|) == Err(failure)
      case Ok(text) => Collect(slots, i + 1) == Ok(texts + [text])
  {
    if slots[i].Err? {
      FirstFailureStays(slots, i + 1, |slots|);
    }
  }

  lemma ResultAt(number: Printer, heap: Heap, node: Node<Value>, seen: set<Id>, i: nat)
    requires ValidHeap(heap) && ValidNode(heap, node) && i < |node.values|
    ensures ValueResults(number, heap, node, seen)[i] == Canonical(number, heap, node.values[i], seen)
  {
  }

  /// What one more value does to the texts collected so far.
  lemma NextText(number: Printer, heap: Heap, node: Node<Value>, seen: set<Id>, texts: seq<Text>, i: nat)
    requires ValidHeap(heap) && ValidNode(heap, node) && i < |node.values|
    requires Collect(Slots(node, ValueResults(number, heap, node, seen)), i) == Ok(texts)
    ensures var slots, at := Slots(node, ValueResults(number, heap, node, seen)), Order(node)[i];
      match Canonical(number, heap, node.values[at], seen)
      case Err(failure) => Collect(slots, |slots|) == Err(failure)
      case Ok(text) => Collect(slots, i + 1) == Ok(texts + [Prefix(node, at) + text])
  {
    var results := ValueResults(number, heap, node, seen);
    ResultAt(number, heap, node, seen, Order(node)[i]);
    SlotAt(node, results, i);
    CollectNext(Slots(node, results), texts, i);
  }

  lemma CanonicalOfNode(number: Printer, heap: Heap, id: Id, seen: set<Id>)
    requires ValidHeap(heap) && id in heap && id !in seen
    ensures var node := heap[id];
      Canonical(number, heap, Reference(id), seen) ==
      match Collect(Slots(node, ValueResults(number, heap, node, seen + {id})), |node.values|)
      case Err(failure) => Err(failure)
      case Ok(texts) => Ok(Bracketed(node, texts))
  {
  }

  /** `canonicalize`: the seen set is the same on every return, whether it succeeds or fails. */
  method Canonicalize(number: Printer, heap: Heap, v: Value, seen: Seen) returns (result: Result<Text>)
    requires ValidHeap(heap) && Known(heap, v)
    modifies seen
    ensures seen.ids == old(seen.ids)
    ensures result == Canonical(number, heap, v, old(seen.ids))
    decreases heap.Keys - seen.ids
  {
    if v.Primitive? {
      return if !Finite(v.value) then Err(NonFiniteNumber) else Ok(PrimitiveText(number, v.value));
    }
    if v.id in seen.ids {
      return Err(Cycle);
    }
    var node := heap[v.id];
    ghost var inside := seen.ids + {v.id};
    assert v.id in heap.Keys - seen.ids && v.id !in heap.Keys - inside;
    ghost var slots := Slots(node, ValueResults(number, heap, node, inside));
    CanonicalOfNode(number, heap, v.id, seen.ids);
    seen.ids := seen.ids + {v.id};
    var texts := [];
    for i := 0 to |node.values|
      invariant seen.ids == inside
      invariant Collect(slots, i) == Ok(texts)
    {
      NextText(number, heap, node, inside, texts, i);
      var at := Order(node)[i];
      var text := Canonicalize(number, heap, node.values[at], seen);
      if text.Err? {
        seen.ids := seen.ids - {v.id};
        return text;
      }
      texts := texts + [Prefix(node, at) + text.value];
    }
    seen.ids := seen.ids - {v.id};
    result := Ok(Bracketed(node, texts));
  }

  /** `canonicalJson`. */
  method CanonicalText(number: Printer, heap: Heap, v: Value) returns (result: Result<Text>)
    requires ValidHeap(heap) && Known(heap, v)
    ensures result == Canonical(number, heap, v, {})
  {
    var seen := new Seen();
    result := Canonicalize(number, heap, v, seen);
  }

  // ------------------------------------------------------------------------ finite unfoldings

  predicate SameShape(node: Node<Value>, tree: Node<Tree>) {
    && node.Array? == tree.Array? && |node.values| == |tree.values|
    && (node.Object? ==> node.keys == tree.keys)
  }

  /// `t` is what the value reads as when every reference is followed.
  predicate Unfolds(heap: Heap, v: Value, t: Tree)
    requires ValidHeap(heap) && Known(heap, v)
    decreases t
  {
    match (v, t)
    case (Primitive(p), Leaf(q)) => p == q
    case (Reference(id), Branch(tree)) =>
      var node := heap[id];
      SameShape(node, tree) && forall i | 0 <= i < |tree.values| && i < |node.values| ::
        Unfolds(heap, node.values[i], tree.values[i])
    case _ => false
  }

  lemma {:induction false} UnfoldingIsUnique(heap: Heap, v: Value, t: Tree, u: Tree)
    requires ValidHeap(heap) && Known(heap, v) && Unfolds(heap, v, t) && Unfolds(heap, v, u)
    ensures t == u
    decreases t
  {
    if t.Branch? {
      forall i | 0 <= i < |t.node.values| ensures t.node.values[i] == u.node.values[i] {
        UnfoldingIsUnique(heap, heap[v.id].values[i], t.node.values[i], u.node.values[i]);
      }
      assert t.node.values == u.node.values;
    }
  }

  lemma SameShapeSameSlots(node: Node<Value>, tree: Node<Tree>)
    requires SameShape(node, tree) && WellFormed(node)
    ensures WellFormed(tree) && Opening(node) == Opening(tree) && Closing(node) == Closing(tree)
    ensures Order(node) == Order(tree)
    ensures forall i | 0 <= i < |node.values| :: Prefix(node, i) == Prefix(tree, i)
  {
  }

  // ------------------------------------------------------------------ unfoldable values print

  /// The objects on the way down with what they unfold to: each larger than what is below it.
  ghost predicate Above(heap: Heap, ancestors: map<Id, Tree>, t: Tree)
    requires ValidHeap(heap)
  {
    forall id | id in ancestors :: id in heap && Unfolds(heap, Reference(id), ancestors[id]) && t < ancestors[id]
  }

  lemma {:induction false} UnfoldableIsPrinted(number: Printer, heap: Heap, v: Value, t: Tree, ancestors: map<Id, Tree>)
    requires ValidHeap(heap) && Known(heap, v) && Unfolds(heap, v, t) && Printable(t) && Above(heap, ancestors, t)
    ensures Canonical(number, heap, v, ancestors.Keys) == Ok(Print(number, t))
    decreases t
  {
    if t.Branch? {
      if v.id in ancestors {
        UnfoldingIsUnique(heap, v, t, ancestors[v.id]);
        assert false;
      }
      var node, below := heap[v.id], ancestors[v.id := t];
      assert below.Keys == ancestors.Keys + {v.id};
      forall i | 0 <= i < |node.values|
        ensures Canonical(number, heap, node.values[i], below.Keys) == Ok(Print(number, t.node.values[i]))
      {
        UnfoldableIsPrinted(number, heap, node.values[i], t.node.values[i], below);
      }
      SlotsArePrinted(number, node, t.node, ValueResults(number, heap, node, below.Keys));
      PrintBranch(number, t.node);
      SameShapeSameSlots(node, t.node);
    }
  }

  lemma {:induction false} AllCollected(slots: seq<Result<Text>>, texts: seq<Text>, n: nat)
    requires |slots| == |texts| && n <= |slots| && forall i | 0 <= i < |slots| :: slots[i] == Ok(texts[i])
    ensures Collect(slots, n) == Ok(texts[..n])
  {
    if n > 0 {
      AllCollected(slots, texts, n - 1);
      assert texts[..n] == texts[..n - 1] + [texts[n - 1]];
    }
  }

  lemma SlotsArePrinted(number: Printer, node: Node<Value>, tree: Node<Tree>, results: seq<Result<Text>>)
    requires WellFormed(node) && SameShape(node, tree) && Printable(Branch(tree)) && |results| == |node.values|
    requires forall i | 0 <= i < |results| :: results[i] == Ok(Print(number, tree.values[i]))
    ensures Collect(Slots(node, results), |results|) == Ok(SlotTexts(number, tree))
  {
    var texts := SlotTexts(number, tree);
    SameShapeSameSlots(node, tree);
    AllCollected(Slots(node, results), texts, |results|);
    assert texts[..|results|] == texts;
  }

  // ------------------------------------------------------------------ printed values unfold

  lemma {:induction false} EverySlotCollected(slots: seq<Result<Text>>, n: nat, i: nat)
    requires i < n <= |slots| && Collect(slots, n).Ok?
    ensures slots[i].Ok?
  {
    if i < n - 1 {
      EverySlotCollected(slots, n - 1, i);
    }
  }

  lemma EveryValueIsPrinted(node: Node<Value>, results: seq<Result<Text>>, at: nat)
    requires WellFormed(node) && |results| == |node.values| && at < |results|
    requires Collect(Slots(node, results), |results|).Ok?
    ensures results[at].Ok?
  {
    var i := at;
    if node.Object? {
      i := PlaceOf(node, at);
    }
    EverySlotCollected(Slots(node, results), |results|, i);
  }

  function WithValues(node: Node<Value>, trees: seq<Tree>): Node<Tree> {
    match node
    case Array(_) => Array(trees)
    case Object(keys, _) => Object(keys, trees)
  }

  /// Every value of the node prints.
  ghost predicate ValuesPrint(number: Printer, heap: Heap, node: Node<Value>, seen: set<Id>)
    requires ValidHeap(heap) && ValidNode(heap, node)
  {
    Collect(Slots(node, ValueResults(number, heap, node, seen)), |node.values|).Ok?
  }

  ghost predicate ReadsAs(heap: Heap, node: Node<Value>, i: nat, t: Tree)
    requires ValidHeap(heap) && ValidNode(heap, node) && i < |node.values|
  {
    Unfolds(heap, node.values[i], t) && Printable(t)
  }

  lemma NodeUnfolds(heap: Heap, id: Id, trees: seq<Tree>)
    requires ValidHeap(heap) && id in heap && |trees| == |heap[id].values|
    requires forall i | 0 <= i < |trees| :: ReadsAs(heap, heap[id], i, trees[i])
    ensures Unfolds(heap, Reference(id), Branch(WithValues(heap[id], trees)))
    ensures Printable(Branch(WithValues(heap[id], trees)))
  {
    var tree := WithValues(heap[id], trees);
    forall i | 0 <= i < |trees| ensures Unfolds(heap, heap[id].values[i], tree.values[i]) && Printable(tree.values[i]) {
      assert ReadsAs(heap, heap[id], i, trees[i]);
    }
  }

  lemma {:induction false} PrintedUnfolds(number: Printer, heap: Heap, v: Value, seen: set<Id>) returns (t: Tree)
    requires ValidHeap(heap) && Known(heap, v) && Canonical(number, heap, v, seen).Ok?
    ensures Unfolds(heap, v, t) && Printable(t)
    decreases heap.Keys - seen, 0, 0
  {
    match v
    case Primitive(p) => t := Leaf(p);
    case Reference(id) =>
      var node := heap[id];
      assert id in heap.Keys - seen && id !in heap.Keys - (seen + {id});
      var trees := ValuesUnfold(number, heap, node, seen + {id}, |node.values|);
      NodeUnfolds(heap, id, trees);
      t := Branch(WithValues(node, trees));
  }

  lemma {:induction false} ValueUnfolds(number: Printer, heap: Heap, node: Node<Value>, seen: set<Id>, i: nat)
    returns (t: Tree)
    requires ValidHeap(heap) && ValidNode(heap, node) && i < |node.values| && ValuesPrint(number, heap, node, seen)
    ensures ReadsAs(heap, node, i, t)
    decreases heap.Keys - seen, 1, 0
  {
    EveryValueIsPrinted(node, ValueResults(number, heap, node, seen), i);
    assert ValueResults(number, heap, node, seen)[i] == Canonical(number, heap, node.values[i], seen);
    t := PrintedUnfolds(number, heap, node.values[i], seen);
  }

  lemma {:induction false} ValuesUnfold(number: Printer, heap: Heap, node: Node<Value>, seen: set<Id>, n: nat)
    returns (trees: seq<Tree>)
    requires ValidHeap(heap) && ValidNode(heap, node) && n <= |node.values| && ValuesPrint(number, heap, node, seen)
    ensures |trees| == n && forall i | 0 <= i < n :: ReadsAs(heap, node, i, trees[i])
    decreases heap.Keys - seen, 2, n
  {
    if n == 0 {
      return [];
    }
    var before := ValuesUnfold(number, heap, node, seen, n - 1);
    var t := ValueUnfolds(number, heap, node, seen, n - 1);
    trees := before + [t];
    forall i | 0 <= i < n ensures ReadsAs(heap, node, i, trees[i]) {
      assert trees[i] == if i < n - 1 then before[i] else t;
    }
  }

  /**
   `canonicalJson` succeeds exactly on values that unfold to a finite tree of finite numbers, shared
   objects included, and then prints that tree; it fails exactly on cycles and non-finite numbers.
   */
  lemma CanonicalIffUnfoldable(number: Printer, heap: Heap, v: Value)
    requires ValidHeap(heap) && Known(heap, v)
    ensures Canonical(number, heap, v, {}).Ok? <==> exists t :: Unfolds(heap, v, t) && Printable(t)
    ensures forall t | Unfolds(heap, v, t) && Printable(t) :: Canonical(number, heap, v, {}) == Ok(Print(number, t))
  {
    forall t | Unfolds(heap, v, t) && Printable(t) ensures Canonical(number, heap, v, {}) == Ok(Print(number, t)) {
      var none: map<Id, Tree> := map[];
      assert none.Keys == {};
      UnfoldableIsPrinted(number, heap, v, t, none);
    }
    if Canonical(number, heap, v, {}).Ok? {
      var t := PrintedUnfolds(number, heap, v, {});
      assert Unfolds(heap, v, t) && Printable(t);
    }
  }

  /**
   Two values that can be fingerprinted have the same text exactly when they unfold to the same JSON,
   key order aside.
   */
  lemma SameTextIffSameJson(number: Printer, heap: Heap, v: Value, w: Value, t: Tree, u: Tree)
    requires PrintsNumbers(number) && ValidHeap(heap) && Known(heap, v) && Known(heap, w)
    requires Unfolds(heap, v, t) && Printable(t) && Unfolds(heap, w, u) && Printable(u)
    ensures Canonical(number, heap, v, {}) == Canonical(number, heap, w, {}) <==> Same(t, u)
  {
    CanonicalIffUnfoldable(number, heap, v);
    CanonicalIffUnfoldable(number, heap, w);
    CanonicalTextIsInjective(number, t, u);
  }
}
