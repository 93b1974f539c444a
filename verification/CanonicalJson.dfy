/**
 `canonicalJson` (pipeline/hashing.ts): the text that decides which payloads count as the
 same. On finite trees it is injective up to key order; on object graphs it fails exactly on
 cycles and non-finite numbers.
 */
module CanonicalJson {
  import opened JsonText

  /// A double: -0, a multiple of the smallest double 2^-1074, an infinity, or NaN.
  datatype Double = NegativeZero | Units(n: int) | Infinite(negative: bool) | NotANumber

  /// What `canonicalize` handles without looking inside; `Other` carries `String(value)`.
  datatype Primitive = Null | True | False | Str(text: Text) | Num(double: Double) | BigInt(n: int) | Other(text: Text)

  /// Not an infinity and not NaN.
  predicate Finite(p: Primitive) {
    p.Num? ==> p.double.NegativeZero? || p.double.Units?
  }

  /// The items of an array, or the values of an object beside its keys in insertion order.
  datatype Node<T> = Array(values: seq<T>) | Object(keys: seq<Text>, values: seq<T>)

  datatype Tree = Leaf(leaf: Primitive) | Branch(node: Node<Tree>)

  // ------------------------------------------------------------------------- sorting keys

  /// The order of strings: by code units, a proper prefix first.
  predicate Less(a: Text, b: Text) {
    b != [] && (a == [] || a[0] < b[0] || (a[0] == b[0] && Less(a[1..], b[1..])))
  }

  lemma {:induction false} LessIsTotal(a: Text, b: Text)
    ensures Less(a, b) || a == b || Less(b, a)
  {
    if a != [] && b != [] && a[0] == b[0] {
      LessIsTotal(a[1..], b[1..]);
      assert a == [a[0]] + a[1..] && b == [b[0]] + b[1..];
    }
  }

  lemma {:induction false} LessIsTransitive(a: Text, b: Text, c: Text)
    requires Less(a, b) && Less(b, c)
    ensures Less(a, c)
  {
    if a != [] && a[0] == b[0] == c[0] {
      LessIsTransitive(a[1..], b[1..], c[1..]);
    }
  }

  lemma {:induction false} LessIsStrict(a: Text)
    ensures !Less(a, a)
  {
    if a != [] {
      LessIsStrict(a[1..]);
    }
  }

  /** That is: the first is a proper prefix of the second, or has the smaller code unit where they first differ. */
  lemma {:induction false} LessIff(a: Text, b: Text)
    ensures Less(a, b) <==> exists k | 0 <= k <= |a| && k < |b| :: SharesUpTo(a, b, k) && (k == |a| || a[k] < b[k])
  {
    if a == [] {
      assert b != [] ==> SharesUpTo(a, b, 0);
      return;
    }
    if b == [] {
      return;
    }
    if a[0] != b[0] {
      assert SharesUpTo(a, b, 0);
      return;
    }
    LessIff(a[1..], b[1..]);
    if Less(a, b) {
      var k :| 0 <= k <= |a[1..]| && k < |b[1..]| && SharesUpTo(a[1..], b[1..], k) &&
        (k == |a[1..]| || a[1..][k] < b[1..][k]);
      SharesMore(a, b, k);
    }
    if k :| 0 < k <= |a| && k < |b| && SharesUpTo(a, b, k) && (k == |a| || a[k] < b[k]) {
      SharesMore(a, b, k - 1);
    }
  }

  predicate SharesUpTo(a: Text, b: Text, k: nat)
    requires k <= |a| && k <= |b|
  {
    forall i | 0 <= i < k :: a[i] == b[i]
  }

  lemma SharesMore(a: Text, b: Text, k: nat)
    requires a != [] && b != [] && a[0] == b[0] && k < |a| && k < |b|
    ensures SharesUpTo(a, b, k + 1) <==> SharesUpTo(a[1..], b[1..], k)
  {
    if SharesUpTo(a[1..], b[1..], k) {
      forall i | 0 < i < k + 1 ensures a[i] == b[i] {
        assert a[1..][i - 1] == b[1..][i - 1];
      }
    }
  }

  predicate Ascending(keys: seq<Text>) {
    forall i, j | 0 <= i < j < |keys| :: Less(keys[i], keys[j])
  }

  function Insert(key: Text, sorted: seq<Text>): (r: seq<Text>)
    ensures |r| == |sorted| + 1 && forall k :: k in r <==> k in sorted || k == key
  {
    if sorted == [] then [key]
    else if Less(key, sorted[0]) then [key] + sorted
    else
      assert sorted == [sorted[0]] + sorted[1..];
      [sorted[0]] + Insert(key, sorted[1..])
  }

  lemma BelowAll(key: Text, sorted: seq<Text>)
    requires Ascending(sorted) && (sorted != [] ==> Less(key, sorted[0]))
    ensures Ascending([key] + sorted)
  {
    forall j | 0 < j < |sorted| ensures Less(key, sorted[j]) {
      LessIsTransitive(key, sorted[0], sorted[j]);
    }
  }

  lemma {:induction false} InsertKeepsAscending(key: Text, sorted: seq<Text>)
    requires Ascending(sorted) && key !in sorted
    ensures Ascending(Insert(key, sorted))
  {
    if sorted == [] {
    } else if Less(key, sorted[0]) {
      BelowAll(key, sorted);
    } else {
      var rest := Insert(key, sorted[1..]);
      LessIsTotal(key, sorted[0]);
      InsertKeepsAscending(key, sorted[1..]);
      assert rest[0] in rest;
      BelowAll(sorted[0], rest);
    }
  }

  predicate NoDuplicates(keys: seq<Text>) {
    forall i, j | 0 <= i < j < |keys| :: keys[i] != keys[j]
  }

  /// `Object.keys(record).sort()`.
  function Sort(keys: seq<Text>): (r: seq<Text>)
    ensures |r| == |keys| && forall k :: k in r <==> k in keys
  {
    if keys == [] then [] else
    assert keys == [keys[0]] + keys[1..];
    Insert(keys[0], Sort(keys[1..]))
  }

  lemma {:induction false} SortIsAscending(keys: seq<Text>)
    requires NoDuplicates(keys)
    ensures Ascending(Sort(keys))
  {
    if keys != [] {
      SortIsAscending(keys[1..]);
      InsertKeepsAscending(keys[0], Sort(keys[1..]));
    }
  }

  lemma SomeMember(a: seq<Text>, b: seq<Text>)
    requires b != [] && forall k | k in b :: k in a
    ensures a != []
  {
    assert b[0] in a;
  }

  /// A set of keys has one ascending order.
  lemma {:induction false} AscendingIsUnique(a: seq<Text>, b: seq<Text>)
    requires Ascending(a) && Ascending(b) && forall k :: k in a <==> k in b
    ensures a == b
  {
    if a != [] {
      SomeMember(b, a);
      SameFirst(a, b);
      forall k ensures k in a[1..] <==> k in b[1..] {
        RestMembers(a, k);
        RestMembers(b, k);
      }
      AscendingIsUnique(a[1..], b[1..]);
      assert a == [a[0]] + a[1..] && b == [b[0]] + b[1..];
    } else if b != [] {
      SomeMember(a, b);
    }
  }

  lemma SameFirst(a: seq<Text>, b: seq<Text>)
    requires Ascending(a) && Ascending(b) && a != [] && b != [] && a[0] in b && b[0] in a
    ensures a[0] == b[0]
  {
    if a[0] != b[0] {
      assert Less(b[0], a[0]) && Less(a[0], b[0]);
      LessIsTransitive(a[0], b[0], a[0]);
      LessIsStrict(a[0]);
    }
  }

  lemma RestMembers(a: seq<Text>, k: Text)
    requires Ascending(a) && a != []
    ensures k in a[1..] <==> k in a && k != a[0]
  {
    if k in a[1..] {
      LessIsStrict(k);
    }
  }

  function IndexOf(keys: seq<Text>, key: Text): (i: nat)
    requires key in keys
    ensures i < |keys| && keys[i] == key
  {
    if keys[0] == key then 0 else 1 + IndexOf(keys[1..], key)
  }

  // ------------------------------------------------------------------------ printing nodes

  predicate WellFormed<T>(node: Node<T>) {
    node.Object? ==> |node.keys| == |node.values| && NoDuplicates(node.keys)
  }

  /// The positions of the values in the order in which they are printed.
  function Order<T>(node: Node<T>): (order: seq<nat>)
    requires WellFormed(node)
    ensures |order| == |node.values| && forall i | 0 <= i < |order| :: order[i] < |node.values|
    ensures node.Array? ==> forall i | 0 <= i < |order| :: order[i] == i
    ensures node.Object? ==>
      forall i | 0 <= i < |order| && i < |Sort(node.keys)| :: node.keys[order[i]] == Sort(node.keys)[i]
  {
    match node
    case Array(values) => seq(|values|, i => i)
    case Object(keys, values) =>
      var sorted := Sort(keys);
      seq(|sorted|, i requires 0 <= i < |sorted| => IndexOf(keys, sorted[i]))
  }

  /// What is printed before the value at position `i`.
  function Prefix<T>(node: Node<T>, i: nat): Text
    requires WellFormed(node) && i < |node.values|
  {
    if node.Array? then [] else Quote(node.keys[i]) + [COLON]
  }

  function Opening<T>(node: Node<T>): Unit {
    if node.Array? then OPEN_ARRAY else OPEN_OBJECT
  }

  function Closing<T>(node: Node<T>): Unit {
    if node.Array? then CLOSE_ARRAY else CLOSE_OBJECT
  }

  function Bracketed<T>(node: Node<T>, texts: seq<Text>): Text {
    [Opening(node)] + (Join(texts) + [Closing(node)])
  }

  // --------------------------------------------------------------------- printing primitives

  /// `Number::toString` on finite doubles, as far as printing relies on it: it writes numbers, each its own way.
  type Printer = int -> Text

  predicate Digit(u: Unit) {
    0x30 <= u <= 0x39
  }

  predicate NumberUnit(u: Unit) {
    Digit(u) || u == MINUS || u == 0x2B || u == 0x2E || u == 0x65
  }

  predicate NumberText(t: Text) {
    t != [] && (Digit(t[0]) || t[0] == MINUS) && forall i | 0 <= i < |t| :: NumberUnit(t[i])
  }

  ghost predicate PrintsNumbers(number: Printer) {
    && (forall n :: NumberText(number(n)))
    && (forall m, n :: number(m) == number(n) ==> m == n)
  }

  function Digits(n: nat): Text {
    if n < 10 then [0x30 + n] else Digits(n / 10) + [0x30 + n % 10]
  }

  function Decimal(n: int): Text {
    if n < 0 then [MINUS] + Digits(-n) else Digits(n)
  }

  const NULL_TEXT: Text := [0x6E, 0x75, 0x6C, 0x6C]
  const TRUE_TEXT: Text := [0x74, 0x72, 0x75, 0x65]
  const FALSE_TEXT: Text := [0x66, 0x61, 0x6C, 0x73, 0x65]

  function PrimitiveText(number: Printer, p: Primitive): Text
    requires Finite(p)
  {
    match p
    case Null => NULL_TEXT
    case True => TRUE_TEXT
    case False => FALSE_TEXT
    case Str(text) => Quote(text)
    case Num(double) => number(if double == NegativeZero then 0 else double.n)
    case BigInt(n) => Quote(Decimal(n) + [0x6E])
    case Other(text) => Quote(text)
  }

  /// What a primitive is taken for: -0 is 0, and whatever is not JSON is a string.
  function Normal(p: Primitive): Primitive {
    match p
    case Num(NegativeZero) => Num(Units(0))
    case BigInt(n) => Str(Decimal(n) + [0x6E])
    case Other(text) => Str(text)
    case _ => p
  }

  lemma NormalPrintsTheSame(number: Printer, p: Primitive)
    requires Finite(p)
    ensures Finite(Normal(p)) && PrimitiveText(number, Normal(p)) == PrimitiveText(number, p)
  {
  }

  lemma NotLonger(a: Text, s: Text, b: Text, t: Text)
    requires NumberText(b) && Terminated(s) && a + s == b + t
    ensures |b| <= |a|
  {
    assert forall i | 0 <= i < |b| :: NumberUnit((b + t)[i]);
    assert s != [] ==> Terminator((a + s)[|a|]);
  }

  lemma NumbersApart(a: Text, s: Text, b: Text, t: Text)
    requires NumberText(a) && NumberText(b) && Terminated(s) && Terminated(t) && a + s == b + t
    ensures a == b
  {
    NotLonger(a, s, b, t);
    NotLonger(b, t, a, s);
    CutPrefix(a, s, b, t);
  }

  /** Two printed primitives are never confused, and agree only when they are taken for the same value. */
  lemma PrimitivesApart(number: Printer, p: Primitive, s: Text, q: Primitive, t: Text)
    requires PrintsNumbers(number) && Finite(p) && Finite(q) && Terminated(s) && Terminated(t)
    requires PrimitiveText(number, p) + s == PrimitiveText(number, q) + t
    ensures Normal(p) == Normal(q)
  {
    var x, y := Normal(p), Normal(q);
    NormalPrintsTheSame(number, p);
    NormalPrintsTheSame(number, q);
    var a, b := PrimitiveText(number, x), PrimitiveText(number, y);
    FirstOfPrimitive(number, x);
    FirstOfPrimitive(number, y);
    assert a[0] == (a + s)[0] == (b + t)[0] == b[0];
    if x.Str? {
      QuotesApart(x.text, s, y.text, t);
    } else if x.Num? {
      NumbersApart(a, s, b, t);
    }
  }

  lemma FirstOfPrimitive(number: Printer, p: Primitive)
    requires PrintsNumbers(number) && Finite(p)
    ensures var text := PrimitiveText(number, p);
      && text != []
      && match Normal(p)
         case Null => text[0] == 0x6E
         case True => text[0] == 0x74
         case False => text[0] == 0x66
         case Str(_) => text[0] == QUOTE
         case _ => Digit(text[0]) || text[0] == MINUS
  {
  }

  // -------------------------------------------------------------------------- printing trees

  predicate Printable(t: Tree) {
    match t
    case Leaf(p) => Finite(p)
    case Branch(node) => WellFormed(node) && forall i | 0 <= i < |node.values| :: Printable(node.values[i])
  }

  /// `canonicalize` on a value that is a finite tree.
  function Print(number: Printer, t: Tree): Text
    requires Printable(t)
  {
    match t
    case Leaf(p) => PrimitiveText(number, p)
    case Branch(node) => Bracketed(node, seq(|node.values|, i requires 0 <= i < |node.values| =>
      var at := Order(node)[i];
      Prefix(node, at) + Print(number, node.values[at])))
  }

  /// What is printed at the `i`th place of a node.
  function SlotText(number: Printer, node: Node<Tree>, i: nat): Text
    requires Printable(Branch(node)) && i < |node.values|
  {
    Prefix(node, Order(node)[i]) + Print(number, node.values[Order(node)[i]])
  }

  function SlotTexts(number: Printer, node: Node<Tree>): (texts: seq<Text>)
    requires Printable(Branch(node))
    ensures |texts| == |node.values| && forall i | 0 <= i < |texts| :: texts[i] == SlotText(number, node, i)
  {
    seq(|node.values|, i requires 0 <= i < |node.values| => SlotText(number, node, i))
  }

  lemma PrintBranch(number: Printer, node: Node<Tree>)
    requires Printable(Branch(node))
    ensures Print(number, Branch(node)) == Bracketed(node, SlotTexts(number, node))
  {
    var texts := seq(|node.values|, i requires 0 <= i < |node.values| =>
      var at := Order(node)[i];
      Prefix(node, at) + Print(number, node.values[at]));
    assert texts == SlotTexts(number, node);
  }

  /** Equality of JSON values: object key order is ignored, and primitives are taken for what they print as. */
  predicate Same(a: Tree, b: Tree) {
    match (a, b)
    case (Leaf(p), Leaf(q)) => Normal(p) == Normal(q)
    case (Branch(Array(xs)), Branch(Array(ys))) => |xs| == |ys| && forall i | 0 <= i < |xs| :: Same(xs[i], ys[i])
    case (Branch(Object(ks, xs)), Branch(Object(ls, ys))) =>
      && (forall k | k in ks :: k in ls) && (forall k | k in ls :: k in ks)
      && (forall i, j | 0 <= i < |ks| && i < |xs| && 0 <= j < |ls| && j < |ys| && ks[i] == ls[j] :: Same(xs[i], ys[j]))
    case _ => false
  }

  // ------------------------------------------------------------- no text is taken for another

  lemma FirstOfTree(number: Printer, t: Tree)
    requires PrintsNumbers(number) && Printable(t)
    ensures var text := Print(number, t);
      && text != [] && Item(text)
      && (t.Branch? <==> text[0] == OPEN_ARRAY || text[0] == OPEN_OBJECT)
      && (t.Branch? ==> text[0] == Opening(t.node))
  {
    if t.Leaf? {
      FirstOfPrimitive(number, t.leaf);
    }
  }

  lemma SlotIsItem(number: Printer, node: Node<Tree>, i: nat)
    requires PrintsNumbers(number) && Printable(Branch(node)) && i < |node.values|
    ensures Item(SlotText(number, node, i))
  {
    FirstOfTree(number, node.values[Order(node)[i]]);
  }

  /// Two members of objects are apart, and their keys are recovered, if their values are apart.
  lemma MembersApart(k: Text, a: Text, s: Text, l: Text, b: Text, t: Text)
    requires Apart(a, b) && Terminated(s) && Terminated(t)
    requires (Quote(k) + [COLON] + a) + s == (Quote(l) + [COLON] + b) + t
    ensures k == l && a == b
  {
    assert (Quote(k) + [COLON] + a) + s == Quote(k) + ([COLON] + (a + s));
    assert (Quote(l) + [COLON] + b) + t == Quote(l) + ([COLON] + (b + t));
    QuotesApart(k, [COLON] + (a + s), l, [COLON] + (b + t));
    CutPrefix([COLON], a + s, [COLON], b + t);
  }

  lemma SlotsApart(number: Printer, m: Node<Tree>, i: nat, n: Node<Tree>, j: nat)
    requires Printable(Branch(m)) && Printable(Branch(n)) && i < |m.values| && j < |n.values| && m.Array? == n.Array?
    requires Apart(Print(number, m.values[Order(m)[i]]), Print(number, n.values[Order(n)[j]]))
    ensures Apart(SlotText(number, m, i), SlotText(number, n, j))
  {
    var a, b := Print(number, m.values[Order(m)[i]]), Print(number, n.values[Order(n)[j]]);
    if m.Object? {
      var k, l := m.keys[Order(m)[i]], n.keys[Order(n)[j]];
      forall s: Text, t: Text | Terminated(s) && Terminated(t) &&
        SlotText(number, m, i) + s == SlotText(number, n, j) + t
        ensures SlotText(number, m, i) == SlotText(number, n, j)
      {
        MembersApart(k, a, s, l, b, t);
      }
    } else {
      assert SlotText(number, m, i) == a && SlotText(number, n, j) == b;
    }
  }

  lemma LeavesApart(number: Printer, p: Primitive, q: Primitive)
    requires PrintsNumbers(number) && Finite(p) && Finite(q)
    ensures Apart(PrimitiveText(number, p), PrimitiveText(number, q))
  {
    forall s: Text, t: Text | Terminated(s) && Terminated(t) &&
      PrimitiveText(number, p) + s == PrimitiveText(number, q) + t
      ensures PrimitiveText(number, p) == PrimitiveText(number, q)
    {
      PrimitivesApart(number, p, s, q, t);
      NormalPrintsTheSame(number, p);
      NormalPrintsTheSame(number, q);
    }
  }

  /// Two nodes whose slots are apart are themselves apart.
  lemma BracketsApart(m: Node<Tree>, a: seq<Text>, s: Text, n: Node<Tree>, b: seq<Text>, t: Text)
    requires m.Array? == n.Array? && AllApart(a, b) && Bracketed(m, a) + s == Bracketed(n, b) + t
    ensures a == b && s == t
  {
    assert Bracketed(m, a) + s == [Opening(m)] + (Join(a) + [Closing(m)] + s);
    assert Bracketed(n, b) + t == [Opening(n)] + (Join(b) + [Closing(n)] + t);
    CutPrefix([Opening(m)], Join(a) + [Closing(m)] + s, [Opening(n)], Join(b) + [Closing(n)] + t);
    JoinsApart(a, s, b, t, Closing(m));
  }

  lemma DifferentFirstsApart(a: Text, b: Text)
    requires a != [] && b != [] && a[0] != b[0]
    ensures Apart(a, b)
  {
    forall s: Text, t: Text ensures a + s != b + t {
      assert (a + s)[0] == a[0] && (b + t)[0] == b[0];
    }
  }

  lemma NodesApart(number: Printer, m: Node<Tree>, n: Node<Tree>)
    requires PrintsNumbers(number) && Printable(Branch(m)) && Printable(Branch(n)) && m.Array? == n.Array?
    requires forall i, j | 0 <= i < |m.values| && 0 <= j < |n.values| ::
      Apart(SlotText(number, m, i), SlotText(number, n, j))
    ensures AllApart(SlotTexts(number, m), SlotTexts(number, n))
    ensures Apart(Print(number, Branch(m)), Print(number, Branch(n)))
  {
    var a, b := SlotTexts(number, m), SlotTexts(number, n);
    forall i | 0 <= i < |a| ensures Item(a[i]) {
      SlotIsItem(number, m, i);
    }
    forall j | 0 <= j < |b| ensures Item(b[j]) {
      SlotIsItem(number, n, j);
    }
    PrintBranch(number, m);
    PrintBranch(number, n);
    forall s: Text, t: Text | Terminated(s) && Terminated(t) && Bracketed(m, a) + s == Bracketed(n, b) + t
      ensures Bracketed(m, a) == Bracketed(n, b)
    {
      BracketsApart(m, a, s, n, b, t);
    }
  }

  /** Followed by anything that can follow a value, no printed tree is taken for a different text. */
  lemma {:induction false} TreesApart(number: Printer, a: Tree, b: Tree)
    requires PrintsNumbers(number) && Printable(a) && Printable(b)
    ensures Apart(Print(number, a), Print(number, b))
    decreases a
  {
    FirstOfTree(number, a);
    FirstOfTree(number, b);
    if a.Leaf? && b.Leaf? {
      LeavesApart(number, a.leaf, b.leaf);
    } else if a.Branch? && b.Branch? && a.node.Array? == b.node.Array? {
      var m, n := a.node, b.node;
      forall i, j | 0 <= i < |m.values| && 0 <= j < |n.values|
        ensures Apart(SlotText(number, m, i), SlotText(number, n, j))
      {
        TreesApart(number, m.values[Order(m)[i]], n.values[Order(n)[j]]);
        SlotsApart(number, m, i, n, j);
      }
      NodesApart(number, m, n);
    } else {
      DifferentFirstsApart(Print(number, a), Print(number, b));
    }
  }

  // --------------------------------------------------------- injectivity up to key order

  /// Equal texts have equal slots.
  lemma EqualSlots(number: Printer, m: Node<Tree>, n: Node<Tree>)
    requires PrintsNumbers(number) && Printable(Branch(m)) && Printable(Branch(n))
    requires Print(number, Branch(m)) == Print(number, Branch(n))
    ensures m.Array? == n.Array? && SlotTexts(number, m) == SlotTexts(number, n)
  {
    FirstOfTree(number, Branch(m));
    FirstOfTree(number, Branch(n));
    forall i, j | 0 <= i < |m.values| && 0 <= j < |n.values|
      ensures Apart(SlotText(number, m, i), SlotText(number, n, j))
    {
      TreesApart(number, m.values[Order(m)[i]], n.values[Order(n)[j]]);
      SlotsApart(number, m, i, n, j);
    }
    NodesApart(number, m, n);
    PrintBranch(number, m);
    PrintBranch(number, n);
    BracketsApart(m, SlotTexts(number, m), [], n, SlotTexts(number, n), []);
  }

  /// Equal members have the same sorted key and equally printed values.
  lemma EqualMembers(number: Printer, m: Node<Tree>, n: Node<Tree>, i: nat)
    requires PrintsNumbers(number) && Printable(Branch(m)) && Printable(Branch(n)) && m.Object? && n.Object?
    requires SlotTexts(number, m) == SlotTexts(number, n) && i < |m.values|
    ensures |m.values| == |n.values| && m.keys[Order(m)[i]] == n.keys[Order(n)[i]]
    ensures Print(number, m.values[Order(m)[i]]) == Print(number, n.values[Order(n)[i]])
  {
    assert |SlotTexts(number, m)| == |SlotTexts(number, n)|;
    assert SlotTexts(number, m)[i] == SlotText(number, m, i) && SlotTexts(number, n)[i] == SlotText(number, n, i);
    TreesApart(number, m.values[Order(m)[i]], n.values[Order(n)[i]]);
    MembersApart(m.keys[Order(m)[i]], Print(number, m.values[Order(m)[i]]), [],
                 n.keys[Order(n)[i]], Print(number, n.values[Order(n)[i]]), []);
  }

  /// Every position of an object is printed at some place.
  lemma PlaceOf<T>(node: Node<T>, at: nat) returns (i: nat)
    requires WellFormed(node) && node.Object? && at < |node.values|
    ensures i < |node.values| && Order(node)[i] == at
  {
    assert node.keys[at] in Sort(node.keys);
    i :| 0 <= i < |Sort(node.keys)| && Sort(node.keys)[i] == node.keys[at];
    assert node.keys[Order(node)[i]] == node.keys[at];
  }

  lemma {:induction false} EqualTextsAreSame(number: Printer, a: Tree, b: Tree)
    requires PrintsNumbers(number) && Printable(a) && Printable(b) && Print(number, a) == Print(number, b)
    ensures Same(a, b)
    decreases a
  {
    FirstOfTree(number, a);
    FirstOfTree(number, b);
    if a.Leaf? {
      PrimitivesApart(number, a.leaf, [], b.leaf, []);
    } else {
      EqualSlots(number, a.node, b.node);
      if a.node.Array? {
        assert |SlotTexts(number, a.node)| == |SlotTexts(number, b.node)|;
        forall i | 0 <= i < |a.node.values| ensures Same(a.node.values[i], b.node.values[i]) {
          EqualItem(number, a.node, b.node, i);
          EqualTextsAreSame(number, a.node.values[i], b.node.values[i]);
        }
      } else {
        EqualKeys(number, a.node, b.node);
        forall i, j | 0 <= i < |a.node.keys| && 0 <= j < |b.node.keys| && a.node.keys[i] == b.node.keys[j]
          ensures Same(a.node.values[i], b.node.values[j])
        {
          EqualValues(number, a.node, i, b.node, j);
          EqualTextsAreSame(number, a.node.values[i], b.node.values[j]);
        }
      }
    }
  }

  lemma ArraySlot(number: Printer, node: Node<Tree>, i: nat)
    requires Printable(Branch(node)) && node.Array? && i < |node.values|
    ensures SlotText(number, node, i) == Print(number, node.values[i])
  {
    var text := Print(number, node.values[i]);
    assert Order(node)[i] == i && [] + text == text;
  }

  lemma EqualItem(number: Printer, m: Node<Tree>, n: Node<Tree>, i: nat)
    requires Printable(Branch(m)) && Printable(Branch(n)) && m.Array? && n.Array?
    requires SlotTexts(number, m) == SlotTexts(number, n) && i < |m.values|
    ensures |m.values| == |n.values| && Print(number, m.values[i]) == Print(number, n.values[i])
  {
    assert |SlotTexts(number, m)| == |SlotTexts(number, n)|;
    assert SlotTexts(number, m)[i] == SlotText(number, m, i) && SlotTexts(number, n)[i] == SlotText(number, n, i);
    ArraySlot(number, m, i);
    ArraySlot(number, n, i);
  }

  lemma EqualKeys(number: Printer, m: Node<Tree>, n: Node<Tree>)
    requires PrintsNumbers(number) && Printable(Branch(m)) && Printable(Branch(n)) && m.Object? && n.Object?
    requires SlotTexts(number, m) == SlotTexts(number, n)
    ensures (forall k | k in m.keys :: k in n.keys) && (forall k | k in n.keys :: k in m.keys)
  {
    assert |SlotTexts(number, m)| == |SlotTexts(number, n)|;
    forall at | 0 <= at < |m.keys| ensures m.keys[at] in n.keys {
      var i := PlaceOf(m, at);
      EqualMembers(number, m, n, i);
    }
    forall at | 0 <= at < |n.keys| ensures n.keys[at] in m.keys {
      var i := PlaceOf(n, at);
      EqualMembers(number, m, n, i);
    }
  }

  lemma SameKeySamePlace(keys: seq<Text>, i: nat, j: nat)
    requires NoDuplicates(keys) && i < |keys| && j < |keys| && keys[i] == keys[j]
    ensures i == j
  {
  }

  lemma EqualValues(number: Printer, m: Node<Tree>, i: nat, n: Node<Tree>, j: nat)
    requires PrintsNumbers(number) && Printable(Branch(m)) && Printable(Branch(n)) && m.Object? && n.Object?
    requires SlotTexts(number, m) == SlotTexts(number, n)
    requires i < |m.keys| && j < |n.keys| && m.keys[i] == n.keys[j]
    ensures Print(number, m.values[i]) == Print(number, n.values[j])
  {
    var place := PlaceOf(m, i);
    EqualMembers(number, m, n, place);
    SameKeySamePlace(n.keys, Order(n)[place], j);
  }

  /// The same keys are printed in the same order.
  lemma SameKeysSameOrder(ks: seq<Text>, ls: seq<Text>)
    requires NoDuplicates(ks) && NoDuplicates(ls)
    requires (forall k | k in ks :: k in ls) && (forall k | k in ls :: k in ks)
    ensures Sort(ks) == Sort(ls) && |ks| == |ls|
  {
    SortIsAscending(ks);
    SortIsAscending(ls);
    AscendingIsUnique(Sort(ks), Sort(ls));
  }

  lemma {:induction false} SamePrintEqually(number: Printer, a: Tree, b: Tree)
    requires Printable(a) && Printable(b) && Same(a, b)
    ensures Print(number, a) == Print(number, b)
    decreases a
  {
    if a.Leaf? {
      NormalPrintsTheSame(number, a.leaf);
      NormalPrintsTheSame(number, b.leaf);
    } else {
      var m, n := a.node, b.node;
      if m.Object? {
        SameKeysSameOrder(m.keys, n.keys);
      }
      forall i | 0 <= i < |m.values| ensures SlotText(number, m, i) == SlotText(number, n, i) {
        assert m.Object? ==> m.keys[Order(m)[i]] == n.keys[Order(n)[i]];
        SamePrintEqually(number, m.values[Order(m)[i]], n.values[Order(n)[i]]);
      }
      PrintBranch(number, m);
      PrintBranch(number, n);
      assert SlotTexts(number, m) == SlotTexts(number, n);
    }
  }

  /** Canonical texts are equal exactly when the values are equal with object key order ignored. */
  lemma CanonicalTextIsInjective(number: Printer, a: Tree, b: Tree)
    requires PrintsNumbers(number) && Printable(a) && Printable(b)
    ensures Print(number, a) == Print(number, b) <==> Same(a, b)
  {
    if Print(number, a) == Print(number, b) {
      EqualTextsAreSame(number, a, b);
    }
    if Same(a, b) {
      SamePrintEqually(number, a, b);
    }
  }

  /** What is not JSON collides: the bigint 5 prints as the string "5n", and undefined as "undefined". */
  lemma NotJsonCollides(number: Printer, text: Text)
    ensures Print(number, Leaf(BigInt(5))) == Print(number, Leaf(Str([0x35, 0x6E])))
    ensures Print(number, Leaf(Other(text))) == Print(number, Leaf(Str(text)))
    ensures Leaf(BigInt(5)) != Leaf(Str([0x35, 0x6E])) && Leaf(Other(text)) != Leaf(Str(text))
  {
    assert Digits(5) == [0x35];
  }
}
