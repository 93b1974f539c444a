/**
 A reader of JSON texts as RFC 8259 describes them, which knows nothing of the printer, and the round trip: it
 reads the canonical text of a tree back as that tree with the keys of its objects sorted.
 */
module JsonReader {
  import opened Basics
  import opened JsonText
  import opened CanonicalJson

  /// What was read and what follows it.
  datatype Read<+T> = Done(value: T, rest: Text) | Broken

  // -------------------------------------------------------------- strings: section 7 of RFC 8259

  function HexValue(u: Unit): Option<nat> {
    if 0x30 <= u <= 0x39 then Some(u - 0x30)
    else if 0x41 <= u <= 0x46 then Some(u - 0x41 + 10)
    else if 0x61 <= u <= 0x66 then Some(u - 0x61 + 10)
    else None
  }

  /// The code unit that four hexadecimal digits stand for.
  function FourDigits(s: Text): Option<Unit>
    requires |s| >= 4
  {
    match (HexValue(s[0]), HexValue(s[1]), HexValue(s[2]), HexValue(s[3]))
    case (Some(a), Some(b), Some(c), Some(d)) =>
      var n := 4096 * a + 256 * b + 16 * c + d;
      if n < 0x1_0000 then Some(n) else None
    case _ => None
  }

  /// What the letter after a reverse solidus stands for.
  function Unescaped(u: Unit): Option<Unit> {
    if u == 0x22 || u == 0x5C || u == 0x2F then Some(u)
    else if u == 0x62 then Some(0x08)
    else if u == 0x66 then Some(0x0C)
    else if u == 0x6E then Some(0x0A)
    else if u == 0x72 then Some(0x0D)
    else if u == 0x74 then Some(0x09)
    else None
  }

  function Before(u: Unit, r: Read<Text>): Read<Text> {
    match r
    case Broken => Broken
    case Done(text, rest) => Done([u] + text, rest)
  }

  /// What follows an opening quotation mark, up to the closing one.
  function ReadUnits(s: Text): (r: Read<Text>)
    ensures r.Done? ==> |r.rest| < |s|
  {
    if s == [] then Broken
    else if s[0] == 0x22 then Done([], s[1..])
    else if s[0] < 0x20 then Broken
    else if s[0] != 0x5C then Before(s[0], ReadUnits(s[1..]))
    else if |s| >= 6 && s[1] == 0x75 then
      match FourDigits(s[2..6])
      case None => Broken
      case Some(unit) => Before(unit, ReadUnits(s[6..]))
    else if |s| >= 2 then
      match Unescaped(s[1])
      case None => Broken
      case Some(unit) => Before(unit, ReadUnits(s[2..]))
    else Broken
  }

  // -------------------------------------------------------- values: sections 2 to 6 of RFC 8259

  predicate Space(u: Unit) {
    u == 0x20 || u == 0x09 || u == 0x0A || u == 0x0D
  }

  /// What follows insignificant whitespace.
  function Skip(s: Text): (r: Text)
    ensures |r| <= |s|
  {
    if s != [] && Space(s[0]) then Skip(s[1..]) else s
  }

  predicate StartsWith(s: Text, word: Text) {
    |s| >= |word| && s[..|word|] == word
  }

  /// How far the text could be a number.
  function NumberRun(s: Text): (n: nat)
    ensures n <= |s|
  {
    if s == [] || !NumberUnit(s[0]) then 0 else 1 + NumberRun(s[1..])
  }

  /// The value of a numeral, `None` where it is not one.
  type Numerals = Text -> Option<int>

  function ReadNumber(numeral: Numerals, s: Text): (r: Read<Tree>)
    ensures r.Done? ==> |r.rest| < |s|
  {
    var n := NumberRun(s);
    if n == 0 then Broken else
    match numeral(s[..n])
    case None => Broken
    case Some(units) => Done(Leaf(Num(Units(units))), s[n..])
  }

  datatype Members = Members(keys: seq<Text>, values: seq<Tree>)

  function ReadValue(numeral: Numerals, s: Text): (r: Read<Tree>)
    ensures r.Done? ==> |r.rest| < |s|
    decreases |s|, 1
  {
    var t := Skip(s);
    if t == [] then Broken
    else if t[0] == 0x22 then
      match ReadUnits(t[1..])
      case Broken => Broken
      case Done(text, rest) => Done(Leaf(Str(text)), rest)
    else if t[0] == 0x5B then ReadArray(numeral, t)
    else if t[0] == 0x7B then ReadObject(numeral, t)
    else if StartsWith(t, [0x6E, 0x75, 0x6C, 0x6C]) then Done(Leaf(Null), t[4..])
    else if StartsWith(t, [0x74, 0x72, 0x75, 0x65]) then Done(Leaf(True), t[4..])
    else if StartsWith(t, [0x66, 0x61, 0x6C, 0x73, 0x65]) then Done(Leaf(False), t[5..])
    else ReadNumber(numeral, t)
  }

  function ReadArray(numeral: Numerals, t: Text): (r: Read<Tree>)
    requires t != []
    ensures r.Done? ==> |r.rest| < |t|
    decreases |t|, 0
  {
    var inner := Skip(t[1..]);
    if inner != [] && inner[0] == 0x5D then Done(Branch(Array([])), inner[1..]) else
    match ReadItems(numeral, inner)
    case Broken => Broken
    case Done(values, rest) => Done(Branch(Array(values)), rest)
  }

  /// One or more values with commas between them, up to the closing bracket.
  function ReadItems(numeral: Numerals, s: Text): (r: Read<seq<Tree>>)
    ensures r.Done? ==> |r.rest| < |s|
    decreases |s|, 2
  {
    match ReadValue(numeral, s)
    case Broken => Broken
    case Done(value, after) =>
      var t := Skip(after);
      if t != [] && t[0] == 0x5D then Done([value], t[1..])
      else if t != [] && t[0] == 0x2C then
        match ReadItems(numeral, t[1..])
        case Broken => Broken
        case Done(values, rest) => Done([value] + values, rest)
      else Broken
  }

  function ReadObject(numeral: Numerals, t: Text): (r: Read<Tree>)
    requires t != []
    ensures r.Done? ==> |r.rest| < |t|
    decreases |t|, 0
  {
    var inner := Skip(t[1..]);
    if inner != [] && inner[0] == 0x7D then Done(Branch(Object([], [])), inner[1..]) else
    match ReadMembers(numeral, inner)
    case Broken => Broken
    case Done(members, rest) => Done(Branch(Object(members.keys, members.values)), rest)
  }

  /// A name and its colon.
  function ReadName(s: Text): (r: Read<Text>)
    ensures r.Done? ==> |r.rest| < |s|
  {
    var t := Skip(s);
    if t == [] || t[0] != 0x22 then Broken else
    match ReadUnits(t[1..])
    case Broken => Broken
    case Done(key, after) =>
      var u := Skip(after);
      if u != [] && u[0] == 0x3A then Done(key, u[1..]) else Broken
  }

  /// One or more members with commas between them, up to the closing brace.
  function ReadMembers(numeral: Numerals, s: Text): (r: Read<Members>)
    ensures r.Done? ==> |r.rest| < |s|
    decreases |s|, 2
  {
    match ReadName(s)
    case Broken => Broken
    case Done(key, named) =>
      match ReadValue(numeral, named)
      case Broken => Broken
      case Done(value, after) =>
        var t := Skip(after);
        if t != [] && t[0] == 0x7D then Done(Members([key], [value]), t[1..])
        else if t != [] && t[0] == 0x2C then
          match ReadMembers(numeral, t[1..])
          case Broken => Broken
          case Done(members, rest) => Done(Members([key] + members.keys, [value] + members.values), rest)
        else Broken
  }

  /// A whole text: one value with nothing but whitespace around it.
  function ReadText(numeral: Numerals, s: Text): Option<Tree> {
    match ReadValue(numeral, s)
    case Broken => None
    case Done(value, rest) => if Skip(rest) == [] then Some(value) else None
  }

  // ------------------------------------------------------------------ reading strings back

  lemma HexReadsBack(d: nat)
    requires d < 16
    ensures HexValue(HexDigit(d)) == Some(d)
  {
  }

  lemma EscapeReadsBack(u: Unit)
    ensures var e := UnicodeEscape(u);
      |e| == 6 && e[0] == 0x5C && e[1] == 0x75 && FourDigits(e[2..6]) == Some(u)
  {
    HexReadsBack(u / 16 / 16 / 16);
    HexReadsBack(u / 16 / 16 % 16);
    HexReadsBack(u / 16 % 16);
    HexReadsBack(u % 16);
  }

  /// One escaped code unit is read back.
  lemma UnitReadsBack(u: Unit, x: Text)
    ensures ReadUnits(EscapeUnit(u) + x) == Before(u, ReadUnits(x))
  {
    var e := EscapeUnit(u);
    var s := e + x;
    assert s[|e|..] == x && s[0] == e[0];
    if |e| == 1 {
      return;
    }
    assert s[1] == e[1];
    if |e| == 6 {
      EscapeReadsBack(u);
      assert s[2..6] == e[2..6];
      return;
    }
    assert |e| == 2 && e[1] != 0x75 && Unescaped(e[1]) == Some(u);
  }

  lemma PlainReadsBack(u: Unit, x: Text)
    requires u >= 0xD800
    ensures ReadUnits([u] + x) == Before(u, ReadUnits(x))
  {
    assert ([u] + x)[1..] == x;
  }

  lemma PairReadsBack(s: Text, x: Text)
    requires StartsWithPair(s)
    ensures ReadUnits(s[..2] + x) == Before(s[0], Before(s[1], ReadUnits(x)))
  {
    assert s[..2] + x == [s[0]] + ([s[1]] + x);
    PlainReadsBack(s[0], [s[1]] + x);
    PlainReadsBack(s[1], x);
  }

  lemma HeadAndTail<T>(xs: seq<T>)
    requires xs != []
    ensures xs == [xs[0]] + xs[1..] && (|xs| == 1 ==> xs == [xs[0]])
  {
  }

  lemma TwoAndTail(s: Text)
    requires |s| >= 2
    ensures s == [s[0]] + ([s[1]] + s[2..])
  {
  }

  lemma EndReadsBack(x: Text)
    ensures ReadUnits([QUOTE] + x) == Done([], x)
  {
    assert ([QUOTE] + x)[1..] == x;
  }

  /** An escaped string is read back up to its closing quotation mark. */
  lemma {:induction false} StringReadsBack(s: Text, x: Text)
    ensures ReadUnits(Closed(s, x)) == Done(s, x)
    decreases |s|
  {
    ClosedStep(s, x);
    if s == [] {
      EndReadsBack(x);
      return;
    }
    if StartsWithPair(s) {
      StringReadsBack(s[2..], x);
      PairReadsBack(s, Closed(s[2..], x));
      TwoAndTail(s);
      return;
    }
    StringReadsBack(s[1..], x);
    UnitReadsBack(s[0], Closed(s[1..], x));
    HeadAndTail(s);
  }

  // ------------------------------------------------------------------- reading values back

  /// The numerals are read as the printer writes them.
  ghost predicate Inverts(numeral: Numerals, number: Printer) {
    forall n :: numeral(number(n)) == Some(n)
  }

  /// Followed by what can follow a value, the text is read as the value.
  ghost predicate ReadsAs(numeral: Numerals, text: Text, value: Tree) {
    forall rest: Text | Terminated(rest) :: ReadValue(numeral, text + rest) == Done(value, rest)
  }

  lemma SkipsNothing(s: Text)
    requires s != [] ==> !Space(s[0])
    ensures Skip(s) == s
  {
  }

  lemma {:induction false} RunReadsBack(a: Text, x: Text)
    requires (forall i | 0 <= i < |a| :: NumberUnit(a[i])) && Terminated(x)
    ensures NumberRun(a + x) == |a|
  {
    if a == [] {
      assert a + x == x;
      return;
    }
    assert (a + x)[1..] == a[1..] + x;
    RunReadsBack(a[1..], x);
  }

  lemma NumberReadsBack(numeral: Numerals, number: Printer, n: int)
    requires PrintsNumbers(number) && Inverts(numeral, number)
    ensures ReadsAs(numeral, number(n), Leaf(Num(Units(n))))
  {
    var a := number(n);
    assert NumberText(a);
    forall x: Text | Terminated(x) ensures ReadValue(numeral, a + x) == Done(Leaf(Num(Units(n))), x) {
      assert (a + x)[0] == a[0] && (a + x)[..|a|] == a && (a + x)[|a|..] == x;
      SkipsNothing(a + x);
      RunReadsBack(a, x);
    }
  }

  lemma QuoteReadsBack(numeral: Numerals, s: Text)
    ensures ReadsAs(numeral, Quote(s), Leaf(Str(s)))
  {
    forall x: Text | Terminated(x) ensures ReadValue(numeral, Quote(s) + x) == Done(Leaf(Str(s)), x) {
      assert Quote(s) + x == [QUOTE] + Closed(s, x);
      assert ([QUOTE] + Closed(s, x))[1..] == Closed(s, x);
      StringReadsBack(s, x);
    }
  }

  lemma WordReadsBack(numeral: Numerals, word: Text, value: Tree)
    requires (word == NULL_TEXT && value == Leaf(Null)) || (word == TRUE_TEXT && value == Leaf(True)) ||
      (word == FALSE_TEXT && value == Leaf(False))
    ensures ReadsAs(numeral, word, value)
  {
    forall x: Text | Terminated(x) ensures ReadValue(numeral, word + x) == Done(value, x) {
      var s := word + x;
      assert s[0] == word[0] && s[..|word|] == word && s[|word|..] == x;
      SkipsNothing(s);
      assert word[0] == NULL_TEXT[0] || word[0] == TRUE_TEXT[0] || word[0] == FALSE_TEXT[0];
      assert s[..4][0] == s[0] && (|s| >= 5 ==> s[..5][0] == s[0]);
    }
  }

  /** A printed primitive is read back as the value that it is taken for. */
  lemma PrimitiveReadsBack(numeral: Numerals, number: Printer, p: Primitive)
    requires PrintsNumbers(number) && Inverts(numeral, number) && Finite(p)
    ensures ReadsAs(numeral, PrimitiveText(number, p), Leaf(Normal(p)))
  {
    match p
    case Null => WordReadsBack(numeral, NULL_TEXT, Leaf(Null));
    case True => WordReadsBack(numeral, TRUE_TEXT, Leaf(True));
    case False => WordReadsBack(numeral, FALSE_TEXT, Leaf(False));
    case Str(text) => QuoteReadsBack(numeral, text);
    case Num(double) => NumberReadsBack(numeral, number, if double == NegativeZero then 0 else double.n);
    case BigInt(n) => QuoteReadsBack(numeral, Decimal(n) + [0x6E]);
    case Other(text) => QuoteReadsBack(numeral, text);
  }

  // ------------------------------------------------------------------- reading lists back

  ghost predicate AllReadAs(numeral: Numerals, texts: seq<Text>, values: seq<Tree>) {
    |texts| == |values| && forall i | 0 <= i < |texts| :: ReadsAs(numeral, texts[i], values[i])
  }

  /// Up to what follows the first item of a list, the list is read item by item.
  lemma ItemThen(numeral: Numerals, text: Text, value: Tree, x: Text)
    requires ReadsAs(numeral, text, value) && x != [] && (x[0] == COMMA || x[0] == CLOSE_ARRAY)
    ensures ReadItems(numeral, text + x) ==
      if x[0] == CLOSE_ARRAY then Done([value], x[1..])
      else match ReadItems(numeral, x[1..])
        case Broken => Broken
        case Done(values, rest) => Done([value] + values, rest)
  {
    assert Terminated(x);
    SkipsNothing(x);
  }

  lemma AfterFirstRest(texts: seq<Text>, close: Unit, rest: Text)
    requires texts != []
    ensures var x := AfterFirst(texts, close, rest);
      && x[0] == (if |texts| == 1 then close else COMMA)
      && x[1..] == if |texts| == 1 then rest else Join(texts[1..]) + [close] + rest
  {
  }

  /** A joined list with its closing bracket is read back item by item. */
  lemma {:induction false} ItemsReadBack(numeral: Numerals, texts: seq<Text>, values: seq<Tree>, rest: Text)
    requires texts != [] && AllReadAs(numeral, texts, values)
    ensures ReadItems(numeral, Join(texts) + [CLOSE_ARRAY] + rest) == Done(values, rest)
    decreases |texts|
  {
    var x := AfterFirst(texts, CLOSE_ARRAY, rest);
    SplitFirst(texts, CLOSE_ARRAY, rest);
    ItemThen(numeral, texts[0], values[0], x);
    AfterFirstRest(texts, CLOSE_ARRAY, rest);
    HeadAndTail(values);
    if |texts| > 1 {
      ItemsReadBack(numeral, texts[1..], values[1..], rest);
    }
  }

  function Member(key: Text, text: Text): Text {
    Quote(key) + [COLON] + text
  }

  lemma QuoteThen(key: Text, x: Text)
    ensures Quote(key) + x == [QUOTE] + Closed(key, x) && (Quote(key) + x)[1..] == Closed(key, x)
  {
  }

  lemma NameReadsBack(key: Text, x: Text)
    ensures ReadName(Quote(key) + ([COLON] + x)) == Done(key, x)
  {
    var after := [COLON] + x;
    QuoteThen(key, after);
    SkipsNothing(Quote(key) + after);
    StringReadsBack(key, after);
    SkipsNothing(after);
  }

  lemma MemberParts(key: Text, text: Text, x: Text)
    ensures Member(key, text) + x == Quote(key) + ([COLON] + (text + x))
  {
  }

  lemma MemberThen(numeral: Numerals, key: Text, text: Text, value: Tree, x: Text)
    requires ReadsAs(numeral, text, value) && x != [] && (x[0] == COMMA || x[0] == CLOSE_OBJECT)
    ensures ReadMembers(numeral, Member(key, text) + x) ==
      if x[0] == CLOSE_OBJECT then Done(Members([key], [value]), x[1..])
      else match ReadMembers(numeral, x[1..])
        case Broken => Broken
        case Done(members, rest) => Done(Members([key] + members.keys, [value] + members.values), rest)
  {
    MemberParts(key, text, x);
    NameReadsBack(key, text + x);
    assert Terminated(x);
    SkipsNothing(x);
  }

  predicate AreMembers(items: seq<Text>, keys: seq<Text>, texts: seq<Text>) {
    |items| == |keys| == |texts| && forall i | 0 <= i < |items| :: items[i] == Member(keys[i], texts[i])
  }

  lemma RestAreMembers(items: seq<Text>, keys: seq<Text>, texts: seq<Text>)
    requires items != [] && AreMembers(items, keys, texts)
    ensures AreMembers(items[1..], keys[1..], texts[1..])
  {
  }

  /** So are the members of an object, each with its name. */
  lemma {:induction false} MembersReadBack(numeral: Numerals, items: seq<Text>, keys: seq<Text>, texts: seq<Text>,
                                           values: seq<Tree>, rest: Text)
    requires items != [] && AreMembers(items, keys, texts) && AllReadAs(numeral, texts, values)
    ensures ReadMembers(numeral, Join(items) + [CLOSE_OBJECT] + rest) == Done(Members(keys, values), rest)
    decreases |items|
  {
    var x := AfterFirst(items, CLOSE_OBJECT, rest);
    SplitFirst(items, CLOSE_OBJECT, rest);
    MemberThen(numeral, keys[0], texts[0], values[0], x);
    AfterFirstRest(items, CLOSE_OBJECT, rest);
    HeadAndTail(keys);
    HeadAndTail(values);
    if |items| > 1 {
      RestAreMembers(items, keys, texts);
      MembersReadBack(numeral, items[1..], keys[1..], texts[1..], values[1..], rest);
    }
  }

  // ------------------------------------------------------------------- reading trees back

  /// The tree with the keys of its objects sorted and its primitives as what they are taken for.
  function Sorted(t: Tree): Tree
    requires Printable(t)
  {
    match t
    case Leaf(p) => Leaf(Normal(p))
    case Branch(Array(values)) =>
      Branch(Array(seq(|values|, i requires 0 <= i < |values| => Sorted(t.node.values[i]))))
    case Branch(Object(keys, values)) =>
      var sorted := Sort(keys);
      Branch(Object(sorted, seq(|sorted|, i requires 0 <= i < |sorted| =>
        Sorted(t.node.values[IndexOf(keys, sorted[i])]))))
  }

  /// What is printed for the values, in the order in which they are printed.
  function ValueTexts(number: Printer, node: Node<Tree>): (texts: seq<Text>)
    requires Printable(Branch(node))
    ensures |texts| == |node.values|
  {
    seq(|node.values|, i requires 0 <= i < |node.values| => Print(number, node.values[Order(node)[i]]))
  }

  lemma BracketThen(node: Node<Tree>, texts: seq<Text>, rest: Text)
    ensures Bracketed(node, texts) + rest == [Opening(node)] + (Join(texts) + [Closing(node)] + rest)
    ensures (Bracketed(node, texts) + rest)[1..] == Join(texts) + [Closing(node)] + rest
  {
  }

  lemma EmptyReadsBack(numeral: Numerals, node: Node<Tree>, rest: Text)
    requires node.values == [] && (node.Object? ==> node.keys == [])
    ensures ReadValue(numeral, Bracketed(node, []) + rest) == Done(Branch(node), rest)
  {
    BracketThen(node, [], rest);
    var s := Bracketed(node, []) + rest;
    assert Join([]) + [Closing(node)] + rest == [Closing(node)] + rest;
    assert s[1..][1..] == rest;
  }

  /// A list does not begin with its bracket or with a space.
  lemma FirstOfList(numeral: Numerals, texts: seq<Text>, close: Unit, rest: Text)
    requires Terminator(close) && texts != [] && texts[0] != [] && !Terminator(texts[0][0]) && !Space(texts[0][0])
    ensures var s := Join(texts) + [close] + rest; s != [] && s[0] != close && Skip(s) == s
  {
    SplitFirst(texts, close, rest);
    SkipsNothing(Join(texts) + [close] + rest);
  }

  lemma ArrayReadsBack(numeral: Numerals, node: Node<Tree>, texts: seq<Text>, values: seq<Tree>, rest: Text)
    requires node.Array? && texts != [] && AllReadAs(numeral, texts, values)
    requires texts[0] != [] && !Terminator(texts[0][0]) && !Space(texts[0][0])
    ensures ReadValue(numeral, Bracketed(node, texts) + rest) == Done(Branch(Array(values)), rest)
  {
    BracketThen(node, texts, rest);
    SkipsNothing(Bracketed(node, texts) + rest);
    FirstOfList(numeral, texts, CLOSE_ARRAY, rest);
    ItemsReadBack(numeral, texts, values, rest);
  }

  lemma ObjectReadsBack(numeral: Numerals, node: Node<Tree>, items: seq<Text>, keys: seq<Text>, texts: seq<Text>,
                        values: seq<Tree>, rest: Text)
    requires node.Object? && items != [] && AreMembers(items, keys, texts) && AllReadAs(numeral, texts, values)
    ensures ReadValue(numeral, Bracketed(node, items) + rest) == Done(Branch(Object(keys, values)), rest)
  {
    BracketThen(node, items, rest);
    SkipsNothing(Bracketed(node, items) + rest);
    assert items[0] == Member(keys[0], texts[0]) && items[0][0] == QUOTE;
    FirstOfList(numeral, items, CLOSE_OBJECT, rest);
    MembersReadBack(numeral, items, keys, texts, values, rest);
  }

  lemma ArrayNodeReadsBack(numeral: Numerals, number: Printer, node: Node<Tree>, values: seq<Tree>, rest: Text)
    requires PrintsNumbers(number) && Printable(Branch(node)) && AllReadAs(numeral, ValueTexts(number, node), values)
    requires node.Array? && values != []
    ensures ReadValue(numeral, Bracketed(node, SlotTexts(number, node)) + rest) == Done(Branch(Array(values)), rest)
  {
    var texts, items := ValueTexts(number, node), SlotTexts(number, node);
    forall i | 0 <= i < |items| ensures items[i] == texts[i] {
      ArraySlot(number, node, i);
    }
    assert items == texts;
    FirstOfTree(number, node.values[0]);
    PrintedIsNoSpace(number, node.values[0]);
    ArrayReadsBack(numeral, node, texts, values, rest);
  }

  lemma PrintedIsNoSpace(number: Printer, t: Tree)
    requires PrintsNumbers(number) && Printable(t)
    ensures Print(number, t) != [] && !Space(Print(number, t)[0])
  {
    FirstOfTree(number, t);
    if t.Leaf? {
      FirstOfPrimitive(number, t.leaf);
    }
  }

  lemma ObjectNodeReadsBack(numeral: Numerals, number: Printer, node: Node<Tree>, values: seq<Tree>, rest: Text)
    requires PrintsNumbers(number) && Printable(Branch(node)) && AllReadAs(numeral, ValueTexts(number, node), values)
    requires node.Object? && values != []
    ensures ReadValue(numeral, Bracketed(node, SlotTexts(number, node)) + rest) ==
      Done(Branch(Object(Sort(node.keys), values)), rest)
  {
    var texts, items := ValueTexts(number, node), SlotTexts(number, node);
    assert AreMembers(items, Sort(node.keys), texts);
    ObjectReadsBack(numeral, node, items, Sort(node.keys), texts, values, rest);
  }

  lemma EmptyNodeReadsBack(numeral: Numerals, number: Printer, node: Node<Tree>, rest: Text)
    requires Printable(Branch(node)) && node.values == []
    ensures ReadValue(numeral, Bracketed(node, SlotTexts(number, node)) + rest) == Done(Branch(node), rest)
  {
    assert node.Object? ==> node.keys == [];
    assert SlotTexts(number, node) == [];
    EmptyReadsBack(numeral, node, rest);
  }

  function NodeOf(node: Node<Tree>, values: seq<Tree>): Node<Tree> {
    if node.Array? then Array(values) else Object(Sort(node.keys), values)
  }

  lemma NodeReadsBack(numeral: Numerals, number: Printer, node: Node<Tree>, values: seq<Tree>)
    requires PrintsNumbers(number) && Printable(Branch(node)) && AllReadAs(numeral, ValueTexts(number, node), values)
    ensures ReadsAs(numeral, Print(number, Branch(node)), Branch(NodeOf(node, values)))
  {
    PrintBranch(number, node);
    forall rest: Text | Terminated(rest)
      ensures ReadValue(numeral, Print(number, Branch(node)) + rest) == Done(Branch(NodeOf(node, values)), rest)
    {
      if values == [] {
        EmptyNodeReadsBack(numeral, number, node, rest);
      } else if node.Array? {
        ArrayNodeReadsBack(numeral, number, node, values, rest);
      } else {
        ObjectNodeReadsBack(numeral, number, node, values, rest);
      }
    }
  }

  /// The values of the sorted tree stand where they are printed.
  lemma SortedNode(node: Node<Tree>, i: nat)
    requires Printable(Branch(node)) && i < |node.values|
    ensures var values := Sorted(Branch(node)).node.values;
      |values| == |node.values| && values[i] == Sorted(node.values[Order(node)[i]])
    ensures Sorted(Branch(node)).node == NodeOf(node, Sorted(Branch(node)).node.values)
  {
    if node.Object? {
      assert Order(node)[i] == IndexOf(node.keys, Sort(node.keys)[i]);
    }
  }

  /** A printed tree is read back, inside any text that can go on after it. */
  lemma {:induction false} TreeReadsBack(numeral: Numerals, number: Printer, t: Tree)
    requires PrintsNumbers(number) && Inverts(numeral, number) && Printable(t)
    ensures ReadsAs(numeral, Print(number, t), Sorted(t))
    decreases t
  {
    if t.Leaf? {
      PrimitiveReadsBack(numeral, number, t.leaf);
      return;
    }
    var node, values := t.node, Sorted(t).node.values;
    forall i | 0 <= i < |node.values|
      ensures |values| == |node.values| && ReadsAs(numeral, ValueTexts(number, node)[i], values[i])
    {
      SortedNode(node, i);
      TreeReadsBack(numeral, number, node.values[Order(node)[i]]);
    }
    assert |values| == |node.values| && Sorted(t) == Branch(NodeOf(node, values));
    NodeReadsBack(numeral, number, node, values);
  }

  /**
   The canonical text is JSON: a reader that knows nothing of the printer reads it back as the tree with the keys
   of its objects sorted, -0 as 0, and a bigint or what is not JSON as the string that was written for it.
   */
  lemma CanonicalTextReadsBack(numeral: Numerals, number: Printer, t: Tree)
    requires PrintsNumbers(number) && Inverts(numeral, number) && Printable(t)
    ensures ReadText(numeral, Print(number, t)) == Some(Sorted(t))
  {
    TreeReadsBack(numeral, number, t);
    assert Print(number, t) + [] == Print(number, t) && Terminated([]);
  }

  /// The keys of every object are in strictly ascending order, and every primitive is one that JSON has.
  predicate InOrder(t: Tree) {
    match t
    case Leaf(p) => Normal(p) == p
    case Branch(node) =>
      && WellFormed(node) && (node.Object? ==> Ascending(node.keys))
      && forall i | 0 <= i < |node.values| :: InOrder(node.values[i])
  }

  /** What is read back is in order, and is the same JSON value as the tree that was printed. */
  lemma {:induction false} SortedIsSame(t: Tree)
    requires Printable(t)
    ensures InOrder(Sorted(t)) && Same(t, Sorted(t))
  {
    if t.Leaf? {
      return;
    }
    var node := t.node;
    forall i | 0 <= i < |node.values|
      ensures InOrder(Sorted(node.values[i])) && Same(node.values[i], Sorted(node.values[i]))
    {
      SortedIsSame(node.values[i]);
    }
    if node.Object? {
      SortedObjectIsSame(node);
    }
  }

  lemma AscendingHasNoDuplicates(keys: seq<Text>)
    requires Ascending(keys)
    ensures NoDuplicates(keys)
  {
    forall i, j | 0 <= i < j < |keys| ensures keys[i] != keys[j] {
      LessIsStrict(keys[i]);
    }
  }

  lemma SortedObjectIsSame(node: Node<Tree>)
    requires node.Object? && Printable(Branch(node))
    requires forall i | 0 <= i < |node.values| ::
      InOrder(Sorted(node.values[i])) && Same(node.values[i], Sorted(node.values[i]))
    ensures InOrder(Sorted(Branch(node))) && Same(Branch(node), Sorted(Branch(node)))
  {
    var sorted := Sorted(Branch(node)).node;
    SortIsAscending(node.keys);
    AscendingHasNoDuplicates(sorted.keys);
    forall i, j | 0 <= i < |node.keys| && 0 <= j < |sorted.keys| && node.keys[i] == sorted.keys[j]
      ensures Same(node.values[i], sorted.values[j])
    {
      SameKeySamePlace(node.keys, i, IndexOf(node.keys, sorted.keys[j]));
    }
    forall j | 0 <= j < |sorted.values| ensures InOrder(sorted.values[j]) {
      var at := IndexOf(node.keys, sorted.keys[j]);
      assert sorted.values[j] == Sorted(node.values[at]);
    }
  }
}
