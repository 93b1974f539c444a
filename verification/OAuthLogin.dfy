/**
 The device login as a whole: the manager fed by the parser. What the parser emits does not depend on how
 the output is cut into chunks, but what becomes of the login can: a terminal login ignores later chunks.
 */
module OAuthLogin {
  import opened Basics
  import opened JsonText
  import opened OAuthParser
  import Manager = OAuthManager

  type Login = Manager.Login

  /// The events of an output, from the parser's present state on.
  function EventsOf(rules: Rules, p: Parser, text: Text): seq<Event> {
    match Consume(rules, p.fields, p.lineBuffer + text)
    case Thrown => []
    case Ok(q) => q.events
  }

  /// A login after a batch of events.
  function Applied(op: Login, events: seq<Event>): Login {
    Manager.ApplyEvents(op, events, |events|)
  }

  /// A login whose chunks of output go through the parser, as long as it is not terminal.
  function FedLogin(rules: Rules, maxOutputBytes: nat, p: Parser, op: Login, chunks: seq<Text>): Login
    decreases |chunks|
  {
    if chunks == [] || op.terminal then op else
    match Feed(rules, maxOutputBytes, p, chunks[0])
    case Thrown => Manager.OnChunk(op, Thrown)
    case Ok(fed) => FedLogin(rules, maxOutputBytes, fed.parser, Manager.OnChunk(op, Ok(fed.events)), chunks[1..])
  }

  // ----------------------------------------------------------------------- batches of events

  lemma {:induction false} AppliedPrefix(op: Login, a: seq<Event>, b: seq<Event>, n: nat)
    requires n <= |a|
    ensures Manager.ApplyEvents(op, a + b, n) == Manager.ApplyEvents(op, a, n)
  {
    if n > 0 {
      AppliedPrefix(op, a, b, n - 1);
    }
  }

  lemma {:induction false} AppliedRest(op: Login, a: seq<Event>, b: seq<Event>, n: nat)
    requires n <= |b|
    ensures Manager.ApplyEvents(op, a + b, |a| + n) == Manager.ApplyEvents(Applied(op, a), b, n)
  {
    if n == 0 {
      AppliedPrefix(op, a, b, |a|);
    } else {
      AppliedRest(op, a, b, n - 1);
      assert (a + b)[|a| + n - 1] == b[n - 1];
    }
  }

  lemma AppliedTwice(op: Login, a: seq<Event>, b: seq<Event>)
    ensures Applied(op, a + b) == Applied(Applied(op, a), b)
  {
    AppliedRest(op, a, b, |b|);
  }

  /// A terminal login that has been answered is not changed by events; an unanswered one by ready alone.
  lemma {:induction false} TerminalApplied(op: Login, events: seq<Event>, n: nat)
    requires op.terminal && n <= |events|
    ensures var r := Manager.ApplyEvents(op, events, n);
      && r.terminal && (op.readySettled ==> r == op) && (!op.readySettled && !r.readySettled ==> r == op)
  {
    if n > 0 {
      TerminalApplied(op, events, n - 1);
    }
  }

  /// Part of the output leaves the login over with its start unanswered, and the whole output does not.
  predicate Separated(op: Login, part: seq<Event>, whole: seq<Event>) {
    Manager.Unanswered(Applied(op, part)) && !Manager.Unanswered(Applied(op, whole))
  }

  /** That is: the part begins with the success marker and has no ready, and the whole has ready. */
  lemma SeparatedIff(op: Login, part: seq<Event>, more: seq<Event>)
    requires !op.terminal && !op.readySettled
    ensures Separated(op, part, part + more) <==> Manager.SuccessWithoutReady(part) && HasReady(part + more)
  {
    Manager.BatchStrandsIff(op, part);
    Manager.BatchStrandsIff(op, part + more);
    if part != [] {
      assert (part + more)[0] == part[0];
    }
  }

  // --------------------------------------------------------------------- chunks of output

  lemma NothingEmitted(rules: Rules, maxOutputBytes: nat, p: Parser)
    requires Settled(p, maxOutputBytes)
    ensures EventsOf(rules, p, []) == []
  {
    assert p.lineBuffer + [] == p.lineBuffer;
  }

  lemma AcceptablePart(rules: Rules, p: Parser, a: Text, b: Text)
    requires Acceptable(rules, p, a + b)
    ensures Acceptable(rules, p, a)
  {
    FirstPart(rules, p, a, b);
  }

  /// What one more chunk does to the parser.
  lemma FirstChunk(rules: Rules, maxOutputBytes: nat, p: Parser, a: Text, b: Text)
    requires Acceptable(rules, p, a + b) && p.outputBytes + Utf8Length(a) <= maxOutputBytes
    ensures Feed(rules, maxOutputBytes, p, a).Ok?
    ensures var fed := Feed(rules, maxOutputBytes, p, a).value;
      && fed.events == EventsOf(rules, p, a) && fed.parser.outputBytes == p.outputBytes + Utf8Length(a)
      && Acceptable(rules, fed.parser, b) && Settled(fed.parser, maxOutputBytes)
  {
    FirstOfTwo(rules, maxOutputBytes, p, a, b);
    FedIsSettled(rules, maxOutputBytes, p, a);
    FeedWithinLimits(rules, maxOutputBytes, p, a);
  }

  lemma EventsSplit(rules: Rules, maxOutputBytes: nat, p: Parser, a: Text, b: Text)
    requires Feed(rules, maxOutputBytes, p, a).Ok? && Acceptable(rules, p, a + b)
    ensures EventsOf(rules, p, a + b) ==
      EventsOf(rules, p, a) + EventsOf(rules, Feed(rules, maxOutputBytes, p, a).value.parser, b)
  {
    LinesSplit(rules, maxOutputBytes, p, a, b);
  }

  /// The first `n` chunks leave the login over and unanswered, and all of them together do not.
  predicate SeparatedAt(rules: Rules, p: Parser, op: Login, chunks: seq<Text>, n: nat)
    requires n <= |chunks|
  {
    Separated(op, EventsOf(rules, p, Concat(chunks[..n])), EventsOf(rules, p, Concat(chunks)))
  }

  lemma {:induction false} ConcatSplit(chunks: seq<Text>, n: nat)
    requires n <= |chunks|
    ensures Concat(chunks) == Concat(chunks[..n]) + Concat(chunks[n..])
  {
    if n > 0 {
      assert chunks[..n][1..] == chunks[1..][..n - 1] && chunks[n..] == chunks[1..][n - 1..];
      ConcatSplit(chunks[1..], n - 1);
    } else {
      assert chunks[0..] == chunks;
    }
  }

  lemma NotSeparatedAtStart(rules: Rules, maxOutputBytes: nat, p: Parser, op: Login, chunks: seq<Text>)
    requires Settled(p, maxOutputBytes) && !op.terminal
    ensures !SeparatedAt(rules, p, op, chunks, 0)
  {
    NothingEmitted(rules, maxOutputBytes, p);
    assert chunks[..0] == [];
  }

  lemma AppliedAfterFirst(rules: Rules, maxOutputBytes: nat, p: Parser, op: Login, a: Text, b: Text)
    requires Feed(rules, maxOutputBytes, p, a).Ok? && Acceptable(rules, p, a + b)
    ensures Applied(op, EventsOf(rules, p, a + b)) ==
      Applied(Applied(op, EventsOf(rules, p, a)), EventsOf(rules, Feed(rules, maxOutputBytes, p, a).value.parser, b))
  {
    EventsSplit(rules, maxOutputBytes, p, a, b);
    AppliedTwice(op, EventsOf(rules, p, a), EventsOf(rules, Feed(rules, maxOutputBytes, p, a).value.parser, b));
  }

  lemma PartAfterFirst(chunks: seq<Text>, n: nat)
    requires chunks != [] && n < |chunks|
    ensures Concat(chunks[..n + 1]) == chunks[0] + Concat(chunks[1..][..n])
    ensures Concat(chunks) == Concat(chunks[..n + 1]) + Concat(chunks[n + 1..])
  {
    assert chunks[..n + 1][1..] == chunks[1..][..n];
    ConcatSplit(chunks, n + 1);
  }

  /// After the first chunk, the question is the same for the chunks that are left.
  lemma SeparatedLater(rules: Rules, maxOutputBytes: nat, p: Parser, op: Login, chunks: seq<Text>, n: nat)
    requires chunks != [] && n < |chunks| && Acceptable(rules, p, Concat(chunks))
    requires Feed(rules, maxOutputBytes, p, chunks[0]).Ok?
    ensures SeparatedAt(rules, p, op, chunks, n + 1) <==>
      SeparatedAt(rules, Feed(rules, maxOutputBytes, p, chunks[0]).value.parser,
        Applied(op, EventsOf(rules, p, chunks[0])), chunks[1..], n)
  {
    PartAfterFirst(chunks, n);
    AcceptablePart(rules, p, Concat(chunks[..n + 1]), Concat(chunks[n + 1..]));
    AppliedAfterFirst(rules, maxOutputBytes, p, op, chunks[0], Concat(chunks[1..][..n]));
    AppliedAfterFirst(rules, maxOutputBytes, p, op, chunks[0], Concat(chunks[1..]));
  }

  /// No cut of the split is one that separates.
  ghost predicate NowhereSeparated(rules: Rules, p: Parser, op: Login, chunks: seq<Text>) {
    forall n | 0 <= n <= |chunks| :: !SeparatedAt(rules, p, op, chunks, n)
  }

  /// A login that is over before the last chunks ignores them; that matters if they would have answered it.
  lemma OverBeforeTheRest(rules: Rules, maxOutputBytes: nat, q: Parser, op: Login, chunks: seq<Text>)
    requires Settled(q, maxOutputBytes) && op.terminal
    ensures op == Applied(op, EventsOf(rules, q, Concat(chunks))) <==> NowhereSeparated(rules, q, op, chunks)
  {
    var whole := EventsOf(rules, q, Concat(chunks));
    TerminalApplied(op, whole, |whole|);
    forall n | 0 <= n <= |chunks| && SeparatedAt(rules, q, op, chunks, n)
      ensures Manager.Unanswered(op) && !Manager.Unanswered(Applied(op, whole))
    {
      var part := EventsOf(rules, q, Concat(chunks[..n]));
      TerminalApplied(op, part, |part|);
    }
    NothingEmitted(rules, maxOutputBytes, q);
    assert chunks[..0] == [];
    assert SeparatedAt(rules, q, op, chunks, 0) <==> Manager.Unanswered(op) && !Manager.Unanswered(Applied(op, whole));
  }

  lemma NowhereSeparatedLater(rules: Rules, maxOutputBytes: nat, p: Parser, op: Login, chunks: seq<Text>)
    requires chunks != [] && Settled(p, maxOutputBytes) && !op.terminal && Acceptable(rules, p, Concat(chunks))
    requires Feed(rules, maxOutputBytes, p, chunks[0]).Ok?
    ensures NowhereSeparated(rules, p, op, chunks) <==>
      NowhereSeparated(rules, Feed(rules, maxOutputBytes, p, chunks[0]).value.parser,
        Applied(op, EventsOf(rules, p, chunks[0])), chunks[1..])
  {
    var q, op1 := Feed(rules, maxOutputBytes, p, chunks[0]).value.parser, Applied(op, EventsOf(rules, p, chunks[0]));
    NotSeparatedAtStart(rules, maxOutputBytes, p, op, chunks);
    forall n | 0 <= n < |chunks|
      ensures SeparatedAt(rules, p, op, chunks, n + 1) <==> SeparatedAt(rules, q, op1, chunks[1..], n)
    {
      SeparatedLater(rules, maxOutputBytes, p, op, chunks, n);
    }
    if !NowhereSeparated(rules, p, op, chunks) {
      var n :| 0 <= n <= |chunks| && SeparatedAt(rules, p, op, chunks, n);
      assert SeparatedAt(rules, q, op1, chunks[1..], n - 1);
    }
    if !NowhereSeparated(rules, q, op1, chunks[1..]) {
      var n :| 0 <= n <= |chunks[1..]| && SeparatedAt(rules, q, op1, chunks[1..], n);
      assert SeparatedAt(rules, p, op, chunks, n + 1);
    }
  }

  /**
   Where the whole output is accepted, a split of it leaves the same login if and only if no cut of it comes
   after a success marker and before the ready event that the rest of the output holds.
   */
  lemma {:induction false} SplitMattersIff(rules: Rules, maxOutputBytes: nat, p: Parser, op: Login, chunks: seq<Text>)
    requires Settled(p, maxOutputBytes) && Acceptable(rules, p, Concat(chunks)) && !op.terminal
    requires BytesAfter(p, chunks) <= maxOutputBytes
    ensures FedLogin(rules, maxOutputBytes, p, op, chunks) == Applied(op, EventsOf(rules, p, Concat(chunks))) <==>
      NowhereSeparated(rules, p, op, chunks)
    decreases |chunks|
  {
    if chunks == [] {
      NothingEmitted(rules, maxOutputBytes, p);
      NotSeparatedAtStart(rules, maxOutputBytes, p, op, chunks);
      return;
    }
    var a, rest := chunks[0], Concat(chunks[1..]);
    BytesAfterFirst(p, p.(outputBytes := p.outputBytes + Utf8Length(a)), chunks);
    FirstChunk(rules, maxOutputBytes, p, a, rest);
    var fed, op1 := Feed(rules, maxOutputBytes, p, a).value, Applied(op, EventsOf(rules, p, a));
    AppliedAfterFirst(rules, maxOutputBytes, p, op, a, rest);
    NowhereSeparatedLater(rules, maxOutputBytes, p, op, chunks);
    if op1.terminal {
      OverBeforeTheRest(rules, maxOutputBytes, fed.parser, op1, chunks[1..]);
    } else {
      BytesAfterFirst(p, fed.parser, chunks);
      SplitMattersIff(rules, maxOutputBytes, fed.parser, op1, chunks[1..]);
    }
  }

  // -------------------------------------------------------------------------- every split

  lemma {:induction false} CleanCutAt(chunks: seq<Text>, n: nat)
    requires CleanCuts(chunks) && n <= |chunks|
    ensures !CutsPair(Concat(chunks[..n]), Concat(chunks[n..]))
  {
    if n > 0 {
      assert chunks[..n][1..] == chunks[1..][..n - 1] && chunks[n..] == chunks[1..][n - 1..];
      CleanCutAt(chunks[1..], n - 1);
      ConcatSplit(chunks[1..], n - 1);
    }
  }

  /// A cut of the output, between two characters, that separates.
  predicate SeparatingCut(rules: Rules, p: Parser, op: Login, text: Text, k: nat)
    requires k <= |text|
  {
    !CutsPair(text[..k], text[k..]) && Separated(op, EventsOf(rules, p, text[..k]), EventsOf(rules, p, text))
  }

  lemma WholeLogin(rules: Rules, maxOutputBytes: nat, p: Parser, op: Login, text: Text)
    requires Feed(rules, maxOutputBytes, p, text).Ok? && !op.terminal
    ensures FedLogin(rules, maxOutputBytes, p, op, [text]) == Applied(op, EventsOf(rules, p, text))
  {
    WholeIsOneChunk(rules, maxOutputBytes, p, text);
    assert [text][1..] == [];
  }

  lemma SplitOfText(rules: Rules, maxOutputBytes: nat, p: Parser, op: Login, text: Text, chunks: seq<Text>)
    requires Settled(p, maxOutputBytes) && Feed(rules, maxOutputBytes, p, text).Ok? && !op.terminal
    requires Concat(chunks) == text && CleanCuts(chunks)
    ensures FedLogin(rules, maxOutputBytes, p, op, chunks) == FedLogin(rules, maxOutputBytes, p, op, [text]) <==>
      NowhereSeparated(rules, p, op, chunks)
  {
    WholeIsOneChunk(rules, maxOutputBytes, p, text);
    CleanIffNoPairCut(chunks);
    SplitMattersIff(rules, maxOutputBytes, p, op, chunks);
    WholeLogin(rules, maxOutputBytes, p, op, text);
  }

  lemma SeparatedSplitHasCut(rules: Rules, p: Parser, op: Login, chunks: seq<Text>, n: nat) returns (k: nat)
    requires CleanCuts(chunks) && n <= |chunks| && SeparatedAt(rules, p, op, chunks, n)
    ensures k <= |Concat(chunks)| && SeparatingCut(rules, p, op, Concat(chunks), k)
  {
    ConcatSplit(chunks, n);
    CleanCutAt(chunks, n);
    k := |Concat(chunks[..n])|;
    assert Concat(chunks)[..k] == Concat(chunks[..n]) && Concat(chunks)[k..] == Concat(chunks[n..]);
  }

  lemma TwoChunks(a: Text, b: Text)
    ensures Concat([a, b]) == a + b && Concat([a, b][..1]) == a
    ensures CleanCuts([a, b]) <==> !CutsPair(a, b)
  {
    var none: seq<Text> := [];
    assert [a, b][1..] == [b] && [b][1..] == none && [a, b][..1] == [a] && [a][1..] == none;
    assert a + [] == a && b + [] == b;
    assert Concat(none) == [] && Concat([b]) == b && Concat([a]) == a;
    assert CleanCuts(none) && !CutsPair(b, Concat(none)) && CleanCuts([b]);
  }

  lemma CutMakesSplit(rules: Rules, p: Parser, op: Login, text: Text, k: nat)
    requires k <= |text| && SeparatingCut(rules, p, op, text, k)
    ensures var chunks := [text[..k], text[k..]];
      Concat(chunks) == text && CleanCuts(chunks) && SeparatedAt(rules, p, op, chunks, 1)
  {
    TwoChunks(text[..k], text[k..]);
    assert text[..k] + text[k..] == text;
  }

  /// The final login is the same for every split of the output between characters.
  ghost predicate EverySplitAgrees(rules: Rules, maxOutputBytes: nat, p: Parser, op: Login, text: Text) {
    forall chunks | Concat(chunks) == text && CleanCuts(chunks) ::
      FedLogin(rules, maxOutputBytes, p, op, chunks) == FedLogin(rules, maxOutputBytes, p, op, [text])
  }

  lemma CutDisagrees(rules: Rules, maxOutputBytes: nat, p: Parser, op: Login, text: Text, k: nat)
    requires Settled(p, maxOutputBytes) && Feed(rules, maxOutputBytes, p, text).Ok? && !op.terminal
    requires k <= |text| && SeparatingCut(rules, p, op, text, k)
    ensures !EverySplitAgrees(rules, maxOutputBytes, p, op, text)
  {
    var chunks := [text[..k], text[k..]];
    CutMakesSplit(rules, p, op, text, k);
    SplitOfText(rules, maxOutputBytes, p, op, text, chunks);
    assert !NowhereSeparated(rules, p, op, chunks);
  }

  lemma NoCutAgrees(rules: Rules, maxOutputBytes: nat, p: Parser, op: Login, text: Text, chunks: seq<Text>)
    requires Settled(p, maxOutputBytes) && Feed(rules, maxOutputBytes, p, text).Ok? && !op.terminal
    requires Concat(chunks) == text && CleanCuts(chunks)
    requires forall k | 0 <= k <= |text| :: !SeparatingCut(rules, p, op, text, k)
    ensures FedLogin(rules, maxOutputBytes, p, op, chunks) == FedLogin(rules, maxOutputBytes, p, op, [text])
  {
    SplitOfText(rules, maxOutputBytes, p, op, text, chunks);
    forall n | 0 <= n <= |chunks| ensures !SeparatedAt(rules, p, op, chunks, n) {
      if SeparatedAt(rules, p, op, chunks, n) {
        var k := SeparatedSplitHasCut(rules, p, op, chunks, n);
      }
    }
  }

  /**
   The final login is the same for every split of the output between characters if and only if no such cut
   has a success marker and no ready before it, and ready somewhere in the output.
   */
  lemma EverySplitAgreesIff(rules: Rules, maxOutputBytes: nat, p: Parser, op: Login, text: Text)
    requires Settled(p, maxOutputBytes) && Feed(rules, maxOutputBytes, p, text).Ok? && !op.terminal
    ensures EverySplitAgrees(rules, maxOutputBytes, p, op, text) <==>
      forall k | 0 <= k <= |text| :: !SeparatingCut(rules, p, op, text, k)
  {
    if k :| 0 <= k <= |text| && SeparatingCut(rules, p, op, text, k) {
      CutDisagrees(rules, maxOutputBytes, p, op, text, k);
      return;
    }
    forall chunks | Concat(chunks) == text && CleanCuts(chunks)
      ensures FedLogin(rules, maxOutputBytes, p, op, chunks) == FedLogin(rules, maxOutputBytes, p, op, [text])
    {
      NoCutAgrees(rules, maxOutputBytes, p, op, text, chunks);
    }
  }

  // ------------------------------------------------------------------- such an output exists

  const SUCCESS_LINE: Text := [0x73]
  const READY_LINE: Text := [0x72]

  /// Recognisers for a line that is the success marker and one that carries both required fields.
  function TwoLineRules(): Rules {
    Rules(line => line,
      line => if line == READY_LINE then Match(line) else NoMatch,
      line => if line == READY_LINE then Match(line) else NoMatch,
      line => NoMatch, line => NoMatch,
      line => if line == SUCCESS_LINE then Some(TerminalState.Success) else None, 0)
  }

  function Fresh(): Parser {
    Parser(Fields(None, None, None, None, false, None), [], 0)
  }

  const EXPECTED := Details(READY_LINE, READY_LINE, DEVICE_EXPIRY_MS, DEVICE_POLL_INTERVAL_MS)

  /// A line with its newline, and nothing after it.
  lemma OneLine(rules: Rules, f: Fields, unit: Unit)
    requires unit != NEWLINE && unit != CARRIAGE_RETURN && rules.trim([unit]) == [unit]
    ensures Consume(rules, f, [unit] + [NEWLINE]) == AfterLine(rules, ParseLine(rules, f, [unit]), [])
  {
    var text := [unit] + [NEWLINE];
    assert text[1..] == [NEWLINE] && IndexOfNewline(text[1..]) == 0 && IndexOfNewline(text) == 1;
    assert text[..1] == [unit] && text[2..] == [];
    ConsumeLine(rules, f, text, 1);
  }

  const AFTER_SUCCESS := Fresh().fields.(terminal := Some(TerminalState.Success))

  lemma SuccessLineEmits()
    ensures Consume(TwoLineRules(), Fresh().fields, SUCCESS_LINE + [NEWLINE]) ==
      Ok(Progress(AFTER_SUCCESS, [], [State(TerminalState.Success)]))
  {
    OneLine(TwoLineRules(), Fresh().fields, 0x73);
    assert SUCCESS_LINE != READY_LINE;
    assert ParseLine(TwoLineRules(), Fresh().fields, SUCCESS_LINE) ==
      Ok(Step(AFTER_SUCCESS, [State(TerminalState.Success)]));
    assert Consume(TwoLineRules(), AFTER_SUCCESS, []) == Ok(Progress(AFTER_SUCCESS, [], []));
    assert [State(TerminalState.Success)] + [] == [State(TerminalState.Success)];
  }

  lemma ReadyLineEmits()
    ensures Consume(TwoLineRules(), AFTER_SUCCESS, READY_LINE + [NEWLINE]).Ok?
    ensures Consume(TwoLineRules(), AFTER_SUCCESS, READY_LINE + [NEWLINE]).value.events == [Ready(EXPECTED)]
  {
    OneLine(TwoLineRules(), AFTER_SUCCESS, 0x72);
    assert SUCCESS_LINE != READY_LINE;
    var step := ParseLine(TwoLineRules(), AFTER_SUCCESS, READY_LINE);
    assert step.Ok? && step.value.events == [] + [Ready(EXPECTED)];
  }

  /// The parser emits success and then ready.
  lemma BothLinesEmit()
    ensures Consume(TwoLineRules(), Fresh().fields, SUCCESS_LINE + [NEWLINE] + (READY_LINE + [NEWLINE])).Ok?
    ensures EventsOf(TwoLineRules(), Fresh(), SUCCESS_LINE + [NEWLINE] + (READY_LINE + [NEWLINE])) ==
      [State(TerminalState.Success), Ready(EXPECTED)]
  {
    var a, b := SUCCESS_LINE + [NEWLINE], READY_LINE + [NEWLINE];
    SuccessLineEmits();
    ReadyLineEmits();
    ConsumeSplit(TwoLineRules(), Fresh().fields, a, b);
    assert [] + b == b && Fresh().lineBuffer + (a + b) == a + b;
  }

  lemma {:induction false} ShortUtf8(text: Text)
    ensures Utf8Length(text) <= 4 * |text|
    decreases |text|
  {
    if text != [] {
      ShortUtf8(if StartsWithPair(text) then text[2..] else text[1..]);
    }
  }

  /** In one chunk, success and then ready leave the login over and reporting `pending`. */
  lemma OneChunkReportsPending()
    ensures var text := SUCCESS_LINE + [NEWLINE] + (READY_LINE + [NEWLINE]);
      var login := FedLogin(TwoLineRules(), 1024, Fresh(), Manager.STARTED, [text]);
      login.terminal && login.state == Manager.LoginState.Pending && !Manager.Unanswered(login)
  {
    var text := SUCCESS_LINE + [NEWLINE] + (READY_LINE + [NEWLINE]);
    BothLinesEmit();
    ShortUtf8(text);
    assert Fresh().lineBuffer + text == text;
    FeedWithinLimits(TwoLineRules(), 1024, Fresh(), text);
    WholeLogin(TwoLineRules(), 1024, Fresh(), Manager.STARTED, text);
    var events := [State(TerminalState.Success), Ready(EXPECTED)];
    assert Manager.ApplyEvents(Manager.STARTED, events, 1) == Manager.ApplyEvent(Manager.STARTED, events[0]);
  }

  /** In two chunks, they leave it over as a success, and its start waiting for good. */
  lemma TwoChunksStrandStart()
    ensures var login := FedLogin(TwoLineRules(), 1024, Fresh(), Manager.STARTED,
      [SUCCESS_LINE + [NEWLINE], READY_LINE + [NEWLINE]]);
      login.terminal && login.state == Manager.LoginState.Success && Manager.Unanswered(login)
  {
    var a := SUCCESS_LINE + [NEWLINE];
    SuccessLineEmits();
    ShortUtf8(a);
    assert Fresh().lineBuffer + a == a;
    FeedWithinLimits(TwoLineRules(), 1024, Fresh(), a);
    var events := [State(TerminalState.Success)];
    assert Manager.ApplyEvents(Manager.STARTED, events, 1) == Manager.ApplyEvent(Manager.STARTED, events[0]);
  }
}
