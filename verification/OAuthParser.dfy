/**
 `CodexDeviceLoginParser` (host/oauth/parser.ts): the incremental parser of the device-login
 output. The regular expressions that recognise a line are parameters, and the clock is fixed.
 */
module OAuthParser {
  import opened Basics
  import opened JsonText

  const MAX_LINE_LENGTH: nat := 8_192
  const DEVICE_EXPIRY_MS: nat := 900_000
  const DEVICE_POLL_INTERVAL_MS: nat := 5_000

  const NEWLINE: Unit := 0x0A
  const CARRIAGE_RETURN: Unit := 0x0D

  datatype TerminalState = Success | Failed | Denied | Expired | Cancelled

  datatype Details = Details(verificationUri: Text, userCode: Text, expiresAt: int, pollInterval: int)

  datatype Event = Ready(details: Details) | State(state: TerminalState)

  /// What a recogniser says of a line: nothing, a field, or an error.
  datatype Recognised<+T> = NoMatch | Match(value: T) | Invalid

  /// The line recognisers and the clock.
  datatype Rules = Rules(
    trim: Text -> Text,
    uri: Text -> Recognised<Text>,
    code: Text -> Recognised<Text>,
    expiry: Text -> Recognised<int>,
    interval: Text -> Recognised<int>,
    terminal: Text -> Option<TerminalState>,
    now: int)

  datatype Fields = Fields(
    verificationUri: Option<Text>,
    userCode: Option<Text>,
    expiresAt: Option<int>,
    pollInterval: Option<int>,
    emittedReady: bool,
    terminal: Option<TerminalState>)

  datatype Result<+T> = Ok(value: T) | Thrown

  datatype Step = Step(fields: Fields, events: seq<Event>)

  // ---------------------------------------------------------------------------- one line

  /// `setField`: a field may be set again only to the same value.
  function Set<T(==)>(current: Option<T>, found: Recognised<T>): Result<Option<T>> {
    match found
    case NoMatch => Ok(current)
    case Invalid => Thrown
    case Match(value) => if current.Some? && current.value != value then Thrown else Ok(Some(value))
  }

  /// `readyEvent`.
  function ReadyEvent(rules: Rules, f: Fields): Option<Event> {
    if f.verificationUri.None? || f.userCode.None? then None else
    Some(Ready(Details(f.verificationUri.value, f.userCode.value,
      if f.expiresAt.Some? then f.expiresAt.value else rules.now + DEVICE_EXPIRY_MS,
      if f.pollInterval.Some? then f.pollInterval.value else DEVICE_POLL_INTERVAL_MS)))
  }

  /// The fields after a line, before its terminal state is looked at.
  function WithFields(rules: Rules, f: Fields, line: Text): Result<Fields> {
    match (Set(f.verificationUri, rules.uri(line)), Set(f.userCode, rules.code(line)),
           Set(f.expiresAt, rules.expiry(line)), Set(f.pollInterval, rules.interval(line)))
    case (Ok(uri), Ok(code), Ok(expiry), Ok(interval)) =>
      Ok(f.(verificationUri := uri, userCode := code, expiresAt := expiry, pollInterval := interval))
    case _ => Thrown
  }

  function WithTerminal(rules: Rules, f: Fields, line: Text): Result<Step> {
    match rules.terminal(line)
    case None => Ok(Step(f, []))
    case Some(state) =>
      if f.terminal.Some? && f.terminal.value != state then Thrown
      else Ok(Step(f.(terminal := Some(state)), [State(state)]))
  }

  function WithReady(rules: Rules, s: Step): Step {
    match ReadyEvent(rules, s.fields)
    case None => s
    case Some(ready) => if s.fields.emittedReady then s else Step(s.fields.(emittedReady := true), s.events + [ready])
  }

  /// `parseLine`.
  function ParseLine(rules: Rules, f: Fields, rawLine: Text): Result<Step> {
    if |rawLine| > MAX_LINE_LENGTH then Thrown else
    var line := rules.trim(rawLine);
    if line == [] then Ok(Step(f, [])) else
    match WithFields(rules, f, line)
    case Thrown => Thrown
    case Ok(fields) =>
      match WithTerminal(rules, fields, line)
      case Thrown => Thrown
      case Ok(step) => Ok(WithReady(rules, step))
  }

  // --------------------------------------------------------------------------- many lines

  function IndexOfNewline(s: Text): (i: nat)
    ensures i <= |s|
  {
    if s == [] || s[0] == NEWLINE then 0 else 1 + IndexOfNewline(s[1..])
  }

  /// It is `indexOf`: the first newline, or the length when there is none.
  lemma {:induction false} FirstNewline(s: Text)
    ensures var i := IndexOfNewline(s);
      (i < |s| ==> s[i] == NEWLINE) && forall j | 0 <= j < i :: s[j] != NEWLINE
  {
    if s != [] && s[0] != NEWLINE {
      FirstNewline(s[1..]);
      assert forall j | 1 <= j < |s| :: s[j] == s[1..][j - 1];
    }
  }

  function DropCarriageReturn(line: Text): Text {
    if line != [] && line[|line| - 1] == CARRIAGE_RETURN then line[..|line| - 1] else line
  }

  /// What is left over after the last newline, beside the fields and the events so far.
  datatype Progress = Progress(fields: Fields, rest: Text, events: seq<Event>)

  /// The result after some earlier events.
  function Prefixed(events: seq<Event>, r: Result<Progress>): Result<Progress> {
    match r
    case Thrown => Thrown
    case Ok(p) => Ok(p.(events := events + p.events))
  }

  lemma PrefixedTwice(a: seq<Event>, b: seq<Event>, r: Result<Progress>)
    ensures Prefixed(a, Prefixed(b, r)) == Prefixed(a + b, r) && Prefixed([], r) == r
  {
    if r.Ok? {
      assert a + (b + r.value.events) == (a + b) + r.value.events && [] + r.value.events == r.value.events;
    }
  }

  /// The complete lines of a buffer, one after the other.
  function Consume(rules: Rules, f: Fields, buffer: Text): Result<Progress>
    decreases |buffer|
  {
    var i := IndexOfNewline(buffer);
    if i == |buffer| then Ok(Progress(f, buffer, [])) else
    match ParseLine(rules, f, DropCarriageReturn(buffer[..i]))
    case Thrown => Thrown
    case Ok(step) => Prefixed(step.events, Consume(rules, step.fields, buffer[i + 1..]))
  }

  /// The length of a text in UTF-8, where an unpaired surrogate is replaced by three bytes.
  function Utf8Length(s: Text): nat {
    if s == [] then 0
    else if StartsWithPair(s) then 4 + Utf8Length(s[2..])
    else (if s[0] < 0x80 then 1 else if s[0] < 0x800 then 2 else 3) + Utf8Length(s[1..])
  }

  datatype Parser = Parser(fields: Fields, lineBuffer: Text, outputBytes: nat)

  datatype Fed = Fed(parser: Parser, events: seq<Event>)

  /// `feed` of a text.
  function Feed(rules: Rules, maxOutputBytes: nat, p: Parser, text: Text): Result<Fed> {
    var bytes := p.outputBytes + Utf8Length(text);
    if bytes > maxOutputBytes || |p.lineBuffer + text| > MAX_LINE_LENGTH * 2 then Thrown else
    match Consume(rules, p.fields, p.lineBuffer + text)
    case Thrown => Thrown
    case Ok(q) => Ok(Fed(Parser(q.fields, q.rest, bytes), q.events))
  }

  /// `finish`, for output that was fed as text.
  function Finish(rules: Rules, p: Parser): Result<Fed> {
    if p.lineBuffer != [] then
      match ParseLine(rules, p.fields, DropCarriageReturn(p.lineBuffer))
      case Thrown => Thrown
      case Ok(step) =>
        var ready := ReadyEvent(rules, step.fields);
        Ok(Fed(p.(fields := step.fields, lineBuffer := []),
          if ready.Some? && !HasReady(step.events) then step.events + [ready.value] else step.events))
    else
      var ready := ReadyEvent(rules, p.fields);
      Ok(Fed(p, if p.fields.emittedReady || ready.None? then [] else [ready.value]))
  }

  predicate HasReady(events: seq<Event>) {
    exists i | 0 <= i < |events| :: events[i].Ready?
  }

  // ------------------------------------------------------------------------------ the class

  class CodexDeviceLoginParser {
    const rules: Rules
    const maxOutputBytes: nat
    var lineBuffer: Text
    var outputBytes: nat
    var fields: Fields

    ghost function State(): Parser
      reads this
    {
      Parser(fields, lineBuffer, outputBytes)
    }

    constructor (rules: Rules, maxOutputBytes: nat)
      ensures State() == Parser(Fields(None, None, None, None, false, None), [], 0)
      ensures this.rules == rules && this.maxOutputBytes == maxOutputBytes
    {
      this.rules, this.maxOutputBytes := rules, maxOutputBytes;
      lineBuffer, outputBytes, fields := [], 0, Fields(None, None, None, None, false, None);
    }

    /// The loop of `feed` over the complete lines in the buffer.
    method ConsumeBuffer() returns (events: Option<seq<Event>>)
      modifies this`lineBuffer, this`fields
      ensures match Consume(rules, old(fields), old(lineBuffer))
        case Thrown => events.None?
        case Ok(p) => events == Some(p.events) && fields == p.fields && lineBuffer == p.rest
    {
      ghost var whole := Consume(rules, fields, lineBuffer);
      var found: seq<Event> := [];
      PrefixedTwice([], [], whole);
      var newlineIndex := IndexOfNewline(lineBuffer);
      while newlineIndex != |lineBuffer|
        invariant newlineIndex == IndexOfNewline(lineBuffer)
        invariant whole == Prefixed(found, Consume(rules, fields, lineBuffer))
        decreases |lineBuffer|
      {
        ConsumeLine(rules, fields, lineBuffer, newlineIndex);
        var line := DropCarriageReturn(lineBuffer[..newlineIndex]);
        lineBuffer := lineBuffer[newlineIndex + 1..];
        var step := ParseLine(rules, fields, line);
        PrefixedLine(rules, found, step, lineBuffer);
        if step.Thrown? {
          return None;
        }
        fields, found := step.value.fields, found + step.value.events;
        newlineIndex := IndexOfNewline(lineBuffer);
      }
      NoMoreLines(rules, fields, lineBuffer);
      assert found + [] == found;
      events := Some(found);
    }

    /** `feed`: `None` when it throws, which leaves the fields wherever the bad line was met. */
    method FeedText(text: Text) returns (events: Option<seq<Event>>)
      modifies this
      ensures match Feed(rules, maxOutputBytes, old(State()), text)
        case Thrown => events.None?
        case Ok(fed) => events == Some(fed.events) && State() == fed.parser
    {
      outputBytes := outputBytes + Utf8Length(text);
      if outputBytes > maxOutputBytes {
        return None;
      }
      lineBuffer := lineBuffer + text;
      if |lineBuffer| > MAX_LINE_LENGTH * 2 {
        return None;
      }
      events := ConsumeBuffer();
    }

    /** `finish`: `None` when it throws. */
    method FinishOutput() returns (events: Option<seq<Event>>)
      modifies this
      ensures match Finish(rules, old(State()))
        case Thrown => events.None?
        case Ok(fed) => events == Some(fed.events) && State() == fed.parser
    {
      if lineBuffer != [] {
        var line := DropCarriageReturn(lineBuffer);
        lineBuffer := [];
        var step := ParseLine(rules, fields, line);
        if step.Thrown? {
          return None;
        }
        fields := step.value.fields;
        var ready := ReadyEvent(rules, fields);
        var emitted := HasReady(step.value.events);
        return Some(if ready.Some? && !emitted then step.value.events + [ready.value] else step.value.events);
      }
      var ready := ReadyEvent(rules, fields);
      events := Some(if fields.emittedReady || ready.None? then [] else [ready.value]);
    }
  }

  // -------------------------------------------------------------------- chunking does not matter

  lemma {:induction false} NewlineInFirst(s: Text, t: Text)
    ensures IndexOfNewline(s) < |s| ==> IndexOfNewline(s + t) == IndexOfNewline(s)
  {
    if s != [] && s[0] != NEWLINE {
      assert (s + t)[1..] == s[1..] + t;
      NewlineInFirst(s[1..], t);
    }
  }

  /// Going on after a line that was parsed.
  function AfterLine(rules: Rules, line: Result<Step>, rest: Text): Result<Progress> {
    match line
    case Thrown => Thrown
    case Ok(step) => Prefixed(step.events, Consume(rules, step.fields, rest))
  }

  /// Going on after a part of the buffer that was consumed.
  function AfterPart(rules: Rules, part: Result<Progress>, rest: Text): Result<Progress> {
    match part
    case Thrown => Thrown
    case Ok(first) => Prefixed(first.events, Consume(rules, first.fields, first.rest + rest))
  }

  lemma ConsumeLine(rules: Rules, f: Fields, s: Text, i: nat)
    requires i == IndexOfNewline(s) < |s|
    ensures Consume(rules, f, s) == AfterLine(rules, ParseLine(rules, f, DropCarriageReturn(s[..i])), s[i + 1..])
  {
  }

  lemma NoMoreLines(rules: Rules, f: Fields, s: Text)
    requires IndexOfNewline(s) == |s|
    ensures Consume(rules, f, s) == Ok(Progress(f, s, []))
  {
  }

  lemma PrefixedLine(rules: Rules, found: seq<Event>, line: Result<Step>, rest: Text)
    ensures Prefixed(found, AfterLine(rules, line, rest)) ==
      if line.Thrown? then Thrown else Prefixed(found + line.value.events, Consume(rules, line.value.fields, rest))
  {
    if line.Ok? {
      PrefixedTwice(found, line.value.events, Consume(rules, line.value.fields, rest));
    }
  }

  lemma AfterLineThenPart(rules: Rules, line: Result<Step>, s: Text, t: Text)
    requires line.Ok? ==>
      Consume(rules, line.value.fields, s + t) == AfterPart(rules, Consume(rules, line.value.fields, s), t)
    ensures AfterLine(rules, line, s + t) == AfterPart(rules, AfterLine(rules, line, s), t)
  {
    if line.Ok? {
      var rest := Consume(rules, line.value.fields, s);
      if rest.Ok? {
        PrefixedTwice(line.value.events, rest.value.events, Consume(rules, rest.value.fields, rest.value.rest + t));
      }
    }
  }

  /// Consuming a longer buffer is consuming the first part, and then what it leaves with the rest.
  lemma {:induction false} ConsumeSplit(rules: Rules, f: Fields, s: Text, t: Text)
    ensures Consume(rules, f, s + t) == AfterPart(rules, Consume(rules, f, s), t)
    decreases |s|
  {
    var i := IndexOfNewline(s);
    if i == |s| {
      PrefixedTwice([], [], Consume(rules, f, s + t));
      return;
    }
    NewlineInFirst(s, t);
    assert (s + t)[..i] == s[..i] && (s + t)[i + 1..] == s[i + 1..] + t;
    var line := ParseLine(rules, f, DropCarriageReturn(s[..i]));
    ConsumeLine(rules, f, s, i);
    ConsumeLine(rules, f, s + t, i);
    if line.Ok? {
      ConsumeSplit(rules, line.value.fields, s[i + 1..], t);
    }
    AfterLineThenPart(rules, line, s[i + 1..], t);
  }

  lemma {:induction false} RestIsShorter(rules: Rules, f: Fields, s: Text)
    requires Consume(rules, f, s).Ok?
    ensures |Consume(rules, f, s).value.rest| <= |s|
    decreases |s|
  {
    var i := IndexOfNewline(s);
    if i < |s| {
      RestIsShorter(rules, ParseLine(rules, f, DropCarriageReturn(s[..i])).value.fields, s[i + 1..]);
    }
  }

  /// The cut between two chunks falls inside a surrogate pair.
  predicate CutsPair(a: Text, b: Text) {
    a != [] && b != [] && HighSurrogate(a[|a| - 1]) && LowSurrogate(b[0])
  }

  /** Byte lengths add up unless the cut falls inside a surrogate pair, which then costs two bytes more. */
  lemma {:induction false} Utf8LengthAdds(a: Text, b: Text)
    ensures Utf8Length(a) + Utf8Length(b) == Utf8Length(a + b) + if CutsPair(a, b) then 2 else 0
    decreases |a|
  {
    if a == [] {
      assert a + b == b;
    } else if StartsWithPair(a) {
      assert (a + b)[2..] == a[2..] + b;
      Utf8LengthAdds(a[2..], b);
    } else if |a| == 1 && CutsPair(a, b) {
      assert (a + b)[2..] == b[1..] && a[1..] == [];
    } else {
      assert (a + b)[1..] == a[1..] + b;
      Utf8LengthAdds(a[1..], b);
    }
  }

  /// What `feed` returns for the lines it consumed.
  function Delivered(bytes: nat, r: Result<Progress>): Result<Fed> {
    match r
    case Thrown => Thrown
    case Ok(q) => Ok(Fed(Parser(q.fields, q.rest, bytes), q.events))
  }

  lemma FeedWithinLimits(rules: Rules, maxOutputBytes: nat, p: Parser, text: Text)
    requires p.outputBytes + Utf8Length(text) <= maxOutputBytes && |p.lineBuffer + text| <= MAX_LINE_LENGTH * 2
    ensures Feed(rules, maxOutputBytes, p, text) ==
      Delivered(p.outputBytes + Utf8Length(text), Consume(rules, p.fields, p.lineBuffer + text))
  {
  }

  /// The result of a feed after an earlier one.
  function Then(events: seq<Event>, r: Result<Fed>): Result<Fed> {
    match r
    case Thrown => Thrown
    case Ok(fed) => Ok(fed.(events := events + fed.events))
  }

  lemma DeliveredSplit(bytes: nat, events: seq<Event>, whole: Result<Progress>, second: Result<Progress>)
    requires whole == Prefixed(events, second)
    ensures Delivered(bytes, whole) == Then(events, Delivered(bytes, second))
  {
  }

  lemma LinesSplit(rules: Rules, maxOutputBytes: nat, p: Parser, a: Text, b: Text)
    requires Feed(rules, maxOutputBytes, p, a).Ok?
    ensures var first := Feed(rules, maxOutputBytes, p, a).value;
      Consume(rules, p.fields, p.lineBuffer + (a + b)) ==
        Prefixed(first.events, Consume(rules, first.parser.fields, first.parser.lineBuffer + b))
  {
    assert p.lineBuffer + (a + b) == p.lineBuffer + a + b;
    ConsumeSplit(rules, p.fields, p.lineBuffer + a, b);
  }

  function Concat(chunks: seq<Text>): Text {
    if chunks == [] then [] else chunks[0] + Concat(chunks[1..])
  }

  function FeedAll(rules: Rules, maxOutputBytes: nat, p: Parser, chunks: seq<Text>): Result<Fed>
    decreases |chunks|
  {
    if chunks == [] then Ok(Fed(p, [])) else
    match Feed(rules, maxOutputBytes, p, chunks[0])
    case Thrown => Thrown
    case Ok(first) => Then(first.events, FeedAll(rules, maxOutputBytes, first.parser, chunks[1..]))
  }

  /// No cut of the split falls inside a surrogate pair; a streaming decoder never makes one.
  predicate CleanCuts(chunks: seq<Text>) {
    chunks == [] || (!CutsPair(chunks[0], Concat(chunks[1..])) && CleanCuts(chunks[1..]))
  }

  /// Feeding nothing to a parser that holds no complete line changes nothing.
  predicate Settled(p: Parser, maxOutputBytes: nat) {
    p.outputBytes <= maxOutputBytes && |p.lineBuffer| <= MAX_LINE_LENGTH * 2 &&
      IndexOfNewline(p.lineBuffer) == |p.lineBuffer|
  }

  lemma {:induction false} RestHasNoNewline(rules: Rules, f: Fields, s: Text)
    requires Consume(rules, f, s).Ok?
    ensures var rest := Consume(rules, f, s).value.rest; IndexOfNewline(rest) == |rest|
    decreases |s|
  {
    var i := IndexOfNewline(s);
    if i < |s| {
      RestHasNoNewline(rules, ParseLine(rules, f, DropCarriageReturn(s[..i])).value.fields, s[i + 1..]);
    }
  }

  lemma FedIsSettled(rules: Rules, maxOutputBytes: nat, p: Parser, text: Text)
    requires Feed(rules, maxOutputBytes, p, text).Ok?
    ensures Settled(Feed(rules, maxOutputBytes, p, text).value.parser, maxOutputBytes)
  {
    RestHasNoNewline(rules, p.fields, p.lineBuffer + text);
    RestIsShorter(rules, p.fields, p.lineBuffer + text);
  }

  /// How many cuts of a split fall inside a surrogate pair.
  function CutPairs(chunks: seq<Text>): nat {
    if chunks == [] then 0 else
    (if CutsPair(chunks[0], Concat(chunks[1..])) then 1 else 0) + CutPairs(chunks[1..])
  }

  lemma {:induction false} CleanIffNoPairCut(chunks: seq<Text>)
    ensures CleanCuts(chunks) <==> CutPairs(chunks) == 0
  {
    if chunks != [] {
      CleanIffNoPairCut(chunks[1..]);
    }
  }

  /// The whole output fits the line buffer and every line of it is accepted.
  predicate Acceptable(rules: Rules, p: Parser, text: Text) {
    |p.lineBuffer + text| <= MAX_LINE_LENGTH * 2 && Consume(rules, p.fields, p.lineBuffer + text).Ok?
  }

  /// What feeding `text` gives when it has brought the count of bytes to `bytes`.
  function Chunked(rules: Rules, maxOutputBytes: nat, p: Parser, text: Text, bytes: nat): Result<Fed> {
    if bytes <= maxOutputBytes then Delivered(bytes, Consume(rules, p.fields, p.lineBuffer + text)) else Thrown
  }

  lemma PartOfAccepted(rules: Rules, part: Result<Progress>, rest: Text)
    requires AfterPart(rules, part, rest).Ok?
    ensures part.Ok? && Consume(rules, part.value.fields, part.value.rest + rest).Ok?
  {
  }

  /// The lines of the first part of an acceptable text are accepted.
  lemma FirstPart(rules: Rules, p: Parser, a: Text, b: Text)
    requires Acceptable(rules, p, a + b)
    ensures var part := Consume(rules, p.fields, p.lineBuffer + a);
      part.Ok? && |part.value.rest| <= |p.lineBuffer + a| && Consume(rules, part.value.fields, part.value.rest + b).Ok?
  {
    var buffer := p.lineBuffer + a;
    assert p.lineBuffer + (a + b) == buffer + b;
    ConsumeSplit(rules, p.fields, buffer, b);
    PartOfAccepted(rules, Consume(rules, p.fields, buffer), b);
    RestIsShorter(rules, p.fields, buffer);
  }

  lemma FirstOfTwo(rules: Rules, maxOutputBytes: nat, p: Parser, a: Text, b: Text)
    requires Acceptable(rules, p, a + b) && p.outputBytes + Utf8Length(a) <= maxOutputBytes
    ensures Feed(rules, maxOutputBytes, p, a).Ok?
    ensures Acceptable(rules, Feed(rules, maxOutputBytes, p, a).value.parser, b)
  {
    FirstPart(rules, p, a, b);
    FeedWithinLimits(rules, maxOutputBytes, p, a);
  }

  lemma ChunkedSplit(rules: Rules, maxOutputBytes: nat, p: Parser, a: Text, b: Text, bytes: nat)
    requires Feed(rules, maxOutputBytes, p, a).Ok?
    ensures var first := Feed(rules, maxOutputBytes, p, a).value;
      Chunked(rules, maxOutputBytes, p, a + b, bytes) ==
        Then(first.events, Chunked(rules, maxOutputBytes, first.parser, b, bytes))
  {
    var first := Feed(rules, maxOutputBytes, p, a).value;
    LinesSplit(rules, maxOutputBytes, p, a, b);
    DeliveredSplit(bytes, first.events,
      Consume(rules, p.fields, p.lineBuffer + (a + b)),
        Consume(rules, first.parser.fields, first.parser.lineBuffer + b));
  }

  /// The count of bytes after a split has been fed.
  function BytesAfter(p: Parser, chunks: seq<Text>): nat {
    p.outputBytes + Utf8Length(Concat(chunks)) + 2 * CutPairs(chunks)
  }

  lemma BytesAfterFirst(p: Parser, q: Parser, chunks: seq<Text>)
    requires chunks != [] && q.outputBytes == p.outputBytes + Utf8Length(chunks[0])
    ensures BytesAfter(q, chunks[1..]) == BytesAfter(p, chunks)
  {
    Utf8LengthAdds(chunks[0], Concat(chunks[1..]));
  }

  /**
   However the output is cut into chunks, feeding them gives the events and the fields that feeding
   it whole gives; only the count of bytes grows, by two for each cut inside a surrogate pair, and
   the chunks throw exactly when that count exceeds the limit.
   */
  lemma {:induction false} ChunkingCostsBytes(rules: Rules, maxOutputBytes: nat, p: Parser, chunks: seq<Text>)
    requires Settled(p, maxOutputBytes) && Acceptable(rules, p, Concat(chunks))
    ensures FeedAll(rules, maxOutputBytes, p, chunks) ==
      Chunked(rules, maxOutputBytes, p, Concat(chunks), BytesAfter(p, chunks))
    decreases |chunks|
  {
    if chunks == [] {
      assert p.lineBuffer + [] == p.lineBuffer;
      return;
    }
    var a, b := chunks[0], Concat(chunks[1..]);
    if p.outputBytes + Utf8Length(a) > maxOutputBytes {
      BytesAfterFirst(p, p.(outputBytes := p.outputBytes + Utf8Length(a)), chunks);
      return;
    }
    FirstOfTwo(rules, maxOutputBytes, p, a, b);
    FedIsSettled(rules, maxOutputBytes, p, a);
    var q := Feed(rules, maxOutputBytes, p, a).value.parser;
    ChunkingCostsBytes(rules, maxOutputBytes, q, chunks[1..]);
    BytesAfterFirst(p, q, chunks);
    ChunkedSplit(rules, maxOutputBytes, p, a, b, BytesAfter(p, chunks));
  }

  lemma WholeIsOneChunk(rules: Rules, maxOutputBytes: nat, p: Parser, text: Text)
    requires Feed(rules, maxOutputBytes, p, text).Ok?
    ensures Acceptable(rules, p, text) && p.outputBytes + Utf8Length(text) <= maxOutputBytes
    ensures Feed(rules, maxOutputBytes, p, text) ==
      Chunked(rules, maxOutputBytes, p, text, p.outputBytes + Utf8Length(text))
  {
    FeedWithinLimits(rules, maxOutputBytes, p, text);
  }

  lemma ChunkedTellsBytes(rules: Rules, maxOutputBytes: nat, p: Parser, text: Text, more: nat, bytes: nat)
    requires Chunked(rules, maxOutputBytes, p, text, bytes).Ok?
    ensures Chunked(rules, maxOutputBytes, p, text, more) == Chunked(rules, maxOutputBytes, p, text, bytes) <==>
      more == bytes
  {
    if more <= maxOutputBytes {
      assert Chunked(rules, maxOutputBytes, p, text, more).value.parser.outputBytes == more;
    }
  }

  lemma SameIffSameBytes(rules: Rules, maxOutputBytes: nat, p: Parser, text: Text, all: Result<Fed>, bytes: nat)
    requires Feed(rules, maxOutputBytes, p, text).Ok?
    requires all == Chunked(rules, maxOutputBytes, p, text, bytes)
    ensures all == Feed(rules, maxOutputBytes, p, text) <==> bytes == p.outputBytes + Utf8Length(text)
  {
    WholeIsOneChunk(rules, maxOutputBytes, p, text);
    ChunkedTellsBytes(rules, maxOutputBytes, p, text, bytes, p.outputBytes + Utf8Length(text));
  }

  /**
   Where feeding the output whole does not throw, feeding a split of it does the same, down to the
   state of the parser, if and only if no cut falls inside a surrogate pair.
   */
  lemma ChunkingDoesNotMatter(rules: Rules, maxOutputBytes: nat, p: Parser, chunks: seq<Text>)
    requires Settled(p, maxOutputBytes) && Feed(rules, maxOutputBytes, p, Concat(chunks)).Ok?
    ensures FeedAll(rules, maxOutputBytes, p, chunks) == Feed(rules, maxOutputBytes, p, Concat(chunks)) <==>
      CleanCuts(chunks)
  {
    var text, all := Concat(chunks), FeedAll(rules, maxOutputBytes, p, chunks);
    assert all == Chunked(rules, maxOutputBytes, p, text, BytesAfter(p, chunks)) by {
      WholeIsOneChunk(rules, maxOutputBytes, p, text);
      ChunkingCostsBytes(rules, maxOutputBytes, p, chunks);
    }
    SameIffSameBytes(rules, maxOutputBytes, p, text, all, BytesAfter(p, chunks));
    CleanIffNoPairCut(chunks);
  }

  /** A character cut in two counts six bytes instead of four. */
  lemma CutPairMatters(rules: Rules)
    ensures var p := Parser(Fields(None, None, None, None, false, None), [], 0);
      var high: Text := [0xD83D];
      var low: Text := [0xDE00];
      Feed(rules, 1024, p, high + low).Ok? && FeedAll(rules, 1024, p, [high, low]) != Feed(rules, 1024, p, high + low)
  {
    var p := Parser(Fields(None, None, None, None, false, None), [], 0);
    var high: Text := [0xD83D];
    var low: Text := [0xDE00];
    assert [high, low][1..] == [low] && [low][1..] == [];
    assert Concat([low]) == low && Concat([high, low]) == high + low;
    assert IndexOfNewline(high + low) == 2 && p.lineBuffer + (high + low) == high + low;
    assert Utf8Length(high + low) == 4 + Utf8Length((high + low)[2..]);
    ChunkingDoesNotMatter(rules, 1024, p, [high, low]);
  }

  // --------------------------------------------------------- ready at most once, fields for good

  function ReadyCount(events: seq<Event>): nat {
    if events == [] then 0 else (if events[0].Ready? then 1 else 0) + ReadyCount(events[1..])
  }

  lemma {:induction false} ReadyCountAdds(a: seq<Event>, b: seq<Event>)
    ensures ReadyCount(a + b) == ReadyCount(a) + ReadyCount(b)
    decreases |a|
  {
    if a == [] {
      assert a + b == b;
    } else {
      assert (a + b)[1..] == a[1..] + b;
      ReadyCountAdds(a[1..], b);
    }
  }

  /// A field that was set is still set to the same value.
  ghost predicate Kept(f: Fields, g: Fields) {
    && (f.verificationUri.Some? ==> g.verificationUri == f.verificationUri)
    && (f.userCode.Some? ==> g.userCode == f.userCode)
    && (f.expiresAt.Some? ==> g.expiresAt == f.expiresAt)
    && (f.pollInterval.Some? ==> g.pollInterval == f.pollInterval)
    && (f.terminal.Some? ==> g.terminal == f.terminal)
    && (f.emittedReady ==> g.emittedReady)
  }

  /// What the events of some output say: ready was emitted if and only if the flag was raised by it.
  ghost predicate Emitted(f: Fields, events: seq<Event>, g: Fields) {
    Kept(f, g) && ReadyCount(events) == if g.emittedReady && !f.emittedReady then 1 else 0
  }

  lemma LineEmits(rules: Rules, f: Fields, rawLine: Text)
    requires ParseLine(rules, f, rawLine).Ok?
    ensures var step := ParseLine(rules, f, rawLine).value; Emitted(f, step.events, step.fields)
  {
    var line := rules.trim(rawLine);
    if line != [] {
      var step := WithTerminal(rules, WithFields(rules, f, line).value, line).value;
      assert ReadyCount(step.events) == 0;
      if ReadyEvent(rules, step.fields).Some? {
        ReadyCountAdds(step.events, [ReadyEvent(rules, step.fields).value]);
      }
    }
  }

  lemma {:induction false} ConsumeEmits(rules: Rules, f: Fields, s: Text)
    requires Consume(rules, f, s).Ok?
    ensures var p := Consume(rules, f, s).value; Emitted(f, p.events, p.fields)
    decreases |s|
  {
    var i := IndexOfNewline(s);
    if i == |s| {
      return;
    }
    var line := DropCarriageReturn(s[..i]);
    LineEmits(rules, f, line);
    var step := ParseLine(rules, f, line).value;
    ConsumeEmits(rules, step.fields, s[i + 1..]);
    ReadyCountAdds(step.events, Consume(rules, step.fields, s[i + 1..]).value.events);
  }

  /**
   Over all the feeds of a parser, ready is emitted at most once, exactly when the flag says so, and
   no field that has been set ever changes.
   */
  lemma {:induction false} ReadyAtMostOnce(rules: Rules, maxOutputBytes: nat, p: Parser, chunks: seq<Text>)
    requires FeedAll(rules, maxOutputBytes, p, chunks).Ok?
    ensures var fed := FeedAll(rules, maxOutputBytes, p, chunks).value; Emitted(p.fields, fed.events, fed.parser.fields)
    decreases |chunks|
  {
    if chunks == [] {
      return;
    }
    ConsumeEmits(rules, p.fields, p.lineBuffer + chunks[0]);
    var first := Feed(rules, maxOutputBytes, p, chunks[0]).value;
    ReadyAtMostOnce(rules, maxOutputBytes, first.parser, chunks[1..]);
    ReadyCountAdds(first.events, FeedAll(rules, maxOutputBytes, first.parser, chunks[1..]).value.events);
  }

  lemma {:induction false} NoReadyIffNoneCounted(events: seq<Event>)
    ensures HasReady(events) <==> ReadyCount(events) > 0
  {
    if events != [] {
      NoReadyIffNoneCounted(events[1..]);
      if HasReady(events) && !events[0].Ready? {
        var i :| 0 <= i < |events| && events[i].Ready?;
        assert events[1..][i - 1].Ready?;
      }
      if HasReady(events[1..]) {
        var i :| 0 <= i < |events[1..]| && events[1..][i].Ready?;
        assert events[i + 1].Ready?;
      }
    }
  }

  /**
   `finish` is not part of that promise. It reports ready exactly when both required fields are known
   and either a last line was left over or ready was never emitted: with a last line it repeats ready.
   */
  lemma FinishReportsReadyIff(rules: Rules, p: Parser)
    requires Finish(rules, p).Ok?
    ensures var fed := Finish(rules, p).value;
      HasReady(fed.events) <==>
        ReadyEvent(rules, fed.parser.fields).Some? && (p.lineBuffer != [] || !p.fields.emittedReady)
  {
    var fed := Finish(rules, p).value;
    if p.lineBuffer == [] {
      if ReadyEvent(rules, p.fields).Some? && !p.fields.emittedReady {
        assert fed.events[0].Ready?;
      }
      return;
    }
    var line := DropCarriageReturn(p.lineBuffer);
    LineEmits(rules, p.fields, line);
    var step := ParseLine(rules, p.fields, line).value;
    NoReadyIffNoneCounted(step.events);
    FlagMeansReady(rules, p.fields, line);
    if ReadyEvent(rules, step.fields).Some? && !HasReady(step.events) {
      assert fed.events[|step.events|].Ready?;
    }
  }

  /// A line emits ready only when both required fields are known.
  lemma FlagMeansReady(rules: Rules, f: Fields, rawLine: Text)
    requires ParseLine(rules, f, rawLine).Ok?
    ensures var step := ParseLine(rules, f, rawLine).value;
      step.fields.emittedReady && !f.emittedReady ==> ReadyEvent(rules, step.fields).Some?
  {
  }
}
