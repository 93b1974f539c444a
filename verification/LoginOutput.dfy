/**
 What the device-login parser makes of an output, told from its lines: the fields are what the recognisers
 matched, each its own, the events are the terminal markers in order and one ready, and the output is refused
 exactly when some line is too long, is refused by a recogniser or contradicts an earlier one.
 */
module LoginOutput {
  import opened Basics
  import opened JsonText
  import opened OAuthParser

  const FRESH := Fields(None, None, None, None, false, None)

  // --------------------------------------------------------------------------------- lines

  /// The complete lines of a buffer, without their line ends.
  function RawLines(buffer: Text): seq<Text>
    decreases |buffer|
  {
    var i := IndexOfNewline(buffer);
    if i == |buffer| then [] else [buffer[..i]] + RawLines(buffer[i + 1..])
  }

  /// What follows the last newline.
  function RestOf(buffer: Text): Text
    decreases |buffer|
  {
    var i := IndexOfNewline(buffer);
    if i == |buffer| then buffer else RestOf(buffer[i + 1..])
  }

  function WithNewlines(lines: seq<Text>): Text {
    if lines == [] then [] else lines[0] + [NEWLINE] + WithNewlines(lines[1..])
  }

  predicate WithoutNewline(line: Text) {
    forall i | 0 <= i < |line| :: line[i] != NEWLINE
  }

  lemma CutAt(buffer: Text, i: nat, unit: Unit)
    requires i < |buffer| && buffer[i] == unit
    ensures buffer == buffer[..i] + [unit] + buffer[i + 1..]
  {
  }

  lemma LineBreaks(buffer: Text, i: nat)
    requires i == IndexOfNewline(buffer) < |buffer|
    ensures buffer == buffer[..i] + [NEWLINE] + buffer[i + 1..] && WithoutNewline(buffer[..i])
  {
    FirstNewline(buffer);
    CutAt(buffer, i, NEWLINE);
  }

  lemma LastLine(buffer: Text)
    requires IndexOfNewline(buffer) == |buffer|
    ensures buffer == WithNewlines([]) + buffer && WithoutNewline(buffer)
  {
    FirstNewline(buffer);
  }

  lemma FirstWithNewline(line: Text, lines: seq<Text>)
    ensures WithNewlines([line] + lines) == line + [NEWLINE] + WithNewlines(lines)
  {
    assert ([line] + lines)[1..] == lines;
  }

  lemma Rejoined(line: Text, lines: Text, rest: Text, buffer: Text)
    requires buffer == line + [NEWLINE] + (lines + rest)
    ensures buffer == (line + [NEWLINE] + lines) + rest
  {
  }

  predicate NoneHasNewline(lines: seq<Text>) {
    forall i | 0 <= i < |lines| :: WithoutNewline(lines[i])
  }

  lemma {:induction false} LinesHaveNoNewline(buffer: Text)
    ensures NoneHasNewline(RawLines(buffer)) && WithoutNewline(RestOf(buffer))
    decreases |buffer|
  {
    var i := IndexOfNewline(buffer);
    if i == |buffer| {
      LastLine(buffer);
      return;
    }
    LineBreaks(buffer, i);
    LinesHaveNoNewline(buffer[i + 1..]);
  }

  /** The lines, each with its newline, and what is left over are the buffer; none of them holds a newline. */
  lemma {:induction false} LinesAreTheBuffer(buffer: Text)
    ensures buffer == WithNewlines(RawLines(buffer)) + RestOf(buffer)
    ensures NoneHasNewline(RawLines(buffer)) && WithoutNewline(RestOf(buffer))
    decreases |buffer|
  {
    LinesHaveNoNewline(buffer);
    var i := IndexOfNewline(buffer);
    if i == |buffer| {
      LastLine(buffer);
      return;
    }
    var rest := buffer[i + 1..];
    LinesAreTheBuffer(rest);
    LineBreaks(buffer, i);
    FirstWithNewline(buffer[..i], RawLines(rest));
    Rejoined(buffer[..i], WithNewlines(RawLines(rest)), RestOf(rest), buffer);
  }

  // ---------------------------------------------------------------------- what the lines say

  /// A recogniser is not asked about blank lines.
  function Reads<T>(recognise: Text -> Recognised<T>, line: Text): Recognised<T> {
    if line == [] then NoMatch else recognise(line)
  }

  /// The first match among the first `n` lines.
  function First<T>(recognise: Text -> Recognised<T>, lines: seq<Text>, n: nat): Option<T>
    requires n <= |lines|
  {
    if n == 0 then None
    else if First(recognise, lines, n - 1).Some? then First(recognise, lines, n - 1)
    else match Reads(recognise, lines[n - 1])
      case Match(value) => Some(value)
      case _ => None
  }

  lemma {:induction false} FirstIsFirst<T>(recognise: Text -> Recognised<T>, lines: seq<Text>, n: nat)
    requires n <= |lines|
    ensures match First(recognise, lines, n)
      case None => forall i | 0 <= i < n :: !Reads(recognise, lines[i]).Match?
      case Some(value) => exists i | 0 <= i < n ::
        Reads(recognise, lines[i]) == Match(value) && forall j | 0 <= j < i :: !Reads(recognise, lines[j]).Match?
  {
    if n > 0 {
      FirstIsFirst(recognise, lines, n - 1);
    }
  }

  /// No line is refused, and no two lines match differently.
  ghost predicate Consistent<T(!new)>(recognise: Text -> Recognised<T>, lines: seq<Text>, n: nat)
    requires n <= |lines|
  {
    && (forall i | 0 <= i < n :: !Reads(recognise, lines[i]).Invalid?)
    && (forall i, j | 0 <= i < j < n && Reads(recognise, lines[i]).Match? && Reads(recognise, lines[j]).Match? ::
          Reads(recognise, lines[i]) == Reads(recognise, lines[j]))
  }

  lemma {:induction false} MatchesAreFirst<T(!new)>(recognise: Text -> Recognised<T>, lines: seq<Text>, n: nat, i: nat)
    requires i < n <= |lines| && Consistent(recognise, lines, n) && Reads(recognise, lines[i]).Match?
    ensures First(recognise, lines, n) == Some(Reads(recognise, lines[i]).value)
  {
    FirstIsFirst(recognise, lines, n);
    var k :| 0 <= k < n && Reads(recognise, lines[k]) == Match(First(recognise, lines, n).value);
    assert i == k || i < k || k < i;
  }

  /// One more line is consistent with the others if it is not refused and matches what the first match did.
  lemma ConsistentStep<T(!new)>(recognise: Text -> Recognised<T>, lines: seq<Text>, n: nat)
    requires n < |lines| && Consistent(recognise, lines, n)
    ensures var kept := Set(First(recognise, lines, n), Reads(recognise, lines[n]));
      && (Consistent(recognise, lines, n + 1) <==> kept.Ok?)
      && (kept.Ok? ==> kept.value == First(recognise, lines, n + 1))
  {
    FirstIsFirst(recognise, lines, n);
    match Reads(recognise, lines[n])
    case NoMatch => return;
    case Invalid => return;
    case Match(value) =>
      forall i | 0 <= i < n && Reads(recognise, lines[i]).Match?
        ensures First(recognise, lines, n) == Some(Reads(recognise, lines[i]).value)
      {
        MatchesAreFirst(recognise, lines, n, i);
      }
  }

  function TerminalOf(rules: Rules): Text -> Recognised<TerminalState> {
    line => match rules.terminal(line) case None => NoMatch case Some(state) => Match(state)
  }

  /// The fields that the first `n` lines give.
  function FieldsOf(rules: Rules, lines: seq<Text>, n: nat): Fields
    requires n <= |lines|
  {
    Fields(First(rules.uri, lines, n), First(rules.code, lines, n), First(rules.expiry, lines, n),
      First(rules.interval, lines, n), Known(rules, lines, n), First(TerminalOf(rules), lines, n))
  }

  /// The address and the code have both been met.
  predicate Known(rules: Rules, lines: seq<Text>, n: nat)
    requires n <= |lines|
  {
    First(rules.uri, lines, n).Some? && First(rules.code, lines, n).Some?
  }

  /// What the first `n` lines say about the login: each detail is its own recogniser's, two of them have a default.
  function DetailsOf(rules: Rules, lines: seq<Text>, n: nat): Details
    requires n <= |lines| && Known(rules, lines, n)
  {
    var expiry, interval := First(rules.expiry, lines, n), First(rules.interval, lines, n);
    Details(First(rules.uri, lines, n).value, First(rules.code, lines, n).value,
      if expiry.Some? then expiry.value else rules.now + 900_000, if interval.Some? then interval.value else 5_000)
  }

  /// The events of line `n`: its terminal marker, and ready once both required fields are known.
  function EventsAt(rules: Rules, lines: seq<Text>, n: nat): seq<Event>
    requires n < |lines|
  {
    (match Reads(TerminalOf(rules), lines[n]) case Match(state) => [State(state)] case _ => []) +
      if Known(rules, lines, n + 1) && !Known(rules, lines, n) then [Ready(DetailsOf(rules, lines, n + 1))] else []
  }

  function EventsOf(rules: Rules, lines: seq<Text>, n: nat): seq<Event>
    requires n <= |lines|
  {
    if n == 0 then [] else EventsOf(rules, lines, n - 1) + EventsAt(rules, lines, n - 1)
  }

  ghost predicate AllConsistent(rules: Rules, lines: seq<Text>, n: nat)
    requires n <= |lines|
  {
    && Consistent(rules.uri, lines, n) && Consistent(rules.code, lines, n)
    && Consistent(rules.expiry, lines, n) && Consistent(rules.interval, lines, n)
    && Consistent(TerminalOf(rules), lines, n)
  }

  // ----------------------------------------------------------------------- line after line

  /// A raw line as the recognisers see it.
  function Shown(rules: Rules, raw: Text): Text {
    rules.trim(DropCarriageReturn(raw))
  }

  function ShownAll(rules: Rules, raw: seq<Text>): (lines: seq<Text>)
    ensures |lines| == |raw|
  {
    seq(|raw|, i requires 0 <= i < |raw| => Shown(rules, raw[i]))
  }

  predicate ShortEnough(raw: seq<Text>, n: nat)
    requires n <= |raw|
  {
    forall i | 0 <= i < n :: |DropCarriageReturn(raw[i])| <= 8_192
  }

  function ReadLines(rules: Rules, raw: seq<Text>, n: nat): Result<Step>
    requires n <= |raw|
  {
    if n == 0 then Ok(Step(FRESH, [])) else
    match ReadLines(rules, raw, n - 1)
    case Thrown => Thrown
    case Ok(before) =>
      match ParseLine(rules, before.fields, DropCarriageReturn(raw[n - 1]))
      case Thrown => Thrown
      case Ok(step) => Ok(Step(step.fields, before.events + step.events))
  }

  /// What is to be shown of the first `n` lines.
  ghost predicate AsRead(rules: Rules, raw: seq<Text>, n: nat)
    requires n <= |raw|
  {
    var lines := ShownAll(rules, raw);
    && (ReadLines(rules, raw, n).Ok? <==> ShortEnough(raw, n) && AllConsistent(rules, lines, n))
    && (ReadLines(rules, raw, n).Ok? ==>
          ReadLines(rules, raw, n) == Ok(Step(FieldsOf(rules, lines, n), EventsOf(rules, lines, n))))
  }

  /// The recognisers on one more line.
  lemma FieldsStep(rules: Rules, lines: seq<Text>, n: nat)
    requires n < |lines| && AllConsistent(rules, lines, n) && lines[n] != []
    ensures var f := WithFields(rules, FieldsOf(rules, lines, n), lines[n]);
      && (f.Ok? <==> Consistent(rules.uri, lines, n + 1) && Consistent(rules.code, lines, n + 1) &&
                     Consistent(rules.expiry, lines, n + 1) && Consistent(rules.interval, lines, n + 1))
      && (f.Ok? ==> f.value == FieldsOf(rules, lines, n + 1).(emittedReady := Known(rules, lines, n),
                                 terminal := First(TerminalOf(rules), lines, n)))
  {
    ConsistentStep(rules.uri, lines, n);
    ConsistentStep(rules.code, lines, n);
    ConsistentStep(rules.expiry, lines, n);
    ConsistentStep(rules.interval, lines, n);
  }

  lemma TerminalStep(rules: Rules, f: Fields, lines: seq<Text>, n: nat)
    requires n < |lines| && Consistent(TerminalOf(rules), lines, n) && lines[n] != []
    requires f.terminal == First(TerminalOf(rules), lines, n)
    ensures var r := WithTerminal(rules, f, lines[n]);
      && (r.Ok? <==> Consistent(TerminalOf(rules), lines, n + 1))
      && (r.Ok? ==> r.value == Step(f.(terminal := First(TerminalOf(rules), lines, n + 1)),
            match Reads(TerminalOf(rules), lines[n]) case Match(state) => [State(state)] case _ => []))
  {
    ConsistentStep(TerminalOf(rules), lines, n);
  }

  /// One more line is blank.
  lemma BlankStep(rules: Rules, lines: seq<Text>, n: nat)
    requires n < |lines| && AllConsistent(rules, lines, n) && lines[n] == []
    ensures AllConsistent(rules, lines, n + 1) && FieldsOf(rules, lines, n + 1) == FieldsOf(rules, lines, n)
    ensures EventsAt(rules, lines, n) == []
  {
    ConsistentStep(rules.uri, lines, n);
    ConsistentStep(rules.code, lines, n);
    ConsistentStep(rules.expiry, lines, n);
    ConsistentStep(rules.interval, lines, n);
    ConsistentStep(TerminalOf(rules), lines, n);
  }

  lemma LineStep(rules: Rules, raw: seq<Text>, n: nat)
    requires n < |raw| && |DropCarriageReturn(raw[n])| <= 8_192 && AllConsistent(rules, ShownAll(rules, raw), n)
    ensures var lines := ShownAll(rules, raw);
      var r := ParseLine(rules, FieldsOf(rules, lines, n), DropCarriageReturn(raw[n]));
      && (r.Ok? <==> AllConsistent(rules, lines, n + 1))
      && (r.Ok? ==> r.value == Step(FieldsOf(rules, lines, n + 1), EventsAt(rules, lines, n)))
  {
    var lines := ShownAll(rules, raw);
    if lines[n] == [] {
      BlankStep(rules, lines, n);
      return;
    }
    FieldsStep(rules, lines, n);
    var f := WithFields(rules, FieldsOf(rules, lines, n), lines[n]);
    if f.Ok? {
      TerminalStep(rules, f.value, lines, n);
    }
  }

  lemma OneMoreRead(rules: Rules, raw: seq<Text>, n: nat)
    requires n < |raw| && AsRead(rules, raw, n)
    ensures AsRead(rules, raw, n + 1)
  {
    if ReadLines(rules, raw, n).Ok? && |DropCarriageReturn(raw[n])| <= 8_192 {
      LineStep(rules, raw, n);
    }
  }

  lemma NothingRead(rules: Rules, raw: seq<Text>)
    ensures AsRead(rules, raw, 0)
  {
  }

  lemma {:induction false} LinesAsRead(rules: Rules, raw: seq<Text>, n: nat)
    requires n <= |raw|
    ensures AsRead(rules, raw, n)
  {
    if n == 0 {
      NothingRead(rules, raw);
      return;
    }
    LinesAsRead(rules, raw, n - 1);
    OneMoreRead(rules, raw, n - 1);
  }

  // ------------------------------------------------------------------- a buffer, a run of feeds

  lemma {:induction false} ThrownStays(rules: Rules, raw: seq<Text>, k: nat, n: nat)
    requires k <= n <= |raw| && ReadLines(rules, raw, k).Thrown?
    ensures ReadLines(rules, raw, n).Thrown?
    decreases n
  {
    if k < n {
      ThrownStays(rules, raw, k, n - 1);
    }
  }

  function Finished(r: Result<Step>, rest: Text): Result<Progress> {
    match r
    case Thrown => Thrown
    case Ok(step) => Ok(Progress(step.fields, rest, step.events))
  }

  lemma NothingFollows(rules: Rules, s: Step, buffer: Text)
    requires IndexOfNewline(buffer) == |buffer|
    ensures Prefixed(s.events, Consume(rules, s.fields, buffer)) == Finished(Ok(s), RestOf(buffer))
  {
    NoMoreLines(rules, s.fields, buffer);
    assert s.events + [] == s.events;
  }

  lemma NextOf(raw: seq<Text>, k: nat, head: Text, tail: seq<Text>)
    requires k <= |raw| && raw[k..] == [head] + tail
    ensures k < |raw| && raw[k] == head && raw[k + 1..] == tail
  {
    assert |raw[k..]| == 1 + |tail|;
    assert raw[k] == raw[k..][0];
    assert raw[k..][1..] == tail;
  }

  lemma LineAhead(buffer: Text, i: nat)
    requires i == IndexOfNewline(buffer) < |buffer|
    ensures RawLines(buffer) == [buffer[..i]] + RawLines(buffer[i + 1..]) && RestOf(buffer) == RestOf(buffer[i + 1..])
  {
  }

  lemma NoLineAhead(raw: seq<Text>, k: nat, buffer: Text)
    requires k <= |raw| && RawLines(buffer) == raw[k..] && IndexOfNewline(buffer) == |buffer|
    ensures k == |raw|
  {
    assert |raw[k..]| == 0;
  }

  /// Consuming one line more reads it.
  lemma ConsumeReadsOne(rules: Rules, raw: seq<Text>, k: nat, buffer: Text, i: nat)
    requires k < |raw| && ReadLines(rules, raw, k).Ok?
    requires i == IndexOfNewline(buffer) < |buffer| && raw[k] == buffer[..i]
    ensures var s, next := ReadLines(rules, raw, k).value, ReadLines(rules, raw, k + 1);
      Prefixed(s.events, Consume(rules, s.fields, buffer)) ==
        if next.Thrown? then Thrown
        else Prefixed(next.value.events, Consume(rules, next.value.fields, buffer[i + 1..]))
  {
    var s := ReadLines(rules, raw, k).value;
    ConsumeLine(rules, s.fields, buffer, i);
    PrefixedLine(rules, s.events, ParseLine(rules, s.fields, DropCarriageReturn(buffer[..i])), buffer[i + 1..]);
  }

  /// Consuming what follows the first `k` lines reads the others.
  lemma {:induction false} ConsumeReads(rules: Rules, raw: seq<Text>, k: nat, buffer: Text)
    requires k <= |raw| && RawLines(buffer) == raw[k..] && ReadLines(rules, raw, k).Ok?
    ensures var s := ReadLines(rules, raw, k).value;
      Prefixed(s.events, Consume(rules, s.fields, buffer)) == Finished(ReadLines(rules, raw, |raw|), RestOf(buffer))
    decreases |buffer|
  {
    var i := IndexOfNewline(buffer);
    if i == |buffer| {
      NoLineAhead(raw, k, buffer);
      NothingFollows(rules, ReadLines(rules, raw, k).value, buffer);
      return;
    }
    var rest := buffer[i + 1..];
    LineAhead(buffer, i);
    NextOf(raw, k, buffer[..i], RawLines(rest));
    ConsumeReadsOne(rules, raw, k, buffer, i);
    if ReadLines(rules, raw, k + 1).Thrown? {
      ThrownStays(rules, raw, k + 1, |raw|);
      return;
    }
    ConsumeReads(rules, raw, k + 1, rest);
  }

  /** What a new parser makes of a buffer, told from its lines. */
  lemma OutputRead(rules: Rules, buffer: Text)
    ensures var raw := RawLines(buffer);
      var lines := ShownAll(rules, raw);
      && (Consume(rules, FRESH, buffer).Ok? <==> ShortEnough(raw, |raw|) && AllConsistent(rules, lines, |lines|))
      && (Consume(rules, FRESH, buffer).Ok? ==>
            Consume(rules, FRESH, buffer) ==
              Ok(Progress(FieldsOf(rules, lines, |lines|), RestOf(buffer), EventsOf(rules, lines, |lines|))))
  {
    var raw := RawLines(buffer);
    assert raw[0..] == raw && ReadLines(rules, raw, 0) == Ok(Step(FRESH, []));
    ConsumeReads(rules, raw, 0, buffer);
    PrefixedTwice([], [], Consume(rules, FRESH, buffer));
    LinesAsRead(rules, raw, |raw|);
  }

  /// What feeding in chunks has emitted is what consuming the whole emits.
  lemma {:induction false} FedIsConsumed(rules: Rules, maxOutputBytes: nat, p: Parser, chunks: seq<Text>)
    requires FeedAll(rules, maxOutputBytes, p, chunks).Ok? && IndexOfNewline(p.lineBuffer) == |p.lineBuffer|
    ensures var fed := FeedAll(rules, maxOutputBytes, p, chunks).value;
      Consume(rules, p.fields, p.lineBuffer + Concat(chunks)) ==
        Ok(Progress(fed.parser.fields, fed.parser.lineBuffer, fed.events))
    decreases |chunks|
  {
    if chunks == [] {
      assert p.lineBuffer + [] == p.lineBuffer;
      return;
    }
    var first := Feed(rules, maxOutputBytes, p, chunks[0]).value;
    LinesSplit(rules, maxOutputBytes, p, chunks[0], Concat(chunks[1..]));
    RestHasNoNewline(rules, p.fields, p.lineBuffer + chunks[0]);
    FedIsConsumed(rules, maxOutputBytes, first.parser, chunks[1..]);
  }

  const NEW_PARSER := Parser(FRESH, [], 0)

  /**
   Over all the feeds of a new parser: every line was short enough and consistent with the others, the fields
   are the first matches, each of its own recogniser, and the events are the markers in order and one ready,
   at the line where address and code were both known, with the details that the lines up to it gave.
   */
  lemma FeedsRead(rules: Rules, maxOutputBytes: nat, chunks: seq<Text>)
    requires FeedAll(rules, maxOutputBytes, NEW_PARSER, chunks).Ok?
    ensures var fed := FeedAll(rules, maxOutputBytes, NEW_PARSER, chunks).value;
      var lines := ShownAll(rules, RawLines(Concat(chunks)));
      && fed.parser.fields == FieldsOf(rules, lines, |lines|) && fed.events == EventsOf(rules, lines, |lines|)
      && fed.parser.lineBuffer == RestOf(Concat(chunks))
      && ShortEnough(RawLines(Concat(chunks)), |lines|) && AllConsistent(rules, lines, |lines|)
  {
    var text := Concat(chunks);
    assert NEW_PARSER.lineBuffer + text == text;
    FedIsConsumed(rules, maxOutputBytes, NEW_PARSER, chunks);
    OutputRead(rules, text);
  }

  /// One of the first `n` lines shows the value.
  ghost predicate Shows<T>(recognise: Text -> Recognised<T>, lines: seq<Text>, n: nat, value: T)
    requires n <= |lines|
  {
    exists i | 0 <= i < n :: lines[i] != [] && recognise(lines[i]) == Match(value)
  }

  /// The value is shown, or nothing is and it is the default.
  ghost predicate ShowsOr<T>(recognise: Text -> Recognised<T>, lines: seq<Text>, n: nat, value: T, other: T)
    requires n <= |lines|
  {
    Shows(recognise, lines, n, value) ||
      (value == other && forall i | 0 <= i < n && lines[i] != [] :: !recognise(lines[i]).Match?)
  }

  lemma FirstShows<T(!new)>(recognise: Text -> Recognised<T>, lines: seq<Text>, n: nat, other: T)
    requires n <= |lines|
    ensures var first := First(recognise, lines, n);
      if first.Some? then Shows(recognise, lines, n, first.value) && ShowsOr(recognise, lines, n, first.value, other)
      else ShowsOr(recognise, lines, n, other, other)
  {
    FirstIsFirst(recognise, lines, n);
    if First(recognise, lines, n).None? {
      forall i | 0 <= i < n && lines[i] != [] ensures !recognise(lines[i]).Match? {
        assert !Reads(recognise, lines[i]).Match?;
      }
    }
  }

  /** Each detail of a ready was shown by its own recogniser, or is the default where none was shown. */
  lemma DetailsAreShown(rules: Rules, lines: seq<Text>, n: nat)
    requires n <= |lines| && Known(rules, lines, n)
    ensures var d := DetailsOf(rules, lines, n);
      && Shows(rules.uri, lines, n, d.verificationUri) && Shows(rules.code, lines, n, d.userCode)
      && ShowsOr(rules.expiry, lines, n, d.expiresAt, rules.now + 900_000)
      && ShowsOr(rules.interval, lines, n, d.pollInterval, 5_000)
  {
    FirstShows(rules.uri, lines, n, []);
    FirstShows(rules.code, lines, n, []);
    FirstShows(rules.expiry, lines, n, rules.now + 900_000);
    FirstShows(rules.interval, lines, n, 5_000);
  }

  /// Where ready stands among the events.
  lemma {:induction false} ReadyComesFrom(rules: Rules, lines: seq<Text>, n: nat, d: Details) returns (k: nat)
    requires n <= |lines| && Ready(d) in EventsOf(rules, lines, n)
    ensures k < n && Known(rules, lines, k + 1) && !Known(rules, lines, k) && d == DetailsOf(rules, lines, k + 1)
  {
    if Ready(d) in EventsAt(rules, lines, n - 1) {
      return n - 1;
    }
    k := ReadyComesFrom(rules, lines, n - 1, d);
  }

  /**
   The ready that some feed of a new parser emits carries the address, the code, the expiry and the interval
   that the lines showed, each in its own place, 15 minutes from now and five seconds where they did not.
   */
  lemma EmittedReady(rules: Rules, maxOutputBytes: nat, chunks: seq<Text>, d: Details) returns (k: nat)
    requires FeedAll(rules, maxOutputBytes, NEW_PARSER, chunks).Ok?
    requires Ready(d) in FeedAll(rules, maxOutputBytes, NEW_PARSER, chunks).value.events
    ensures var lines := ShownAll(rules, RawLines(Concat(chunks)));
      && 0 < k <= |lines|
      && Shows(rules.uri, lines, k, d.verificationUri) && Shows(rules.code, lines, k, d.userCode)
      && ShowsOr(rules.expiry, lines, k, d.expiresAt, rules.now + 900_000)
      && ShowsOr(rules.interval, lines, k, d.pollInterval, 5_000)
  {
    var lines := ShownAll(rules, RawLines(Concat(chunks)));
    FeedsRead(rules, maxOutputBytes, chunks);
    var i := ReadyComesFrom(rules, lines, |lines|, d);
    DetailsAreShown(rules, lines, i + 1);
    return i + 1;
  }

  /** What `finish` adds: the last line's own events, and a ready that tells what all the lines gave. */
  lemma FinishReads(rules: Rules, maxOutputBytes: nat, chunks: seq<Text>)
    requires FeedAll(rules, maxOutputBytes, NEW_PARSER, chunks).Ok?
    ensures var p := FeedAll(rules, maxOutputBytes, NEW_PARSER, chunks).value.parser;
      var raw := RawLines(Concat(chunks)) + if p.lineBuffer == [] then [] else [p.lineBuffer];
      var lines := ShownAll(rules, raw);
      && (Finish(rules, p).Ok? <==> ShortEnough(raw, |raw|) && AllConsistent(rules, lines, |lines|))
      && (Finish(rules, p).Ok? ==> forall d | Ready(d) in Finish(rules, p).value.events ::
            Known(rules, lines, |lines|) && d == DetailsOf(rules, lines, |lines|))
  {
    var p := FeedAll(rules, maxOutputBytes, NEW_PARSER, chunks).value.parser;
    var before := RawLines(Concat(chunks));
    FeedsRead(rules, maxOutputBytes, chunks);
    if p.lineBuffer == [] {
      assert before + [] == before;
      return;
    }
    FinishLine(rules, p, before);
  }

  lemma ReadyEventIs(rules: Rules, lines: seq<Text>, n: nat)
    requires n <= |lines|
    ensures ReadyEvent(rules, FieldsOf(rules, lines, n)) ==
      if Known(rules, lines, n) then Some(Ready(DetailsOf(rules, lines, n))) else None
  {
  }

  lemma LastLineParsed(rules: Rules, f: Fields, before: seq<Text>, last: Text)
    requires ShortEnough(before, |before|) && AllConsistent(rules, ShownAll(rules, before), |before|)
    requires f == FieldsOf(rules, ShownAll(rules, before), |before|)
    ensures var raw := before + [last];
      var lines := ShownAll(rules, raw);
      var r := ParseLine(rules, f, DropCarriageReturn(last));
      && (r.Ok? <==> ShortEnough(raw, |raw|) && AllConsistent(rules, lines, |lines|))
      && (r.Ok? ==> r.value == Step(FieldsOf(rules, lines, |lines|), EventsAt(rules, lines, |before|)))
  {
    var raw := before + [last];
    var n := |before|;
    PrefixSays(rules, ShownAll(rules, before), ShownAll(rules, raw));
    assert forall i | 0 <= i < n :: raw[i] == before[i];
    assert raw[n] == last;
    if |DropCarriageReturn(last)| <= 8_192 {
      LineStep(rules, raw, n);
    }
  }

  lemma FinishLine(rules: Rules, p: Parser, before: seq<Text>)
    requires p.lineBuffer != [] && ShortEnough(before, |before|)
    requires AllConsistent(rules, ShownAll(rules, before), |before|)
    requires p.fields == FieldsOf(rules, ShownAll(rules, before), |before|)
    ensures var raw := before + [p.lineBuffer];
      var lines := ShownAll(rules, raw);
      && (Finish(rules, p).Ok? <==> ShortEnough(raw, |raw|) && AllConsistent(rules, lines, |lines|))
      && (Finish(rules, p).Ok? ==> forall d | Ready(d) in Finish(rules, p).value.events ::
            Known(rules, lines, |lines|) && d == DetailsOf(rules, lines, |lines|))
  {
    var raw := before + [p.lineBuffer];
    var lines := ShownAll(rules, raw);
    LastLineParsed(rules, p.fields, before, p.lineBuffer);
    ReadyEventIs(rules, lines, |lines|);
    if Finish(rules, p).Ok? {
      forall d | Ready(d) in Finish(rules, p).value.events
        ensures Known(rules, lines, |lines|) && d == DetailsOf(rules, lines, |lines|)
      {
        assert Ready(d) in EventsAt(rules, lines, |before|) ||
          ReadyEvent(rules, FieldsOf(rules, lines, |lines|)) == Some(Ready(d));
      }
    }
  }

  lemma {:induction false} FirstOfPrefix<T>(recognise: Text -> Recognised<T>, few: seq<Text>, more: seq<Text>, n: nat)
    requires n <= |few| <= |more| && forall i | 0 <= i < |few| :: more[i] == few[i]
    ensures First(recognise, more, n) == First(recognise, few, n)
  {
    if n > 0 {
      FirstOfPrefix(recognise, few, more, n - 1);
    }
  }

  lemma ConsistentPrefix<T(!new)>(recognise: Text -> Recognised<T>, few: seq<Text>, more: seq<Text>)
    requires |few| <= |more| && forall i | 0 <= i < |few| :: more[i] == few[i]
    ensures Consistent(recognise, more, |few|) <==> Consistent(recognise, few, |few|)
  {
  }

  /// What lines say does not depend on those that follow.
  lemma PrefixSays(rules: Rules, few: seq<Text>, more: seq<Text>)
    requires |few| <= |more| && forall i | 0 <= i < |few| :: more[i] == few[i]
    ensures FieldsOf(rules, more, |few|) == FieldsOf(rules, few, |few|)
    ensures AllConsistent(rules, more, |few|) <==> AllConsistent(rules, few, |few|)
  {
    FirstOfPrefix(rules.uri, few, more, |few|);
    FirstOfPrefix(rules.code, few, more, |few|);
    FirstOfPrefix(rules.expiry, few, more, |few|);
    FirstOfPrefix(rules.interval, few, more, |few|);
    FirstOfPrefix(TerminalOf(rules), few, more, |few|);
    ConsistentPrefix(rules.uri, few, more);
    ConsistentPrefix(rules.code, few, more);
    ConsistentPrefix(rules.expiry, few, more);
    ConsistentPrefix(rules.interval, few, more);
    ConsistentPrefix(TerminalOf(rules), few, more);
  }
}
