/** Decoding program events from transaction log lines: a stack machine that inverts the printing of a call tree. */
module EventLog {
  import opened Wrappers

  // ---------------------------------------------------------------------------
  // The four line patterns

  predicate IsLineEnd(c: char) {
    c == '\n' || c == '\r' || c == '\U{2028}' || c == '\U{2029}'
  }

  predicate IsSpace(c: char) {
    || IsLineEnd(c) || c == ' ' || '\t' <= c <= '\r' || c == '\U{00A0}' || c == '\U{1680}'
    || '\U{2000}' <= c <= '\U{200A}'
    || c == '\U{202F}' || c == '\U{205F}' || c == '\U{3000}' || c == '\U{FEFF}'
  }

  predicate IsDigit(c: char) {
    '0' <= c <= '9'
  }

  /** `.` matches everything but a line terminator. */
  predicate OneLine(s: string) {
    forall i | 0 <= i < |s| :: !IsLineEnd(s[i])
  }

  predicate Solid(s: string) {
    s != "" && NoSpace(s)
  }

  predicate NoSpace(s: string) {
    forall i | 0 <= i < |s| :: !IsSpace(s[i])
  }

  /** The length of the leading run of non-space characters. */
  function Run(s: string): (n: nat)
    ensures n <= |s|
  {
    if s == "" || IsSpace(s[0]) then 0 else 1 + Run(s[1..])
  }

  const PROGRAM: string := "Program "
  const INVOKE: string := " invoke ["
  const SUCCESS: string := " success"
  const FAILED: string := " failed:"
  const DATA: string := "Program data: "

  /** ` invoke \[\d+\]$` at the start of `s`. */
  predicate IsInvokeTail(s: string) {
    && |s| > |INVOKE| + 1 && INVOKE <= s && s[|s| - 1] == ']'
    && forall i | |INVOKE| <= i < |s| - 1 :: IsDigit(s[i])
  }

  /** ` (success|failed:.*)$` at the start of `s`. */
  predicate IsEndTail(s: string) {
    s == SUCCESS || (FAILED <= s && OneLine(s[|FAILED|..]))
  }

  /** `^Program (\S+)` followed by the rest of the line. */
  function Split(line: string): Option<(string, string)> {
    if !(PROGRAM <= line) then None
    else
      var rest := line[|PROGRAM|..];
      var n := Run(rest);
      if n == 0 then None else Some((rest[..n], rest[n..]))
  }

  function InvokedProgram(line: string): Option<string> {
    var split := Split(line);
    if split.Some? && IsInvokeTail(split.value.1) then Some(split.value.0) else None
  }

  predicate IsEnd(line: string) {
    var split := Split(line);
    split.Some? && IsEndTail(split.value.1)
  }

  /** `Program data: (\S+)`, at its leftmost occurrence anywhere in the line. */
  function Payload(line: string): Option<string> {
    if DATA <= line && Run(line[|DATA|..]) > 0 then Some(line[|DATA|..][..Run(line[|DATA|..])])
    else if line == "" then None
    else Payload(line[1..])
  }

  predicate MentionsInvoke(line: string) {
    exists i :: 0 <= i <= |line| && IsInvokeTail(line[i..])
  }

  /** How the decoder takes a line. The patterns are tried in this order. */
  datatype Mark = Opens(program: string) | Closes | Carries(payload: string) | Passed

  function MarkOf(line: string): Mark {
    var invoked, payload := InvokedProgram(line), Payload(line);
    if invoked.Some? then Opens(invoked.value)
    else if IsEnd(line) then Closes
    else if payload.Some? then Carries(payload.value)
    else Passed
  }

  function Marks(lines: seq<string>): seq<Mark> {
    if lines == [] then [] else [MarkOf(lines[0])] + Marks(lines[1..])
  }

  // ---------------------------------------------------------------------------
  // The decoder

  function Top(stack: seq<string>): Option<string> {
    if stack == [] then None else Some(stack[|stack| - 1])
  }

  function Decoded<E>(payload: string, decode: string -> Option<E>): seq<E> {
    var e := decode(payload);
    if e.Some? then [e.value] else []
  }

  function Popped(stack: seq<string>): seq<string> {
    if stack == [] then [] else stack[..|stack| - 1]
  }

  function Yield<E>(payload: string, stack: seq<string>, hasInvokes: bool, own: string,
                    decode: string -> Option<E>): seq<E>
  {
    if hasInvokes && Top(stack) != Some(own) then [] else Decoded(payload, decode)
  }

  /** The events of the remaining lines, given the stack so far. */
  function Scan<E>(marks: seq<Mark>, stack: seq<string>, hasInvokes: bool, own: string,
                   decode: string -> Option<E>): seq<E>
    decreases |marks|
  {
    if marks == [] then []
    else
      match marks[0]
      case Opens(program) => Scan(marks[1..], stack + [program], hasInvokes, own, decode)
      case Closes => Scan(marks[1..], Popped(stack), hasInvokes, own, decode)
      case Passed => Scan(marks[1..], stack, hasInvokes, own, decode)
      case Carries(payload) =>
        Yield(payload, stack, hasInvokes, own, decode) + Scan(marks[1..], stack, hasInvokes, own, decode)
  }

  predicate HasInvokes(lines: seq<string>) {
    exists i :: 0 <= i < |lines| && MentionsInvoke(lines[i])
  }

  function Decode<E>(lines: seq<string>, own: string, decode: string -> Option<E>): seq<E> {
    Scan(Marks(lines), [], HasInvokes(lines), own, decode)
  }

  lemma MarksHead(line: string, lines: seq<string>)
    ensures Marks([line] + lines) == [MarkOf(line)] + Marks(lines)
  {
    assert ([line] + lines)[1..] == lines;
  }

  lemma ScanHead<E>(mark: Mark, left: seq<Mark>, stack: seq<string>, hasInvokes: bool, own: string,
                    decode: string -> Option<E>)
    ensures var all := Scan([mark] + left, stack, hasInvokes, own, decode);
            && (mark.Opens? ==> all == Scan(left, stack + [mark.program], hasInvokes, own, decode))
            && (mark.Closes? ==> all == Scan(left, Popped(stack), hasInvokes, own, decode))
            && (mark.Passed? ==> all == Scan(left, stack, hasInvokes, own, decode))
            && (mark.Carries? ==>
                  all == Yield(mark.payload, stack, hasInvokes, own, decode)
                         + Scan(left, stack, hasInvokes, own, decode))
  {
    assert ([mark] + left)[1..] == left;
  }

  lemma Associative<E>(a: seq<E>, b: seq<E>, c: seq<E>)
    ensures a + (b + c) == (a + b) + c && a + [] == a
  {
  }

  method DecodeEvents<E>(lines: seq<string>, own: string, decode: string -> Option<E>) returns (events: seq<E>)
    ensures events == Decode(lines, own, decode)
  {
    var hasInvokes := HasInvokes(lines);
    var stack: seq<string> := [];
    events := [];
    ghost var all := Scan(Marks(lines), stack, hasInvokes, own, decode);
    assert lines[0..] == lines;
    for i := 0 to |lines|
      invariant events + Scan(Marks(lines[i..]), stack, hasInvokes, own, decode) == all
    {
      var mark := MarkOf(lines[i]);
      assert lines[i..] == [lines[i]] + lines[i + 1..];
      MarksHead(lines[i], lines[i + 1..]);
      ScanHead(mark, Marks(lines[i + 1..]), stack, hasInvokes, own, decode);
      match mark
      case Opens(program) => stack := stack + [program];
      case Closes => stack := Popped(stack);
      case Passed =>
      case Carries(payload) =>
        if hasInvokes && Top(stack) != Some(own) {
          Associative(events, [], Scan(Marks(lines[i + 1..]), stack, hasInvokes, own, decode));
          continue;
        }
        Associative(events, Decoded(payload, decode), Scan(Marks(lines[i + 1..]), stack, hasInvokes, own, decode));
        var decoded := decode(payload);
        if decoded.Some? { events := events + [decoded.value]; }
    }
  }

  // ---------------------------------------------------------------------------
  // What the runtime prints

  datatype Outcome = Succeeded | Failed(reason: string)

  /** The lines of one frame: data, other lines and calls, in order. */
  datatype Trace =
    | Done
    | Data(payload: string, extra: string, rest: Trace)
    | Other(line: string, rest: Trace)
    | Call(program: string, body: Trace, outcome: Outcome, rest: Trace)

  function Digits(n: nat): (s: string)
    ensures s != "" && forall i | 0 <= i < |s| :: IsDigit(s[i])
  {
    var last := ['0' + (n % 10) as char];
    if n < 10 then last else Digits(n / 10) + last
  }

  function InvokeLine(program: string, depth: nat): string {
    PROGRAM + program + INVOKE + Digits(depth) + "]"
  }

  function EndLine(program: string, outcome: Outcome): string {
    PROGRAM + program + if outcome.Succeeded? then SUCCESS else FAILED + outcome.reason
  }

  function DataLine(payload: string, extra: string): string {
    DATA + payload + extra
  }

  function Render(t: Trace, depth: nat): seq<string> {
    match t
    case Done => []
    case Data(payload, extra, rest) => [DataLine(payload, extra)] + Render(rest, depth)
    case Other(line, rest) => [line] + Render(rest, depth)
    case Call(program, body, outcome, rest) =>
      [InvokeLine(program, depth)] + Render(body, depth + 1) + [EndLine(program, outcome)] + Render(rest, depth)
  }

  /** A line the decoder passes over. */
  predicate Plain(line: string) {
    MarkOf(line) == Passed
  }

  /** A payload whose line cannot be taken for the start or the end of a frame. */
  predicate Proper(payload: string) {
    Solid(payload) && payload != "invoke" && payload != "success" && !("failed:" <= payload)
  }

  predicate WellFormed(t: Trace) {
    match t
    case Done => true
    case Data(payload, extra, rest) => Proper(payload) && (extra == "" || extra[0] == ' ') && WellFormed(rest)
    case Other(line, rest) => Plain(line) && WellFormed(rest)
    case Call(program, body, outcome, rest) =>
      Solid(program) && (outcome.Failed? ==> OneLine(outcome.reason)) && WellFormed(body) && WellFormed(rest)
  }

  /** Frames of `own`, with all they call, print what the decoder can read. Everything else may print
      any line that is not an invocation of `own`. */
  predicate Guarded(t: Trace, own: string) {
    match t
    case Done => true
    case Data(payload, extra, rest) => MarkOf(DataLine(payload, extra)) != Opens(own) && Guarded(rest, own)
    case Other(line, rest) => MarkOf(line) != Opens(own) && Guarded(rest, own)
    case Call(program, body, outcome, rest) =>
      && Solid(program) && Guarded(rest, own)
      && if program == own then WellFormed(body) && (outcome.Failed? ==> OneLine(outcome.reason))
          else Guarded(body, own)
  }

  /** The decodable payloads logged directly in frames of `own`, in order. */
  function Emitted<E>(t: Trace, frame: Option<string>, own: string, decode: string -> Option<E>): seq<E> {
    match t
    case Done => []
    case Data(payload, _, rest) =>
      (if frame == Some(own) then Decoded(payload, decode) else []) + Emitted(rest, frame, own, decode)
    case Other(_, rest) => Emitted(rest, frame, own, decode)
    case Call(program, body, _, rest) => Emitted(body, Some(program), own, decode) + Emitted(rest, frame, own, decode)
  }

  /** Every decodable payload, wherever it was logged. */
  function Everything<E>(t: Trace, decode: string -> Option<E>): seq<E> {
    match t
    case Done => []
    case Data(payload, _, rest) => Decoded(payload, decode) + Everything(rest, decode)
    case Other(_, rest) => Everything(rest, decode)
    case Call(_, body, _, rest) => Everything(body, decode) + Everything(rest, decode)
  }

  predicate HasCall(t: Trace) {
    match t
    case Done => false
    case Data(_, _, rest) => HasCall(rest)
    case Other(_, rest) => HasCall(rest)
    case Call(_, _, _, _) => true
  }

  // ---------------------------------------------------------------------------
  // Reading one printed line back

  lemma {:induction false} RunOf(word: string, tail: string)
    requires NoSpace(word)
    requires tail == "" || IsSpace(tail[0])
    ensures Run(word + tail) == |word|
  {
    if word == "" {
      assert word + tail == tail;
    } else {
      assert (word + tail)[1..] == word[1..] + tail;
      RunOf(word[1..], tail);
    }
  }

  lemma SplitOf(word: string, tail: string)
    requires Solid(word) && (tail == "" || IsSpace(tail[0]))
    ensures Split(PROGRAM + word + tail) == Some((word, tail))
  {
    var line := PROGRAM + word + tail;
    assert line[|PROGRAM|..] == word + tail;
    RunOf(word, tail);
  }

  lemma InvokeTailOf(depth: nat)
    ensures IsInvokeTail(INVOKE + Digits(depth) + "]")
  {
    var s := INVOKE + Digits(depth) + "]";
    forall i | |INVOKE| <= i < |s| - 1 ensures IsDigit(s[i]) {
      assert s[i] == Digits(depth)[i - |INVOKE|];
    }
  }

  lemma InvokeLineReads(program: string, depth: nat)
    requires Solid(program)
    ensures MarkOf(InvokeLine(program, depth)) == Opens(program) && MentionsInvoke(InvokeLine(program, depth))
  {
    var tail := INVOKE + Digits(depth) + "]";
    var line := InvokeLine(program, depth);
    assert line == PROGRAM + program + tail;
    SplitOf(program, tail);
    InvokeTailOf(depth);
    assert line[|PROGRAM + program|..] == tail;
  }

  lemma EndTailOf(outcome: Outcome, tail: string)
    requires outcome.Failed? ==> OneLine(outcome.reason)
    requires tail == if outcome.Succeeded? then SUCCESS else FAILED + outcome.reason
    ensures IsEndTail(tail) && !IsInvokeTail(tail)
  {
    if outcome.Failed? { assert tail[|FAILED|..] == outcome.reason; }
    assert tail[1] != INVOKE[1];
  }

  lemma EndLineReads(program: string, outcome: Outcome)
    requires Solid(program) && (outcome.Failed? ==> OneLine(outcome.reason))
    ensures MarkOf(EndLine(program, outcome)) == Closes
  {
    var tail := if outcome.Succeeded? then SUCCESS else FAILED + outcome.reason;
    EndTailOf(outcome, tail);
    SplitOf(program, tail);
  }

  lemma {:induction false} RunCovers(word: string, line: string)
    requires word <= line && NoSpace(word)
    ensures Run(line) >= |word|
  {
    if word != "" { RunCovers(word[1..], line[1..]); }
  }

  lemma TextStarts(payload: string, extra: string)
    requires Solid(payload) && (extra == "" || extra[0] == ' ')
    ensures Run(payload + extra) == |payload| && payload == (payload + extra)[..|payload|]
  {
    RunOf(payload, extra);
  }

  lemma TailText(text: string, pattern: string)
    requires pattern != "" && pattern <= " " + text
    ensures pattern[1..] <= text && (|pattern| == |text| + 1 ==> pattern[1..] == text)
  {
    assert (" " + text)[1..] == text;
    assert pattern == (" " + text)[..|pattern|];
  }

  lemma InvokeIsSpelled(payload: string, extra: string)
    requires Solid(payload) && (extra == "" || extra[0] == ' ') && INVOKE <= " " + (payload + extra)
    ensures payload == "invoke"
  {
    var text := payload + extra;
    TextStarts(payload, extra);
    TailText(text, INVOKE);
    assert INVOKE[1..] == "invoke [";
    assert text[..6] == "invoke" && text == text[..6] + text[6..];
    RunOf("invoke", text[6..]);
  }

  /** A payload and what follows it never look like the rest of an invocation line, but for "invoke". */
  lemma NotInvokeTail(payload: string, extra: string)
    requires Solid(payload) && payload != "invoke" && (extra == "" || extra[0] == ' ')
    ensures !IsInvokeTail(" " + (payload + extra))
  {
    if INVOKE <= " " + (payload + extra) { InvokeIsSpelled(payload, extra); }
  }

  lemma SuccessIsSpelled(payload: string, extra: string)
    requires Solid(payload) && (extra == "" || extra[0] == ' ') && " " + (payload + extra) == SUCCESS
    ensures payload == "success"
  {
    var text, word := payload + extra, "success";
    assert text == word by { TailText(text, SUCCESS); }
    assert word + "" == word;
    RunOf(word, "");
    TextStarts(payload, extra);
  }

  lemma FailedIsSpelled(payload: string, extra: string)
    requires Solid(payload) && (extra == "" || extra[0] == ' ') && FAILED <= " " + (payload + extra)
    ensures "failed:" <= payload
  {
    var text, word := payload + extra, "failed:";
    TextStarts(payload, extra);
    TailText(text, FAILED);
    assert FAILED[1..] == word && word <= text;
    RunCovers(word, text);
    PrefixOfPrefix(word, payload, text);
  }

  lemma PrefixOfPrefix(a: string, b: string, whole: string)
    requires a <= whole && b <= whole && |a| <= |b|
    ensures a <= b
  {
    assert a == whole[..|a|] && b == whole[..|b|];
    assert b[..|a|] == whole[..|a|];
  }

  /** A payload reads as the end of a frame only when it spells one. */
  lemma NotEndTail(payload: string, extra: string)
    requires Solid(payload) && payload != "success" && !("failed:" <= payload) && (extra == "" || extra[0] == ' ')
    ensures !IsEndTail(" " + (payload + extra))
  {
    if " " + (payload + extra) == SUCCESS { SuccessIsSpelled(payload, extra); }
    if FAILED <= " " + (payload + extra) { FailedIsSpelled(payload, extra); }
  }

  /** Alone on its line it then does. */
  lemma EndTailIsSpelled(payload: string)
    requires NoSpace(payload) && (payload == "success" || "failed:" <= payload)
    ensures IsEndTail(" " + payload)
  {
    var tail := " " + payload;
    if payload == "success" {
      assert tail == SUCCESS;
    } else {
      assert tail[..8] == " " + payload[..7] == FAILED;
      assert tail[8..] == payload[7..];
    }
  }

  lemma DataLineSplits(payload: string, extra: string)
    requires Solid(payload) && (extra == "" || extra[0] == ' ')
    ensures Split(DataLine(payload, extra)) == Some(("data:", " " + (payload + extra)))
  {
    var tail := " " + (payload + extra);
    assert DataLine(payload, extra) == PROGRAM + "data:" + tail;
    SplitOf("data:", tail);
  }

  lemma DataLineCarries(payload: string, extra: string)
    requires Solid(payload) && (extra == "" || extra[0] == ' ')
    ensures Payload(DataLine(payload, extra)) == Some(payload)
  {
    var line := DataLine(payload, extra);
    assert line[|DATA|..] == payload + extra;
    assert line[..|DATA|] == DATA;
    RunOf(payload, extra);
  }

  lemma DataLineReads(payload: string, extra: string)
    requires Proper(payload) && (extra == "" || extra[0] == ' ')
    ensures MarkOf(DataLine(payload, extra)) == Carries(payload)
  {
    DataLineSplits(payload, extra);
    DataLineCarries(payload, extra);
    NotInvokeTail(payload, extra);
    NotEndTail(payload, extra);
  }

  /** A payload alone on its line is read back exactly when it does not spell the end of a frame. */
  lemma DataLineReadsBack(payload: string)
    requires Solid(payload)
    ensures MarkOf(DataLine(payload, "")) == Carries(payload) <==> payload != "success" && !("failed:" <= payload)
  {
    DataLineSplits(payload, "");
    DataLineCarries(payload, "");
    assert payload + "" == payload;
    if payload == "success" || "failed:" <= payload {
      EndTailIsSpelled(payload);
    } else {
      NotEndTail(payload, "");
      if payload != "invoke" { NotInvokeTail(payload, ""); }
    }
  }

  /** Base64 text in whole groups of four, which is what the runtime prints, never spells anything else. */
  predicate IsBase64(s: string) {
    && |s| % 4 == 0
    && forall i | 0 <= i < |s| ::
         'A' <= s[i] <= 'Z' || 'a' <= s[i] <= 'z' || '0' <= s[i] <= '9' || s[i] == '+' || s[i] == '/' || s[i] == '='
  }

  lemma Base64IsProper(payload: string)
    requires payload != "" && IsBase64(payload)
    ensures Proper(payload)
  {
    assert |"success"| % 4 == 3 && |"invoke"| % 4 == 2;
    var word := "failed:";
    assert |payload| > 6 ==> payload[6] != word[6];
  }

  // ---------------------------------------------------------------------------
  // The patterns as equations between strings

  predicate AllDigits(s: string) {
    s != "" && forall i | 0 <= i < |s| :: IsDigit(s[i])
  }

  /** Some text, and after it the rest of an invocation line. */
  function Invoking(before: string, digits: string): string {
    before + " invoke [" + digits + "]"
  }

  /** The line ends in ` invoke [`, digits and `]`. */
  ghost predicate EndsInInvoke(line: string) {
    exists before: string, digits: string :: AllDigits(digits) && line == Invoking(before, digits)
  }

  /** The line of an invocation of `program`, at some depth. */
  ghost predicate SpellsInvoke(line: string, program: string) {
    Solid(program) && exists digits: string :: AllDigits(digits) && line == Invoking("Program " + program, digits)
  }

  function Failing(program: string, reason: string): string {
    "Program " + program + " failed:" + reason
  }

  /** The line of the end of some frame. */
  ghost predicate SpellsEnd(line: string) {
    || (exists program: string :: Solid(program) && line == "Program " + program + " success")
    || (exists program: string, reason: string ::
          Solid(program) && OneLine(reason) && line == Failing(program, reason))
  }

  lemma InvokeTailSplits(tail: string) returns (digits: string)
    requires IsInvokeTail(tail)
    ensures AllDigits(digits) && tail == Invoking("", digits)
  {
    digits := tail[|INVOKE|..|tail| - 1];
    assert tail == tail[..|INVOKE|] + digits + tail[|tail| - 1..];
    assert tail[|tail| - 1..] == "]";
    assert "" + " invoke [" == INVOKE;
  }

  lemma InvokingIsTail(before: string, digits: string)
    requires AllDigits(digits)
    ensures Invoking(before, digits)[|before|..] == INVOKE + digits + "]"
    ensures IsInvokeTail(INVOKE + digits + "]")
  {
    var tail := INVOKE + digits + "]";
    assert Invoking(before, digits) == before + tail;
    forall i | |INVOKE| <= i < |tail| - 1 ensures IsDigit(tail[i]) {
      assert tail[i] == digits[i - |INVOKE|];
    }
  }

  /** The decoder looks for invocation markers exactly where a line ends in one. */
  lemma MentionIsAtTheEnd(line: string)
    ensures MentionsInvoke(line) <==> EndsInInvoke(line)
  {
    if MentionsInvoke(line) {
      var i :| 0 <= i <= |line| && IsInvokeTail(line[i..]);
      var digits := InvokeTailSplits(line[i..]);
      assert line == line[..i] + line[i..];
      assert line == Invoking(line[..i], digits);
    }
    if EndsInInvoke(line) {
      var before: string, digits: string :| AllDigits(digits) && line == Invoking(before, digits);
      InvokingIsTail(before, digits);
    }
  }

  /** Some line ends in an invocation marker. */
  ghost predicate Marked(lines: seq<string>) {
    exists i :: 0 <= i < |lines| && EndsInInvoke(lines[i])
  }

  lemma MarkedLogs(lines: seq<string>)
    ensures HasInvokes(lines) <==> Marked(lines)
  {
    forall i | 0 <= i < |lines| ensures MentionsInvoke(lines[i]) <==> EndsInInvoke(lines[i]) {
      MentionIsAtTheEnd(lines[i]);
    }
  }

  lemma {:induction false} RunIsSolid(s: string)
    ensures NoSpace(s[..Run(s)]) && (s[Run(s)..] == "" || IsSpace(s[Run(s)..][0]))
  {
    if s != "" && !IsSpace(s[0]) {
      RunIsSolid(s[1..]);
      assert s[..Run(s)] == [s[0]] + s[1..][..Run(s[1..])];
      assert s[Run(s)..] == s[1..][Run(s[1..])..];
    }
  }

  lemma SplitJoins(line: string)
    requires Split(line).Some?
    ensures var (program, tail) := Split(line).value; Solid(program) && line == PROGRAM + program + tail
  {
    var rest := line[|PROGRAM|..];
    RunIsSolid(rest);
    assert line == line[..|PROGRAM|] + rest && line[..|PROGRAM|] == PROGRAM;
    assert rest == rest[..Run(rest)] + rest[Run(rest)..];
  }

  lemma OpenerSpells(line: string, program: string)
    requires InvokedProgram(line) == Some(program)
    ensures SpellsInvoke(line, program)
  {
    SplitJoins(line);
    var digits := InvokeTailSplits(Split(line).value.1);
    assert line == Invoking("Program " + program, digits);
  }

  lemma SpelledInvokeReads(line: string, program: string, digits: string)
    requires Solid(program) && AllDigits(digits) && line == Invoking("Program " + program, digits)
    ensures InvokedProgram(line) == Some(program)
  {
    var tail := INVOKE + digits + "]";
    InvokingIsTail("Program " + program, digits);
    assert line == PROGRAM + program + tail;
    SplitOf(program, tail);
  }

  /** A line opens a frame of `program` exactly when it is the text of an invocation of it. */
  lemma OpensReads(line: string, program: string)
    ensures MarkOf(line) == Opens(program) <==> SpellsInvoke(line, program)
  {
    if InvokedProgram(line) == Some(program) { OpenerSpells(line, program); }
    if SpellsInvoke(line, program) {
      var digits: string :| AllDigits(digits) && line == Invoking("Program " + program, digits);
      SpelledInvokeReads(line, program, digits);
    }
  }

  lemma EndSpells(line: string)
    requires IsEnd(line)
    ensures SpellsEnd(line)
  {
    SplitJoins(line);
    var (program, tail) := Split(line).value;
    if tail != SUCCESS {
      assert tail == tail[..|FAILED|] + tail[|FAILED|..];
      assert line == Failing(program, tail[|FAILED|..]);
    }
  }

  lemma SpelledEndReads(program: string, tail: string)
    requires Solid(program) && IsEndTail(tail)
    ensures MarkOf(PROGRAM + program + tail) == Closes
  {
    assert tail[0] == ' ' && tail[1] != INVOKE[1];
    SplitOf(program, tail);
  }

  lemma SpelledFailureReads(program: string, reason: string)
    requires Solid(program) && OneLine(reason)
    ensures MarkOf(Failing(program, reason)) == Closes
  {
    var tail := FAILED + reason;
    assert tail[|FAILED|..] == reason;
    assert Failing(program, reason) == PROGRAM + program + tail;
    SpelledEndReads(program, tail);
  }

  /** A line closes a frame exactly when it is the text of a success or of a failure. */
  lemma ClosesReads(line: string)
    ensures MarkOf(line) == Closes <==> SpellsEnd(line)
  {
    if MarkOf(line) == Closes { EndSpells(line); }
    forall program: string | Solid(program) && line == "Program " + program + " success"
      ensures MarkOf(line) == Closes
    {
      SpelledEndReads(program, SUCCESS);
    }
    forall program: string, reason: string | Solid(program) && OneLine(reason) && line == Failing(program, reason)
      ensures MarkOf(line) == Closes
    {
      SpelledFailureReads(program, reason);
    }
  }

  /** `Program data: ` and something that is no space, at position `i`. */
  predicate DataAt(line: string, i: nat) {
    i + |DATA| < |line| && line[i..i + |DATA|] == "Program data: " && !IsSpace(line[i + |DATA|])
  }

  lemma DataAtStart(line: string)
    ensures DataAt(line, 0) <==> DATA <= line && Run(line[|DATA|..]) > 0
  {
    if DATA <= line && |line| > |DATA| { assert line[|DATA|..][0] == line[|DATA|]; }
  }

  lemma DataShifts(line: string, i: nat)
    requires line != ""
    ensures DataAt(line, i + 1) <==> DataAt(line[1..], i)
  {
    var rest := line[1..];
    if i + 1 + |DATA| < |line| {
      assert rest[i..i + |DATA|] == line[i + 1..i + 1 + |DATA|];
      assert rest[i + |DATA|] == line[i + 1 + |DATA|];
    }
  }

  lemma {:induction false} NoPayloadNoData(line: string, i: nat)
    requires Payload(line).None?
    ensures !DataAt(line, i)
    decreases i
  {
    if i == 0 {
      DataAtStart(line);
    } else if line != "" {
      DataShifts(line, i - 1);
      NoPayloadNoData(line[1..], i - 1);
    }
  }

  lemma {:induction false} PayloadHasPlace(line: string) returns (i: nat)
    requires Payload(line).Some?
    ensures DataAt(line, i)
    decreases |line|
  {
    DataAtStart(line);
    if DataAt(line, 0) {
      i := 0;
    } else {
      var j := PayloadHasPlace(line[1..]);
      DataShifts(line, j);
      i := j + 1;
    }
  }

  /** The payload is the longest text without spaces after the first such position. */
  lemma {:induction false} PayloadIsFirst(line: string, i: nat, payload: string)
    requires DataAt(line, i) && forall j: nat | j < i :: !DataAt(line, j)
    requires payload == line[i + |DATA|..][..Run(line[i + |DATA|..])]
    ensures Payload(line) == Some(payload)
    decreases i
  {
    DataAtStart(line);
    if i > 0 {
      assert !DataAt(line, 0);
      DataShifts(line, i - 1);
      forall j: nat | j < i - 1 ensures !DataAt(line[1..], j) { DataShifts(line, j); }
      assert line[1..][i - 1 + |DATA|..] == line[i + |DATA|..];
      PayloadIsFirst(line[1..], i - 1, payload);
    }
  }

  /** A line that starts no frame and ends none carries the first stretch without spaces after a first
      `Program data: ` that one follows; without such a place it is passed over. */
  lemma CarriesReads(line: string)
    requires !SpellsEnd(line) && forall program: string :: !SpellsInvoke(line, program)
    ensures MarkOf(line).Passed? <==> forall i: nat :: !DataAt(line, i)
    ensures forall i: nat, payload: string, after: string |
              DataAt(line, i) && (forall j: nat | j < i :: !DataAt(line, j))
              && Solid(payload) && (after == "" || IsSpace(after[0])) && line[i + |DATA|..] == payload + after ::
              MarkOf(line) == Carries(payload)
  {
    ClosesReads(line);
    if MarkOf(line).Opens? { OpensReads(line, MarkOf(line).program); }
    if Payload(line).None? {
      forall i: nat ensures !DataAt(line, i) { NoPayloadNoData(line, i); }
    } else {
      var i := PayloadHasPlace(line);
    }
    forall i: nat, payload: string, after: string |
      DataAt(line, i) && (forall j: nat | j < i :: !DataAt(line, j))
      && Solid(payload) && (after == "" || IsSpace(after[0])) && line[i + |DATA|..] == payload + after
      ensures MarkOf(line) == Carries(payload)
    {
      RunOf(payload, after);
      PayloadIsFirst(line, i, payload);
    }
  }

  // ---------------------------------------------------------------------------
  // Decoding inverts rendering

  function Shape(t: Trace): seq<Mark> {
    match t
    case Done => []
    case Data(payload, _, rest) => [Carries(payload)] + Shape(rest)
    case Other(_, rest) => [Passed] + Shape(rest)
    case Call(program, body, _, rest) => [Opens(program)] + Shape(body) + [Closes] + Shape(rest)
  }

  lemma {:induction false} MarksOfJoin(a: seq<string>, b: seq<string>)
    ensures Marks(a + b) == Marks(a) + Marks(b)
  {
    if a == [] {
      assert a + b == b;
    } else {
      assert (a + b)[1..] == a[1..] + b;
      MarksOfJoin(a[1..], b);
    }
  }

  lemma MarksOfCall(first: string, body: seq<string>, last: string, rest: seq<string>)
    ensures Marks([first] + body + [last] + rest) == [MarkOf(first)] + Marks(body) + [MarkOf(last)] + Marks(rest)
  {
    MarksOfJoin([first] + body + [last], rest);
    MarksOfJoin([first] + body, [last]);
    MarksOfJoin([first], body);
    MarksHead(first, []);
    MarksHead(last, []);
    assert [first] + [] == [first] && [last] + [] == [last];
  }

  lemma {:induction false} RenderReads(t: Trace, depth: nat)
    requires WellFormed(t)
    ensures Marks(Render(t, depth)) == Shape(t)
  {
    match t
    case Done =>
    case Data(payload, extra, rest) =>
      DataLineReads(payload, extra);
      RenderReads(rest, depth);
      MarksHead(DataLine(payload, extra), Render(rest, depth));
    case Other(line, rest) =>
      RenderReads(rest, depth);
      MarksHead(line, Render(rest, depth));
    case Call(program, body, outcome, rest) =>
      InvokeLineReads(program, depth);
      EndLineReads(program, outcome);
      RenderReads(body, depth + 1);
      RenderReads(rest, depth);
      MarksOfCall(InvokeLine(program, depth), Render(body, depth + 1), EndLine(program, outcome), Render(rest, depth));
  }

  lemma CallRegroups<T>(first: T, body: seq<T>, last: T, rest: seq<T>, more: seq<T>)
    ensures [first] + body + [last] + rest + more == [first] + (body + ([last] + (rest + more)))
  {
  }

  /** Scanning the lines of one frame yields its events and leaves the stack as it was. */
  lemma {:induction false} ScanShape<E>(t: Trace, more: seq<Mark>, stack: seq<string>, own: string,
                                        decode: string -> Option<E>)
    ensures Scan(Shape(t) + more, stack, true, own, decode)
         == Emitted(t, Top(stack), own, decode) + Scan(more, stack, true, own, decode)
    decreases t
  {
    match t
    case Done =>
      assert Shape(t) + more == more;
    case Data(payload, _, rest) =>
      assert Shape(t) + more == [Carries(payload)] + (Shape(rest) + more);
      ScanHead(Carries(payload), Shape(rest) + more, stack, true, own, decode);
      ScanShape(rest, more, stack, own, decode);
    case Other(_, rest) =>
      assert Shape(t) + more == [Passed] + (Shape(rest) + more);
      ScanHead(Passed, Shape(rest) + more, stack, true, own, decode);
      ScanShape(rest, more, stack, own, decode);
    case Call(program, body, _, rest) =>
      var after := Shape(rest) + more;
      CallRegroups(Opens(program), Shape(body), Closes, Shape(rest), more);
      ScanHead(Opens(program), Shape(body) + ([Closes] + after), stack, true, own, decode);
      ScanShape(body, [Closes] + after, stack + [program], own, decode);
      ScanHead(Closes, after, stack + [program], true, own, decode);
      assert Popped(stack + [program]) == stack;
      ScanShape(rest, more, stack, own, decode);
      Associative(Emitted(body, Some(program), own, decode), Emitted(rest, Top(stack), own, decode),
          Scan(more, stack, true, own, decode));
  }

  /** Without invocation lines the stack is never consulted. */
  lemma {:induction false} ScanAll<E>(t: Trace, more: seq<Mark>, stack: seq<string>, own: string,
                                      decode: string -> Option<E>)
    requires !HasCall(t)
    ensures Scan(Shape(t) + more, stack, false, own, decode)
              == Everything(t, decode) + Scan(more, stack, false, own, decode)
    decreases t
  {
    match t
    case Done =>
      assert Shape(t) + more == more;
    case Data(payload, _, rest) =>
      assert Shape(t) + more == [Carries(payload)] + (Shape(rest) + more);
      ScanHead(Carries(payload), Shape(rest) + more, stack, false, own, decode);
      ScanAll(rest, more, stack, own, decode);
    case Other(_, rest) =>
      assert Shape(t) + more == [Passed] + (Shape(rest) + more);
      ScanHead(Passed, Shape(rest) + more, stack, false, own, decode);
      ScanAll(rest, more, stack, own, decode);
  }

  lemma {:induction false} CallsAreMentioned(t: Trace, depth: nat, own: string)
    requires Guarded(t, own) && HasCall(t)
    ensures HasInvokes(Render(t, depth))
  {
    var lines := Render(t, depth);
    match t
    case Data(_, _, rest) =>
      CallsAreMentioned(rest, depth, own);
      MentionStays(lines[..1], Render(rest, depth));
    case Other(_, rest) =>
      CallsAreMentioned(rest, depth, own);
      MentionStays(lines[..1], Render(rest, depth));
    case Call(program, _, _, _) =>
      InvokeLineReads(program, depth);
      assert MentionsInvoke(lines[0]);
  }

  lemma MentionStays(before: seq<string>, lines: seq<string>)
    requires HasInvokes(lines)
    ensures HasInvokes(before + lines)
  {
    var i :| 0 <= i < |lines| && MentionsInvoke(lines[i]);
    assert (before + lines)[|before| + i] == lines[i];
  }

  // ---------------------------------------------------------------------------
  // Other programs may print what they like

  lemma EndLineNeverOpens(program: string, outcome: Outcome)
    requires Solid(program)
    ensures !MarkOf(EndLine(program, outcome)).Opens?
  {
    var tail := if outcome.Succeeded? then SUCCESS else FAILED + outcome.reason;
    assert tail[1] != INVOKE[1];
    SplitOf(program, tail);
  }

  /** A line outside every frame of `own` that does not open one yields nothing. */
  lemma ScanOutside<E>(mark: Mark, left: seq<Mark>, stack: seq<string>, own: string, decode: string -> Option<E>)
    returns (after: seq<string>)
    requires own !in stack && mark != Opens(own)
    ensures own !in after
    ensures Scan([mark] + left, stack, true, own, decode) == Scan(left, after, true, own, decode)
  {
    ScanHead(mark, left, stack, true, own, decode);
    after := match mark
      case Opens(program) => stack + [program]
      case Closes => Popped(stack)
      case _ => stack;
    if mark.Carries? { assert Yield(mark.payload, stack, true, own, decode) == []; }
  }

  /** One whole call of `own`, from a stack without it, yields its events and restores the stack. */
  lemma ScanOwnCall<E>(t: Trace, depth: nat, left: seq<Mark>, stack: seq<string>, own: string,
                       decode: string -> Option<E>)
    requires t.Call? && t.program == own && Solid(own) && WellFormed(t.body)
    requires t.outcome.Failed? ==> OneLine(t.outcome.reason)
    ensures Scan([MarkOf(InvokeLine(own, depth))]
                 + (Marks(Render(t.body, depth + 1)) + ([MarkOf(EndLine(own, t.outcome))] + left)),
              stack, true, own, decode)
         == Emitted(t.body, Some(own), own, decode) + Scan(left, stack, true, own, decode)
  {
    InvokeLineReads(own, depth);
    EndLineReads(own, t.outcome);
    RenderReads(t.body, depth + 1);
    ScanHead(Opens(own), Shape(t.body) + ([Closes] + left), stack, true, own, decode);
    ScanShape(t.body, [Closes] + left, stack + [own], own, decode);
    ScanHead(Closes, left, stack + [own], true, own, decode);
    assert Popped(stack + [own]) == stack;
  }

  /** One whole call of another program yields what `own` logs inside it. */
  lemma {:induction false} ScanOtherCall<E>(t: Trace, depth: nat, left: seq<Mark>, stack: seq<string>, own: string,
                                            decode: string -> Option<E>)
    returns (after: seq<string>)
    requires t.Call? && t.program != own && Solid(t.program) && Guarded(t.body, own) && own !in stack
    ensures own !in after
    ensures Scan([MarkOf(InvokeLine(t.program, depth))]
                 + (Marks(Render(t.body, depth + 1)) + ([MarkOf(EndLine(t.program, t.outcome))] + left)),
              stack, true, own, decode)
         == Emitted(t.body, Some(t.program), own, decode) + Scan(left, after, true, own, decode)
    decreases t, 0
  {
    var first, last := MarkOf(InvokeLine(t.program, depth)), MarkOf(EndLine(t.program, t.outcome));
    InvokeLineReads(t.program, depth);
    EndLineNeverOpens(t.program, t.outcome);
    var inside := ScanOutside(first, Marks(Render(t.body, depth + 1)) + ([last] + left), stack, own, decode);
    var called := ScanGuarded(t.body, depth + 1, [last] + left, inside, Some(t.program), own, decode);
    after := ScanOutside(last, left, called, own, decode);
  }

  /** Outside the frames of `own` the stack may go wrong, but `own` never gets onto it. */
  lemma {:induction false} ScanGuarded<E>(t: Trace, depth: nat, more: seq<Mark>, stack: seq<string>,
                                          frame: Option<string>, own: string, decode: string -> Option<E>)
    returns (after: seq<string>)
    requires Guarded(t, own) && own !in stack && frame != Some(own)
    ensures own !in after
    ensures Scan(Marks(Render(t, depth)) + more, stack, true, own, decode)
         == Emitted(t, frame, own, decode) + Scan(more, after, true, own, decode)
    decreases t, 2
  {
    match t
    case Done =>
      after := stack;
      assert Marks(Render(t, depth)) + more == more;
    case Data(_, _, rest) =>
      LineUnfolds(t, depth, frame, own, decode);
      after := ScanGuardedLine(Line(t), rest, depth, more, stack, frame, own, decode);
    case Other(_, rest) =>
      LineUnfolds(t, depth, frame, own, decode);
      after := ScanGuardedLine(Line(t), rest, depth, more, stack, frame, own, decode);
    case Call(_, _, _, _) =>
      after := ScanGuardedCall(t, depth, more, stack, frame, own, decode);
  }

  function Line(t: Trace): string
    requires t.Data? || t.Other?
  {
    if t.Data? then DataLine(t.payload, t.extra) else t.line
  }

  lemma LineUnfolds<E>(t: Trace, depth: nat, frame: Option<string>, own: string, decode: string -> Option<E>)
    requires t.Data? || t.Other?
    requires frame != Some(own) && Guarded(t, own)
    ensures Render(t, depth) == [Line(t)] + Render(t.rest, depth)
    ensures Emitted(t, frame, own, decode) == Emitted(t.rest, frame, own, decode)
    ensures MarkOf(Line(t)) != Opens(own) && Guarded(t.rest, own)
  {
  }

  lemma CallMarks(t: Trace, depth: nat, more: seq<Mark>)
    requires t.Call?
    ensures Marks(Render(t, depth)) + more
         == [MarkOf(InvokeLine(t.program, depth))]
            + (Marks(Render(t.body, depth + 1))
               + ([MarkOf(EndLine(t.program, t.outcome))] + (Marks(Render(t.rest, depth)) + more)))
  {
    var first, last := InvokeLine(t.program, depth), EndLine(t.program, t.outcome);
    MarksOfCall(first, Render(t.body, depth + 1), last, Render(t.rest, depth));
    CallRegroups(MarkOf(first), Marks(Render(t.body, depth + 1)), MarkOf(last), Marks(Render(t.rest, depth)), more);
  }

  lemma {:induction false} ScanGuardedCall<E>(t: Trace, depth: nat, more: seq<Mark>, stack: seq<string>,
                                              frame: Option<string>, own: string, decode: string -> Option<E>)
    returns (after: seq<string>)
    requires t.Call? && Guarded(t, own) && own !in stack && frame != Some(own)
    ensures own !in after
    ensures Scan(Marks(Render(t, depth)) + more, stack, true, own, decode)
         == Emitted(t, frame, own, decode) + Scan(more, after, true, own, decode)
    decreases t, 1
  {
    var outer, back := Marks(Render(t.rest, depth)), stack;
    CallMarks(t, depth, more);
    if t.program == own {
      ScanOwnCall(t, depth, outer + more, stack, own, decode);
    } else {
      back := ScanOtherCall(t, depth, outer + more, stack, own, decode);
    }
    after := ScanGuarded(t.rest, depth, more, back, frame, own, decode);
    Associative(Emitted(t.body, Some(t.program), own, decode), Emitted(t.rest, frame, own, decode),
      Scan(more, after, true, own, decode));
  }

  lemma {:induction false} ScanGuardedLine<E>(line: string, rest: Trace, depth: nat, more: seq<Mark>,
                                              stack: seq<string>, frame: Option<string>, own: string,
                                              decode: string -> Option<E>)
    returns (after: seq<string>)
    requires MarkOf(line) != Opens(own) && Guarded(rest, own) && own !in stack && frame != Some(own)
    ensures own !in after
    ensures Scan(Marks([line] + Render(rest, depth)) + more, stack, true, own, decode)
         == Emitted(rest, frame, own, decode) + Scan(more, after, true, own, decode)
    decreases rest, 3
  {
    var marks := Marks(Render(rest, depth));
    MarksHead(line, Render(rest, depth));
    HeadRegroups(MarkOf(line), marks, more);
    var next := ScanOutside(MarkOf(line), marks + more, stack, own, decode);
    after := ScanGuarded(rest, depth, more, next, frame, own, decode);
  }

  lemma HeadRegroups<T>(head: T, body: seq<T>, more: seq<T>)
    ensures ([head] + body) + more == [head] + (body + more)
  {
  }

  lemma {:induction false} WellFormedIsGuarded(t: Trace, own: string)
    requires WellFormed(t)
    ensures Guarded(t, own)
  {
    match t
    case Done =>
    case Data(payload, extra, rest) =>
      DataLineReads(payload, extra);
      WellFormedIsGuarded(rest, own);
    case Other(_, rest) =>
      WellFormedIsGuarded(rest, own);
    case Call(_, body, _, rest) =>
      WellFormedIsGuarded(body, own);
      WellFormedIsGuarded(rest, own);
  }

  /** The decoder returns exactly the decodable payloads logged in frames of its own program, in order,
      whatever other programs print outside those frames, short of an invocation of `own`. */
  lemma DecodingInvertsRendering<E>(t: Trace, depth: nat, own: string, decode: string -> Option<E>)
    requires Guarded(t, own) && Marked(Render(t, depth))
    ensures Decode(Render(t, depth), own, decode) == Emitted(t, None, own, decode)
  {
    MarkedLogs(Render(t, depth));
    var after := ScanGuarded(t, depth, [], [], None, own, decode);
    assert Marks(Render(t, depth)) + [] == Marks(Render(t, depth));
    assert Scan([], after, true, own, decode) == [];
  }

  /** Every log that prints a call has such a marker. */
  lemma CalledLogsDecode<E>(t: Trace, depth: nat, own: string, decode: string -> Option<E>)
    requires Guarded(t, own) && HasCall(t)
    ensures Decode(Render(t, depth), own, decode) == Emitted(t, None, own, decode)
  {
    CallsAreMentioned(t, depth, own);
    MarkedLogs(Render(t, depth));
    DecodingInvertsRendering(t, depth, own, decode);
  }

  /** A log in which no line ends in an invocation marker yields every decodable payload. */
  lemma UnmarkedLogYieldsEverything<E>(t: Trace, depth: nat, own: string, decode: string -> Option<E>)
    requires WellFormed(t) && !Marked(Render(t, depth))
    ensures Decode(Render(t, depth), own, decode) == Everything(t, decode)
  {
    MarkedLogs(Render(t, depth));
    WellFormedIsGuarded(t, "");
    if HasCall(t) { CallsAreMentioned(t, depth, ""); }
    RenderReads(t, depth);
    ScanAll(t, [], [], own, decode);
    assert Shape(t) + [] == Shape(t);
  }

  /** The lines of some payloads and nothing else. */
  function DataLog(payloads: seq<string>): seq<string> {
    if payloads == [] then [] else ["Program data: " + payloads[0]] + DataLog(payloads[1..])
  }

  function AllDecoded<E>(payloads: seq<string>, decode: string -> Option<E>): seq<E> {
    if payloads == [] then [] else Decoded(payloads[0], decode) + AllDecoded(payloads[1..], decode)
  }

  function Bare(payloads: seq<string>): Trace {
    if payloads == [] then Done else Data(payloads[0], "", Bare(payloads[1..]))
  }

  lemma {:induction false} BareRenders<E>(payloads: seq<string>, depth: nat, decode: string -> Option<E>)
    requires forall i | 0 <= i < |payloads| :: payloads[i] != "" && IsBase64(payloads[i])
    ensures Render(Bare(payloads), depth) == DataLog(payloads) && WellFormed(Bare(payloads))
    ensures Everything(Bare(payloads), decode) == AllDecoded(payloads, decode)
    ensures !Marked(DataLog(payloads))
  {
    if payloads != [] {
      Base64IsProper(payloads[0]);
      BareRenders(payloads[1..], depth, decode);
      assert DataLine(payloads[0], "") == "Program data: " + payloads[0];
      DataIsNoInvocation(payloads[0]);
    }
  }

  lemma DataIsNoInvocation(payload: string)
    requires payload != "" && IsBase64(payload)
    ensures !EndsInInvoke("Program data: " + payload)
  {
    var line := "Program data: " + payload;
    assert line[|line| - 1] == payload[|payload| - 1] != ']';
    forall before: string, digits: string ensures line != Invoking(before, digits) {
      var other := Invoking(before, digits);
      assert other[|other| - 1] == ']';
    }
  }

  /** A log of base64 payloads on data lines alone yields all that can be decoded, in order. */
  lemma BareDataDecodes<E>(payloads: seq<string>, own: string, decode: string -> Option<E>)
    requires forall i | 0 <= i < |payloads| :: payloads[i] != "" && IsBase64(payloads[i])
    ensures Decode(DataLog(payloads), own, decode) == AllDecoded(payloads, decode)
  {
    BareRenders(payloads, 1, decode);
    UnmarkedLogYieldsEverything(Bare(payloads), 1, own, decode);
  }

  // ---------------------------------------------------------------------------
  // Truncated logs

  lemma {:induction false} ScanPrefix<E>(a: seq<Mark>, b: seq<Mark>, stack: seq<string>, hasInvokes: bool,
                                         own: string, decode: string -> Option<E>)
    ensures Scan(a, stack, hasInvokes, own, decode) <= Scan(a + b, stack, hasInvokes, own, decode)
    decreases |a|
  {
    if a != [] {
      assert (a + b)[1..] == a[1..] + b;
      var next :=
        match a[0]
        case Opens(program) => stack + [program]
        case Closes => Popped(stack)
        case _ => stack;
      ScanPrefix(a[1..], b, next, hasInvokes, own, decode);
    }
  }

  /** Cutting a log short loses events at the end only, as long as one invocation marker is left. */
  lemma TruncationKeepsPrefix<E>(lines: seq<string>, k: nat, own: string, decode: string -> Option<E>)
    requires k <= |lines| && Marked(lines[..k])
    ensures Decode(lines[..k], own, decode) <= Decode(lines, own, decode)
  {
    MarkedLogs(lines[..k]);
    assert lines == lines[..k] + lines[k..];
    MarksOfJoin(lines[..k], lines[k..]);
    var i :| 0 <= i < k && MentionsInvoke(lines[..k][i]);
    assert MentionsInvoke(lines[i]);
    ScanPrefix(Marks(lines[..k]), Marks(lines[k..]), [], true, own, decode);
  }

  // ---------------------------------------------------------------------------
  // Log messages

  const LOG: string := "Program log: "

  predicate StartsAt(line: string, i: nat) {
    i <= |line| && DATA <= line[i..]
  }

  lemma {:induction false} PayloadSkips(line: string, n: nat)
    requires n <= |line| && forall i | 0 <= i < n :: !StartsAt(line, i)
    ensures Payload(line) == Payload(line[n..])
  {
    if n == 0 {
      assert line[0..] == line;
    } else {
      PayloadSkips(line, n - 1);
      assert !StartsAt(line, n - 1);
      assert line[n - 1..][1..] == line[n..];
    }
  }

  lemma NoDataInPrefix(message: string, i: nat)
    requires i < |LOG|
    ensures !StartsAt(LOG + message, i)
  {
    var line := LOG + message;
    assert line[i] == LOG[i];
    if i == 0 {
      assert line[8] == 'l' && DATA[8] == 'd';
    } else {
      assert line[i] != 'P' && DATA[0] == 'P';
    }
  }

  /** A logged message is passed over exactly when it neither spells the rest of an invocation or end
      line nor contains a data line. */
  lemma LogLineIsPlain(message: string)
    ensures Plain(LOG + message) <==>
            !IsInvokeTail(" " + message) && !IsEndTail(" " + message) && Payload(message).None?
  {
    var line := LOG + message;
    assert line == PROGRAM + "log:" + (" " + message);
    SplitOf("log:", " " + message);
    forall i | 0 <= i < |LOG| ensures !StartsAt(line, i) {
      NoDataInPrefix(message, i);
    }
    PayloadSkips(line, |LOG|);
    assert line[|LOG|..] == message;
  }

  // ---------------------------------------------------------------------------
  // Which lines inside a frame of `own` do harm

  lemma MarksOfFour(a: string, b: string, c: string, d: string)
    ensures Marks([a, b, c, d]) == [MarkOf(a)] + ([MarkOf(b)] + ([MarkOf(c)] + ([MarkOf(d)] + [])))
  {
    MarksHead(d, []);
    MarksHead(c, [d]);
    MarksHead(b, [c, d]);
    MarksHead(a, [b, c, d]);
    assert [a] + [b, c, d] == [a, b, c, d] && [b] + [c, d] == [b, c, d] && [c] + [d] == [c, d] && [d] + [] == [d];
  }

  /** A payload, then the end of a frame: what the stack decides. */
  lemma ScanLastTwo<E>(payload: string, stack: seq<string>, own: string, decode: string -> Option<E>)
    ensures Scan([Carries(payload)] + ([Closes] + []), stack, true, own, decode)
              == Yield(payload, stack, true, own, decode)
  {
    ScanHead(Carries(payload), [Closes] + [], stack, true, own, decode);
    ScanHead(Closes, [], stack, true, own, decode);
    assert Scan([], Popped(stack), true, own, decode) == [];
  }

  /** What one line before it does to the event. */
  lemma ScanLineThenData<E>(mark: Mark, payload: string, stack: seq<string>, own: string, decode: string -> Option<E>)
    ensures var all := Scan([mark] + ([Carries(payload)] + ([Closes] + [])), stack, true, own, decode);
            && (mark.Opens? ==> all == Yield(payload, stack + [mark.program], true, own, decode))
            && (mark.Closes? ==> all == Yield(payload, Popped(stack), true, own, decode))
            && (mark.Passed? ==> all == Yield(payload, stack, true, own, decode))
            && (mark.Carries? ==>
                  all == Yield(mark.payload, stack, true, own, decode) + Yield(payload, stack, true, own, decode))
  {
    var left := [Carries(payload)] + ([Closes] + []);
    ScanHead(mark, left, stack, true, own, decode);
    match mark
    case Opens(program) => ScanLastTwo(payload, stack + [program], own, decode);
    case Closes => ScanLastTwo(payload, Popped(stack), own, decode);
    case Passed => ScanLastTwo(payload, stack, own, decode);
    case Carries(_) => ScanLastTwo(payload, stack, own, decode);
  }

  /** The log of one call of `own` that prints a line and then data. */
  function OwnLog(own: string, depth: nat, line: string, payload: string): seq<string> {
    [InvokeLine(own, depth), line, DataLine(payload, ""), EndLine(own, Succeeded)]
  }

  lemma OwnLogMarks(own: string, depth: nat, line: string, payload: string)
    requires Solid(own) && Proper(payload)
    ensures Marks(OwnLog(own, depth, line, payload))
         == [Opens(own)] + ([MarkOf(line)] + ([Carries(payload)] + ([Closes] + [])))
    ensures HasInvokes(OwnLog(own, depth, line, payload))
  {
    var lines := OwnLog(own, depth, line, payload);
    InvokeLineReads(own, depth);
    DataLineReads(payload, "");
    EndLineReads(own, Succeeded);
    MarksOfFour(lines[0], line, lines[2], lines[3]);
    assert MentionsInvoke(lines[0]);
  }

  lemma OwnLogDecodes<E>(own: string, depth: nat, line: string, payload: string, decode: string -> Option<E>)
    requires Solid(own) && Proper(payload)
    ensures var mark, all := MarkOf(line), Decode(OwnLog(own, depth, line, payload), own, decode);
            && (mark.Opens? ==> all == if mark.program == own then Decoded(payload, decode) else [])
            && (mark.Closes? ==> all == [])
            && (mark.Passed? ==> all == Decoded(payload, decode))
            && (mark.Carries? ==> all == Decoded(mark.payload, decode) + Decoded(payload, decode))
  {
    var none: seq<string> := [];
    OwnLogMarks(own, depth, line, payload);
    ScanHead(Opens(own), [MarkOf(line)] + ([Carries(payload)] + ([Closes] + [])), none, true, own, decode);
    ScanLineThenData(MarkOf(line), payload, none + [own], own, decode);
    assert Popped(none + [own]) == none;
  }

  /** In a frame of `own`, a line before an event leaves it as the only one exactly when the line is passed
      over, carries nothing decodable, or reads as an invocation of `own` itself. */
  lemma LineInOwnFrame<E>(own: string, depth: nat, line: string, payload: string, decode: string -> Option<E>)
    requires Solid(own) && Proper(payload) && decode(payload).Some?
    ensures Decode(OwnLog(own, depth, line, payload), own, decode) == [decode(payload).value]
       <==> || MarkOf(line).Passed? || MarkOf(line) == Opens(own)
            || (MarkOf(line).Carries? && decode(MarkOf(line).payload).None?)
  {
    OwnLogDecodes(own, depth, line, payload, decode);
  }

  /** The log of one call of `own` that calls another program, which prints a line and then data. */
  function CalledLog(own: string, other: string, depth: nat, line: string, payload: string): seq<string> {
    [InvokeLine(own, depth)] + OwnLog(other, depth + 1, line, payload) + [EndLine(own, Succeeded)]
  }

  lemma MarksOfCalled(own: string, other: string, depth: nat, line: string, payload: string)
    requires Solid(own) && Solid(other) && Proper(payload)
    ensures Marks(CalledLog(own, other, depth, line, payload))
         == [Opens(own)] + ([Opens(other)] + ([MarkOf(line)] + ([Carries(payload)] + ([Closes] + ([Closes] + [])))))
    ensures HasInvokes(CalledLog(own, other, depth, line, payload))
  {
    var called := OwnLog(other, depth + 1, line, payload);
    InvokeLineReads(own, depth);
    EndLineReads(own, Succeeded);
    OwnLogMarks(other, depth + 1, line, payload);
    MarksOfCall(InvokeLine(own, depth), called, EndLine(own, Succeeded), []);
    assert CalledLog(own, other, depth, line, payload) + [] == CalledLog(own, other, depth, line, payload);
    assert MentionsInvoke(CalledLog(own, other, depth, line, payload)[0]);
    CalledRegroups(Opens(own), Opens(other), MarkOf(line), Carries(payload), Closes);
  }

  lemma CalledRegroups<T>(a: T, b: T, c: T, d: T, e: T)
    ensures [a] + ([b] + ([c] + ([d] + ([e] + [])))) + [e] + [] == [a] + ([b] + ([c] + ([d] + ([e] + ([e] + [])))))
  {
  }

  lemma ScanCalledFrame<E>(own: string, other: string, mark: Mark, payload: string, decode: string -> Option<E>)
    requires other != own
    ensures Scan([Opens(own)] + ([Opens(other)] + ([mark] + ([Carries(payload)] + ([Closes] + ([Closes] + []))))),
              [], true, own, decode)
         == if mark.Closes? || mark == Opens(own) then Decoded(payload, decode) else []
  {
    var none, rest: seq<Mark> := [], [Carries(payload)] + ([Closes] + ([Closes] + []));
    var stack: seq<string> := [] + [own] + [other];
    ScanHead(Opens(own), [Opens(other)] + ([mark] + rest), [], true, own, decode);
    ScanHead(Opens(other), [mark] + rest, [] + [own], true, own, decode);
    assert Popped(stack) == [] + [own];
    var next := match mark case Opens(p) => stack + [p] case Closes => Popped(stack) case _ => stack;
    ScanHead(mark, rest, stack, true, own, decode);
    assert Scan(rest, next, true, own, decode) == Yield(payload, next, true, own, decode) by {
      ScanHead(Carries(payload), [Closes] + ([Closes] + []), next, true, own, decode);
      ScanHead(Closes, [Closes] + none, next, true, own, decode);
      ScanHead(Closes, none, Popped(next), true, own, decode);
    }
    assert mark.Carries? ==> Yield(mark.payload, stack, true, own, decode) == [];
  }

  /** In a frame called from `own`, a line before another program's data keeps those data out exactly
      when it reads neither as the end of a frame nor as an invocation of `own`. */
  lemma LineInCalledFrame<E>(own: string, other: string, depth: nat, line: string, payload: string,
                             decode: string -> Option<E>)
    requires Solid(own) && Solid(other) && other != own && Proper(payload) && decode(payload).Some?
    ensures Decode(CalledLog(own, other, depth, line, payload), own, decode) == []
       <==> !MarkOf(line).Closes? && MarkOf(line) != Opens(own)
  {
    MarksOfCalled(own, other, depth, line, payload);
    ScanCalledFrame(own, other, MarkOf(line), payload, decode);
  }

  lemma SuccessMessageCloses()
    ensures MarkOf(LOG + "success") == Closes
  {
    assert LOG + "success" == PROGRAM + "log:" + SUCCESS;
    SplitOf("log:", SUCCESS);
    EndTailOf(Succeeded, SUCCESS);
  }

  /** A program that logs the bare message "success" ends its own frame early: the event after it is lost. */
  lemma LoggedSuccessHidesEvent<E>(own: string, depth: nat, payload: string, decode: string -> Option<E>)
    requires Solid(own) && Proper(payload)
    ensures Decode(OwnLog(own, depth, LOG + "success", payload), own, decode) == []
  {
    SuccessMessageCloses();
    OwnLogDecodes(own, depth, LOG + "success", payload, decode);
  }

  /** A program called from `own` that logs it returns the decoder to the frame of `own`: its next data
      are attributed to `own`. */
  lemma LoggedSuccessMisattributesEvent<E>(own: string, other: string, depth: nat, payload: string,
                                           decode: string -> Option<E>)
    requires Solid(own) && Solid(other) && other != own && Proper(payload)
    ensures Decode(CalledLog(own, other, depth, LOG + "success", payload), own, decode) == Decoded(payload, decode)
  {
    SuccessMessageCloses();
    MarksOfCalled(own, other, depth, LOG + "success", payload);
    ScanCalledFrame(own, other, Closes, payload, decode);
  }
}
