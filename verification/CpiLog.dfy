// Attribution of "Program data:" log lines to the program that emitted them
// (server/internal/blockchain/indexer.go).
//
// A transaction's log is a flat list of lines. The indexer replays the
// runtime's invoke/success/failed lines on a stack and takes a data line to be
// emitted by the program on top. Trace is the call tree the runtime flattens;
// the theorems say that replaying the flattened lines finds the tree again.
module CpiLog {
  import opened Wrappers
  import opened Text
  import Decimal

  const INVOKE_PREFIX := "Program "
  const INVOKE_INFIX := " invoke ["
  const SUCCESS_SUFFIX := " success"
  const FAILED_INFIX := " failed: "
  const DATA_PREFIX := "Program data: "
  const MIN_PROGRAM_ID_LEN := 32
  const MAX_PROGRAM_ID_LEN := 44

  // Every ASCII digit and letter except '0', 'O', 'I' and 'l'.
  predicate IsBase58(c: char) {
    || '1' <= c <= '9'
    || ('A' <= c <= 'Z' && c != 'I' && c != 'O')
    || ('a' <= c <= 'z' && c != 'l')
  }

  predicate IsPlausibleProgramID(s: string) {
    && MIN_PROGRAM_ID_LEN <= |s| <= MAX_PROGRAM_ID_LEN
    && forall i | 0 <= i < |s| :: IsBase58(s[i])
  }

  function ParseInvokeLine(line: string): (r: Option<(string, int)>)
    ensures r.Some? ==> IsPlausibleProgramID(r.value.0) && r.value.1 > 0
  {
    match CutPrefix(line, INVOKE_PREFIX)
    case None => None
    case Some(rest) =>
      match Cut(rest, INVOKE_INFIX)
      case None => None
      case Some((id, tail)) =>
        match CutSuffix(tail, "]")
        case None => None
        case Some(depthText) =>
          match Decimal.ParseInt64(depthText)
          case None => None
          case Some(n) => if n > 0 && IsPlausibleProgramID(id) then Some((id, n)) else None
  }

  function ParsePopLine(line: string): (r: Option<string>)
    ensures r.Some? ==> IsPlausibleProgramID(r.value)
  {
    match CutPrefix(line, INVOKE_PREFIX)
    case None => None
    case Some(rest) =>
      match CutSuffix(rest, SUCCESS_SUFFIX)
      case Some(id) => if IsPlausibleProgramID(id) then Some(id) else None
      case None =>
        match Cut(rest, FAILED_INFIX)
        case Some((id, _)) => if IsPlausibleProgramID(id) then Some(id) else None
        case None => None
  }

  // What one log line means to the stack machine.
  datatype Frame = Push(id: string, depth: int) | Pop(id: string) | Emit(payload: string) | Skip

  function Read(line: string): Frame {
    match ParseInvokeLine(line)
    case Some((id, depth)) => Push(id, depth)
    case None =>
      match ParsePopLine(line)
      case Some(id) => Pop(id)
      case None =>
        match CutPrefix(line, DATA_PREFIX)
        case Some(payload) => Emit(payload)
        case None => Skip
  }

  function ReadAll(lines: seq<string>): seq<Frame> {
    seq(|lines|, i requires 0 <= i < |lines| => Read(lines[i]))
  }

  // ---- The stack machine ----

  // stack holds the programs being executed, innermost last; emitted holds the
  // payload text of every data line attributed so far, so that |emitted| is
  // the next log index.
  datatype Machine = Machine(stack: seq<string>, emitted: seq<string>)

  const IDLE := Machine([], [])

  function Top(stack: seq<string>): string {
    if |stack| > 0 then stack[|stack| - 1] else ""
  }

  function Step(m: Machine, programID: string, f: Frame): Machine {
    match f
    case Push(id, depth) => if depth == |m.stack| + 1 then m.(stack := m.stack + [id]) else m
    case Pop(id) => if |m.stack| > 0 && Top(m.stack) == id then m.(stack := m.stack[..|m.stack| - 1]) else m
    case Emit(payload) => if Top(m.stack) == programID then m.(emitted := m.emitted + [payload]) else m
    case Skip => m
  }

  function Replay(m: Machine, programID: string, frames: seq<Frame>): Machine
    decreases |frames|
  {
    if frames == [] then m else Replay(Step(m, programID, frames[0]), programID, frames[1..])
  }

  lemma ReplayCons(m: Machine, programID: string, f: Frame, frames: seq<Frame>)
    ensures Replay(m, programID, [f] + frames) == Replay(Step(m, programID, f), programID, frames)
  {
    assert ([f] + frames)[1..] == frames;
  }

  lemma {:induction false} ReplayConcat(m: Machine, programID: string, xs: seq<Frame>, ys: seq<Frame>)
    ensures Replay(m, programID, xs + ys) == Replay(Replay(m, programID, xs), programID, ys)
    decreases |xs|
  {
    if xs == [] {
      assert xs + ys == ys;
    } else {
      ReplayConcat(Step(m, programID, xs[0]), programID, xs[1..], ys);
      assert (xs + ys)[1..] == xs[1..] + ys;
    }
  }

  // Reading one more line.
  lemma ReplaySnoc(programID: string, lines: seq<string>, i: nat)
    requires i < |lines|
    ensures Replay(IDLE, programID, ReadAll(lines[..i + 1]))
         == Step(Replay(IDLE, programID, ReadAll(lines[..i])), programID, Read(lines[i]))
  {
    hide Read;
    var before, f := ReadAll(lines[..i]), Read(lines[i]);
    assert ReadAll(lines[..i + 1]) == before + [f];
    ReplayConcat(IDLE, programID, before, [f]);
    assert [f] == [f] + [];
    ReplayCons(Replay(IDLE, programID, before), programID, f, []);
  }

  // Emissions are only ever added.
  lemma {:induction false} ReplayGrows(m: Machine, programID: string, frames: seq<Frame>)
    ensures m.emitted <= Replay(m, programID, frames).emitted
    decreases |frames|
  {
    if frames != [] {
      ReplayGrows(Step(m, programID, frames[0]), programID, frames[1..]);
    }
  }

  lemma AttributedSoFar(programID: string, lines: seq<string>, i: nat)
    requires i <= |lines|
    ensures Replay(IDLE, programID, ReadAll(lines[..i])).emitted <= Attributed(programID, lines)
  {
    hide Read;
    assert ReadAll(lines) == ReadAll(lines[..i]) + ReadAll(lines[i..]);
    ReplayConcat(IDLE, programID, ReadAll(lines[..i]), ReadAll(lines[i..]));
    ReplayGrows(Replay(IDLE, programID, ReadAll(lines[..i])), programID, ReadAll(lines[i..]));
  }

  // ---- The runtime's side: a call tree and the lines it is flattened into ----

  datatype Exit = Success | Failed(reason: string)

  // What one program does, in order, up to its exit: text it logs, data it
  // emits, values it returns, compute it is charged for, programs it invokes.
  datatype Trace =
    | Done
    | Log(text: string, rest: Trace)
    | Data(payload: string, rest: Trace)
    | Return(id: string, text: string, rest: Trace)
    | Consumed(id: string, used: nat, limit: nat, rest: Trace)
    | Invoke(id: string, body: Trace, exit: Exit, rest: Trace)

  function InvokeLine(id: string, depth: nat): string {
    INVOKE_PREFIX + (id + INVOKE_INFIX + (Decimal.IntText(depth) + "]"))
  }

  function ExitLine(id: string, exit: Exit): string {
    match exit
    case Success => INVOKE_PREFIX + (id + SUCCESS_SUFFIX)
    case Failed(reason) => INVOKE_PREFIX + (id + FAILED_INFIX + reason)
  }

  function LogLine(text: string): string { "Program log: " + text }

  function DataLine(payload: string): string { DATA_PREFIX + payload }

  function ReturnLine(id: string, text: string): string { "Program return: " + (id + " " + text) }

  function ConsumedLine(id: string, used: nat, limit: nat): string {
    INVOKE_PREFIX + (id + " consumed " + Decimal.NatText(used) + " of " + Decimal.NatText(limit) + " compute units")
  }

  // The log of a trace whose program runs at the given depth.
  function Flatten(t: Trace, depth: nat): seq<string> {
    match t
    case Done => []
    case Log(text, rest) => [LogLine(text)] + Flatten(rest, depth)
    case Data(payload, rest) => [DataLine(payload)] + Flatten(rest, depth)
    case Return(id, text, rest) => [ReturnLine(id, text)] + Flatten(rest, depth)
    case Consumed(id, used, limit, rest) => [ConsumedLine(id, used, limit)] + Flatten(rest, depth)
    case Invoke(id, body, exit, rest) =>
      [InvokeLine(id, depth + 1)] + Flatten(body, depth + 1) + [ExitLine(id, exit)] + Flatten(rest, depth)
  }

  // The data emitted by programID's own frames, in execution order, when the
  // trace belongs to program `self` ("" for the transaction itself).
  function Emissions(t: Trace, self: string, programID: string): seq<string> {
    match t
    case Done => []
    case Log(_, rest) => Emissions(rest, self, programID)
    case Data(payload, rest) =>
      (if self == programID then [payload] else []) + Emissions(rest, self, programID)
    case Return(_, _, rest) => Emissions(rest, self, programID)
    case Consumed(_, _, _, rest) => Emissions(rest, self, programID)
    case Invoke(id, body, _, rest) => Emissions(body, id, programID) + Emissions(rest, self, programID)
  }

  // An exit the pop parser recognises: a failure whose reason does not itself
  // end the line in " success".
  predicate Recognisable(exit: Exit) {
    exit.Failed? ==> !HasSuffix(FAILED_INFIX + exit.reason, SUCCESS_SUFFIX)
  }

  // Program ids are base58 public keys and depths are machine integers.
  predicate WellFormed(t: Trace, depth: nat) {
    match t
    case Done => true
    case Log(_, rest) => WellFormed(rest, depth)
    case Data(_, rest) => WellFormed(rest, depth)
    case Return(_, _, rest) => WellFormed(rest, depth)
    case Consumed(id, _, _, rest) => IsPlausibleProgramID(id) && WellFormed(rest, depth)
    case Invoke(id, body, _, rest) =>
      && IsPlausibleProgramID(id) && depth < Decimal.MAX_INT64
      && WellFormed(body, depth + 1) && WellFormed(rest, depth)
  }

  predicate AllRecognisable(t: Trace) {
    match t
    case Done => true
    case Log(_, rest) => AllRecognisable(rest)
    case Data(_, rest) => AllRecognisable(rest)
    case Return(_, _, rest) => AllRecognisable(rest)
    case Consumed(_, _, _, rest) => AllRecognisable(rest)
    case Invoke(_, body, exit, rest) => Recognisable(exit) && AllRecognisable(body) && AllRecognisable(rest)
  }

  // ---- Each kind of line is read as what it is ----

  lemma PrefixCut(prefix: string, rest: string)
    ensures CutPrefix(prefix + rest, prefix) == Some(rest)
  {
  }

  lemma ReadInvokeLine(id: string, depth: nat)
    requires IsPlausibleProgramID(id)
    ensures ParseInvokeLine(InvokeLine(id, depth)) ==
            (if 0 < depth <= Decimal.MAX_INT64 then Some((id, depth)) else None)
  {
    var tail := Decimal.IntText(depth) + "]";
    PrefixCut(INVOKE_PREFIX, id + INVOKE_INFIX + tail);
    CutAt(id, INVOKE_INFIX, tail);
    SuffixIsLast(Decimal.IntText(depth), "]");
    Decimal.ParseIntText(depth);
  }

  // No text that a program can have logged after a "Program <word>:" label is
  // ever read as framing, because the id cut out of it would contain a colon.
  lemma LabelIsNotFraming(word: string, text: string)
    requires ' ' !in word
    ensures ParseInvokeLine(INVOKE_PREFIX + (word + ":" + text)) == None
    ensures ParsePopLine(INVOKE_PREFIX + (word + ":" + text)) == None
  {
    var rest := word + ":" + text;
    PrefixCut(INVOKE_PREFIX, rest);
    CutKeepsWord(word + ":", text, INVOKE_INFIX);
    CutKeepsWord(word + ":", text, FAILED_INFIX);
    SuffixKeepsWord(word + ":", text, SUCCESS_SUFFIX);
    ImplausiblePrefix(word + ":", |word|);
  }

  lemma ImplausiblePrefix(word: string, k: nat)
    requires k < |word| && !IsBase58(word[k])
    ensures forall id: string | word <= id :: !IsPlausibleProgramID(id)
  {
    forall id: string | word <= id
      ensures !IsPlausibleProgramID(id)
    {
      assert id[k] == word[k];
    }
  }

  lemma SuffixKeepsWord(word: string, text: string, suffix: string)
    requires suffix != "" && suffix[0] == ' ' && ' ' !in word
    ensures var r := CutSuffix(word + text, suffix); r.Some? ==> word <= r.value
  {
    var s := word + text;
    assert forall i | 0 <= i < |word| :: s[i] == word[i] != ' ';
    assert HasSuffix(s, suffix) ==> s[|s| - |suffix|] == suffix[0];
  }

  lemma ReadSuccessLine(id: string)
    requires IsPlausibleProgramID(id)
    ensures ParseInvokeLine(ExitLine(id, Success)) == None
    ensures ParsePopLine(ExitLine(id, Success)) == Some(id)
  {
    var rest := id + SUCCESS_SUFFIX;
    PrefixCut(INVOKE_PREFIX, rest);
    SuffixIsLast(id, SUCCESS_SUFFIX);
    assert '[' in INVOKE_INFIX && '[' !in rest;
    CutNeedsEveryCharacter(rest, INVOKE_INFIX, '[');
  }

  // The exact condition under which a failure line pops its frame.
  lemma ReadFailedLine(id: string, reason: string)
    requires IsPlausibleProgramID(id)
    ensures ParseInvokeLine(ExitLine(id, Failed(reason))) == None
    ensures ParsePopLine(ExitLine(id, Failed(reason))) == (if Recognisable(Failed(reason)) then Some(id) else None)
  {
    var rest := id + FAILED_INFIX + reason;
    PrefixCut(INVOKE_PREFIX, rest);
    CutAt(id, FAILED_INFIX, reason);
    FailedIsNotInvoke(id, reason);
    FailedSuffix(id, reason);
  }

  lemma FailedSuffix(id: string, reason: string)
    ensures var r := CutSuffix(id + FAILED_INFIX + reason, SUCCESS_SUFFIX);
            && (r.Some? <==> !Recognisable(Failed(reason)))
            && (r.Some? ==> !IsPlausibleProgramID(r.value))
  {
    var rest := id + FAILED_INFIX + reason;
    assert rest == id + (FAILED_INFIX + reason);
    SuffixOfTail(id, FAILED_INFIX + reason, SUCCESS_SUFFIX);
    assert FAILED_INFIX == " failed" + ":" + " ";
    assert rest == id + " failed" + ":" + (" " + reason);
    SuffixPastColon(id + " failed", " " + reason);
    assert (id + " failed")[|id|] == ' ';
    ImplausiblePrefix(id + " failed", |id|);
  }

  lemma SuffixPastColon(before: string, after: string)
    ensures var r := CutSuffix(before + ":" + after, SUCCESS_SUFFIX); r.Some? ==> before <= r.value
  {
    var s := before + ":" + after;
    SuffixCharacters(s, SUCCESS_SUFFIX);
    assert s[|before|] == ':';
  }

  lemma SuffixCharacters(s: string, suffix: string)
    ensures HasSuffix(s, suffix) ==> forall k | 0 <= k < |suffix| :: s[|s| - |suffix| + k] == suffix[k]
  {
    if HasSuffix(s, suffix) {
      var cut := |s| - |suffix|;
      forall k | 0 <= k < |suffix|
        ensures s[cut + k] == suffix[k]
      {
        assert s[cut..][k] == s[cut + k];
      }
    }
  }

  lemma SuffixOfTail(s: string, tail: string, suffix: string)
    requires |suffix| <= |tail|
    ensures HasSuffix(s + tail, suffix) <==> HasSuffix(tail, suffix)
  {
    assert (s + tail)[|s + tail| - |suffix|..] == tail[|tail| - |suffix|..];
  }

  lemma FailedIsNotInvoke(id: string, reason: string)
    requires IsPlausibleProgramID(id)
    ensures ParseInvokeLine(INVOKE_PREFIX + (id + FAILED_INFIX + reason)) == None
  {
    var tail := "failed: " + reason;
    var rest := id + FAILED_INFIX + reason;
    assert rest == id + (" " + tail);
    PrefixCut(INVOKE_PREFIX, rest);
    CutPastSpace(id, tail);
    ImplausiblePrefix(id + " ", |id|);
  }

  lemma CutPastSpace(id: string, tail: string)
    requires ' ' !in id && tail != "" && tail[0] == 'f'
    ensures var r := Cut(id + (" " + tail), INVOKE_INFIX); r.Some? ==> id + " " <= r.value.0
  {
    var s := id + (" " + tail);
    if id == "" {
      assert s[1] == 'f' && INVOKE_INFIX[1] == 'i';
    } else {
      assert s[1..] == id[1..] + (" " + tail) && s[0] == id[0];
      CutPastSpace(id[1..], tail);
      assert id + " " == [id[0]] + (id[1..] + " ");
      var r := Cut(s[1..], INVOKE_INFIX);
      assert r.Some? ==> Cut(s, INVOKE_INFIX) == Some(([s[0]] + r.value.0, r.value.1));
    }
  }

  lemma ReadConsumedLine(id: string, used: nat, limit: nat)
    requires IsPlausibleProgramID(id)
    ensures var line := ConsumedLine(id, used, limit);
            && ParseInvokeLine(line) == None
            && ParsePopLine(line) == None
            && CutPrefix(line, DATA_PREFIX) == None
  {
    var rest := id + " consumed " + Decimal.NatText(used) + " of " + Decimal.NatText(limit) + " compute units";
    PrefixCut(INVOKE_PREFIX, rest);
    assert '[' !in rest && ':' !in rest;
    assert '[' in INVOKE_INFIX && ':' in FAILED_INFIX;
    CutNeedsEveryCharacter(rest, INVOKE_INFIX, '[');
    CutNeedsEveryCharacter(rest, FAILED_INFIX, ':');
    assert rest[|rest| - 2] == 't' && SUCCESS_SUFFIX[6] == 's';
    SuffixCharacters(rest, SUCCESS_SUFFIX);
    assert DATA_PREFIX[12] == ':' && (INVOKE_PREFIX + rest)[12] == rest[4];
  }

  lemma ReadLogLine(text: string)
    ensures Read(LogLine(text)) == Skip
  {
    assert LogLine(text) == INVOKE_PREFIX + ("log" + ":" + (" " + text));
    LabelIsNotFraming("log", " " + text);
    assert LogLine(text)[8] == 'l' && DATA_PREFIX[8] == 'd';
  }

  lemma ReadDataLine(payload: string)
    ensures Read(DataLine(payload)) == Emit(payload)
  {
    assert DataLine(payload) == INVOKE_PREFIX + ("data" + ":" + (" " + payload));
    LabelIsNotFraming("data", " " + payload);
    PrefixCut(DATA_PREFIX, payload);
  }

  lemma ReadReturnLine(id: string, text: string)
    ensures Read(ReturnLine(id, text)) == Skip
  {
    assert ReturnLine(id, text) == INVOKE_PREFIX + ("return" + ":" + (" " + (id + " " + text)));
    LabelIsNotFraming("return", " " + (id + " " + text));
    assert ReturnLine(id, text)[8] == 'r' && DATA_PREFIX[8] == 'd';
  }

  lemma ReadExitLine(id: string, exit: Exit)
    requires IsPlausibleProgramID(id)
    ensures Read(ExitLine(id, exit)) == (if Recognisable(exit) then Pop(id) else Skip)
  {
    match exit
    case Success => ReadSuccessLine(id);
    case Failed(reason) =>
      ReadFailedLine(id, reason);
      assert ':' !in id;
      assert DATA_PREFIX[12] == ':' && ExitLine(id, exit)[12] == id[4];
  }

  // ---- Attribution is exact ----

  // The frames the lines of a call tree are read as.
  function Framing(t: Trace, depth: nat): seq<Frame> {
    match t
    case Done => []
    case Log(_, rest) => [Skip] + Framing(rest, depth)
    case Data(payload, rest) => [Emit(payload)] + Framing(rest, depth)
    case Return(_, _, rest) => [Skip] + Framing(rest, depth)
    case Consumed(_, _, _, rest) => [Skip] + Framing(rest, depth)
    case Invoke(id, body, exit, rest) =>
      [Push(id, depth + 1)] + Framing(body, depth + 1) + [if Recognisable(exit) then Pop(id) else Skip] +
        Framing(rest, depth)
  }

  lemma ReadAllConcat(xs: seq<string>, ys: seq<string>)
    ensures ReadAll(xs + ys) == ReadAll(xs) + ReadAll(ys)
  {
    hide Read;
  }

  lemma ReadAllCons(line: string, ys: seq<string>)
    ensures ReadAll([line] + ys) == [Read(line)] + ReadAll(ys)
  {
    hide Read;
  }

  // Parsing the flattened text recovers the frames, whatever the programs logged.
  lemma {:induction false} ReadFlattened(t: Trace, depth: nat)
    requires WellFormed(t, depth)
    ensures ReadAll(Flatten(t, depth)) == Framing(t, depth)
    decreases t
  {
    match t
    case Done =>
    case Log(text, rest) =>
      ReadLogLine(text);
      ReadAllCons(LogLine(text), Flatten(rest, depth));
      ReadFlattened(rest, depth);
    case Data(payload, rest) =>
      ReadDataLine(payload);
      ReadAllCons(DataLine(payload), Flatten(rest, depth));
      ReadFlattened(rest, depth);
    case Return(id, text, rest) =>
      ReadReturnLine(id, text);
      ReadAllCons(ReturnLine(id, text), Flatten(rest, depth));
      ReadFlattened(rest, depth);
    case Consumed(id, used, limit, rest) =>
      ReadConsumedLine(id, used, limit);
      ReadAllCons(ConsumedLine(id, used, limit), Flatten(rest, depth));
      ReadFlattened(rest, depth);
    case Invoke(id, body, exit, rest) =>
      ReadExitLine(id, exit);
      ReadFlattened(body, depth + 1);
      ReadFlattened(rest, depth);
      ReadCall(id, depth + 1, Flatten(body, depth + 1), ExitLine(id, exit), Flatten(rest, depth));
  }

  lemma ReadCall(id: string, depth: nat, inner: seq<string>, leave: string, after: seq<string>)
    requires IsPlausibleProgramID(id) && 0 < depth <= Decimal.MAX_INT64
    ensures ReadAll([InvokeLine(id, depth)] + inner + [leave] + after) ==
            [Push(id, depth)] + ReadAll(inner) + [Read(leave)] + ReadAll(after)
  {
    var enter := InvokeLine(id, depth);
    ReadInvokeLine(id, depth);
    ReadAllConcat([enter] + inner + [leave], after);
    ReadAllConcat([enter] + inner, [leave]);
    ReadAllCons(enter, inner);
    ReadAllCons(leave, []);
    assert [leave] + [] == [leave];
  }

  // Whatever the stack holds when a trace starts, replaying the trace leaves
  // the stack as it was and appends exactly the trace's emissions.
  lemma {:induction false} ReplayTrace(t: Trace, m: Machine, programID: string)
    requires AllRecognisable(t) && programID != ""
    ensures Replay(m, programID, Framing(t, |m.stack|)) ==
            m.(emitted := m.emitted + Emissions(t, Top(m.stack), programID))
    decreases t
  {
    var depth := |m.stack|;
    match t
    case Done =>
      assert m.emitted + [] == m.emitted;
    case Log(_, rest) =>
      ReplayCons(m, programID, Skip, Framing(rest, depth));
      ReplayTrace(rest, m, programID);
    case Data(payload, rest) =>
      var m1 := Step(m, programID, Emit(payload));
      ReplayCons(m, programID, Emit(payload), Framing(rest, depth));
      ReplayTrace(rest, m1, programID);
      assert m1.emitted + Emissions(rest, Top(m.stack), programID) == m.emitted + Emissions(t, Top(m.stack), programID);
    case Return(_, _, rest) =>
      ReplayCons(m, programID, Skip, Framing(rest, depth));
      ReplayTrace(rest, m, programID);
    case Consumed(_, _, _, rest) =>
      ReplayCons(m, programID, Skip, Framing(rest, depth));
      ReplayTrace(rest, m, programID);
    case Invoke(id, body, _, rest) =>
      var out := Emissions(body, id, programID);
      ReplayTrace(body, m.(stack := m.stack + [id]), programID);
      ReplayTrace(rest, m.(emitted := m.emitted + out), programID);
      ReplayInvoke(m, programID, id, Framing(body, depth + 1), out, Framing(rest, depth));
      assert m.emitted + out + Emissions(rest, Top(m.stack), programID) ==
        m.emitted + Emissions(t, Top(m.stack), programID);
  }

  // One call: its body runs on the pushed stack and its exit restores the stack.
  lemma ReplayInvoke(m: Machine, programID: string, id: string, inner: seq<Frame>, out: seq<string>, after: seq<Frame>)
    requires Replay(m.(stack := m.stack + [id]), programID, inner) == Machine(m.stack + [id], m.emitted + out)
    ensures Replay(m, programID, [Push(id, |m.stack| + 1)] + inner + [Pop(id)] + after)
         == Replay(m.(emitted := m.emitted + out), programID, after)
  {
    var enter, leave := Push(id, |m.stack| + 1), Pop(id);
    var ran := Machine(m.stack + [id], m.emitted + out);
    assert ran.stack[..|ran.stack| - 1] == m.stack;
    assert [enter] + inner + [leave] + after == [enter] + (inner + ([leave] + after));
    ReplayCons(m, programID, enter, inner + ([leave] + after));
    ReplayConcat(m.(stack := m.stack + [id]), programID, inner, [leave] + after);
    ReplayCons(ran, programID, leave, after);
  }

  // What ingestTransaction attributes to programID in a transaction's log.
  function Attributed(programID: string, lines: seq<string>): seq<string> {
    Replay(IDLE, programID, ReadAll(lines)).emitted
  }

  // The whole transaction: what is attributed to programID is exactly the data
  // its own frames emitted, in order, whatever any program wrote to the log.
  lemma AttributionIsExact(t: Trace, programID: string)
    requires WellFormed(t, 0) && AllRecognisable(t) && programID != ""
    ensures Attributed(programID, Flatten(t, 0)) == Emissions(t, "", programID)
    ensures Replay(IDLE, programID, ReadAll(Flatten(t, 0))).stack == []
  {
    ReadFlattened(t, 0);
    ReplayTrace(t, IDLE, programID);
    assert [] + Emissions(t, "", programID) == Emissions(t, "", programID);
  }

  // AllRecognisable cannot be dropped, for any callee and any reason: a failure
  // line that is not recognised leaves its callee on the stack, so the data
  // its caller emits next is lost.
  lemma UnrecognisableExitMisattributes(outer: string, inner: string, reason: string, payload: string)
    requires IsPlausibleProgramID(outer) && IsPlausibleProgramID(inner) && outer != inner
    requires !Recognisable(Failed(reason))
    ensures var t := Invoke(outer, Invoke(inner, Done, Failed(reason), Data(payload, Done)), Success, Done);
            && Emissions(t, "", outer) == [payload]
            && Attributed(outer, Flatten(t, 0)) == []
  {
    hide Read;
    var after := Data(payload, Done);
    var call := Invoke(inner, Done, Failed(reason), after);
    assert Emissions(after, outer, outer) == [payload];
    assert Emissions(call, outer, outer) == [payload];
    assert WellFormed(Done, 1) && WellFormed(after, 1) && WellFormed(call, 1);
    ReadFlattened(Invoke(outer, call, Success, Done), 0);
    StuckFraming(outer, inner, reason, payload);
    ReplayStuck(outer, inner, payload);
  }

  lemma StuckFraming(outer: string, inner: string, reason: string, payload: string)
    requires !Recognisable(Failed(reason))
    ensures Framing(Invoke(outer, Invoke(inner, Done, Failed(reason), Data(payload, Done)), Success, Done), 0) ==
            [Push(outer, 1), Push(inner, 2), Skip, Emit(payload), Pop(outer)]
  {
    var after := Data(payload, Done);
    assert Framing(after, 1) == [Emit(payload)];
    assert Framing(Invoke(inner, Done, Failed(reason), after), 1) == [Push(inner, 2)] + [] + [Skip] + [Emit(payload)];
  }

  lemma ReplayStuck(outer: string, inner: string, payload: string)
    requires outer != inner
    ensures Replay(IDLE, outer, [Push(outer, 1), Push(inner, 2), Skip, Emit(payload), Pop(outer)]).emitted == []
  {
    var frames := [Push(outer, 1), Push(inner, 2), Skip, Emit(payload), Pop(outer)];
    var m1, m2 := Machine([outer], []), Machine([outer, inner], []);
    assert Step(IDLE, outer, frames[0]) == m1 && Step(m1, outer, frames[1]) == m2;
    assert Replay(IDLE, outer, frames) == Replay(m1, outer, frames[1..]);
    assert frames[1..][1..] == frames[2..];
    assert Replay(m1, outer, frames[1..]) == Replay(m2, outer, frames[2..]);
    assert frames[2..][1..] == frames[3..] && frames[3..][1..] == frames[4..] && frames[4..][1..] == [];
    assert Replay(m2, outer, frames[2..]) == Replay(m2, outer, frames[3..]);
    assert Replay(m2, outer, frames[3..]) == Replay(m2, outer, frames[4..]);
  }

  // Exactly the reasons that hide the exit.
  lemma UnrecognisableReasons(reason: string)
    ensures Recognisable(Failed(reason)) <==> reason != "success" && !HasSuffix(reason, SUCCESS_SUFFIX)
  {
    var line := FAILED_INFIX + reason;
    var n := |line| - |SUCCESS_SUFFIX|;
    assert |FAILED_INFIX| == 9 && |SUCCESS_SUFFIX| == 8 && FAILED_INFIX[7] == ':' && FAILED_INFIX[8] == ' ';
    if |reason| >= 8 {
      assert line[n..] == reason[|reason| - 8..];
    } else if |reason| == 7 {
      assert line[n..] == " " + reason;
      assert SUCCESS_SUFFIX == " " + "success";
      assert line[n..][1..] == reason && SUCCESS_SUFFIX[1..] == "success";
    } else {
      assert line[n..][7 - n] == ':';
      assert ':' !in SUCCESS_SUFFIX;
    }
  }

  // Nothing but framing is taken for framing: what the parsers accept has the
  // shape of the runtime's lines.
  lemma InvokeLineShape(line: string)
    requires ParseInvokeLine(line).Some?
    ensures var (id, depth) := ParseInvokeLine(line).value;
            exists depthText :: line == INVOKE_PREFIX + (id + INVOKE_INFIX + (depthText + "]")) &&
              Decimal.ParseInt64(depthText) == Some(depth)
  {
    var rest := CutPrefix(line, INVOKE_PREFIX).value;
    var (id, tail) := Cut(rest, INVOKE_INFIX).value;
    var depthText := CutSuffix(tail, "]").value;
    assert line == INVOKE_PREFIX + (id + INVOKE_INFIX + (depthText + "]"));
  }

  lemma PopLineShape(line: string)
    requires ParsePopLine(line).Some?
    ensures var id := ParsePopLine(line).value;
            line == INVOKE_PREFIX + (id + SUCCESS_SUFFIX) || exists reason ::
              line == INVOKE_PREFIX + (id + FAILED_INFIX + reason)
  {
    var rest := CutPrefix(line, INVOKE_PREFIX).value;
    if CutSuffix(rest, SUCCESS_SUFFIX).None? {
      var (id, reason) := Cut(rest, FAILED_INFIX).value;
      assert line == INVOKE_PREFIX + (id + FAILED_INFIX + reason);
    }
  }
}
