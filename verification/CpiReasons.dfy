// Which failure reasons keep attribution exact
// (server/internal/blockchain/indexer.go:415-554).
module CpiReasons {
  import opened CpiLog
  import Decimal

  // No call of the trace fails with another reason.
  predicate FailsOnlyWith(t: Trace, reasons: string -> bool) {
    match t
    case Done => true
    case Log(_, rest) => FailsOnlyWith(rest, reasons)
    case Data(_, rest) => FailsOnlyWith(rest, reasons)
    case Return(_, _, rest) => FailsOnlyWith(rest, reasons)
    case Consumed(_, _, _, rest) => FailsOnlyWith(rest, reasons)
    case Invoke(_, body, exit, rest) =>
      (exit.Failed? ==> reasons(exit.reason)) && FailsOnlyWith(body, reasons) && FailsOnlyWith(rest, reasons)
  }

  // Attribution is exact on every call tree whose failures have these reasons.
  ghost predicate ExactFor(reasons: string -> bool) {
    forall t, programID | WellFormed(t, 0) && FailsOnlyWith(t, reasons) && programID != "" ::
      Attributed(programID, Flatten(t, 0)) == Emissions(t, "", programID)
  }

  lemma {:induction false} OnlyRecognisable(t: Trace, reasons: string -> bool)
    requires FailsOnlyWith(t, reasons)
    requires forall reason | reasons(reason) :: Recognisable(Failed(reason))
    ensures AllRecognisable(t)
    decreases t
  {
    match t
    case Done =>
    case Log(_, rest) => OnlyRecognisable(rest, reasons);
    case Data(_, rest) => OnlyRecognisable(rest, reasons);
    case Return(_, _, rest) => OnlyRecognisable(rest, reasons);
    case Consumed(_, _, _, rest) => OnlyRecognisable(rest, reasons);
    case Invoke(_, body, exit, rest) =>
      assert exit == Success || exit == Failed(exit.reason);
      OnlyRecognisable(body, reasons);
      OnlyRecognisable(rest, reasons);
  }

  lemma MisattributedTrace(outer: string, inner: string, reason: string, reasons: string -> bool) returns (t: Trace)
    requires IsPlausibleProgramID(outer) && IsPlausibleProgramID(inner) && outer != inner
    requires reasons(reason) && !Recognisable(Failed(reason))
    ensures WellFormed(t, 0) && FailsOnlyWith(t, reasons)
    ensures Attributed(outer, Flatten(t, 0)) != Emissions(t, "", outer)
  {
    var after := Data("data", Done);
    var call := Invoke(inner, Done, Failed(reason), after);
    t := Invoke(outer, call, Success, Done);
    assert WellFormed(Done, 2) && WellFormed(after, 1) && WellFormed(call, 1);
    assert FailsOnlyWith(Done, reasons) && FailsOnlyWith(after, reasons) && FailsOnlyWith(call, reasons);
    UnrecognisableExitMisattributes(outer, inner, reason, "data");
    hide Read;
  }

  // Attribution is exact on every call tree exactly when every reason a call
  // may fail with is recognisable.
  lemma AttributionExactly(reasons: string -> bool)
    ensures ExactFor(reasons) <==> forall reason | reasons(reason) :: Recognisable(Failed(reason))
  {
    if reason :| reasons(reason) && !Recognisable(Failed(reason)) {
      var outer := seq(MIN_PROGRAM_ID_LEN, _ => '1');
      var inner := seq(MIN_PROGRAM_ID_LEN, _ => '2');
      assert outer[0] != inner[0];
      var t := MisattributedTrace(outer, inner, reason, reasons);
      assert !ExactFor(reasons);
    } else {
      forall t, programID | WellFormed(t, 0) && FailsOnlyWith(t, reasons) && programID != ""
        ensures Attributed(programID, Flatten(t, 0)) == Emissions(t, "", programID)
      {
        OnlyRecognisable(t, reasons);
        AttributionIsExact(t, programID);
      }
    }
  }

  // The runtime's lines as they are written, and what each is read as.
  lemma RuntimeLines(id: string, depth: nat, text: string)
    requires IsPlausibleProgramID(id) && 0 < depth <= 0x7fff_ffff_ffff_ffff
    ensures Read("Program " + id + " invoke [" + Decimal.NatText(depth) + "]") == Push(id, depth)
    ensures Read("Program " + id + " success") == Pop(id)
    ensures Recognisable(Failed(text)) ==> Read("Program " + id + " failed: " + text) == Pop(id)
    ensures Read("Program data: " + text) == Emit(text)
    ensures Read("Program log: " + text) == Skip
  {
    hide Read;
    ReadsAs(id, depth, text);
    assert "Program " + id + " invoke [" + Decimal.NatText(depth) + "]" == InvokeLine(id, depth);
    assert "Program " + id + " success" == ExitLine(id, Success);
    assert "Program " + id + " failed: " + text == ExitLine(id, Failed(text));
    assert "Program data: " + text == DataLine(text);
    assert "Program log: " + text == LogLine(text);
  }

  lemma ReadsAs(id: string, depth: nat, text: string)
    requires IsPlausibleProgramID(id) && 0 < depth <= Decimal.MAX_INT64
    ensures Read(InvokeLine(id, depth)) == Push(id, depth)
    ensures Read(ExitLine(id, Success)) == Pop(id)
    ensures Recognisable(Failed(text)) ==> Read(ExitLine(id, Failed(text))) == Pop(id)
    ensures Read(DataLine(text)) == Emit(text) && Read(LogLine(text)) == Skip
  {
    ReadInvokeLine(id, depth);
    ReadExitLine(id, Success);
    ReadExitLine(id, Failed(text));
    ReadDataLine(text);
    ReadLogLine(text);
  }

  // An invoke line at another depth than the next, an exit of another program
  // than the one on top, and data of another program, change nothing.
  lemma MisplacedLinesIgnored(m: Machine, programID: string, id: string, depth: nat, exit: Exit, payload: string)
    requires IsPlausibleProgramID(id) && 0 < depth <= Decimal.MAX_INT64
    ensures depth != |m.stack| + 1 ==> Step(m, programID, Read(InvokeLine(id, depth))) == m
    ensures Top(m.stack) != id ==> Step(m, programID, Read(ExitLine(id, exit))) == m
    ensures Top(m.stack) != programID ==> Step(m, programID, Read(DataLine(payload))) == m
  {
    hide Read;
    ReadsAs(id, depth, payload);
    ReadExitLine(id, exit);
  }
}
