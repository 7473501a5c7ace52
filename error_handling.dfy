/**
 * The process-wide fault register: a single slot holding the pending fault,
 * an "initialized" flag and the stream diagnostics are written to.
 * Triggering a fault replaces any unprocessed one; processing prints the
 * pending fault and clears the slot.
 */
module ErrorHandling {
  import opened Wrappers
  import Decimal

  /** The fault categories, in the order of their enum codes. */
  datatype ErrorKind = UnknownError | SyntaxError | SemanticError | RuntimeError

  /** A fault as stored in the slot: its category, source line and formatted message. */
  datatype Fault = Fault(kind: ErrorKind, line: int, message: string)

  /** The category prefix of a printed diagnostic. */
  function Prefix(kind: ErrorKind): (p: string)
    ensures |p| > 0 && p[|p| - 1] == ' '
  {
    match kind
    case SyntaxError => "syntax error: "
    case SemanticError => "semantic error: "
    case RuntimeError => "runtime error: "
    case UnknownError => "unknown error: "
  }

  /** The "line N: " segment, present only for positive line numbers. */
  function LineSegment(line: int): (s: string)
    ensures line <= 0 ==> s == ""
    ensures line > 0 ==> |s| > 7 && s[..5] == "line " && s[|s| - 2..] == ": "
    ensures line > 0 ==>
      && (s[5] == '-' || Decimal.IsDigit(s[5]))
      && (forall k :: 6 <= k < |s| - 2 ==> Decimal.IsDigit(s[k]))
      && Decimal.ParseInt(s[5..|s| - 2]) == line
  {
    if line > 0 then
      Decimal.IntToStringRoundTrip(line);
      var digits := Decimal.IntToString(line);
      var s := "line " + digits + ": ";
      assert s[5..|s| - 2] == digits;
      s
    else ""
  }

  /** The complete text printed for a fault: prefix, optional line, message, newline. */
  function FormatFault(f: Fault): (text: string)
    ensures |text| > 0 && text[|text| - 1] == '\n'
    ensures |Prefix(f.kind)| < |text| && text[..|Prefix(f.kind)|] == Prefix(f.kind)
  {
    Prefix(f.kind) + LineSegment(f.line) + f.message + "\n"
  }

  /** The text printed for a plain message: "Error: ", the message, a newline. */
  function FormatMessage(message: string): (text: string)
    ensures |text| == |message| + 8
    ensures text[..7] == "Error: " && text[7..|text| - 1] == message && text[|text| - 1] == '\n'
  {
    "Error: " + message + "\n"
  }

  /** A printed diagnostic names its category: no prefix is a prefix of another category's text. */
  lemma FormatFaultDeterminesKind(f: Fault, g: Fault)
    requires FormatFault(f) == FormatFault(g)
    ensures f.kind == g.kind
  {
    var t := FormatFault(f);
    assert t[..|Prefix(f.kind)|] == Prefix(f.kind);
    assert t[..|Prefix(g.kind)|] == Prefix(g.kind);
    PrefixStartDeterminesKind(f.kind, g.kind, t[0], t[1]);
  }

  lemma PrefixStartDeterminesKind(k1: ErrorKind, k2: ErrorKind, c0: char, c1: char)
    requires Prefix(k1)[0] == c0 && Prefix(k1)[1] == c1
    requires Prefix(k2)[0] == c0 && Prefix(k2)[1] == c1
    ensures k1 == k2
  {
  }

  /** The line segment is there exactly when the line is positive, framed by "line " and ": ". */
  lemma LineSegmentShape(line: int)
    ensures |LineSegment(line)| > 0 <==> line > 0
    ensures line > 0 ==> LineSegment(line)[..5] == "line " && LineSegment(line)[|LineSegment(line)| - 2..] == ": "
  {
    if line > 0 {
      Decimal.IntToStringRoundTrip(line);
    }
  }

  lemma DropSuffix(x: string, y: string, t: string)
    requires x + t == y + t
    ensures x == y
  {
    assert x == (x + t)[..|x|];
  }

  lemma DropPrefix(p: string, x: string, y: string)
    requires p + x == p + y
    ensures x == y
  {
    assert x == (p + x)[|p|..];
  }

  /** Two faults on positive lines with the same category and message print alike only on the same line. */
  lemma FormatFaultDeterminesLine(f: Fault, g: Fault)
    requires f.kind == g.kind && f.message == g.message && f.line > 0 && g.line > 0
    requires FormatFault(f) == FormatFault(g)
    ensures f.line == g.line
  {
    var p := Prefix(f.kind);
    var a := LineSegment(f.line);
    var b := LineSegment(g.line);
    DropSuffix(p + a + f.message, p + b + f.message, "\n");
    DropSuffix(p + a, p + b, f.message);
    DropPrefix(p, a, b);
    DropSuffix("line " + Decimal.IntToString(f.line), "line " + Decimal.IntToString(g.line), ": ");
    DropPrefix("line ", Decimal.IntToString(f.line), Decimal.IntToString(g.line));
    Decimal.IntToStringInjective(f.line, g.line);
  }

  /** The diagnostics the library's own examples expect. */
  lemma FormatFaultExamples()
    ensures FormatFault(Fault(SyntaxError, 1, "test error")) == "syntax error: line 1: test error\n"
    ensures FormatFault(Fault(RuntimeError, 1, "test error")) == "runtime error: line 1: test error\n"
    ensures FormatFault(Fault(SemanticError, -1, "oops")) == "semantic error: oops\n"
  {
    SyntaxErrorExample();
    RuntimeErrorExample();
  }

  lemma SyntaxErrorExample()
    ensures FormatFault(Fault(SyntaxError, 1, "test error")) == "syntax error: line 1: test error\n"
  {
    LineOneSegment();
  }

  lemma RuntimeErrorExample()
    ensures FormatFault(Fault(RuntimeError, 1, "test error")) == "runtime error: line 1: test error\n"
  {
    LineOneSegment();
  }

  lemma LineOneSegment()
    ensures LineSegment(1) == "line 1: "
  {
    assert Decimal.IntToString(1) == "1";
  }

  /** An output stream, seen as the text written to it so far. */
  class Stream {
    var text: string

    constructor()
      ensures text == ""
    {
      text := "";
    }

    method Write(s: string)
      modifies this
      ensures text == old(text) + s
    {
      text := text + s;
    }
  }

  /** The module-level state of the error handling unit. */
  class FaultRegister {
    var initialized: bool
    var pending: Option<Fault>
    var out: Stream?

    /** Once initialized, the register always has an output stream. */
    predicate Valid()
      reads this
    {
      initialized ==> out != null
    }

    /** The static initial state: not initialized, nothing pending, no stream. */
    constructor()
      ensures Valid()
      ensures !initialized && pending == None && out == null
    {
      initialized := false;
      pending := None;
      out := null;
    }

    method SetOutput(stream: Stream)
      requires Valid()
      modifies this
      ensures Valid()
      ensures out == stream
      ensures initialized == old(initialized) && pending == old(pending)
    {
      out := stream;
    }

    method Initialize(stream: Stream)
      requires Valid() && !initialized
      modifies this
      ensures Valid()
      ensures initialized && out == stream
      ensures pending == old(pending)
    {
      SetOutput(stream);
      initialized := true;
    }

    /** Finalizing clears the flag only; a pending fault survives it. */
    method Finalize()
      requires Valid() && initialized
      modifies this
      ensures Valid()
      ensures !initialized
      ensures pending == old(pending) && out == old(out)
    {
      initialized := false;
    }

    method IsInitialized() returns (r: bool)
      ensures r == initialized
    {
      r := initialized;
    }

    method Occurred() returns (r: bool)
      requires initialized
      ensures r <==> pending.Some?
    {
      r := pending != None;
    }

    /** The new fault becomes the pending one; an unprocessed earlier fault is lost. */
    method Trigger(kind: ErrorKind, line: int, message: string)
      requires Valid() && initialized
      modifies this
      ensures Valid()
      ensures pending == Some(Fault(kind, line, message))
      ensures initialized == old(initialized) && out == old(out)
    {
      if pending != None {
        pending := None;
      }
      pending := Some(Fault(kind, line, message));
    }

    method Print(kind: ErrorKind, line: int, message: string)
      requires out != null
      modifies out
      ensures out.text == old(out.text) + FormatFault(Fault(kind, line, message))
    {
      out.Write(FormatFault(Fault(kind, line, message)));
    }

    method PrintMsg(message: string)
      requires out != null
      modifies out
      ensures out.text == old(out.text) + FormatMessage(message)
    {
      out.Write(FormatMessage(message));
    }

    /** Prints the pending fault, if any, and clears the slot. */
    method Process()
      requires Valid() && initialized
      modifies this, out
      ensures Valid()
      ensures pending == None
      ensures initialized == old(initialized) && out == old(out)
      ensures out.text == old(out.text) + (if old(pending).Some? then FormatFault(old(pending).value) else "")
    {
      if pending != None {
        Print(pending.value.kind, pending.value.line, pending.value.message);
        pending := None;
      }
    }
  }

  /** Trigger, then process: the fault is printed once and the register is clear again. */
  method TriggerThenProcess(register: FaultRegister, kind: ErrorKind, line: int, message: string)
    requires register.Valid() && register.initialized
    modifies register, register.out
    ensures register.Valid() && register.initialized
    ensures register.pending == None
    ensures register.out.text == old(register.out.text) + FormatFault(Fault(kind, line, message))
  {
    register.Trigger(kind, line, message);
    var occurred := register.Occurred();
    assert occurred;
    register.Process();
    occurred := register.Occurred();
    assert !occurred;
  }
}
