/**
 * The control state of Ladybug's debugger (lib/ladybug/debugger.rb): the
 * breakpoint list, the halt decision taken on every trace event, and the
 * command loop run while the traced thread is halted.
 *
 * The two queues between the traced thread and the controller thread are
 * modelled as a sequence of messages the loop reads (`@to_main_thread`)
 * and the sequence of values it pushes back (`@from_main_thread`).
 * `binding.eval` is the `evaluate` parameter of a frame.
 */
module Debugger {
  import opened Wrappers
  import opened Values
  import opened Numerals

  datatype Breakpoint = Breakpoint(filename: string, lineNumber: int, id: string)

  /**
   * The id `set_breakpoint` gives a breakpoint. The file name is not
   * interpolated: every id is the literal text "filename:" followed by the
   * line number.
   */
  function BreakpointId(lineNumber: int): (id: string)
    ensures |id| > 9 && id[..9] == "filename:"
    ensures ParseDecimal(id[9..]) == lineNumber
  {
    DecimalRoundTrip(lineNumber);
    var id := "filename:" + Decimal(lineNumber);
    assert id[9..] == Decimal(lineNumber);
    id
  }

  /** Breakpoints on different lines have different ids. */
  lemma BreakpointIdInjective(a: int, b: int)
    requires BreakpointId(a) == BreakpointId(b)
    ensures a == b
  {
    var prefix := "filename:";
    assert BreakpointId(a)[|prefix|..] == Decimal(a);
    assert BreakpointId(b)[|prefix|..] == Decimal(b);
    DecimalInjective(a, b);
  }

  /** Every record carries the id `set_breakpoint` computes for its line. */
  predicate IdsWellFormed(bps: seq<Breakpoint>)
  {
    forall i :: 0 <= i < |bps| ==> bps[i].id == BreakpointId(bps[i].lineNumber)
  }

  predicate At(bp: Breakpoint, filename: string, lineNumber: int)
  {
    bp.filename == filename && bp.lineNumber == lineNumber
  }

  /** `@breakpoints.find`: the first breakpoint, in list order, at the location. */
  function FirstMatch(bps: seq<Breakpoint>, filename: string, lineNumber: int): (r: Option<Breakpoint>)
    ensures r.None? <==> forall k :: 0 <= k < |bps| ==> !At(bps[k], filename, lineNumber)
    ensures r.Some? ==> exists k :: 0 <= k < |bps| && bps[k] == r.value && At(bps[k], filename, lineNumber) &&
                                    forall j :: 0 <= j < k ==> !At(bps[j], filename, lineNumber)
  {
    if bps == [] then None
    else if At(bps[0], filename, lineNumber) then Some(bps[0])
    else
      var r := FirstMatch(bps[1..], filename, lineNumber);
      assert forall k :: 1 <= k < |bps| ==> bps[k] == bps[1..][k - 1];
      r
  }

  /** The id reported to `@on_pause`: that of the breakpoint hit, or none when no breakpoint was hit. */
  function IdOf(hit: Option<Breakpoint>): Option<string>
  {
    match hit
    case Some(bp) => Some(bp.id)
    case None => None
  }

  /** The halt test of the trace hook: an exact breakpoint, or an event in the step-over file. */
  predicate Halts(bps: seq<Breakpoint>, stepOverFile: Option<string>, filename: string, lineNumber: int)
    ensures Halts(bps, stepOverFile, filename, lineNumber)
        <==> (exists k :: 0 <= k < |bps| && At(bps[k], filename, lineNumber)) || stepOverFile == Some(filename)
  {
    FirstMatch(bps, filename, lineNumber).Some? || stepOverFile == Some(filename)
  }

  /** The list with every record carrying `id` deleted, in place in the source. */
  function WithoutId(bps: seq<Breakpoint>, id: string): (r: seq<Breakpoint>)
    ensures |r| <= |bps|
    ensures forall b :: b in r <==> b in bps && b.id != id
  {
    if bps == [] then []
    else
      var rest := WithoutId(bps[1..], id);
      assert forall b :: b in bps <==> b == bps[0] || b in bps[1..];
      if bps[0].id == id then rest else [bps[0]] + rest
  }

  /** Deleting keeps the surviving records in their original order. */
  lemma {:induction false} WithoutIdAppend(a: seq<Breakpoint>, b: seq<Breakpoint>, id: string)
    ensures WithoutId(a + b, id) == WithoutId(a, id) + WithoutId(b, id)
    decreases |a|
  {
    if a != [] {
      assert (a + b)[1..] == a[1..] + b;
      WithoutIdAppend(a[1..], b, id);
    } else {
      assert a + b == b;
    }
  }

  /** Deleting an id no record carries changes nothing. */
  lemma {:induction false} WithoutAbsentId(bps: seq<Breakpoint>, id: string)
    requires forall k :: 0 <= k < |bps| ==> bps[k].id != id
    ensures WithoutId(bps, id) == bps
    decreases |bps|
  {
    if bps != [] {
      WithoutAbsentId(bps[1..], id);
      assert [bps[0]] + bps[1..] == bps;
    }
  }

  /** `remove_breakpoint` is idempotent. */
  lemma RemoveIdempotent(bps: seq<Breakpoint>, id: string)
    ensures WithoutId(WithoutId(bps, id), id) == WithoutId(bps, id)
  {
    var once := WithoutId(bps, id);
    forall k | 0 <= k < |once| ensures once[k].id != id {
      assert once[k] in once;
    }
    WithoutAbsentId(once, id);
  }

  /**
   * Because ids ignore the file, removing the id of line `l` removes the
   * breakpoints on line `l` of every file, and only those.
   */
  lemma RemoveByLine(bps: seq<Breakpoint>, lineNumber: int, b: Breakpoint)
    requires IdsWellFormed(bps)
    ensures b in WithoutId(bps, BreakpointId(lineNumber)) <==> b in bps && b.lineNumber != lineNumber
  {
    if b in bps {
      var k :| 0 <= k < |bps| && bps[k] == b;
      assert b.id == BreakpointId(b.lineNumber);
      if b.id == BreakpointId(lineNumber) {
        BreakpointIdInjective(b.lineNumber, lineNumber);
      }
    }
  }

  /** After removing the id of line `l`, no breakpoint matches an event on line `l`, in any file. */
  lemma RemovedLineNeverMatches(bps: seq<Breakpoint>, lineNumber: int, filename: string)
    requires IdsWellFormed(bps)
    ensures FirstMatch(WithoutId(bps, BreakpointId(lineNumber)), filename, lineNumber).None?
  {
    var rest := WithoutId(bps, BreakpointId(lineNumber));
    forall k | 0 <= k < |rest| ensures !At(rest[k], filename, lineNumber) {
      assert rest[k] in rest;
      RemoveByLine(bps, lineNumber, rest[k]);
    }
  }

  /** A breakpoint just set matches its own location. */
  lemma SetBreakpointMatches(bps: seq<Breakpoint>, filename: string, lineNumber: int)
    ensures FirstMatch(bps + [Breakpoint(filename, lineNumber, BreakpointId(lineNumber))], filename, lineNumber).Some?
  {
    var all := bps + [Breakpoint(filename, lineNumber, BreakpointId(lineNumber))];
    assert At(all[|bps|], filename, lineNumber);
  }

  /** Removing what was just set leaves what `remove_breakpoint` alone would have left. */
  lemma SetThenRemove(bps: seq<Breakpoint>, filename: string, lineNumber: int)
    ensures WithoutId(bps + [Breakpoint(filename, lineNumber, BreakpointId(lineNumber))], BreakpointId(lineNumber))
         == WithoutId(bps, BreakpointId(lineNumber))
  {
    var added := Breakpoint(filename, lineNumber, BreakpointId(lineNumber));
    WithoutIdAppend(bps, [added], BreakpointId(lineNumber));
    assert [added][1..] == [];
  }

  /** A message on `@to_main_thread`: its `:command` and the `:expression` under `:arguments`, if any. */
  datatype Message = Message(command: string, expression: Option<string>)

  /** What `resume` enqueues. */
  function ResumeMessage(): Message
  {
    Message("continue", None)
  }

  /** What `step_over` enqueues. */
  function StepOverMessage(): Message
  {
    Message("step_over", None)
  }

  /** What `evaluate(expression)` enqueues before it waits for the result. */
  function EvaluateMessage(expression: string): Message
  {
    Message("eval", Some(expression))
  }

  /**
   * The outcome of `binding.eval`: a value, or an exception. A bare
   * `rescue` catches only a StandardError; any other exception (a
   * SyntaxError, for one) passes through it.
   */
  datatype EvalOutcome = Returned(value: Value) | Raised(standardError: bool)

  /**
   * `binding.eval` in one paused scope. Every `eval` of a halt runs in the
   * same binding, so an expression may see what earlier ones did (an
   * assignment, say): the evaluator is given the expressions evaluated
   * before it in this binding, oldest first, as well as the text.
   */
  type Evaluator = (seq<string>, string) -> EvalOutcome

  /** The expressions the `eval` messages among `msgs` hand to the binding, in order. */
  function History(msgs: seq<Message>): seq<string>
  {
    if msgs == [] then []
    else
      var last := msgs[|msgs| - 1];
      History(msgs[..|msgs| - 1]) + (if last.command == "eval" && last.expression.Some? then [last.expression.value] else [])
  }

  /**
   * Evaluating a message after the expressions `history`; a message without
   * arguments fails on `nil[:expression]` with a NoMethodError before the
   * binding sees anything.
   */
  function Evaluation(m: Message, history: seq<string>, evaluate: Evaluator): EvalOutcome
  {
    match m.expression
    case Some(e) => evaluate(history, e)
    case None => Raised(true)
  }

  /** What an `eval` message pushes to `@from_main_thread`: the value, or `nil` when it was rescued. */
  function Pushed(m: Message, history: seq<string>, evaluate: Evaluator): Value
  {
    match Evaluation(m, history, evaluate)
    case Returned(v) => v
    case Raised(_) => Nil
  }

  /** An `eval` whose exception is not rescued leaves the loop by raising. */
  predicate Escapes(m: Message, history: seq<string>, evaluate: Evaluator)
  {
    m.command == "eval" && Evaluation(m, history, evaluate).Raised? && !Evaluation(m, history, evaluate).standardError
  }

  /** The messages on which the loop stops reading. */
  predicate EndsLoop(m: Message, history: seq<string>, evaluate: Evaluator)
  {
    m.command == "continue" || m.command == "step_over" || Escapes(m, history, evaluate)
  }

  /** Message `j` ends the loop, evaluated after the expressions of the messages before it. */
  predicate EndsAt(msgs: seq<Message>, j: nat, evaluate: Evaluator)
    requires j < |msgs|
  {
    EndsLoop(msgs[j], History(msgs[..j]), evaluate)
  }

  /** Scanning from index `i`: the first message at or after `i` that ends the loop, or `|msgs|`. */
  function StopFrom(msgs: seq<Message>, i: nat, evaluate: Evaluator): (k: nat)
    requires i <= |msgs|
    ensures i <= k <= |msgs|
    ensures k < |msgs| ==> EndsAt(msgs, k, evaluate)
    ensures forall j :: i <= j < k ==> !EndsAt(msgs, j, evaluate)
    decreases |msgs| - i
  {
    if i == |msgs| || EndsAt(msgs, i, evaluate) then i else StopFrom(msgs, i + 1, evaluate)
  }

  /** Index of the first message that ends the loop, or the number of messages if none does. */
  function StopIndex(msgs: seq<Message>, evaluate: Evaluator): (k: nat)
    ensures k <= |msgs|
    ensures k < |msgs| ==> EndsAt(msgs, k, evaluate)
    ensures forall j :: 0 <= j < k ==> !EndsAt(msgs, j, evaluate)
  {
    StopFrom(msgs, 0, evaluate)
  }

  /** Scanning from `i` past messages that do not end the loop is scanning from further on. */
  lemma {:induction false} StopFromSkips(msgs: seq<Message>, i: nat, n: nat, evaluate: Evaluator)
    requires i <= n <= |msgs|
    requires forall j :: i <= j < n ==> !EndsAt(msgs, j, evaluate)
    ensures StopFrom(msgs, i, evaluate) == StopFrom(msgs, n, evaluate)
    decreases n - i
  {
    if i < n {
      StopFromSkips(msgs, i + 1, n, evaluate);
    }
  }

  function CountEvals(msgs: seq<Message>): nat
  {
    if msgs == [] then 0
    else CountEvals(msgs[..|msgs| - 1]) + (if msgs[|msgs| - 1].command == "eval" then 1 else 0)
  }

  /** The values the `eval` messages among `msgs` push, in message order. */
  function Results(msgs: seq<Message>, evaluate: Evaluator): seq<Value>
  {
    if msgs == [] then []
    else
      var init := msgs[..|msgs| - 1];
      var last := msgs[|msgs| - 1];
      Results(init, evaluate) + (if last.command == "eval" then [Pushed(last, History(init), evaluate)] else [])
  }

  /** Exactly one result per `eval` message. */
  lemma {:induction false} ResultsCount(msgs: seq<Message>, evaluate: Evaluator)
    ensures |Results(msgs, evaluate)| == CountEvals(msgs)
    decreases |msgs|
  {
    if msgs != [] {
      ResultsCount(msgs[..|msgs| - 1], evaluate);
    }
  }

  /**
   * The result of the `eval` message at index `j` sits at the position given
   * by the number of `eval` messages before it, and is what the binding
   * gives after the expressions before it: results are pushed in command
   * order and none is lost or misdelivered.
   */
  lemma {:induction false} ResultAt(msgs: seq<Message>, evaluate: Evaluator, j: nat)
    requires j < |msgs| && msgs[j].command == "eval"
    ensures CountEvals(msgs[..j]) < |Results(msgs, evaluate)|
    ensures Results(msgs, evaluate)[CountEvals(msgs[..j])] == Pushed(msgs[j], History(msgs[..j]), evaluate)
    decreases |msgs|
  {
    var init := msgs[..|msgs| - 1];
    ResultsCount(msgs, evaluate);
    ResultsCount(init, evaluate);
    if j == |msgs| - 1 {
      assert msgs[..j] == init;
    } else {
      assert init[..j] == msgs[..j];
      ResultAt(init, evaluate, j);
    }
  }

  datatype LoopEnd =
    | Continued    // a `continue` message: the thread resumes
    | SteppedOver  // a `step_over` message: the thread resumes
    | Escaped      // an exception the `rescue` does not catch leaves the hook
    | Waiting      // no message ends the loop: the thread stays blocked on the queue

  /**
   * What the command loop did: the values it pushed, how many messages it
   * consumed, the new `@step_over_file` and how it ended.
   */
  datatype LoopResult = LoopResult(results: seq<Value>, consumed: nat, stepOverFile: Option<string>, end: LoopEnd)
  {
    /** `@on_resume` is called exactly when the loop ends by a resuming command. */
    predicate Resumed()
    {
      end == Continued || end == SteppedOver
    }
  }

  /** The command loop, halted at an event in `filename`, reading `msgs`. */
  function CommandLoop(filename: string, stepOverFile: Option<string>, msgs: seq<Message>,
                       evaluate: Evaluator): (r: LoopResult)
    ensures r.consumed <= |msgs|
    ensures r.end == Waiting <==> r.consumed == |msgs| && forall j :: 0 <= j < |msgs| ==> !EndsAt(msgs, j, evaluate)
    ensures r.end != Waiting ==> 0 < r.consumed && EndsAt(msgs, r.consumed - 1, evaluate)
    ensures forall j :: 0 <= j < r.consumed - 1 ==> !EndsAt(msgs, j, evaluate)
    ensures r.end == Continued <==> 0 < r.consumed && msgs[r.consumed - 1].command == "continue"
    ensures r.end == SteppedOver <==> 0 < r.consumed && msgs[r.consumed - 1].command == "step_over"
    ensures r.end == Continued ==> r.stepOverFile == None
    ensures r.end == SteppedOver ==> r.stepOverFile == Some(filename)
    ensures !r.Resumed() ==> r.stepOverFile == stepOverFile
    ensures r.results == Results(msgs[..StopIndex(msgs, evaluate)], evaluate)
  {
    var k := StopIndex(msgs, evaluate);
    var results := Results(msgs[..k], evaluate);
    if k == |msgs| then
      assert 0 < k ==> !EndsAt(msgs, k - 1, evaluate);
      LoopResult(results, k, stepOverFile, Waiting)
    else if msgs[k].command == "continue" then LoopResult(results, k + 1, None, Continued)
    else if msgs[k].command == "step_over" then LoopResult(results, k + 1, Some(filename), SteppedOver)
    else LoopResult(results, k + 1, stepOverFile, Escaped)
  }

  /** The messages `evaluate(e)` enqueues for each expression of `exprs`, in order. */
  function EvaluateMessages(exprs: seq<string>): (msgs: seq<Message>)
    ensures |msgs| == |exprs|
  {
    seq(|exprs|, i requires 0 <= i < |exprs| => EvaluateMessage(exprs[i]))
  }

  /** The binding sees exactly the expressions a run of `evaluate` calls sent, in order. */
  lemma {:induction false} EvaluateHistory(exprs: seq<string>)
    ensures History(EvaluateMessages(exprs)) == exprs
    ensures CountEvals(EvaluateMessages(exprs)) == |exprs|
    decreases |exprs|
  {
    if exprs != [] {
      var init := exprs[..|exprs| - 1];
      assert EvaluateMessages(exprs)[..|exprs| - 1] == EvaluateMessages(init);
      EvaluateHistory(init);
    }
  }

  /**
   * A controller that calls `evaluate` for each expression and then
   * `resume` or `step_over` gets one result per expression, in order, each
   * evaluated after the expressions before it, and the loop ends on its
   * last command, provided no evaluation raises an exception the `rescue`
   * does not catch.
   */
  lemma {:induction false} ControllerSession(filename: string, stepOverFile: Option<string>, exprs: seq<string>,
                                             last: Message, rest: seq<Message>, evaluate: Evaluator)
    requires last == ResumeMessage() || last == StepOverMessage()
    requires forall i :: 0 <= i < |exprs| ==> !(evaluate(exprs[..i], exprs[i]).Raised? && !evaluate(exprs[..i], exprs[i]).standardError)
    ensures var msgs := EvaluateMessages(exprs) + [last] + rest;
            var r := CommandLoop(filename, stepOverFile, msgs, evaluate);
            && r.consumed == |exprs| + 1
            && r.Resumed()
            && |r.results| == |exprs|
            && (forall i :: 0 <= i < |exprs| ==> r.results[i] == Pushed(EvaluateMessage(exprs[i]), exprs[..i], evaluate))
  {
    var evals := EvaluateMessages(exprs);
    var msgs := evals + [last] + rest;
    forall j | 0 <= j < |exprs| ensures msgs[..j] == evals[..j] && EvaluateMessages(exprs[..j]) == evals[..j] {
      assert msgs[..j] == evals[..j];
    }
    forall j | 0 <= j < |exprs| ensures !EndsAt(msgs, j, evaluate) {
      assert msgs[j] == evals[j];
      EvaluateHistory(exprs[..j]);
      assert exprs[..j] == History(msgs[..j]);
    }
    assert msgs[|exprs|] == last;
    assert EndsAt(msgs, |exprs|, evaluate);
    var k := StopIndex(msgs, evaluate);
    assert k == |exprs|;
    assert msgs[..k] == evals;
    var r := CommandLoop(filename, stepOverFile, msgs, evaluate);
    ResultsCount(evals, evaluate);
    EvaluateHistory(exprs);
    forall i | 0 <= i < |exprs| ensures r.results[i] == Pushed(EvaluateMessage(exprs[i]), exprs[..i], evaluate) {
      EvaluateHistory(exprs[..i]);
      assert evals[..i] == EvaluateMessages(exprs[..i]);
      ResultAt(evals, evaluate, i);
    }
  }

  /**
   * The same expression sent twice can give two different values: with a
   * binding where the n-th evaluation gives n + 1 (as `x = (x || 0) + 1`
   * does), two `evaluate("x")` calls get 1 and then 2.
   */
  lemma StatefulBinding(filename: string)
    ensures var evaluate: Evaluator := (history: seq<string>, e: string) => Returned(Num(|history| + 1));
            var r := CommandLoop(filename, None, [EvaluateMessage("x"), EvaluateMessage("x"), ResumeMessage()], evaluate);
            r.results == [Num(1), Num(2)] && r.end == Continued
  {
    var evaluate: Evaluator := (history: seq<string>, e: string) => Returned(Num(|history| + 1));
    ControllerSession(filename, None, ["x", "x"], ResumeMessage(), [], evaluate);
    assert ["x", "x"][..0] == [] && ["x", "x"][..1] == ["x"];
    assert EvaluateMessages(["x", "x"]) + [ResumeMessage()] + [] == [EvaluateMessage("x"), EvaluateMessage("x"), ResumeMessage()];
  }

  /** After `continue`, only breakpoints halt the thread again. */
  lemma AfterContinue(bps: seq<Breakpoint>, filename: string, stepOverFile: Option<string>, msgs: seq<Message>,
                      evaluate: Evaluator, g: string, l: int)
    requires CommandLoop(filename, stepOverFile, msgs, evaluate).end == Continued
    ensures Halts(bps, CommandLoop(filename, stepOverFile, msgs, evaluate).stepOverFile, g, l)
        <==> exists k :: 0 <= k < |bps| && At(bps[k], g, l)
  {
  }

  /** After `step_over`, every event in the same file halts; elsewhere only breakpoints do. */
  lemma AfterStepOver(bps: seq<Breakpoint>, filename: string, stepOverFile: Option<string>, msgs: seq<Message>,
                      evaluate: Evaluator, g: string, l: int)
    requires CommandLoop(filename, stepOverFile, msgs, evaluate).end == SteppedOver
    ensures Halts(bps, CommandLoop(filename, stepOverFile, msgs, evaluate).stepOverFile, g, l)
        <==> g == filename || exists k :: 0 <= k < |bps| && At(bps[k], g, l)
  {
  }

  /**
   * What the hook reads from the paused scope: the enclosing method's label
   * (`Kernel.caller_locations.first.base_label`), the local and instance
   * variables, and `binding.eval`.
   */
  datatype Frame = Frame(callerLabel: string, localVariables: seq<(string, Value)>,
                         instanceVariables: seq<(string, Value)>, evaluate: Evaluator)

  /** The hash passed to `@on_pause`. */
  datatype PauseInfo = PauseInfo(breakpointId: Option<string>, callerLabel: string,
                                 localVariables: seq<(string, Value)>, instanceVariables: seq<(string, Value)>,
                                 filename: string, lineNumber: int)

  /** One call of the trace hook: it returned at once, or it halted, called `@on_pause` and ran the loop. */
  datatype TraceOutcome = NotHalted | Halted(pause: PauseInfo, loop: LoopResult)

  class Debugger {
    var breakpoints: seq<Breakpoint>
    var stepOverFile: Option<string>

    ghost predicate Valid()
      reads this
    {
      IdsWellFormed(breakpoints)
    }

    constructor ()
      ensures Valid()
      ensures breakpoints == [] && stepOverFile == None
    {
      breakpoints := [];
      stepOverFile := None;
    }

    /** Building the hook (`trace_func`) clears `@step_over_file`. */
    method Start()
      modifies this`stepOverFile
      ensures stepOverFile == None
    {
      stepOverFile := None;
    }

    /** Appends one record, duplicates included, and returns its id. */
    method SetBreakpoint(filename: string, lineNumber: int) returns (id: string)
      requires Valid()
      modifies this`breakpoints
      ensures Valid()
      ensures breakpoints == old(breakpoints) + [Breakpoint(filename, lineNumber, BreakpointId(lineNumber))]
      ensures id == BreakpointId(lineNumber)
    {
      var breakpoint := Breakpoint(filename, lineNumber, BreakpointId(lineNumber));
      breakpoints := breakpoints + [breakpoint];
      id := breakpoint.id;
    }

    /** Deletes every record carrying the id and returns what is left (`delete_if`'s result). */
    method RemoveBreakpoint(breakpointId: string) returns (remaining: seq<Breakpoint>)
      requires Valid()
      modifies this`breakpoints
      ensures Valid()
      ensures breakpoints == WithoutId(old(breakpoints), breakpointId)
      ensures remaining == breakpoints
    {
      var old_ := breakpoints;
      breakpoints := WithoutId(breakpoints, breakpointId);
      forall i | 0 <= i < |breakpoints| ensures breakpoints[i].id == BreakpointId(breakpoints[i].lineNumber) {
        assert breakpoints[i] in old_;
      }
      remaining := breakpoints;
    }

    /** The halt decision for a trace event, and the id reported when it halts. */
    method OnTrace(filename: string, lineNumber: int) returns (halt: bool, breakpointId: Option<string>)
      ensures halt <==> (exists k :: 0 <= k < |breakpoints| && At(breakpoints[k], filename, lineNumber))
                        || stepOverFile == Some(filename)
      ensures breakpointId.None? <==> forall k :: 0 <= k < |breakpoints| ==> !At(breakpoints[k], filename, lineNumber)
      ensures breakpointId.Some? ==>
                exists k :: 0 <= k < |breakpoints| && At(breakpoints[k], filename, lineNumber) &&
                            breakpoints[k].id == breakpointId.value &&
                            forall j :: 0 <= j < k ==> !At(breakpoints[j], filename, lineNumber)
      ensures halt == Halts(breakpoints, stepOverFile, filename, lineNumber)
      ensures breakpointId == IdOf(FirstMatch(breakpoints, filename, lineNumber))
    {
      var i := 0;
      while i < |breakpoints| && !At(breakpoints[i], filename, lineNumber)
        invariant 0 <= i <= |breakpoints|
        invariant forall j :: 0 <= j < i ==> !At(breakpoints[j], filename, lineNumber)
      {
        i := i + 1;
      }
      var hit := if i < |breakpoints| then Some(breakpoints[i]) else None;
      var breakOnStepOver := stepOverFile == Some(filename);
      halt := hit.Some? || breakOnStepOver;
      breakpointId := IdOf(hit);
      assert hit == FirstMatch(breakpoints, filename, lineNumber);
    }

    /**
     * The loop the halted thread runs: it pops messages, pushes the result
     * of each `eval`, and stops at `continue`, `step_over` or an exception
     * that escapes the `rescue`.
     */
    method RunCommandLoop(filename: string, evaluate: Evaluator, messages: seq<Message>)
      returns (results: seq<Value>, consumed: nat, end: LoopEnd)
      modifies this`stepOverFile
      ensures LoopResult(results, consumed, stepOverFile, end) == CommandLoop(filename, old(stepOverFile), messages, evaluate)
    {
      results := [];
      var history: seq<string> := [];
      var i := 0;
      while i < |messages| && !EndsLoop(messages[i], history, evaluate)
        invariant 0 <= i <= |messages|
        invariant history == History(messages[..i])
        invariant forall j :: 0 <= j < i ==> !EndsAt(messages, j, evaluate)
        invariant results == Results(messages[..i], evaluate)
        invariant stepOverFile == old(stepOverFile)
      {
        var message := messages[i];
        assert messages[..i + 1][..i] == messages[..i];
        if message.command == "eval" {
          var evaluated := Pushed(message, history, evaluate);
          results := results + [evaluated];
          if message.expression.Some? {
            history := history + [message.expression.value];
          }
        }
        i := i + 1;
      }
      assert i == StopFrom(messages, i, evaluate);
      assert StopFrom(messages, 0, evaluate) == i by {
        StopFromSkips(messages, 0, i, evaluate);
      }
      if i == |messages| {
        consumed, end := i, Waiting;
      } else if messages[i].command == "continue" {
        stepOverFile := None;
        consumed, end := i + 1, Continued;
      } else if messages[i].command == "step_over" {
        stepOverFile := Some(filename);
        consumed, end := i + 1, SteppedOver;
      } else {
        consumed, end := i + 1, Escaped;
      }
    }

    /** One call of the trace hook for an event at `filename`:`lineNumber`. */
    method Trace(filename: string, lineNumber: int, frame: Frame, messages: seq<Message>)
      returns (outcome: TraceOutcome)
      modifies this`stepOverFile
      ensures outcome.NotHalted? <==> !Halts(breakpoints, old(stepOverFile), filename, lineNumber)
      ensures outcome.NotHalted? ==> stepOverFile == old(stepOverFile)
      ensures outcome.Halted? ==>
                outcome.pause == PauseInfo(IdOf(FirstMatch(breakpoints, filename, lineNumber)), frame.callerLabel,
                                           frame.localVariables, frame.instanceVariables, filename, lineNumber)
      ensures outcome.Halted? ==>
                outcome.loop == CommandLoop(filename, old(stepOverFile), messages, frame.evaluate) &&
                stepOverFile == outcome.loop.stepOverFile
    {
      var halt, breakpointId := OnTrace(filename, lineNumber);
      if !halt {
        return NotHalted;
      }
      var pause := PauseInfo(breakpointId, frame.callerLabel, frame.localVariables, frame.instanceVariables,
                             filename, lineNumber);
      var results, consumed, end := RunCommandLoop(filename, frame.evaluate, messages);
      outcome := Halted(pause, LoopResult(results, consumed, stepOverFile, end));
    }
  }
}
