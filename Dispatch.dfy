/*
 * Shell::prompt as a state machine. One iteration reads a token (and, for
 * Add and Remove, the argument the command itself would read), lets the
 * switch select a command, runs that command's execute, or its undo when
 * the undo flag is set, and clears the flag. The loop runs while exit is
 * false. The commands are the six variants of the Command class hierarchy;
 * what each does to the shared state is given by module Commands.
 */
module Dispatch {
  import opened CStrings
  import C = Commands

  /** The concrete subclasses of Command. */
  datatype Command =
    | PrintCommand
    | AddCommand
    | RemoveCommand
    | LengthCommand
    | EmptyCommand
    | NoCommand

  /** The array main() hands to the Shell, in its order. */
  const CommandList: seq<Command> :=
    [PrintCommand, AddCommand, RemoveCommand, LengthCommand, EmptyCommand]

  /** The tokens the switch gives a list slot to, slot by slot. */
  const ListTokens: seq<char> := ['p', 'a', 'r', 'l', 'e']

  /** The letter the help text gives each editing command ('?' for none). */
  function Letter(c: Command): char {
    match c
    case PrintCommand => 'p'
    case AddCommand => 'a'
    case RemoveCommand => 'r'
    case LengthCommand => 'l'
    case EmptyCommand => 'e'
    case NoCommand => '?'
  }

  /** What the switch decides for one token. */
  datatype Selection = Selection(command: Command, exit: bool, undo: bool, notice: seq<C.Reply>)

  /**
   * The switch on the token, given the command selected so far: the five
   * list tokens pick their slot, 'u' keeps the selection and raises the undo
   * flag, 'q' raises exit, '?' prints the help and every other token a
   * notice; those three select a fresh NoCommand.
   */
  function Select(token: char, current: Command): (s: Selection)
    ensures s.undo <==> token == 'u'
    ensures s.exit <==> token == 'q'
    ensures token == 'u' ==> s.command == current
    ensures forall k :: 0 <= k < 5 && token == ListTokens[k] ==> s.command == CommandList[k]
    ensures token != 'u' && token !in ListTokens ==> s.command == NoCommand
    ensures forall c :: c != NoCommand && token == Letter(c) ==> s.command == c
    ensures token != 'u' && s.command != NoCommand ==> Letter(s.command) == token
    ensures s.notice == if token == '?' then [C.Help]
                        else if token in "parlequ" then []
                        else [C.Unknown]
  {
    match token
    case '?' => Selection(NoCommand, false, false, [C.Help])
    case 'p' => Selection(CommandList[0], false, false, [])
    case 'a' => Selection(CommandList[1], false, false, [])
    case 'r' => Selection(CommandList[2], false, false, [])
    case 'l' => Selection(CommandList[3], false, false, [])
    case 'e' => Selection(CommandList[4], false, false, [])
    case 'q' => Selection(NoCommand, true, false, [])
    case 'u' => Selection(current, false, true, [])
    case _ => Selection(NoCommand, false, false, [C.Unknown])
  }

  /**
   * One line of input: the token, the text Add would read after it (the
   * character that cin.ignore(1, ' ') skips already removed) and the
   * integer Remove would read.
   */
  datatype Input = Input(token: char, text: string, count: int)

  /** The shared buffer, AddCommand's inputLength, and prompt's three locals. */
  datatype ShellState = ShellState(
    buffer: C.BufferState, inputLength: int, slot: Command, exit: bool, undo: bool)

  /** The state at the top of the first iteration. */
  function Initial(contents: seq<char>): (s: ShellState)
    requires 0 < |contents| && contents[0] == NUL
    ensures s.buffer == C.Initial(contents) && s.inputLength == 0
    ensures s.buffer.Valid() && Str(s.buffer.data) == []
    ensures s.slot == NoCommand && !s.exit && !s.undo
  {
    ShellState(C.Initial(contents), 0, NoCommand, false, false)
  }

  /** The effect of running a command: buffer, inputLength, messages. */
  datatype Effect = Effect(buffer: C.BufferState, inputLength: int, replies: seq<C.Reply>)

  predicate ExecuteDefined(c: Command, b: C.BufferState, inp: Input) {
    b.Valid() &&
    match c
    case AddCommand => C.AddDefined(b)
    case RemoveCommand => C.RemoveDefined(b, inp.count)
    case _ => true
  }

  /** c->execute(). */
  function Execute(c: Command, b: C.BufferState, inputLength: int, inp: Input): (e: Effect)
    requires ExecuteDefined(c, b, inp)
    ensures e.buffer.Valid()
    ensures c in {PrintCommand, LengthCommand, NoCommand} ==>
              e.buffer == b && e.inputLength == inputLength
    ensures c != AddCommand ==> e.inputLength == inputLength
  {
    match c
    case PrintCommand => Effect(b, inputLength, [C.Print(b)])
    case AddCommand =>
      var r := C.Add(b, inp.text);
      Effect(r.buffer, r.inputLength, [C.Added])
    case RemoveCommand =>
      var r := C.Remove(b, inp.count);
      Effect(r.0, inputLength, [r.1])
    case LengthCommand => Effect(b, inputLength, [C.LengthIs(b.length)])
    case EmptyCommand => Effect(C.Empty(b), inputLength, [C.Emptied])
    case NoCommand => Effect(b, inputLength, [])
  }

  predicate UndoDefined(c: Command, b: C.BufferState, inputLength: int) {
    b.Valid() && (c == AddCommand ==> C.UndoDefined(b, inputLength))
  }

  /** c->undo(): only AddCommand's does anything. */
  function Undo(c: Command, b: C.BufferState, inputLength: int): (e: Effect)
    requires UndoDefined(c, b, inputLength)
    ensures e.buffer.Valid() && e.inputLength == inputLength
    ensures e.buffer.length == b.length && e.buffer.size == b.size
    ensures c != AddCommand ==> e == Effect(b, inputLength, [])
  {
    if c == AddCommand then Effect(C.Undo(b, inputLength), inputLength, [C.UndidAdd])
    else Effect(b, inputLength, [])
  }

  /** The command the iteration runs would not access memory out of bounds. */
  predicate StepDefined(s: ShellState, inp: Input) {
    var sel := Select(inp.token, s.slot);
    if s.undo || sel.undo then UndoDefined(sel.command, s.buffer, s.inputLength)
    else ExecuteDefined(sel.command, s.buffer, inp)
  }

  /** One iteration of the while loop of Shell::prompt, with its messages. */
  function Step(s: ShellState, inp: Input): (r: (ShellState, seq<C.Reply>))
    requires StepDefined(s, inp)
    ensures r.0.buffer.Valid() && !r.0.undo
    ensures r.0.exit <==> s.exit || inp.token == 'q'
    ensures inp.token == 'u' ==> r.0.slot == s.slot
  {
    var sel := Select(inp.token, s.slot);
    var e :=
      if s.undo || sel.undo then Undo(sel.command, s.buffer, s.inputLength)
      else Execute(sel.command, s.buffer, s.inputLength, inp);
    (ShellState(e.buffer, e.inputLength, sel.command, s.exit || sel.exit, false),
     sel.notice + e.replies)
  }

  /** Every iteration the loop gets to is defined. */
  predicate RunDefined(s: ShellState, inputs: seq<Input>)
    decreases |inputs|
  {
    s.exit || inputs == [] ||
    (StepDefined(s, inputs[0]) && RunDefined(Step(s, inputs[0]).0, inputs[1..]))
  }

  /** while (!exit) { ... } over the given lines, stopping when they run out. */
  function Run(s: ShellState, inputs: seq<Input>): (r: (ShellState, seq<C.Reply>))
    requires RunDefined(s, inputs)
    ensures r.0.exit <==> s.exit || exists j :: 0 <= j < |inputs| && inputs[j].token == 'q'
    ensures !s.undo ==> !r.0.undo
    ensures s.buffer.Valid() ==> r.0.buffer.Valid()
    decreases |inputs|
  {
    if s.exit || inputs == [] then (s, [])
    else
      var (t, out) := Step(s, inputs[0]);
      var (u, rest) := Run(t, inputs[1..]);
      (u, out + rest)
  }

  /** The number of lines the loop reads: up to and including the first 'q'. */
  function Consumed(inputs: seq<Input>): (k: nat)
    ensures k <= |inputs| && (k == 0 <==> inputs == [])
    ensures forall j :: 0 <= j < k - 1 ==> inputs[j].token != 'q'
    ensures 0 < k < |inputs| ==> inputs[k - 1].token == 'q'
    decreases |inputs|
  {
    if inputs == [] then 0
    else if inputs[0].token == 'q' then 1
    else 1 + Consumed(inputs[1..])
  }

  /** Consumed is the only count with the properties it promises. */
  lemma ConsumedIs(inputs: seq<Input>, k: nat)
    requires k <= |inputs| && (k == 0 <==> inputs == [])
    requires forall j :: 0 <= j < k - 1 ==> inputs[j].token != 'q'
    requires 0 < k < |inputs| ==> inputs[k - 1].token == 'q'
    ensures Consumed(inputs) == k
  {
  }

  /** One turn of the loop, seen from the line it is at. */
  lemma RunUnfold(s: ShellState, inputs: seq<Input>, i: nat)
    requires i < |inputs| && !s.exit && RunDefined(s, inputs[i..])
    ensures StepDefined(s, inputs[i])
    ensures RunDefined(Step(s, inputs[i]).0, inputs[i + 1..])
    ensures var t := Step(s, inputs[i]);
      Run(s, inputs[i..]) == (Run(t.0, inputs[i + 1..]).0, t.1 + Run(t.0, inputs[i + 1..]).1)
  {
    assert inputs[i..][0] == inputs[i] && inputs[i..][1..] == inputs[i + 1..];
  }

  // -----------------------------------------------------------------------
  // Properties of the loop

  /** 'u' on anything but Add changes nothing but clearing the undo flag. */
  lemma UndoOnlyUndoesAdd(s: ShellState, inp: Input)
    requires inp.token == 'u' && s.slot != AddCommand && StepDefined(s, inp)
    ensures Step(s, inp) == (s.(undo := false), [])
  {
    var sel := Select(inp.token, s.slot);
    assert sel == Selection(s.slot, false, true, []);
    assert Undo(sel.command, s.buffer, s.inputLength) == Effect(s.buffer, s.inputLength, []);
    assert Step(s, inp).0 == s.(undo := false);
    assert Step(s, inp).1 == [];
  }

  /**
   * 'a' and then 'u' on a consistent buffer: both iterations are defined, the
   * undo runs Add's undo and gives back the string held before the 'a', and
   * length keeps the value the Add gave it.
   */
  lemma AddThenUndoStep(s: ShellState, a: Input, u: Input)
    requires a.token == 'a' && u.token == 'u' && !s.undo
    requires C.AddDefined(s.buffer) && s.buffer.Consistent()
    ensures StepDefined(s, a)
    ensures var (t, out) := Step(s, a);
      t.slot == AddCommand && out == [C.Added] && StepDefined(t, u) &&
      var (v, out') := Step(t, u);
      v.slot == AddCommand && out' == [C.UndidAdd] &&
      Str(v.buffer.data) == Str(s.buffer.data) &&
      v.buffer.length == t.buffer.length && v.inputLength == t.inputLength
  {
    assert Select(a.token, s.slot) == Selection(AddCommand, false, false, []);
    var r := C.Add(s.buffer, a.text);
    var t := Step(s, a).0;
    assert t == ShellState(r.buffer, r.inputLength, AddCommand, s.exit, false);
    C.UndoAfterAdd(s.buffer, a.text);
    assert Select(u.token, t.slot) == Selection(AddCommand, false, true, []);
    assert Step(t, u).0.buffer == C.Undo(t.buffer, t.inputLength);
  }

  /** A second 'u' right after a 'u' leaves everything as the first left it. */
  lemma UndoTwice(s: ShellState, u: Input)
    requires u.token == 'u' && StepDefined(s, u)
    ensures StepDefined(Step(s, u).0, u)
    ensures Step(Step(s, u).0, u).0 == Step(s, u).0
  {
    if s.slot == AddCommand {
      C.UndoIdempotent(s.buffer, s.inputLength);
    }
  }

  /** An unrecognised token only prints a notice and selects NoCommand. */
  lemma UnknownToken(s: ShellState, inp: Input)
    requires !s.undo && inp.token !in "?parlequ"
    ensures StepDefined(s, inp) <==> s.buffer.Valid()
    ensures s.buffer.Valid() ==>
      Step(s, inp) == (s.(slot := NoCommand), [C.Unknown])
  {
    var sel := Select(inp.token, s.slot);
    assert sel == Selection(NoCommand, false, false, [C.Unknown]);
    if s.buffer.Valid() {
      assert Step(s, inp).0 == s.(slot := NoCommand);
      assert Step(s, inp).1 == [C.Unknown];
    }
  }

  /** Once exit is set the loop runs no further iteration. */
  lemma {:induction false} RunStopsAtQuit(s: ShellState, inputs: seq<Input>)
    requires !s.exit && RunDefined(s, inputs)
    ensures RunDefined(s, inputs[..Consumed(inputs)])
    ensures Run(s, inputs) == Run(s, inputs[..Consumed(inputs)])
    ensures Run(s, inputs).0.exit <==> exists j :: 0 <= j < |inputs| && inputs[j].token == 'q'
    decreases |inputs|
  {
    if inputs != [] {
      var k := Consumed(inputs);
      assert inputs[..k][0] == inputs[0];
      var t := Step(s, inputs[0]).0;
      if inputs[0].token == 'q' {
        assert k == 1;
        assert t.exit;
      } else {
        assert inputs[..k][1..] == inputs[1..][..Consumed(inputs[1..])];
        RunStopsAtQuit(t, inputs[1..]);
        if exists j :: 0 <= j < |inputs| && inputs[j].token == 'q' {
          var j :| 0 <= j < |inputs| && inputs[j].token == 'q';
          assert inputs[1..][j - 1].token == 'q';
        }
      }
    }
  }
}
