/*
 * The objects of Command.cpp. The char array, `length` and `size` that
 * main() owns and every command reaches through a pointer are the fields of
 * one Buffer; Print, Length, Remove and Empty are its methods, AddCommand
 * keeps its own inputLength, and Shell holds the selected command and the
 * exit and undo flags of prompt's loop. Every method is proved to change
 * the state exactly as the matching function of CStrings, Commands or
 * Dispatch says.
 */
module Editor {
  import opened CStrings
  import C = Commands
  import D = Dispatch

  class Buffer {
    /** MAX_LENGTH, which every command receives as maxSize. */
    const maxSize: int
    /** The array main() declares; it stays the same array for the whole run. */
    const data: array<char>
    var length: int
    var size: int

    ghost function State(): C.BufferState
      reads this, data
    {
      C.BufferState(data[..], length, size)
    }

    ghost predicate Valid()
      reads this, data
    {
      data.Length == maxSize && State().Valid()
    }

    /**
     * main()'s array and its two integers. The array is not initialised in
     * the program; the model takes its contents as found, on the explicit
     * assumption that index 0 holds a NUL.
     */
    constructor (contents: seq<char>)
      requires 0 < |contents| && contents[0] == NUL
      ensures Valid() && fresh(data) && maxSize == |contents|
      ensures State() == C.Initial(contents)
    {
      maxSize := |contents|;
      data := new char[|contents|](i requires 0 <= i < |contents| => contents[i]);
      length := 0;
      size := |contents|;
      new;
      assert data[..] == contents;
    }

    /** strlen(buffer): scans for the NUL the array is known to hold. */
    method StringLength() returns (n: nat)
      requires Strlen(data[..]) < data.Length
      ensures n == Strlen(data[..])
    {
      n := 0;
      while data[n] != NUL
        invariant n <= Strlen(data[..])
        decreases Strlen(data[..]) - n
      {
        n := n + 1;
      }
    }

    /** PrintCommand::execute. */
    method Print() returns (reply: C.Reply)
      requires Valid()
      ensures reply == C.Print(State())
    {
      var n := StringLength();
      if n == 0 {
        reply := C.BufferIsEmpty;
      } else {
        reply := C.Shown(data[..n]);
      }
    }

    /** LengthCommand::execute: reports *length, whatever strlen says. */
    method Length() returns (reply: C.Reply)
      requires Valid()
      ensures reply == C.LengthIs(State().length)
    {
      reply := C.LengthIs(length);
    }

    /**
     * cin.get(&buffer[pos], n, '\n'): copies the pending input up to the
     * limit or the newline, then writes the NUL.
     */
    method Get(pos: nat, input: seq<char>, n: int)
      requires 1 <= n && pos + n <= data.Length
      modifies data
      ensures data[..] == Store(old(data[..]), pos, Extract(input, n))
    {
      var i := 0;
      while i < n - 1 && i < |input| && input[i] != NEWLINE
        invariant 0 <= i <= n - 1 && i <= |input|
        invariant forall j :: 0 <= j < i ==> input[j] != NEWLINE
        invariant forall k :: 0 <= k < data.Length ==>
                    data[k] == if pos <= k < pos + i then input[k - pos] else old(data[k])
      {
        data[pos + i] := input[i];
        i := i + 1;
      }
      data[pos + i] := NUL;
      ExtractIs(input, n, i);
      assert data[..] == Store(old(data[..]), pos, input[..i]);
    }

    /** memmove(buffer, buffer + n, count), copying front to back. */
    method MoveToFront(n: nat, count: nat)
      requires n + count <= data.Length
      modifies data
      ensures data[..] == Shift(old(data[..]), n, count)
    {
      var i := 0;
      while i < count
        invariant 0 <= i <= count
        invariant forall k :: 0 <= k < i ==> data[k] == old(data[k + n])
        invariant forall k :: i <= k < data.Length ==> data[k] == old(data[k])
      {
        data[i] := data[i + n];
        i := i + 1;
      }
    }

    /** RemoveCommand::execute with the count it would read. */
    method Remove(n: int) returns (reply: C.Reply)
      requires Valid() && C.RemoveDefined(State(), n)
      modifies this, data
      ensures Valid()
      ensures (State(), reply) == C.Remove(old(State()), n)
    {
      if length == 0 {
        reply := C.AlreadyEmpty;
      } else {
        if n < length {
          MoveToFront(n, length + n);
          length := StringLength();
          size := maxSize - length;
        } else {
          data[0] := NUL;
          size := maxSize;
          length := 0;
        }
        reply := C.Removing(n);
      }
    }

    /** EmptyCommand::execute. */
    method Empty() returns (reply: C.Reply)
      requires Valid()
      modifies this, data
      ensures Valid()
      ensures State() == C.Empty(old(State())) && reply == C.Emptied
    {
      reply := C.Emptied;
      data[0] := NUL;
      size := maxSize;
      length := 0;
    }
  }

  class AddCommand {
    const buffer: Buffer
    var inputLength: int

    constructor (buffer: Buffer)
      ensures this.buffer == buffer && inputLength == 0
    {
      this.buffer := buffer;
      inputLength := 0;
    }

    /** AddCommand::execute on the rest of the line after the skipped character. */
    method Execute(input: seq<char>) returns (reply: C.Reply)
      requires buffer.Valid() && C.AddDefined(buffer.State())
      modifies this, buffer, buffer.data
      ensures buffer.Valid()
      ensures C.AddOutcome(buffer.State(), inputLength) == C.Add(old(buffer.State()), input)
      ensures reply == C.Added
    {
      if 1 <= buffer.size {
        buffer.Get(buffer.length, input, buffer.size);
      }
      inputLength := buffer.StringLength();
      buffer.length := buffer.length + inputLength;
      buffer.size := buffer.maxSize - buffer.length;
      reply := C.Added;
    }

    /** AddCommand::undo. */
    method Undo() returns (reply: C.Reply)
      requires buffer.Valid() && C.UndoDefined(buffer.State(), inputLength)
      modifies buffer.data
      ensures buffer.Valid()
      ensures buffer.State() == C.Undo(old(buffer.State()), inputLength)
      ensures reply == C.UndidAdd
    {
      buffer.data[buffer.length - inputLength] := NUL;
      reply := C.UndidAdd;
    }
  }

  class Shell {
    const buffer: Buffer
    const add: AddCommand
    /** prompt's commandSlot, exit and undo. */
    var slot: D.Command
    var exit: bool
    var undo: bool

    ghost predicate Valid()
      reads this, add, buffer, buffer.data
    {
      add.buffer == buffer && buffer.Valid()
    }

    ghost function State(): D.ShellState
      reads this, add, buffer, buffer.data
    {
      D.ShellState(buffer.State(), add.inputLength, slot, exit, undo)
    }

    /**
     * main()'s wiring and the start of prompt: the MAX_LENGTH array, the
     * commands sharing it, and a NoCommand selected with both flags false.
     */
    constructor (contents: seq<char>)
      requires |contents| == C.MAX_LENGTH && contents[0] == NUL
      ensures Valid() && fresh(buffer) && fresh(buffer.data) && fresh(add)
      ensures State() == D.Initial(contents)
    {
      var b := new Buffer(contents);
      buffer := b;
      add := new AddCommand(b);
      slot := D.NoCommand;
      exit := false;
      undo := false;
    }

    /** commandSlot->execute(). */
    method Execute(inp: D.Input) returns (out: seq<C.Reply>)
      requires Valid() && D.ExecuteDefined(slot, buffer.State(), inp)
      modifies add, buffer, buffer.data
      ensures Valid()
      ensures D.Effect(buffer.State(), add.inputLength, out) ==
              D.Execute(slot, old(buffer.State()), old(add.inputLength), inp)
    {
      match slot
      case PrintCommand =>
        var r := buffer.Print();
        out := [r];
      case AddCommand =>
        var r := add.Execute(inp.text);
        out := [r];
      case RemoveCommand =>
        var r := buffer.Remove(inp.count);
        out := [r];
      case LengthCommand =>
        var r := buffer.Length();
        out := [r];
      case EmptyCommand =>
        var r := buffer.Empty();
        out := [r];
      case NoCommand =>
        out := [];
    }

    /** commandSlot->undo(). */
    method Undo() returns (out: seq<C.Reply>)
      requires Valid() && D.UndoDefined(slot, buffer.State(), add.inputLength)
      modifies buffer.data
      ensures Valid()
      ensures D.Effect(buffer.State(), add.inputLength, out) ==
              D.Undo(slot, old(buffer.State()), add.inputLength)
    {
      if slot == D.AddCommand {
        var r := add.Undo();
        out := [r];
      } else {
        out := [];
      }
    }

    /** One iteration of prompt's loop, for one line of input. */
    method Step(inp: D.Input) returns (replies: seq<C.Reply>)
      requires Valid() && D.StepDefined(State(), inp)
      modifies this, add, buffer, buffer.data
      ensures Valid()
      ensures (State(), replies) == D.Step(old(State()), inp)
    {
      var sel := D.Select(inp.token, slot);
      slot := sel.command;
      if sel.exit {
        exit := true;
      }
      if sel.undo {
        undo := true;
      }
      var out;
      if undo {
        out := Undo();
        undo := false;
      } else {
        out := Execute(inp);
      }
      replies := sel.notice + out;
    }

    /**
     * Shell::prompt over the given lines: runs iterations while exit is
     * false and lines remain, and says how many lines it read.
     */
    method Prompt(inputs: seq<D.Input>) returns (consumed: nat, output: seq<C.Reply>)
      requires Valid() && !exit && !undo && D.RunDefined(State(), inputs)
      modifies this, add, buffer, buffer.data
      ensures Valid() && !undo
      ensures (State(), output) == D.Run(old(State()), inputs)
      ensures consumed == D.Consumed(inputs)
      ensures exit <==> exists j :: 0 <= j < |inputs| && inputs[j].token == 'q'
    {
      consumed, output := 0, [];
      while !exit && consumed < |inputs|
        invariant Valid() && !undo && consumed <= |inputs|
        invariant D.RunDefined(State(), inputs[consumed..])
        invariant D.Run(old(State()), inputs).0 == D.Run(State(), inputs[consumed..]).0
        invariant D.Run(old(State()), inputs).1 == output + D.Run(State(), inputs[consumed..]).1
        invariant forall j :: 0 <= j < consumed ==>
                    (inputs[j].token == 'q' <==> exit && j == consumed - 1)
        invariant exit ==> 0 < consumed
        decreases |inputs| - consumed
      {
        D.RunUnfold(State(), inputs, consumed);
        var out := Step(inputs[consumed]);
        output := output + out;
        consumed := consumed + 1;
      }
      assert D.Run(State(), inputs[consumed..]) == (State(), []);
      assert output + [] == output;
      D.ConsumedIs(inputs, consumed);
      if exit {
        assert inputs[consumed - 1].token == 'q';
      }
    }
  }
}
