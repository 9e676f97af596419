# Command-pattern line editor, modelled in Dafny

`Command.cpp` is a small interactive editor. One fixed-capacity C string
(`MAX_LENGTH` = 256 characters) is shared through pointers with five command
objects: Print, Add (append a line), Remove (drop the first n characters),
Length and Empty, plus a do-nothing NoCommand. `Shell::prompt` loops. Each
turn it reads a one-character token, selects a command with a `switch`, and
runs the command's `execute`. After `u` it runs the previously selected
command's `undo` instead. Only Add's undo does anything.

The model has four modules:

- `CStrings.dfy` holds the library behaviour the code relies on. `Strlen` is
  strlen (section 7.24.6.3 of ISO C11). `Extract` is what
  `std::istream::get(char*, n, '\n')` stores, following ISO C++
  [istream.unformatted]. `Store` is the array after such a `get`. `Shift` is
  the array after `memmove` (section 7.24.2.2 of ISO C11). Each comes with
  lemmas on where the C string ends afterwards.
- `Commands.dfy` takes a snapshot of the shared state (`BufferState`: the
  array, `length`, `size`). It gives each command's execute and undo as a
  function on snapshots, with the lemmas that say what they do to the string.
- `Dispatch.dfy` models the token `switch` (`Select`), one loop iteration
  (`Step`) and the whole loop (`Run`) as functions on `ShellState`. That is
  the buffer, AddCommand's `inputLength`, the selected command, and the
  `exit` and `undo` flags.
- `Editor.dfy` is the imperative side. Class `Buffer` holds an
  `array<char>`, `length`, `size` and `maxSize`. Class `AddCommand` holds
  `inputLength`. Class `Shell` holds the slot and the two flags. Every
  method is proved to change the state exactly as the matching function of
  `CStrings`, `Commands` or `Dispatch` says. The loops are `strlen`, the copy done by
  `get`, the copy done by `memmove`, and prompt's `while`.

The model follows the code, including where the code does something other
than what its comments (Command.cpp:16, 37, 67) and its help text
(Command.cpp:185-191) promise ("Append string to buffer", "Remove 'n' chars
from start of buffer", "Undo last command"):

- Add sets `inputLength = strlen(buffer)`, the length of the WHOLE string
  (line 56), and adds that to `length`. On a consistent buffer holding L
  characters, appending k characters makes `length` grow by L + k. Only an
  empty buffer stays consistent (`AddAppends`). Once `length` has run past
  the string, later Adds write behind the NUL: the string no longer changes,
  yet `length` still grows by the string's length (`AddBehindString`).
- Because of this, `length <= MAX_LENGTH` is not an invariant. `AddOverflows`
  exhibits a line of 200 characters and then one of 50: together they leave
  `length` at 450 and `size` at -194. The model does not assume the bound.
  Add requires only what makes its own write legal, namely a write position
  inside the array or one past its end (`AddDefined`).
- Add's undo writes one NUL at `length - inputLength` and changes nothing
  else, so `length` and `size` stay as they are (line 62). Right after an Add
  on a consistent buffer, it gives back the previous string, but not the
  previous `length` (`UndoAfterAdd`, and `Dispatch.AddThenUndoStep` for the
  `a` and `u` iterations of the loop). The undone characters stay in the
  array below `length`, and the next Remove's `memmove` moves them back into
  the string. On an empty buffer, `a abc`, then `u`, then `r 1` leaves the
  string `bc` (`RemoveAfterUndoneAdd`, `UndoneTextReturns`).
- Remove moves `length + n` bytes (line 96), where `length - n + 1` would
  do. On a consistent buffer with `0 <= n < length`, Remove is safe exactly
  when `length + 2n <= capacity` (`RemoveDropsPrefix`). With `n >= length`
  it never calls `memmove` (lines 100-104) and is always safe. Its message reports the
  requested count, not the number of characters removed.

Undefined behaviour is excluded by `requires` clauses, never modelled:
forming `&buffer[length]` beyond one past the end, an undo index outside the
array, a `memmove` source outside the array, a negative count, and a
`strlen` that finds no NUL. `Dispatch.StepDefined` and `Dispatch.RunDefined`
collect these conditions for one iteration and for a whole run.

## Model

| member | source | states |
|---|---|---|
| `CStrings.Strlen` | Command.cpp:56 | the result is the index of the first NUL: every earlier character is not NUL, and the character there is NUL unless it is the length of the array |
| `CStrings.Extract` | Command.cpp:55 | get stores a newline-free prefix of the pending input, at most n - 1 characters (none when n <= 1), and stops early only at the end of the input or in front of a newline |
| `CStrings.ExtractFits` | Command.cpp:55 | a newline-free line shorter than n is stored whole |
| `CStrings.Store` | Command.cpp:55 | after get, the array holds the stored characters at pos, a NUL after them, and its old contents everywhere else |
| `CStrings.StrlenAfterStore` | Command.cpp:55-56 | after a store at pos, strlen is unchanged if the string ended before pos; otherwise it is pos plus strlen of the stored text |
| `CStrings.StrAfterStore` | Command.cpp:55-56 | a store exactly at the end of the string appends the stored text's C string |
| `CStrings.Shift` | Command.cpp:96 | after memmove(p, p + n, count), the first count characters are the ones that started at n; the rest is unchanged |
| `CStrings.StrAfterShift` | Command.cpp:96-97 | when the NUL lies in the moved range at or after n, the move leaves a NUL in the array and drops exactly the first n characters of the string |
| `CStrings.StrAfterNulAt` | Command.cpp:62 | a NUL written at i cuts the string at i, or leaves it alone when it already ended before i |
| `Commands.Initial` | Command.cpp:238-240 | the starting state is valid and consistent, with the empty string, length 0 and size equal to the capacity |
| `Commands.Print` | Command.cpp:25-33 | Print reports an empty buffer exactly when the C string is empty, and shows the C string otherwise |
| `Commands.Add` | Command.cpp:53-58 | Add keeps the state valid and the characters before `length` intact. It writes what get extracts (at most size - 1 characters) at index `length`, then a NUL, and changes nothing else; with no free space it writes nothing. inputLength is strlen of the whole array, and length grows by it |
| `Commands.AddAppends` | Command.cpp:55-58 | on a consistent buffer, Add appends the stored text's C string. inputLength and the growth of length are the old length plus the appended length. Growth equals the appended length, and the buffer stays consistent, exactly when the buffer was empty |
| `Commands.AddWholeLine` | Command.cpp:55-57 | a NUL-free, newline-free line that fits is appended whole to a consistent buffer |
| `Commands.AddBehindString` | Command.cpp:55-57 | when length has run past the string, Add leaves the string unchanged and still adds strlen to length |
| `Commands.AddOverflows` | Command.cpp:56-58 | on the 256-character array, lines of 200 and then 50 characters store 250 characters but leave length at 450, beyond the capacity, and size negative |
| `Commands.Undo` | Command.cpp:61-64 | Add's undo keeps the state valid and leaves length and size unchanged. It writes a NUL at length - inputLength and leaves every other cell of the array as it was. It cuts the string at that point, unless the string already ended before it |
| `Commands.UndoIdempotent` | Command.cpp:61-62 | undoing twice is the same as undoing once |
| `Commands.RemoveCanGrowLength` | Command.cpp:94-98 | with "xy", a NUL and ten z's behind it, and length 5, Remove 3 is defined and raises length to 13: the move brings the characters behind the NUL to the front, and length becomes their strlen |
| `Commands.RemoveAfterUndoneAdd` | Command.cpp:53-98 | on an empty buffer, Add of a fitting line, undo and then Remove n (1 <= n < the line's length, memmove in bounds) are all defined. The undo leaves the empty string with length still the line's length, and the Remove brings back the line without its first n characters |
| `Commands.UndoneTextReturns` | Command.cpp:53-98 | on an empty 256-character buffer, Add of "abc", undo and Remove 1 leave the string "bc" |
| `Commands.UndoAfterAdd` | Command.cpp:53-64 | right after an Add on a consistent buffer, undo is in bounds and restores the old string (the empty string on an empty buffer). Length stays at the value Add gave it, twice the old length plus the appended length |
| `Commands.Remove` | Command.cpp:85-108 | with length 0, Remove changes nothing and reports "already empty". Otherwise it leaves length equal to strlen and reports the requested count; with n >= length it empties the string, sets length to 0 and size to the capacity, and changes only index 0 of the array |
| `Commands.RemoveDropsPrefix` | Command.cpp:94-98 | on a consistent buffer with 0 <= n < length, Remove is defined exactly when length + 2n fits the array. It then drops the first n characters of the string and sets length to old length - n and size to the capacity minus length |
| `Commands.Empty` | Command.cpp:127-132 | Empty leaves a consistent buffer with the empty string, length 0 and size equal to the capacity, and changes only index 0 of the array |
| `Dispatch.Select` | Command.cpp:183-219 | p, a, r, l, e select list slots 0-4 (print, add, remove, length, empty). Each editing command is selected by its help-text letter, and only by it. u keeps the current command and is the only token that raises undo. q is the only token that raises exit. ?, q and unknown tokens select NoCommand, and only ? and unknown tokens print a notice |
| `Dispatch.Initial` | Command.cpp:165-168 | the loop starts with the buffer main() sets up (length 0, size the capacity, the empty string), inputLength 0, NoCommand selected and both flags false |
| `Dispatch.Execute` | Command.cpp:220-228 | execute keeps the buffer valid. Print, Length and NoCommand change neither the buffer nor inputLength, and only Add changes inputLength |
| `Dispatch.Undo` | Command.cpp:221-225 | undo never changes length, size or inputLength. Every undo but Add's changes nothing and prints nothing |
| `Dispatch.Step` | Command.cpp:175-231 | every iteration leaves a valid buffer and the undo flag false. Exit is set exactly when it was set before or the token is q. After u the selection is unchanged |
| `Dispatch.Run` | Command.cpp:175-231 | the loop ends with exit set exactly when it was set at the start or some line is q. It never leaves the undo flag raised when it started lowered, and it keeps a valid buffer valid |
| `Dispatch.Consumed` | Command.cpp:175 | the loop reads every line up to and including the first q, and all lines when there is no q |
| `Dispatch.UndoOnlyUndoesAdd` | Command.cpp:213-225 | u with anything but Add selected changes no state except clearing the undo flag, and prints nothing |
| `Dispatch.AddThenUndoStep` | Command.cpp:197-225 | an `a` iteration and then a `u` iteration on a consistent buffer are both defined. The `u` keeps Add selected and runs Add's undo, which gives back the string held before the `a`, while length and inputLength keep the values Add gave them |
| `Dispatch.UndoTwice` | Command.cpp:213-225 | a second u right after a u is defined and leaves the state as the first left it |
| `Dispatch.UnknownToken` | Command.cpp:216-218 | an unrecognised token selects NoCommand, prints one notice, and leaves the buffer and the flags unchanged |
| `Dispatch.RunStopsAtQuit` | Command.cpp:175-231 | the loop's outcome depends only on the lines up to the first q. It ends with exit set exactly when some line is q |
| `Editor.Buffer.constructor` | Command.cpp:238-240 | the array holds the given contents, with length 0 and size equal to the capacity |
| `Editor.Buffer.StringLength` | Command.cpp:97 | the scan returns strlen of the array |
| `Editor.Buffer.Print` | Command.cpp:25-33 | the message is the one `Commands.Print` gives for the current state |
| `Editor.Buffer.Length` | Command.cpp:145-147 | reports the `length` field, not strlen |
| `Editor.Buffer.Get` | Command.cpp:55 | the array afterwards is `Store` of the old array with what `Extract` gives |
| `Editor.Buffer.MoveToFront` | Command.cpp:96 | the array afterwards is `Shift` of the old array |
| `Editor.Buffer.Remove` | Command.cpp:85-108 | the new state and message are those of `Commands.Remove` |
| `Editor.Buffer.Empty` | Command.cpp:127-132 | the new state is that of `Commands.Empty` |
| `Editor.AddCommand.constructor` | Command.cpp:46-52 | inputLength starts at 0 |
| `Editor.AddCommand.Execute` | Command.cpp:53-60 | the new buffer and inputLength are those of `Commands.Add` |
| `Editor.AddCommand.Undo` | Command.cpp:61-64 | the new buffer is that of `Commands.Undo` |
| `Editor.Shell.constructor` | Command.cpp:238-252 | a MAX_LENGTH buffer shared by the commands, in the state `Dispatch.Initial` gives |
| `Editor.Shell.Execute` | Command.cpp:226-228 | the effect is that of `Dispatch.Execute` for the selected command |
| `Editor.Shell.Undo` | Command.cpp:221-225 | the effect is that of `Dispatch.Undo` for the selected command |
| `Editor.Shell.Step` | Command.cpp:175-231 | the new state and messages are those of `Dispatch.Step` |
| `Editor.Shell.Prompt` | Command.cpp:163-232 | the final state and messages are those of `Dispatch.Run`. The loop reads `Dispatch.Consumed` lines, clears the undo flag, and ends with exit set exactly when some line is q |

## Left out

- Console output: the prompt, the title, the help text and the
  acknowledgements are not modelled as text. Each is a `Reply` tag, and
  Print's tag carries the C string it would show.
- `cin` mechanics are not modelled: `ignore`, `clear`, the parsing done by
  `>>`, and the discard at line 230. Each iteration's token, Add's line (after
  the one character that `cin.ignore(1, ' ')` skips) and Remove's integer
  are parameters (`Dispatch.Input`). In the program, the unread rest of an
  over-long Add line is read back as further tokens; the model does not
  capture that.
- Stream failure and end of input: a `get` that stores no character sets the
  stream's failbit, and at end of input the loop spins on `'\0'` forever.
  `Editor.Shell.Prompt` instead stops when its lines run out.
- Negative, malformed or out-of-range integers for Remove: a negative count
  is undefined behaviour and is excluded by `requires`; parsing is not
  modelled.
- Undefined behaviour in general is excluded by `requires` clauses (the
  `...Defined` predicates) and is not modelled.
- The uninitialised array at line 240: the model starts from arbitrary
  contents and assumes a NUL at index 0.
- Heap allocation: the `new NoCommand()` objects and their leaking, and
  the `main` wiring beyond building the state. Virtual dispatch is a
  six-variant datatype, `Dispatch.Command`.
- C `int` width: wrap-around is not modelled. Length grows through Add,
  which requires `length <= MAX_LENGTH` and adds a strlen below the
  capacity, and through Remove, which sets it to strlen, again below the
  capacity (`RemoveCanGrowLength` shows Remove raising it). So length, size
  and inputLength stay far from the limits. Remove's count is an unbounded
  integer, while `cin >> remove` (line 92) yields a C `int`; no arithmetic
  on it can wrap, because `*length + remove` is only computed when
  `remove < length`.
- Characters: a Dafny `char` stands for one byte of the C array, as
  `cin.get` stores it. A multi-byte input character takes several cells of
  the array and adds several to `strlen` and `size`; the model's input
  sequences are these bytes, not decoded characters.
