/*
 * What each command of the editor does to the state it shares with the
 * others: the character array, the integer `length` and the integer `size`
 * (free space), all reached through pointers in Command.cpp. Each command's
 * execute and undo is a function from one snapshot of that state to the
 * next; the classes in Editor.dfy are proved to perform exactly these.
 *
 * The functions follow the code, including where it departs from what the
 * comments and messages suggest:
 *  - Add sets its remembered inputLength to the length of the WHOLE C string,
 *    not of the piece it appended, and adds that to `length`;
 *  - Add's undo cuts the string with a NUL but leaves `length` and `size`;
 *  - Remove moves length + n characters, more than the length - n + 1 needed.
 * Every path the code can take without undefined behaviour is modelled;
 * the requires clauses (the ...Defined predicates) exclude exactly the
 * out-of-bounds accesses.
 */
module Commands {
  import opened CStrings

  /** The capacity main() gives the array and every command (MAX_LENGTH). */
  const MAX_LENGTH: nat := 256

  /** A snapshot of the shared state: the array, *length and *size. */
  datatype BufferState = BufferState(data: seq<char>, length: int, size: int)
  {
    /**
     * What every command keeps: the array has its capacity and holds a NUL
     * (so strlen stays inside it), length is not negative and size is the
     * free space. `length <= capacity` is NOT kept: see AddOverflows.
     */
    predicate Valid() {
      Strlen(data) < |data| && 0 <= length && size == |data| - length
    }

    /** `length` agrees with strlen of the array. */
    predicate Consistent() {
      length == Strlen(data)
    }
  }

  /** The kinds of message the editor writes, without their decoration. */
  datatype Reply =
    | BufferIsEmpty           // Print on an empty string
    | Shown(text: string)     // Print otherwise
    | Added                   // Add's execute
    | UndidAdd                // Add's undo
    | AlreadyEmpty            // Remove with length 0
    | Removing(count: int)    // Remove otherwise: the requested count
    | Emptied                 // Empty's execute
    | LengthIs(value: int)    // Length's execute
    | Help                    // the '?' summary
    | Unknown                 // an unrecognised token

  /** The state a fresh program starts from: the array as found, length 0. */
  function Initial(contents: seq<char>): (b: BufferState)
    requires 0 < |contents| && contents[0] == NUL
    ensures b.Valid() && b.Consistent() && Str(b.data) == []
    ensures b.length == 0 && b.size == |contents|
  {
    BufferState(contents, 0, |contents|)
  }

  // ---------------------------------------------------------------------
  // Print and Length: they only read.

  function Print(b: BufferState): (r: Reply)
    requires b.Valid()
    ensures r == BufferIsEmpty <==> Str(b.data) == []
    ensures r != BufferIsEmpty ==> r == Shown(Str(b.data))
  {
    if Strlen(b.data) == 0 then BufferIsEmpty else Shown(Str(b.data))
  }

  // ---------------------------------------------------------------------
  // Add

  /** AddCommand's state besides the buffer: the remembered inputLength. */
  datatype AddOutcome = AddOutcome(buffer: BufferState, inputLength: int)

  /**
   * Add may run when the write position &buffer[length] lies in the array
   * or one past it; then size >= 0 and get writes inside the array.
   */
  predicate AddDefined(b: BufferState) {
    b.Valid() && b.length <= |b.data|
  }

  /** What get(&buffer[length], size, '\n') stores (before its NUL). */
  function Appended(b: BufferState, input: seq<char>): seq<char> {
    Extract(input, b.size)
  }

  /**
   * AddCommand::execute on the pending line `input` (what follows the one
   * character cin.ignore(1, ' ') skipped).
   */
  function Add(b: BufferState, input: seq<char>): (r: AddOutcome)
    requires AddDefined(b)
    ensures r.buffer.Valid() && |r.buffer.data| == |b.data|
    ensures r.inputLength == Strlen(r.buffer.data)
    ensures r.buffer.length == b.length + r.inputLength
    ensures r.buffer.data[..b.length] == b.data[..b.length]
    ensures var t := Appended(b, input);
      if 1 <= b.size then
        |t| <= b.size - 1 &&
        r.buffer.data[b.length..b.length + |t|] == t &&
        r.buffer.data[b.length + |t|] == NUL &&
        r.buffer.data[b.length + |t| + 1..] == b.data[b.length + |t| + 1..]
      else r.buffer.data == b.data
  {
    var data :=
      if 1 <= b.size then Store(b.data, b.length, Appended(b, input)) else b.data;
    var inputLength := Strlen(data);
    AddOutcome(BufferState(data, b.length + inputLength, |b.data| - (b.length + inputLength)),
               inputLength)
  }

  /**
   * On a consistent buffer Add appends what get stored (up to its first
   * NUL) to the string, but inputLength is the whole new string's length,
   * so length grows by the OLD length plus the appended length: only on an
   * empty buffer by the appended length alone, and the buffer is then no
   * longer consistent unless it was empty.
   */
  lemma AddAppends(b: BufferState, input: seq<char>)
    requires AddDefined(b) && b.Consistent()
    ensures var t := Appended(b, input); var r := Add(b, input);
      Str(r.buffer.data) == Str(b.data) + Str(t) &&
      r.inputLength == b.length + |Str(t)| &&
      r.buffer.length == 2 * b.length + |Str(t)| &&
      r.buffer.size == |b.data| - r.buffer.length &&
      (r.buffer.length - b.length == |Str(t)| <==> b.length == 0) &&
      (r.buffer.Consistent() <==> b.length == 0)
  {
    var t := Appended(b, input);
    assert b.length < |b.data|;
    StrlenAfterStore(b.data, b.length, t);
    StrAfterStore(b.data, t);
  }

  /** With a newline-free line that fits, exactly that line is appended. */
  lemma AddWholeLine(b: BufferState, line: seq<char>)
    requires AddDefined(b) && b.Consistent()
    requires NEWLINE !in line && NUL !in line && |line| < b.size
    ensures Str(Add(b, line).buffer.data) == Str(b.data) + line
  {
    ExtractFits(line, b.size);
    AddAppends(b, line);
  }

  /**
   * Once length runs past the string (after an Add on a non-empty buffer),
   * a further Add writes behind the string's NUL: the string does not
   * change, yet length still grows by the string's length.
   */
  lemma AddBehindString(b: BufferState, input: seq<char>)
    requires AddDefined(b) && Strlen(b.data) < b.length
    ensures var r := Add(b, input);
      Str(r.buffer.data) == Str(b.data) &&
      r.buffer.length == b.length + Strlen(b.data)
  {
    if 1 <= b.size {
      var t := Appended(b, input);
      var d := Store(b.data, b.length, t);
      StrlenAfterStore(b.data, b.length, t);
      assert d[..Strlen(b.data)] == b.data[..Strlen(b.data)];
    }
  }

  /**
   * `length <= capacity` is not preserved: on the 256-character array, a
   * 200-character line and then a 50-character line leave length at 450
   * and size negative, although only 250 characters were stored.
   */
  lemma AddOverflows(b: BufferState)
    requires b.Valid() && |b.data| == MAX_LENGTH && b.length == 0 && b.data[0] == NUL
    ensures var b1 := Add(b, seq(200, _ => 'a')).buffer;
      AddDefined(b1) && b1.length == 200 &&
      var b2 := Add(b1, seq(50, _ => 'b')).buffer;
      |Str(b2.data)| == 250 && b2.length == 450 && b2.length > |b2.data| && b2.size < 0
  {
    var x: seq<char> := seq(200, _ => 'a');
    var y: seq<char> := seq(50, _ => 'b');
    assert b.Consistent();
    AddWholeLine(b, x);
    var b1 := Add(b, x).buffer;
    AddAppends(b, x);
    assert |Str(b1.data)| == 200;
    assert b1.Consistent();
    AddWholeLine(b1, y);
    AddAppends(b1, y);
  }

  // ---------------------------------------------------------------------
  // Add's undo

  /** The undo writes buffer[length - inputLength], which must be in the array. */
  predicate UndoDefined(b: BufferState, inputLength: int) {
    b.Valid() && 0 <= b.length - inputLength < |b.data|
  }

  /** AddCommand::undo: one NUL at length - inputLength, nothing else. */
  function Undo(b: BufferState, inputLength: int): (r: BufferState)
    requires UndoDefined(b, inputLength)
    ensures r.Valid() && r.length == b.length && r.size == b.size
    ensures |r.data| == |b.data|
    ensures forall j :: 0 <= j < |r.data| ==>
              r.data[j] == if j == b.length - inputLength then NUL else b.data[j]
    ensures var i := b.length - inputLength;
      Str(r.data) == if i < Strlen(b.data) then Str(b.data)[..i] else Str(b.data)
  {
    StrAfterNulAt(b.data, b.length - inputLength);
    b.(data := b.data[b.length - inputLength := NUL])
  }

  /** Undoing twice in a row is undoing once. */
  lemma UndoIdempotent(b: BufferState, inputLength: int)
    requires UndoDefined(b, inputLength)
    ensures UndoDefined(Undo(b, inputLength), inputLength)
    ensures Undo(Undo(b, inputLength), inputLength) == Undo(b, inputLength)
  {
  }

  /**
   * Undo right after an Add on a consistent buffer gives back the string the
   * buffer held before (the empty string when it was empty), but length
   * keeps the value Add gave it.
   */
  lemma UndoAfterAdd(b: BufferState, input: seq<char>)
    requires AddDefined(b) && b.Consistent()
    ensures var r := Add(b, input);
      UndoDefined(r.buffer, r.inputLength) &&
      var u := Undo(r.buffer, r.inputLength);
      Str(u.data) == Str(b.data) &&
      (b.length == 0 ==> Str(u.data) == []) &&
      u.length == r.buffer.length && u.size == r.buffer.size &&
      u.length == 2 * b.length + |Str(Appended(b, input))|
  {
    AddAppends(b, input);
    var r := Add(b, input);
    assert r.buffer.length - r.inputLength == b.length;
    StrAfterNulAt(r.buffer.data, b.length);
  }

  // ---------------------------------------------------------------------
  // Remove

  /**
   * Remove reads its count only when length > 0; the count must then not be
   * negative, memmove must read inside the array (n + (length + n) <=
   * capacity), and a NUL must be left for the strlen that follows.
   */
  predicate RemoveDefined(b: BufferState, n: int) {
    b.Valid() &&
    (0 < b.length ==>
      0 <= n &&
      (n < b.length ==>
        b.length + 2 * n <= |b.data| &&
        Strlen(Shift(b.data, n, b.length + n)) < |b.data|))
  }

  /** RemoveCommand::execute with the count n it would read. */
  function Remove(b: BufferState, n: int): (r: (BufferState, Reply))
    requires RemoveDefined(b, n)
    ensures r.0.Valid() && |r.0.data| == |b.data|
    ensures b.length == 0 ==> r == (b, AlreadyEmpty)
    ensures 0 < b.length ==> r.0.Consistent() && r.1 == Removing(n)
    ensures 0 < b.length <= n ==>
              Str(r.0.data) == [] && r.0.length == 0 && r.0.size == |b.data| &&
              r.0.data[1..] == b.data[1..]
  {
    if b.length == 0 then (b, AlreadyEmpty)
    else if n < b.length then
      var data := Shift(b.data, n, b.length + n);
      var length := Strlen(data);
      (BufferState(data, length, |b.data| - length), Removing(n))
    else
      StrAfterNulAt(b.data, 0);
      (BufferState(b.data[0 := NUL], 0, |b.data|), Removing(n))
  }

  /**
   * On a consistent buffer, 0 <= n < length is safe exactly when memmove's
   * source range fits, and Remove then drops the first n characters.
   */
  lemma RemoveDropsPrefix(b: BufferState, n: int)
    requires b.Valid() && b.Consistent() && 0 <= n < b.length
    ensures RemoveDefined(b, n) <==> b.length + 2 * n <= |b.data|
    ensures RemoveDefined(b, n) ==>
      var r := Remove(b, n).0;
      Str(r.data) == Str(b.data)[n..] && r.length == b.length - n &&
      r.size == |b.data| - r.length
  {
    if b.length + 2 * n <= |b.data| {
      StrAfterShift(b.data, n, b.length + n);
    }
  }

  /**
   * Remove can make length grow: it sets length to strlen after the move,
   * and the move can bring characters from behind the NUL to the front.
   * With "xy", NUL, ten z's, NUL and length 5 (what Adds of "x", "y" and
   * "zzzzzzzzzz" leave on an empty buffer), Remove 3 leaves thirteen z's.
   */
  lemma RemoveCanGrowLength(b: BufferState)
    requires b.Valid() && |b.data| == MAX_LENGTH && b.length == 5
    requires b.data[..14] == "xy" + [NUL] + seq(10, _ => 'z') + [NUL]
    ensures Str(b.data) == "xy"
    ensures RemoveDefined(b, 3) && Remove(b, 3).0.length == 13
  {
    assert forall i :: 0 <= i < 14 ==> b.data[i] == b.data[..14][i];
    StrlenIs(b.data, 2);
    var d := Shift(b.data, 3, 8);
    StrlenIs(d, 13);
  }

  /**
   * The undone characters stay in the array, and `length` still covers them,
   * so a Remove after Add and undo on an empty buffer moves them back into
   * the string: with the line "abc", undo and then "r 1" leave "bc". In
   * general the string becomes the undone line without its first n
   * characters, although it was empty before the Remove.
   */
  lemma RemoveAfterUndoneAdd(b: BufferState, line: seq<char>, n: int)
    requires AddDefined(b) && b.Consistent() && b.length == 0
    requires NEWLINE !in line && NUL !in line && |line| < b.size
    requires 1 <= n < |line| && |line| + 2 * n <= |b.data|
    ensures var a := Add(b, line);
      UndoDefined(a.buffer, a.inputLength) &&
      var u := Undo(a.buffer, a.inputLength);
      Str(u.data) == [] && u.length == |line| &&
      RemoveDefined(u, n) && Str(Remove(u, n).0.data) == line[n..]
  {
    UndoneLine(b, line);
    var a := Add(b, line);
    RemoveUndoneLine(Undo(a.buffer, a.inputLength), line, n);
  }

  /** Add and undo on an empty buffer: the string is empty, the line is still there. */
  lemma UndoneLine(b: BufferState, line: seq<char>)
    requires AddDefined(b) && b.Consistent() && b.length == 0
    requires NEWLINE !in line && NUL !in line && |line| < b.size
    ensures var a := Add(b, line);
      UndoDefined(a.buffer, a.inputLength) &&
      var u := Undo(a.buffer, a.inputLength);
      u.Valid() && Str(u.data) == [] && u.length == |line| && |line| < |u.data| &&
      (forall i :: 1 <= i < |line| ==> u.data[i] == line[i]) && u.data[|line|] == NUL
  {
    var k := |line|;
    AddToEmpty(b, line);
    var a := Add(b, line);
    var u := Undo(a.buffer, a.inputLength);
    StrlenIs(u.data, 0);
    forall i | 1 <= i < k
      ensures u.data[i] == line[i]
    {
      assert a.buffer.data[..k][i] == line[i];
    }
  }

  /** Remove n on the state UndoneLine describes brings back line[n..]. */
  lemma RemoveUndoneLine(u: BufferState, line: seq<char>, n: int)
    requires u.Valid() && u.length == |line| && |line| < |u.data| && NUL !in line
    requires (forall i :: 1 <= i < |line| ==> u.data[i] == line[i]) && u.data[|line|] == NUL
    requires 1 <= n < |line| && |line| + 2 * n <= |u.data|
    ensures RemoveDefined(u, n) && Str(Remove(u, n).0.data) == line[n..]
  {
    ShiftUndoneLine(u.data, line, n);
  }

  /** Add on an empty buffer stores a fitting line whole, and length becomes its length. */
  lemma AddToEmpty(b: BufferState, line: seq<char>)
    requires AddDefined(b) && b.length == 0
    requires NEWLINE !in line && NUL !in line && |line| < b.size
    ensures var a := Add(b, line);
      a.buffer.data[..|line|] == line && a.buffer.data[|line|] == NUL &&
      a.inputLength == |line| && a.buffer.length == |line|
  {
    ExtractFits(line, b.size);
    var a := Add(b, line);
    assert a.buffer.data[..|line|] == line;
    StrlenIs(a.buffer.data, |line|);
  }

  /** The shift Remove performs on an array holding NUL, line[1..], NUL. */
  lemma ShiftUndoneLine(d: seq<char>, line: seq<char>, n: int)
    requires NUL !in line && 1 <= n < |line| && |line| + 2 * n <= |d|
    requires forall i :: 1 <= i < |line| ==> d[i] == line[i]
    requires d[|line|] == NUL
    ensures Strlen(Shift(d, n, |line| + n)) == |line| - n
    ensures Str(Shift(d, n, |line| + n)) == line[n..]
  {
    var k := |line|;
    var r := Shift(d, n, k + n);
    forall i | 0 <= i < k - n
      ensures r[i] == line[n + i] && r[i] != NUL
    {
      assert r[i] == d[i + n];
    }
    assert r[k - n] == NUL;
    StrlenIs(r, k - n);
  }

  /** The array after Add, undo and Remove 1 on "abc" holds the C string "bc". */
  lemma UndoneTextReturns(b: BufferState)
    requires b.Valid() && |b.data| == MAX_LENGTH && b.length == 0 && b.data[0] == NUL
    ensures var a := Add(b, "abc");
      var u := Undo(a.buffer, a.inputLength);
      Str(u.data) == [] && Str(Remove(u, 1).0.data) == "bc"
  {
    assert b.Consistent();
    RemoveAfterUndoneAdd(b, "abc", 1);
  }

  // ---------------------------------------------------------------------
  // Empty

  /** EmptyCommand::execute. */
  function Empty(b: BufferState): (r: BufferState)
    requires b.Valid()
    ensures r.Valid() && r.Consistent()
    ensures Str(r.data) == [] && r.length == 0 && r.size == |b.data|
    ensures |r.data| == |b.data| && r.data[1..] == b.data[1..]
  {
    StrAfterNulAt(b.data, 0);
    BufferState(b.data[0 := NUL], 0, |b.data|)
  }
}
