# Command-pattern text editor, modelled in Dafny

The repository is a small C# demonstration of the command pattern on a text
editor. The model covers its two halves:

- **The challenge** (`Challenge.cs`, module `DesignPatternChallenge`): a plain
  `TextEditor` holding a string and a cursor; an `EditorApplication` whose
  Undo and Redo do nothing; `EditorWithStateHistory`, which pushes a content
  snapshot before each edit and whose Undo pops it without restoring it; and
  `EditorWithOperationLog`, which logs each typing and reverses it in a
  switch on the entry's kind. For the log version the model proves that
  typing and then undoing restores the exact content, cursor and log, and
  that `n` typings followed by `n` undos bring back the starting state.
- **The command solution** (modules `Domain`, `EditorService`, `Commands`,
  `Application`, `ConsoleProgram`): a buffer service over a `Text` value,
  three commands (insert, delete, bold) that implement a shared command
  interface, and a façade that executes each command, pushes it on an undo
  stack and clears the redo stack.

The model follows the code as written, including three places where it does
not do what its design intends. These are stated as lemmas, not repaired:

- `InsertTextCommand.Undo` passes `(text length, position)` to
  `Delete(position, length)`, with the two arguments swapped.
- `TextEditorService.Delete` keeps the first `length` characters
  (`Content[..length]`) instead of removing a range.
- `DeleteTextCommand` never fills `_deletedText`, so its Undo inserts the
  empty string.

As a result, an undo of the command solution does not restore the text. An
insert followed by its undo gives back the old content only when the insert
was at the end of the content, and the cursor ends at the inserted text's
length (`Commands.InsertExecuteThenUndo`). The pattern this demo aims
at has Undo and Redo on a history manager, deletes the characters before
the cursor, and restores content and cursor on undo. The code has none of
these, and the model follows the code.

The two .NET string operations are written out in module `CSharpString`,
with one Dafny `char` standing for one UTF-16 code unit:
`s.Insert(i, t)` is `s[..i] + t + s[i..]` and `s.Remove(i, n)` is
`s[..i] + s[i + n..]`. The checks that would throw
`ArgumentOutOfRangeException` become preconditions. The C# interfaces
become Dafny shapes without traits:

- `ITextEditorService` has one implementation, so the commands hold a
  `TextEditorService` directly.
- `IEditorCommand` becomes the datatype `Commands.EditorCommand`, with one
  case per command class. Its `Execute` and `Undo` call the matching class's
  method.

`Text` (a mutable class in C#, used only as the service's private state)
becomes the value `Domain.Text`. The service keeps its two fields itself.
Bold requests only print in C#. The service records them in a ghost log
`boldCalls`, so that what the bold command forwards can be stated.

## Model

| member | source | states |
|---|---|---|
| CSharpString.Insert | Challenge.cs:28 | `String.Insert`: result length is the sum; each index holds the prefix character, the inserted character or the shifted suffix character |
| CSharpString.Remove | Challenge.cs:38 | `String.Remove`: result is `n` shorter; indices before `i` keep their character, later ones hold the character `n` further on |
| CSharpString.RemoveInsert | Challenge.cs:205-206 | removing the `|t|` characters at `i` right after inserting `t` at `i` gives back the original string |
| CSharpString.InsertPieces | src/Command.Application/Services/TextEditorService.cs:11 | after an insert, the prefix before `i` is unchanged, `t` sits at `i`, and the old suffix follows it |
| DesignPatternChallenge.InsertTextEffect | Challenge.cs:26-29 | InsertText keeps the text before the cursor, puts the new text at the cursor, shifts the rest, moves the cursor to `c + |t|`, and keeps the cursor in range |
| DesignPatternChallenge.DeleteTextEffect | Challenge.cs:34-43 | DeleteText with `c >= n` gives content `old[..c-n] + old[c..]` and cursor `c - n`; with `n > c` nothing changes; a cursor in range stays in range |
| DesignPatternChallenge.InsertThenDeleteText | Challenge.cs:26-43 | deleting `|t|` characters right after typing `t` restores content and cursor exactly |
| DesignPatternChallenge.TextEditor.constructor | Challenge.cs:20-24 | a new editor has empty content and cursor 0 |
| DesignPatternChallenge.TextEditor.InsertText | Challenge.cs:26-32 | throws unless the cursor is within the content; the new state is the insert of `text` at the cursor |
| DesignPatternChallenge.TextEditor.DeleteText | Challenge.cs:34-43 | throws only when the guard holds on an invalid range; the new state is the guarded removal before the cursor |
| DesignPatternChallenge.TextEditor.SetBold | Challenge.cs:45-49 | content and cursor unchanged |
| DesignPatternChallenge.TextEditor.RemoveBold | Challenge.cs:51-54 | content and cursor unchanged |
| DesignPatternChallenge.TextEditor.SetCursorPosition | Challenge.cs:56-59 | any integer becomes the cursor, unchecked, even outside the content; content unchanged |
| DesignPatternChallenge.TextEditor.GetContent | Challenge.cs:61-64 | returns the content and changes nothing |
| DesignPatternChallenge.TextEditor.GetCursorPosition | Challenge.cs:66-69 | returns the cursor and changes nothing |
| DesignPatternChallenge.EditorApplication.constructor | Challenge.cs:77-80 | a fresh, empty editor whose cursor is in range |
| DesignPatternChallenge.EditorApplication.TypeText | Challenge.cs:82-87 | forwards to InsertText; the cursor stays in range |
| DesignPatternChallenge.EditorApplication.DeleteCharacters | Challenge.cs:89-94 | forwards to DeleteText; the cursor stays in range; a negative count would throw |
| DesignPatternChallenge.EditorApplication.MakeBold | Challenge.cs:96-100 | the editor is unchanged |
| DesignPatternChallenge.EditorApplication.Undo | Challenge.cs:103-108 | the editor is unchanged: there is no history |
| DesignPatternChallenge.EditorApplication.Redo | Challenge.cs:110-113 | the editor is unchanged |
| DesignPatternChallenge.EditorWithStateHistory.constructor | Challenge.cs:129-133 | empty editor, empty snapshot stack |
| DesignPatternChallenge.EditorWithStateHistory.TypeText | Challenge.cs:135-140 | pushes the content before the edit, then inserts |
| DesignPatternChallenge.EditorWithStateHistory.DeleteCharacters | Challenge.cs:142-146 | pushes the content before the edit, then deletes |
| DesignPatternChallenge.EditorWithStateHistory.Undo | Challenge.cs:148-158 | pops one snapshot when there is one and leaves the editor unchanged |
| DesignPatternChallenge.StateHistoryScenario | Challenge.cs:135-158 | typing "ab" and undoing leaves "ab" with the snapshot stack empty: the snapshot is never restored |
| DesignPatternChallenge.AfterLogUndo | Challenge.cs:194-220 | an empty log is left alone; otherwise exactly the top entry is popped |
| DesignPatternChallenge.TypeTextThenUndo | Challenge.cs:183-207 | TypeText followed by Undo restores the exact content, cursor and log |
| DesignPatternChallenge.TypeTextKeepsCoherent | Challenge.cs:183-192 | TypeText keeps the log undoable entry by entry, with the cursor always in range |
| DesignPatternChallenge.UndoAll | Challenge.cs:194-220 | `n` undos pop exactly `n` entries and keep the log undoable |
| DesignPatternChallenge.TypeAll | Challenge.cs:183-192 | `n` typings grow the log by exactly `n` entries and keep it undoable entry by entry, with the cursor in range |
| DesignPatternChallenge.TypeAllThenUndoAll | Challenge.cs:183-220 | `n` typings followed by `n` undos restore the starting content, cursor and log |
| DesignPatternChallenge.EditorWithOperationLog.constructor | Challenge.cs:177-181 | empty editor, empty log |
| DesignPatternChallenge.EditorWithOperationLog.TypeText | Challenge.cs:183-192 | logs an Insert entry with the cursor before the edit, then inserts; the log stays undoable |
| DesignPatternChallenge.EditorWithOperationLog.Undo | Challenge.cs:194-220 | reverses the top entry by its kind; on an empty log nothing changes; never throws on a reachable state |
| DesignPatternChallenge.OperationLogScenario | Challenge.cs:183-220 | "Hello" then " World" gives "Hello World"/11; undos give "Hello"/5, then ""/0; a third undo changes nothing |
| DesignPatternChallenge.ProblemScenario | Challenge.cs:228-245 | "Hello" then " World" gives "Hello World"/11; deleting 6 gives "Hello"/5; bold and undo change nothing |
| EditorService.InsertEffect | src/Command.Application/Services/TextEditorService.cs:9-13 | Insert keeps the prefix, places the value at the position, shifts the rest; the cursor is `position + |value|` whatever it was before |
| EditorService.DeleteEffect | src/Command.Application/Services/TextEditorService.cs:22-26 | Delete leaves the length-`n` prefix of the old content, equal to it only when `n` is the full length; the cursor is `position`, unchecked and independent of `n` and of the old cursor |
| EditorService.DeleteIdempotent | src/Command.Application/Services/TextEditorService.cs:24-25 | Delete twice with the same arguments equals Delete once |
| EditorService.TextEditorService.constructor | src/Command.Application/Services/TextEditorService.cs:5-7 | the initial text is empty with cursor 0, and no bold request has been made |
| EditorService.TextEditorService.Insert | src/Command.Application/Services/TextEditorService.cs:9-15 | throws unless the position is within the content; the new state is the insert; no bold request |
| EditorService.TextEditorService.GetCursorPosition | src/Command.Application/Services/TextEditorService.cs:17-20 | returns the cursor and changes nothing |
| EditorService.TextEditorService.Delete | src/Command.Application/Services/TextEditorService.cs:22-28 | throws unless `0 <= length <= |content|`; the new state is the prefix truncation with cursor `position` |
| EditorService.TextEditorService.ApplyBold | src/Command.Application/Services/TextEditorService.cs:30-33 | records one bold-on request; content and cursor unchanged |
| EditorService.TextEditorService.RemoveBold | src/Command.Application/Services/TextEditorService.cs:35-38 | records one bold-off request; content and cursor unchanged |
| EditorService.TextEditorService.GetContent | src/Command.Application/Services/TextEditorService.cs:40-43 | returns the content and changes nothing |
| Commands.InsertTextCommand.constructor | src/Command.Application/Commands/InsertTextCommand.cs:6-10 | keeps the buffer and the text it is given; the captured position starts at 0 |
| Commands.InsertTextCommand.Execute | src/Command.Application/Commands/InsertTextCommand.cs:12-16 | captures the cursor, then inserts the text there; the text itself never changes |
| Commands.InsertTextCommand.Undo | src/Command.Application/Commands/InsertTextCommand.cs:18-21 | calls `Delete(|text|, position)`: content becomes its first `position` characters, cursor becomes `|text|` |
| Commands.InsertExecuteThenUndo | src/Command.Application/Commands/InsertTextCommand.cs:12-21 | Execute then Undo leaves `old[..p]`, which is the old content if and only if `p` is at its end; the cursor ends at `|text|`, not `p` |
| Commands.InsertUndoScenario | src/Command.Application/Commands/InsertTextCommand.cs:12-21 | on "Hello"/5, executing " World" and undoing gives "Hello" with cursor 6, past the end |
| Commands.DeleteTextCommand.constructor | Command.Application/Commands/DeleteTextCommand.cs:6-11 | keeps the buffer and the length; the deleted-text slot is a constant empty string |
| Commands.DeleteTextCommand.Execute | Command.Application/Commands/DeleteTextCommand.cs:13-17 | captures the cursor; throws unless `0 <= length <= |content|`; truncates to the first `length` characters |
| Commands.DeleteExecuteKeepsCursor | Command.Application/Commands/DeleteTextCommand.cs:15-16 | Execute keeps the first `length` characters and leaves the cursor where it was |
| Commands.DeleteTextCommand.Undo | Command.Application/Commands/DeleteTextCommand.cs:19-22 | inserts the empty captured text at `position - length`; throws unless that lies within the content |
| Commands.DeleteUndoKeepsContent | Command.Application/Commands/DeleteTextCommand.cs:11-22 | Undo never changes the content; it only moves the cursor to `position - length` |
| Commands.BoldCommand.constructor | src/Command.Application/Commands/BoldCommand.cs:6-10 | keeps the buffer, start and length, which never change |
| Commands.BoldCommand.Execute | src/Command.Application/Commands/BoldCommand.cs:12-15 | makes exactly one bold-on request with the constructor's start and length; content and cursor unchanged |
| Commands.BoldCommand.Undo | src/Command.Application/Commands/BoldCommand.cs:17-20 | makes exactly one bold-off request with the same range, with no prior Execute needed; content and cursor unchanged |
| Commands.EditorCommand.Execute | Command.Domain/Abstractions/IEditorCommand.cs:5 | dispatches to the command's own Execute: the buffer ends in that command's executed state, with the cursor captured for insert and delete |
| Commands.EditorCommand.Undo | Command.Domain/Abstractions/IEditorCommand.cs:6 | dispatches to the command's own Undo, using the captured position |
| Application.EditorApplication.constructor | Command.Application/Services/EditorApplication.cs:6-10 | shares the given buffer; both stacks start empty |
| Application.EditorApplication.ExecuteCommand | Command.Application/Services/EditorApplication.cs:12-17 | runs the command once, pushes it on top of the unchanged undo stack, and empties the redo stack |
| Application.EditorApplication.TypeText | Command.Application/Services/EditorApplication.cs:19-22 | builds a fresh insert command over the shared buffer with the caller's text and executes it; the undo stack grows by one |
| Application.EditorApplication.DeleteCharacters | Command.Application/Services/EditorApplication.cs:24-27 | builds a fresh delete command with the caller's count and executes it; the undo stack grows by one |
| Application.EditorApplication.MakeBold | Command.Application/Services/EditorApplication.cs:29-32 | builds a fresh bold command with the caller's range and executes it; the undo stack grows by one |
| ConsoleProgram.ProgramScenario | Command.Console/Program.cs:12-24 | "Hello" then " World" gives "Hello World"/11; deleting 5 gives "Hello" but the cursor stays at 11; after bold, 4 commands are on the undo stack and none are on the redo stack |

`Application.EditorApplication.Valid` is the façade's invariant, kept by
every verb. The undo stack holds, in call order, one command per verb call,
built with that call's arguments over the shared buffer. The redo stack is
always empty: nothing in the class ever pushes onto it.

## Left out

- Console output (`Console.WriteLine`), `ShowContent` and the console-only messages: presentation only.
- `Command.Console/Program.cs` dependency-injection wiring and `Console.ReadKey`: a foreign library and I/O. The program itself is modelled only as the call sequence of `ConsoleProgram.ProgramScenario`.
- `ITextEditorService` and `IEditorCommand` as open interfaces: Dafny traits are not used. The single service implementation is used directly, and the command interface is a closed union of the three command classes.
- UTF-16 encoding: a C# `string` is a sequence of UTF-16 code units, while a Dafny `string` is a sequence of Unicode scalar values. A model `char` stands for one code unit, so lengths, cursors and indices agree with C# only for text of Basic Multilingual Plane characters (no surrogate pairs). For example, C# gives cursor 2 after typing one emoji and the model gives 1. An insert position inside a surrogate pair, which C# allows, cannot be expressed.
- `Text.SelectedText` and `TextEditor._selectedText`: never read or written.
- C# exceptions from `String.Insert`, `String.Remove` and range slicing: stated as preconditions, not as exception control flow. Null strings are not modelled.
- 32-bit `int` overflow (for example `position + value.Length`, `_position - _length`): integers are unbounded. An overflow would need strings of about 2^31 characters, or cursors that no sequence of calls above can produce.
- `Operation` is a mutable class in C#. It is modelled as an immutable record, because its properties are set only in the object initialiser before the push.
- `EditorWithOperationLog.Undo`: its precondition is the class invariant `Valid()`, which every reachable state meets, so the model never reaches the branch where C# would throw. The `"Delete"` and `"Bold"` cases of its switch are modelled, but no method creates such entries.
- An undo/redo round trip for the command solution: the code has no Undo or Redo in the façade, and its commands do not satisfy one (see `Commands.InsertExecuteThenUndo`).
