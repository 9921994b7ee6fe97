/** The three editor commands and the command interface they share. Each
    command holds the buffer it was built with; Insert and Delete capture the
    cursor when they execute. */
module Commands {
  import opened Domain
  import opened EditorService

  /** Types text at the cursor; its undo calls `Delete(|text|, position)`,
      with the two arguments in the opposite order to `Delete`'s parameters. */
  class InsertTextCommand {
    const editor: TextEditorService
    const text: string
    var position: int

    constructor (editor: TextEditorService, text: string)
      ensures this.editor == editor && this.text == text && position == 0
    {
      this.editor := editor;
      this.text := text;
      position := 0;
    }

    method Execute()
      requires 0 <= editor.cursorPosition <= |editor.content|
      modifies this`position, editor`content, editor`cursorPosition
      ensures position == old(editor.cursorPosition)
      ensures editor.State() == AfterInsert(old(editor.State()), position, text)
    {
      position := editor.GetCursorPosition();
      editor.Insert(position, text);
    }

    method Undo()
      requires 0 <= position <= |editor.content|
      modifies editor`content, editor`cursorPosition
      ensures editor.State() == AfterDelete(old(editor.State()), |text|, position)
    {
      editor.Delete(|text|, position);
    }
  }

  /** Executing and then undoing an insert at cursor `p` leaves the first `p`
      characters of the old content, which is the old content exactly when
      the insert was at its end; the cursor ends at `|text|`, not at `p`. */
  lemma InsertExecuteThenUndo(st: Text, text: string)
    requires 0 <= st.cursorPosition <= |st.content|
    ensures 0 <= st.cursorPosition <= |AfterInsert(st, st.cursorPosition, text).content|
    ensures AfterDelete(AfterInsert(st, st.cursorPosition, text), |text|, st.cursorPosition).content
              == st.content[..st.cursorPosition]
    ensures (AfterDelete(AfterInsert(st, st.cursorPosition, text), |text|, st.cursorPosition).content
               == st.content) <==> st.cursorPosition == |st.content|
    ensures AfterDelete(AfterInsert(st, st.cursorPosition, text), |text|, st.cursorPosition).cursorPosition
              == |text|
  {
  }

  /** Deletes the characters after the first `length`; `deletedText` is
      never filled, so its undo inserts nothing. */
  class DeleteTextCommand {
    const editor: TextEditorService
    const length: int
    var position: int
    const deletedText: string := ""

    constructor (editor: TextEditorService, length: int)
      ensures this.editor == editor && this.length == length && position == 0
    {
      this.editor := editor;
      this.length := length;
      position := 0;
    }

    method Execute()
      requires 0 <= length <= |editor.content|
      modifies this`position, editor`content, editor`cursorPosition
      ensures position == old(editor.cursorPosition)
      ensures editor.State() == AfterDelete(old(editor.State()), position, length)
    {
      position := editor.GetCursorPosition();
      editor.Delete(position, length);
    }

    method Undo()
      requires 0 <= position - length <= |editor.content|
      modifies editor`content, editor`cursorPosition
      ensures editor.State() == AfterInsert(old(editor.State()), position - length, deletedText)
    {
      editor.Insert(position - length, deletedText);
    }
  }

  /** Executing a delete keeps the first `length` characters and leaves the
      cursor where it was. */
  lemma DeleteExecuteKeepsCursor(st: Text, length: int)
    requires 0 <= length <= |st.content|
    ensures AfterDelete(st, st.cursorPosition, length).content == st.content[..length]
    ensures AfterDelete(st, st.cursorPosition, length).cursorPosition == st.cursorPosition
  {
  }

  /** Undoing a delete inserts the empty captured text: the content is
      unchanged and only the cursor moves, to `position - length`. */
  lemma DeleteUndoKeepsContent(st: Text, position: int, length: int)
    requires 0 <= position - length <= |st.content|
    ensures AfterInsert(st, position - length, "").content == st.content
    ensures AfterInsert(st, position - length, "").cursorPosition == position - length
  {
  }

  /** Forwards its fixed range to the buffer's bold operations. */
  class BoldCommand {
    const editor: TextEditorService
    const start: int
    const length: int

    constructor (editor: TextEditorService, start: int, length: int)
      ensures this.editor == editor && this.start == start && this.length == length
    {
      this.editor := editor;
      this.start := start;
      this.length := length;
    }

    method Execute()
      modifies editor`boldCalls
      ensures editor.boldCalls == old(editor.boldCalls) + [BoldOn(start, length)]
      ensures editor.State() == old(editor.State())
    {
      editor.ApplyBold(start, length);
    }

    /** Needs no earlier `Execute`: there is nothing captured to restore. */
    method Undo()
      modifies editor`boldCalls
      ensures editor.boldCalls == old(editor.boldCalls) + [BoldOff(start, length)]
      ensures editor.State() == old(editor.State())
    {
      editor.RemoveBold(start, length);
    }
  }

  /** The command interface, one case per command class. */
  datatype EditorCommand =
    | InsertText(insert: InsertTextCommand)
    | DeleteText(delete: DeleteTextCommand)
    | Bold(bold: BoldCommand)
  {
    /** The buffer the command was built with. */
    function Editor(): TextEditorService {
      match this
      case InsertText(c) => c.editor
      case DeleteText(c) => c.editor
      case Bold(c) => c.editor
    }

    /** The command's own mutable state: the slot that `Execute` fills. */
    function Captures(): set<object> {
      match this
      case InsertText(c) => {c}
      case DeleteText(c) => {c}
      case Bold(_) => {}
    }

    /** `Execute` does not throw on a buffer in state `st`. */
    predicate CanExecuteOn(st: Text) {
      match this
      case InsertText(_) => 0 <= st.cursorPosition <= |st.content|
      case DeleteText(c) => 0 <= c.length <= |st.content|
      case Bold(_) => true
    }

    /** The buffer state after `Execute`. */
    function AfterExecute(st: Text): (r: Text)
      requires CanExecuteOn(st)
    {
      match this
      case InsertText(c) => AfterInsert(st, st.cursorPosition, c.text)
      case DeleteText(c) => AfterDelete(st, st.cursorPosition, c.length)
      case Bold(_) => st
    }

    /** `Undo` does not throw on a buffer in state `st`. */
    predicate CanUndoOn(st: Text)
      reads Captures()
    {
      match this
      case InsertText(c) => 0 <= c.position <= |st.content|
      case DeleteText(c) => 0 <= c.position - c.length <= |st.content|
      case Bold(_) => true
    }

    /** The buffer state after `Undo`, from the captured position. */
    function AfterUndo(st: Text): (r: Text)
      reads Captures()
      requires CanUndoOn(st)
    {
      match this
      case InsertText(c) => AfterDelete(st, |c.text|, c.position)
      case DeleteText(c) => AfterInsert(st, c.position - c.length, c.deletedText)
      case Bold(_) => st
    }

    /** The formatting requests one `Execute` (`on`) or one `Undo` makes. */
    function BoldRequests(on: bool): seq<BoldCall> {
      match this
      case Bold(c) => if on then [BoldOn(c.start, c.length)] else [BoldOff(c.start, c.length)]
      case _ => []
    }

    method Execute()
      requires CanExecuteOn(Editor().State())
      modifies Captures(), Editor()
      ensures Editor().State() == AfterExecute(old(Editor().State()))
      ensures Editor().boldCalls == old(Editor().boldCalls) + BoldRequests(true)
      ensures InsertText? ==> insert.position == old(Editor().cursorPosition)
      ensures DeleteText? ==> delete.position == old(Editor().cursorPosition)
    {
      match this
      case InsertText(c) => c.Execute();
      case DeleteText(c) => c.Execute();
      case Bold(c) => c.Execute();
    }

    method Undo()
      requires CanUndoOn(Editor().State())
      modifies Editor()
      ensures Editor().State() == AfterUndo(old(Editor().State()))
      ensures Editor().boldCalls == old(Editor().boldCalls) + BoldRequests(false)
    {
      match this
      case InsertText(c) => c.Undo();
      case DeleteText(c) => c.Undo();
      case Bold(c) => c.Undo();
    }
  }

  /** On "Hello" with the cursor at 5, typing " World" and undoing it gives
      back "Hello" but leaves the cursor at 6, past the end of the content. */
  method InsertUndoScenario() returns (executed: Text, undone: Text)
    ensures executed == Text("Hello World", 11)
    ensures undone == Text("Hello", 6)
    ensures undone.cursorPosition > |undone.content|
  {
    var service := new TextEditorService();
    service.Insert(0, "Hello");
    assert service.content == "Hello";
    var command := new InsertTextCommand(service, " World");
    command.Execute();
    assert service.content == "Hello World";
    executed := service.State();
    command.Undo();
    undone := service.State();
  }
}
