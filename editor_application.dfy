/** The editing façade: each verb builds a command over the shared buffer and
    runs it through `ExecuteCommand`, which records it for undo. The façade
    has no Undo or Redo, so nothing is ever pushed on the redo stack. */
module Application {
  import opened Domain
  import opened EditorService
  import opened Commands

  /** A call of one of the façade's verbs, with its arguments. */
  datatype Verb =
    | TypeTextCall(text: string)
    | DeleteCharactersCall(count: int)
    | MakeBoldCall(start: int, length: int)

  /** `command` is what `verb` builds over `editor`. */
  predicate Builds(command: EditorCommand, verb: Verb, editor: TextEditorService) {
    command.Editor() == editor &&
    match verb
    case TypeTextCall(t) => command.InsertText? && command.insert.text == t
    case DeleteCharactersCall(n) => command.DeleteText? && command.delete.length == n
    case MakeBoldCall(s, l) => command.Bold? && command.bold.start == s && command.bold.length == l
  }

  /** The history façade. Both stacks have their top at the end; `calls` is
      the sequence of verbs called so far. */
  class EditorApplication {
    const editor: TextEditorService
    var undoStack: seq<EditorCommand>
    var redoStack: seq<EditorCommand>
    ghost var calls: seq<Verb>

    /** The undo stack holds, in call order, exactly the commands the verbs
        built; the redo stack stays empty. */
    ghost predicate Valid()
      reads this
    {
      redoStack == [] &&
      |undoStack| == |calls| &&
      forall i :: 0 <= i < |undoStack| ==> Builds(undoStack[i], calls[i], editor)
    }

    constructor (editor: TextEditorService)
      ensures Valid() && this.editor == editor
      ensures undoStack == [] && calls == []
    {
      this.editor := editor;
      undoStack := [];
      redoStack := [];
      calls := [];
    }

    /** Runs the command once, then pushes it and drops every redo entry. */
    method ExecuteCommand(command: EditorCommand)
      requires command.Editor() == editor
      requires command.CanExecuteOn(editor.State())
      modifies this`undoStack, this`redoStack, command.Captures(), editor
      ensures editor.State() == command.AfterExecute(old(editor.State()))
      ensures editor.boldCalls == old(editor.boldCalls) + command.BoldRequests(true)
      ensures command.InsertText? ==> command.insert.position == old(editor.cursorPosition)
      ensures command.DeleteText? ==> command.delete.position == old(editor.cursorPosition)
      ensures undoStack == old(undoStack) + [command]
      ensures redoStack == []
    {
      command.Execute();
      undoStack := undoStack + [command];
      redoStack := [];
    }

    /** `InsertTextCommand.Execute` throws unless the shared buffer's cursor
        lies within its content. */
    method TypeText(text: string)
      requires Valid()
      requires 0 <= editor.cursorPosition <= |editor.content|
      modifies this, editor
      ensures Valid() && calls == old(calls) + [TypeTextCall(text)]
      ensures |undoStack| == |old(undoStack)| + 1 && undoStack[..|old(undoStack)|] == old(undoStack)
      ensures fresh(undoStack[|undoStack| - 1].insert)
      ensures undoStack[|undoStack| - 1].insert.position == old(editor.cursorPosition)
      ensures editor.State() == AfterInsert(old(editor.State()), old(editor.cursorPosition), text)
      ensures editor.boldCalls == old(editor.boldCalls)
    {
      var command := new InsertTextCommand(editor, text);
      ExecuteCommand(InsertText(command));
      calls := calls + [TypeTextCall(text)];
    }

    /** `DeleteTextCommand.Execute` throws unless `0 <= count <= |content|`. */
    method DeleteCharacters(count: int)
      requires Valid()
      requires 0 <= count <= |editor.content|
      modifies this, editor
      ensures Valid() && calls == old(calls) + [DeleteCharactersCall(count)]
      ensures |undoStack| == |old(undoStack)| + 1 && undoStack[..|old(undoStack)|] == old(undoStack)
      ensures fresh(undoStack[|undoStack| - 1].delete)
      ensures undoStack[|undoStack| - 1].delete.position == old(editor.cursorPosition)
      ensures editor.State() == AfterDelete(old(editor.State()), old(editor.cursorPosition), count)
      ensures editor.boldCalls == old(editor.boldCalls)
    {
      var command := new DeleteTextCommand(editor, count);
      ExecuteCommand(DeleteText(command));
      calls := calls + [DeleteCharactersCall(count)];
    }

    method MakeBold(start: int, length: int)
      requires Valid()
      modifies this, editor
      ensures Valid() && calls == old(calls) + [MakeBoldCall(start, length)]
      ensures |undoStack| == |old(undoStack)| + 1 && undoStack[..|old(undoStack)|] == old(undoStack)
      ensures fresh(undoStack[|undoStack| - 1].bold)
      ensures editor.State() == old(editor.State())
      ensures editor.boldCalls == old(editor.boldCalls) + [BoldOn(start, length)]
    {
      var command := new BoldCommand(editor, start, length);
      ExecuteCommand(Bold(command));
      calls := calls + [MakeBoldCall(start, length)];
    }
  }
}
