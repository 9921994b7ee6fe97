/** The editor of the original challenge and its two attempts at a history:
    one that stores content snapshots and one that logs operations and
    reverses them in a switch. */
module DesignPatternChallenge {
  import Str = CSharpString

  /** What the plain editor holds: its text and its cursor. */
  datatype EditorState = EditorState(content: string, cursorPosition: int)

  /** The cursor points into the text or just past its end. */
  predicate CursorInRange(st: EditorState) {
    0 <= st.cursorPosition <= |st.content|
  }

  /** `InsertText`: the text goes in at the cursor and the cursor moves past it.
      `String.Insert` throws unless the cursor lies within the content. */
  function AfterInsertText(st: EditorState, text: string): (r: EditorState)
    requires CursorInRange(st)
  {
    EditorState(Str.Insert(st.content, st.cursorPosition, text), st.cursorPosition + |text|)
  }

  /** `DeleteText` does not throw: when the guard `cursor >= length` holds, the
      range `[cursor - length, cursor)` must be a valid argument of `String.Remove`. */
  predicate DeleteTextDefined(st: EditorState, length: int) {
    st.cursorPosition >= length ==> 0 <= length && st.cursorPosition <= |st.content|
  }

  /** `DeleteText`: the `length` characters before the cursor go, unless there
      are fewer than `length` positions before it. */
  function AfterDeleteText(st: EditorState, length: int): (r: EditorState)
    requires DeleteTextDefined(st, length)
  {
    if st.cursorPosition >= length then
      EditorState(Str.Remove(st.content, st.cursorPosition - length, length), st.cursorPosition - length)
    else
      st
  }

  /** Inserting keeps the text before the cursor, puts `text` right after it,
      shifts the rest, and leaves the cursor within the content. */
  lemma InsertTextEffect(st: EditorState, text: string)
    requires CursorInRange(st)
    ensures AfterInsertText(st, text).content[..st.cursorPosition] == st.content[..st.cursorPosition]
    ensures AfterInsertText(st, text).content[st.cursorPosition..st.cursorPosition + |text|] == text
    ensures AfterInsertText(st, text).content[st.cursorPosition + |text|..] == st.content[st.cursorPosition..]
    ensures AfterInsertText(st, text).cursorPosition == st.cursorPosition + |text|
    ensures CursorInRange(AfterInsertText(st, text))
  {
    Str.InsertPieces(st.content, st.cursorPosition, text);
  }

  /** Deleting either removes exactly the `length` characters that end at the
      cursor and moves the cursor back by `length`, or changes nothing; in
      both cases the cursor stays within the content. */
  lemma DeleteTextEffect(st: EditorState, length: int)
    requires DeleteTextDefined(st, length)
    ensures st.cursorPosition >= length ==>
      var c := st.cursorPosition;
      AfterDeleteText(st, length) ==
        EditorState(st.content[..c - length] + st.content[c..], c - length)
    ensures st.cursorPosition < length ==> AfterDeleteText(st, length) == st
    ensures CursorInRange(st) ==> CursorInRange(AfterDeleteText(st, length))
  {
  }

  /** Deleting as many characters as were just typed restores the editor. */
  lemma InsertThenDeleteText(st: EditorState, text: string)
    requires CursorInRange(st)
    ensures DeleteTextDefined(AfterInsertText(st, text), |text|)
    ensures AfterDeleteText(AfterInsertText(st, text), |text|) == st
  {
  }

  /** The editor of the challenge. Nothing checks the cursor that
      `SetCursorPosition` is given. */
  class TextEditor {
    var content: string
    var cursorPosition: int

    function State(): EditorState
      reads this
    {
      EditorState(content, cursorPosition)
    }

    constructor ()
      ensures State() == EditorState("", 0)
    {
      content := "";
      cursorPosition := 0;
    }

    method InsertText(text: string)
      requires CursorInRange(State())
      modifies this
      ensures State() == AfterInsertText(old(State()), text)
    {
      content := Str.Insert(content, cursorPosition, text);
      cursorPosition := cursorPosition + |text|;
    }

    method DeleteText(length: int)
      requires DeleteTextDefined(State(), length)
      modifies this
      ensures State() == AfterDeleteText(old(State()), length)
    {
      if cursorPosition >= length {
        content := Str.Remove(content, cursorPosition - length, length);
        cursorPosition := cursorPosition - length;
      }
    }

    /** Formatting is only simulated: nothing in the editor changes. */
    method SetBold(start: int, length: int)
      ensures unchanged(this)
    {
    }

    method RemoveBold(start: int, length: int)
      ensures unchanged(this)
    {
    }

    /** Any position is accepted, including one outside the content. */
    method SetCursorPosition(position: int)
      modifies this
      ensures content == old(content) && cursorPosition == position
    {
      cursorPosition := position;
    }

    method GetContent() returns (r: string)
      ensures r == content
    {
      r := content;
    }

    method GetCursorPosition() returns (r: int)
      ensures r == cursorPosition
    {
      r := cursorPosition;
    }
  }

  /** The application of the challenge: editing verbs forwarded to a private
      editor, with an Undo and a Redo that do nothing. */
  class EditorApplication {
    const editor: TextEditor

    /** The private editor is changed only through InsertText and DeleteText,
        so its cursor stays within its content. */
    ghost predicate Valid()
      reads this, editor
    {
      CursorInRange(editor.State())
    }

    constructor ()
      ensures Valid() && fresh(editor)
      ensures editor.State() == EditorState("", 0)
    {
      editor := new TextEditor();
    }

    method TypeText(text: string)
      requires Valid()
      modifies editor
      ensures Valid()
      ensures editor.State() == AfterInsertText(old(editor.State()), text)
    {
      InsertTextEffect(editor.State(), text);
      editor.InsertText(text);
    }

    /** A negative count would reach `String.Remove` with a negative length. */
    method DeleteCharacters(count: int)
      requires Valid() && 0 <= count
      modifies editor
      ensures Valid()
      ensures editor.State() == AfterDeleteText(old(editor.State()), count)
    {
      DeleteTextEffect(editor.State(), count);
      editor.DeleteText(count);
    }

    method MakeBold(start: int, length: int)
      ensures unchanged(editor)
    {
      editor.SetBold(start, length);
    }

    method Undo()
      ensures unchanged(editor)
    {
    }

    method Redo()
      ensures unchanged(editor)
    {
    }
  }

  /** First naive history: a stack of content snapshots, top at the end.
      `Undo` pops a snapshot and never gives it back to the editor. */
  class EditorWithStateHistory {
    const editor: TextEditor
    var contentHistory: seq<string>

    ghost predicate Valid()
      reads this, editor
    {
      CursorInRange(editor.State())
    }

    constructor ()
      ensures Valid() && fresh(editor)
      ensures editor.State() == EditorState("", 0) && contentHistory == []
    {
      editor := new TextEditor();
      contentHistory := [];
    }

    method TypeText(text: string)
      requires Valid()
      modifies this, editor
      ensures Valid()
      ensures contentHistory == old(contentHistory) + [old(editor.content)]
      ensures editor.State() == AfterInsertText(old(editor.State()), text)
    {
      var snapshot := editor.GetContent();
      contentHistory := contentHistory + [snapshot];
      InsertTextEffect(editor.State(), text);
      editor.InsertText(text);
    }

    method DeleteCharacters(count: int)
      requires Valid() && 0 <= count
      modifies this, editor
      ensures Valid()
      ensures contentHistory == old(contentHistory) + [old(editor.content)]
      ensures editor.State() == AfterDeleteText(old(editor.State()), count)
    {
      var snapshot := editor.GetContent();
      contentHistory := contentHistory + [snapshot];
      DeleteTextEffect(editor.State(), count);
      editor.DeleteText(count);
    }

    method Undo()
      requires Valid()
      modifies this
      ensures Valid() && unchanged(editor)
      ensures old(contentHistory) == [] ==> contentHistory == []
      ensures old(contentHistory) != [] ==>
        contentHistory == old(contentHistory)[..|old(contentHistory)| - 1]
    {
      if |contentHistory| > 0 {
        var previousContent := contentHistory[|contentHistory| - 1];
        contentHistory := contentHistory[..|contentHistory| - 1];
      }
    }
  }

  /** An entry of the operation log. Only `TypeText` creates entries, and it
      leaves `length` at its default of 0. */
  datatype Operation = Operation(kind: string, text: string, position: int, length: int)

  /** What the operation-log editor holds: its editor and the log, top at the end. */
  datatype LogState = LogState(editor: EditorState, operations: seq<Operation>)

  /** `TypeText`: log an insert at the current cursor, then insert. */
  function AfterLogTypeText(s: LogState, text: string): (r: LogState)
    requires CursorInRange(s.editor)
  {
    LogState(AfterInsertText(s.editor, text),
             s.operations + [Operation("Insert", text, s.editor.cursorPosition, 0)])
  }

  /** Reversing the top entry does not throw. */
  predicate LogUndoDefined(s: LogState) {
    s.operations != [] ==>
      var op := s.operations[|s.operations| - 1];
      (op.kind == "Insert" ==>
         DeleteTextDefined(EditorState(s.editor.content, op.position + |op.text|), |op.text|)) &&
      (op.kind == "Delete" ==>
         CursorInRange(EditorState(s.editor.content, op.position)))
  }

  /** `Undo`: pop the top entry and reverse it by its kind; an empty log is left alone. */
  function AfterLogUndo(s: LogState): (r: LogState)
    requires LogUndoDefined(s)
    ensures s.operations == [] ==> r == s
    ensures s.operations != [] ==> r.operations == s.operations[..|s.operations| - 1]
  {
    if s.operations == [] then s
    else
      var op := s.operations[|s.operations| - 1];
      var rest := s.operations[..|s.operations| - 1];
      if op.kind == "Insert" then
        LogState(AfterDeleteText(EditorState(s.editor.content, op.position + |op.text|), |op.text|), rest)
      else if op.kind == "Delete" then
        LogState(AfterInsertText(EditorState(s.editor.content, op.position), op.text), rest)
      else
        LogState(s.editor, rest)
  }

  /** The log can be undone entry by entry down to the empty log, the cursor
      staying within the content all along. */
  ghost predicate Coherent(s: LogState)
    decreases |s.operations|
  {
    CursorInRange(s.editor) && LogUndoDefined(s) &&
    (s.operations != [] ==> Coherent(AfterLogUndo(s)))
  }

  /** Typing and then undoing restores the exact content, cursor and log. */
  lemma TypeTextThenUndo(s: LogState, text: string)
    requires CursorInRange(s.editor)
    ensures LogUndoDefined(AfterLogTypeText(s, text))
    ensures AfterLogUndo(AfterLogTypeText(s, text)) == s
  {
  }

  lemma TypeTextKeepsCoherent(s: LogState, text: string)
    requires Coherent(s)
    ensures Coherent(AfterLogTypeText(s, text))
  {
    InsertTextEffect(s.editor, text);
    TypeTextThenUndo(s, text);
  }

  /** `TypeText` applied to each of `texts` in turn. */
  ghost function TypeAll(s: LogState, texts: seq<string>): (r: LogState)
    requires Coherent(s)
    ensures Coherent(r) && |r.operations| == |s.operations| + |texts|
    decreases |texts|
  {
    if texts == [] then s
    else
      var before := TypeAll(s, texts[..|texts| - 1]);
      TypeTextKeepsCoherent(before, texts[|texts| - 1]);
      AfterLogTypeText(before, texts[|texts| - 1])
  }

  /** `Undo` applied `n` times. */
  ghost function UndoAll(s: LogState, n: nat): (r: LogState)
    requires Coherent(s) && n <= |s.operations|
    ensures Coherent(r) && |r.operations| == |s.operations| - n
    decreases n
  {
    if n == 0 then s else UndoAll(AfterLogUndo(s), n - 1)
  }

  /** As many undos as there were typings bring back the starting state. */
  lemma {:induction false} TypeAllThenUndoAll(s: LogState, texts: seq<string>)
    requires Coherent(s)
    ensures UndoAll(TypeAll(s, texts), |texts|) == s
  {
    if texts != [] {
      var init, last := texts[..|texts| - 1], texts[|texts| - 1];
      var before := TypeAll(s, init);
      TypeTextThenUndo(before, last);
      assert TypeAll(s, texts) == AfterLogTypeText(before, last);
      calc {
        UndoAll(TypeAll(s, texts), |texts|);
        UndoAll(AfterLogUndo(AfterLogTypeText(before, last)), |texts| - 1);
        UndoAll(before, |init|);
        { TypeAllThenUndoAll(s, init); }
        s;
      }
    }
  }

  /** Second naive history: a log of operations reversed by a switch on their kind. */
  class EditorWithOperationLog {
    const editor: TextEditor
    var operations: seq<Operation>

    function State(): LogState
      reads this, editor
    {
      LogState(editor.State(), operations)
    }

    ghost predicate Valid()
      reads this, editor
    {
      Coherent(State())
    }

    constructor ()
      ensures Valid() && fresh(editor)
      ensures State() == LogState(EditorState("", 0), [])
    {
      editor := new TextEditor();
      operations := [];
    }

    method TypeText(text: string)
      requires Valid()
      modifies this, editor
      ensures Valid()
      ensures State() == AfterLogTypeText(old(State()), text)
    {
      TypeTextKeepsCoherent(State(), text);
      var position := editor.GetCursorPosition();
      operations := operations + [Operation("Insert", text, position, 0)];
      editor.InsertText(text);
    }

    method Undo()
      requires Valid()
      modifies this, editor
      ensures Valid()
      ensures State() == AfterLogUndo(old(State()))
      ensures old(operations) == [] ==> unchanged(this, editor)
    {
      if |operations| > 0 {
        var op := operations[|operations| - 1];
        operations := operations[..|operations| - 1];
        if op.kind == "Insert" {
          editor.SetCursorPosition(op.position + |op.text|);
          editor.DeleteText(|op.text|);
        } else if op.kind == "Delete" {
          editor.SetCursorPosition(op.position);
          editor.InsertText(op.text);
        } else if op.kind == "Bold" {
          editor.RemoveBold(op.position, op.length);
        }
      }
    }
  }

  /** The run of the challenge's entry point: type "Hello" and " World",
      delete six characters, make "Hello" bold, try to undo. */
  method ProblemScenario() returns (typed: EditorState, deleted: EditorState, undone: EditorState)
    ensures typed == EditorState("Hello World", 11)
    ensures deleted == EditorState("Hello", 5)
    ensures undone == deleted
  {
    var app := new EditorApplication();
    app.TypeText("Hello");
    assert app.editor.content == "Hello";
    app.TypeText(" World");
    assert app.editor.content == "Hello World";
    typed := app.editor.State();
    app.DeleteCharacters(6);
    assert app.editor.content == "Hello";
    deleted := app.editor.State();
    app.MakeBold(0, 5);
    app.Undo();
    undone := app.editor.State();
  }

  /** The snapshot history pops on undo but the editor keeps its content. */
  method StateHistoryScenario() returns (content: string, depth: nat)
    ensures content == "ab" && depth == 0
  {
    var h := new EditorWithStateHistory();
    h.TypeText("ab");
    assert h.editor.content == "ab";
    h.Undo();
    content := h.editor.content;
    depth := |h.contentHistory|;
  }

  /** The log states the operation-log run passes through while typing. */
  lemma OperationLogTyping()
    ensures AfterLogTypeText(LogState(EditorState("", 0), []), "Hello")
              == LogState(EditorState("Hello", 5), [Operation("Insert", "Hello", 0, 0)])
    ensures AfterLogTypeText(LogState(EditorState("Hello", 5), [Operation("Insert", "Hello", 0, 0)]), " World")
              == LogState(EditorState("Hello World", 11),
                          [Operation("Insert", "Hello", 0, 0), Operation("Insert", " World", 5, 0)])
  {
    assert Str.Insert("", 0, "Hello") == "Hello";
    assert Str.Insert("Hello", 5, " World") == "Hello World";
  }

  /** The log states the operation-log run passes through while undoing. */
  lemma OperationLogUndos()
    ensures LogUndoDefined(LogState(EditorState("Hello World", 11),
                                    [Operation("Insert", "Hello", 0, 0), Operation("Insert", " World", 5, 0)]))
    ensures AfterLogUndo(LogState(EditorState("Hello World", 11),
                                  [Operation("Insert", "Hello", 0, 0), Operation("Insert", " World", 5, 0)]))
              == LogState(EditorState("Hello", 5), [Operation("Insert", "Hello", 0, 0)])
    ensures LogUndoDefined(LogState(EditorState("Hello", 5), [Operation("Insert", "Hello", 0, 0)]))
    ensures AfterLogUndo(LogState(EditorState("Hello", 5), [Operation("Insert", "Hello", 0, 0)]))
              == LogState(EditorState("", 0), [])
  {
    assert Str.Remove("Hello World", 5, 6) == "Hello";
    assert Str.Remove("Hello", 0, 5) == "";
  }

  /** The operation log undoes two typings one after the other, and a third
      undo on the empty log changes nothing. */
  method OperationLogScenario() returns (typed: EditorState, once: EditorState, twice: EditorState, thrice: EditorState)
    ensures typed == EditorState("Hello World", 11)
    ensures once == EditorState("Hello", 5)
    ensures twice == EditorState("", 0)
    ensures thrice == twice
  {
    OperationLogTyping();
    OperationLogUndos();
    var log := new EditorWithOperationLog();
    log.TypeText("Hello");
    log.TypeText(" World");
    typed := log.editor.State();
    log.Undo();
    once := log.editor.State();
    log.Undo();
    twice := log.editor.State();
    log.Undo();
    thrice := log.editor.State();
  }
}
