/** The console program's run: one buffer service shared with the façade,
    two typings, a deletion of five characters and a bold request. */
module ConsoleProgram {
  import opened Domain
  import opened EditorService
  import opened Application

  /** The deletion leaves "Hello", as the program's comment expects, but the
      cursor stays at 11, past the end of the content; four commands are on
      the undo stack and none on the redo stack. */
  method ProgramScenario() returns (typed: Text, deleted: Text, bolded: Text, undoDepth: nat, redoDepth: nat)
    ensures typed == Text("Hello World", 11)
    ensures deleted == Text("Hello", 11)
    ensures deleted.cursorPosition > |deleted.content|
    ensures bolded == deleted
    ensures undoDepth == 4 && redoDepth == 0
  {
    var service := new TextEditorService();
    var app := new EditorApplication(service);
    app.TypeText("Hello");
    assert service.content == "Hello";
    app.TypeText(" World");
    assert service.content == "Hello World";
    typed := service.State();
    app.DeleteCharacters(5);
    deleted := service.State();
    app.MakeBold(0, 5);
    bolded := service.State();
    undoDepth := |app.undoStack|;
    redoDepth := |app.redoStack|;
  }
}
