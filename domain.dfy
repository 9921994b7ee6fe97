/** The text model of the command-based editor: its content and its cursor.
    A new text is empty with the cursor at 0. */
module Domain {

  datatype Text = Text(content: string, cursorPosition: int)

  const EmptyText: Text := Text("", 0)
}
