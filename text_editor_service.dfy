/** The text buffer that the commands drive. Its `Delete` keeps a prefix of
    the content rather than removing a range, and neither operation keeps
    the cursor within the content. */
module EditorService {
  import Str = CSharpString
  import opened Domain

  /** A call of `ApplyBold` or `RemoveBold`; the buffer only reports these. */
  datatype BoldCall = BoldOn(start: int, length: int) | BoldOff(start: int, length: int)

  /** `Insert(position, value)`: a string insert, then the cursor is put just
      after the inserted value. `String.Insert` throws unless the position
      lies within the content. */
  function AfterInsert(st: Text, position: int, value: string): (r: Text)
    requires 0 <= position <= |st.content|
  {
    Text(Str.Insert(st.content, position, value), position + |value|)
  }

  /** `Delete(position, length)`: the content is cut down to its first
      `length` characters (`Content[..length]` throws unless
      `0 <= length <= |content|`), then the cursor is set to `position`. */
  function AfterDelete(st: Text, position: int, length: int): (r: Text)
    requires 0 <= length <= |st.content|
  {
    Text(st.content[..length], position)
  }

  /** Insert keeps what comes before `position`, places `value` there and
      shifts the rest; the new cursor is `position + |value|`, whatever the
      old cursor was. */
  lemma InsertEffect(st: Text, position: int, value: string, otherCursor: int)
    requires 0 <= position <= |st.content|
    ensures AfterInsert(st, position, value).content[..position] == st.content[..position]
    ensures AfterInsert(st, position, value).content[position..position + |value|] == value
    ensures AfterInsert(st, position, value).content[position + |value|..] == st.content[position..]
    ensures AfterInsert(st, position, value).cursorPosition == position + |value|
    ensures AfterInsert(st.(cursorPosition := otherCursor), position, value) == AfterInsert(st, position, value)
  {
    Str.InsertPieces(st.content, position, value);
  }

  /** Delete leaves the length-`length` prefix of the old content, which
      contains the old content only when nothing was cut; the cursor becomes
      `position` unchecked, whatever `length` and the old cursor were. */
  lemma DeleteEffect(st: Text, position: int, length: int, otherCursor: int)
    requires 0 <= length <= |st.content|
    ensures |AfterDelete(st, position, length).content| == length
    ensures AfterDelete(st, position, length).content <= st.content
    ensures AfterDelete(st, position, length).content == st.content <==> length == |st.content|
    ensures AfterDelete(st, position, length).cursorPosition == position
    ensures AfterDelete(st.(cursorPosition := otherCursor), position, length) == AfterDelete(st, position, length)
  {
  }

  /** Deleting twice with the same arguments is deleting once. */
  lemma DeleteIdempotent(st: Text, position: int, length: int)
    requires 0 <= length <= |st.content|
    ensures 0 <= length <= |AfterDelete(st, position, length).content|
    ensures AfterDelete(AfterDelete(st, position, length), position, length) == AfterDelete(st, position, length)
  {
  }

  /** The buffer service. `boldCalls` records the formatting requests, which
      the buffer itself only reports. */
  class TextEditorService {
    var content: string
    var cursorPosition: int
    ghost var boldCalls: seq<BoldCall>

    function State(): Text
      reads this
    {
      Text(content, cursorPosition)
    }

    constructor ()
      ensures State() == EmptyText && boldCalls == []
    {
      content := "";
      cursorPosition := 0;
      boldCalls := [];
    }

    method Insert(position: int, value: string)
      requires 0 <= position <= |content|
      modifies this`content, this`cursorPosition
      ensures State() == AfterInsert(old(State()), position, value)
    {
      content := Str.Insert(content, position, value);
      cursorPosition := position + |value|;
    }

    method GetCursorPosition() returns (r: int)
      ensures r == cursorPosition
    {
      r := cursorPosition;
    }

    method Delete(position: int, length: int)
      requires 0 <= length <= |content|
      modifies this`content, this`cursorPosition
      ensures State() == AfterDelete(old(State()), position, length)
    {
      content := content[..length];
      cursorPosition := position;
    }

    method ApplyBold(start: int, length: int)
      modifies this`boldCalls
      ensures boldCalls == old(boldCalls) + [BoldOn(start, length)]
    {
      boldCalls := boldCalls + [BoldOn(start, length)];
    }

    method RemoveBold(start: int, length: int)
      modifies this`boldCalls
      ensures boldCalls == old(boldCalls) + [BoldOff(start, length)]
    {
      boldCalls := boldCalls + [BoldOff(start, length)];
    }

    method GetContent() returns (r: string)
      ensures r == content
    {
      r := content;
    }
  }
}
