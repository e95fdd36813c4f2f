/** A growable text buffer, written in place and reused. */
module TextBuffers {

  class TextBuffer {
    var text: string

    constructor ()
      ensures text == ""
    {
      text := "";
    }

    method Clear()
      modifies this
      ensures text == ""
    {
      text := "";
    }

    method PushStr(s: string)
      modifies this
      ensures text == old(text) + s
    {
      text := text + s;
    }

    method Push(c: char)
      modifies this
      ensures text == old(text) + [c]
    {
      text := text + [c];
    }
  }
}
