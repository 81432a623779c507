/** The character cursor of cs/Markdown/Cursor.cs: a line of text and a position in it. */
module Cursors {

  class Cursor {
    const text: string
    var index: nat

    /** The position never passes the end of the text. */
    ghost predicate Valid()
      reads this
    {
      index <= |text|
    }

    constructor (text: string)
      ensures this.text == text && index == 0 && Valid()
    {
      this.text := text;
      index := 0;
    }

    /** The character under the cursor; only readable before the end of the text. */
    function CurrentChar(): (c: char)
      reads this
      requires !IsEndOfText()
      ensures c == text[index] && index < |text|
    {
      text[index]
    }

    /** The cursor is at the end exactly when no character is left to read. */
    predicate IsEndOfText()
      reads this
      ensures IsEndOfText() <==> index >= |text|
    {
      index >= |text|
    }

    /** Advances by `count` characters, or does nothing when that would pass the end. */
    method MoveForward(count: nat)
      modifies this
      ensures index == if old(index) + count <= |text| then old(index) + count else old(index)
      ensures old(Valid()) ==> Valid()
    {
      if index + count <= |text| {
        index := index + count;
      }
    }

    /** True exactly when a character follows the current one and it is `c`. */
    predicate IsNextCharSame(c: char)
      reads this
      ensures IsNextCharSame(c) <==> index + 1 < |text| && text[index + 1] == c
    {
      index + 1 < |text| && text[index + 1] == c
    }
  }
}
