/**
 * Byte-wise navigation through the source text with line and column tracking
 * (lexer/cursor.rs). The cursor is an immutable value; `Advance` returns the
 * byte read together with the moved cursor.
 */
module Cursors {
  import opened Common
  import opened Errors

  const LF: u8 := 10

  datatype Cursor = Cursor(bytes: seq<u8>, pos: nat, line: nat, col: nat)

  /** Number of line feeds in a byte sequence. */
  function CountLf(s: seq<u8>): nat {
    if |s| == 0 then 0 else CountLf(s[..|s| - 1]) + (if s[|s| - 1] == LF then 1 else 0)
  }

  /** The 1-based column reached after reading `s`: one more than the bytes since the last line feed. */
  function ColumnAfter(s: seq<u8>): nat {
    if |s| == 0 then 1 else if s[|s| - 1] == LF then 1 else ColumnAfter(s[..|s| - 1]) + 1
  }

  /**
   * The line and column a cursor reports are those of the bytes it has consumed:
   * one line per line feed read, and the column counts bytes since the last one.
   */
  ghost predicate Valid(c: Cursor) {
    && c.pos <= |c.bytes|
    && c.line == 1 + CountLf(c.bytes[..c.pos])
    && c.col == ColumnAfter(c.bytes[..c.pos])
  }

  /** `Cursor::new`. */
  function New(bytes: seq<u8>): (c: Cursor)
    ensures Valid(c)
    ensures c.bytes == bytes && c.pos == 0 && c.line == 1 && c.col == 1
  {
    Cursor(bytes, 0, 1, 1)
  }

  /** `Cursor::is_at_end`. */
  predicate AtEnd(c: Cursor)
    ensures !AtEnd(c) <==> c.pos < |c.bytes|
  {
    c.pos >= |c.bytes|
  }

  /** `Cursor::peek`: the byte under the cursor as a char, nothing at the end. */
  function Peek(c: Cursor): (r: Option<char>)
    ensures r.None? <==> AtEnd(c)
    ensures r.Some? ==> r.value == c.bytes[c.pos] as char
  {
    if c.pos < |c.bytes| then Some(c.bytes[c.pos] as char) else None
  }

  /** `Cursor::advance`: read one byte and move past it. */
  function Advance(c: Cursor): (r: (Option<char>, Cursor))
    ensures AtEnd(c) ==> r == (None, c)
    ensures !AtEnd(c) ==> r.0 == Some(c.bytes[c.pos] as char)
    ensures !AtEnd(c) ==> r.1.bytes == c.bytes && r.1.pos == c.pos + 1
    ensures !AtEnd(c) && c.bytes[c.pos] == LF ==> r.1.line == c.line + 1 && r.1.col == 1
    ensures !AtEnd(c) && c.bytes[c.pos] != LF ==> r.1.line == c.line && r.1.col == c.col + 1
    ensures Valid(c) ==> Valid(r.1)
  {
    if c.pos < |c.bytes| then
      var b := c.bytes[c.pos];
      var next := if b == LF then c.(pos := c.pos + 1, line := c.line + 1, col := 1)
                  else c.(pos := c.pos + 1, col := c.col + 1);
      assert c.bytes[..c.pos + 1][..c.pos] == c.bytes[..c.pos];
      (Some(b as char), next)
    else
      (None, c)
  }

  /** The (line, column) the cursor is at. */
  function CurrentPos(c: Cursor): Position {
    Position(c.line, c.col)
  }
}
