/** The height, in pixels, of the text box that shows a post for editing:
    one 21-pixel row per visual line (85 characters wrap to a new row), plus
    15 pixels of padding, kept within 80..400. */
module Textarea {
  import opened Collections

  const CharsPerLine: nat := 85
  const MinHeight: int := 80
  const MaxHeight: int := 400

  /** Visual rows one line of text takes: an empty line still takes a row,
      a longer one takes ceil(length / 85). */
  function RowsOf(line: string): int
  {
    if |line| == 0 then 1
    else
      var r := (|line| + CharsPerLine - 1) / CharsPerLine;
      if r < 1 then 1 else r
  }

  function WrappedRows(lines: seq<string>): int
  {
    if lines == [] then 0 else WrappedRows(lines[..|lines| - 1]) + RowsOf(lines[|lines| - 1])
  }

  function Clamp(h: int): int
  {
    if h > MaxHeight then MaxHeight
    else if h < MinHeight then MinHeight
    else h
  }

  /** The height the source computes, as a formula over the text. */
  function Height(text: string): int
  {
    if text == [] then MinHeight
    else
      var lines := Occurrences(text, '\n') + 1;
      var wrapped := WrappedRows(Split(text, '\n'));
      var total := if lines > wrapped then lines else wrapped;
      Clamp(total * 21 + 15)
  }

  lemma {:induction false} WrappedAtLeastLines(lines: seq<string>)
    ensures WrappedRows(lines) >= |lines|
  {
    if lines != [] {
      WrappedAtLeastLines(lines[..|lines| - 1]);
    }
  }

  /** Every visual row is counted: the wrapped count never falls below the
      number of lines, so the `max` in the source always picks it. */
  lemma {:induction false} HeightUsesWrappedRows(text: string)
    requires text != []
    ensures Height(text) == Clamp(WrappedRows(Split(text, '\n')) * 21 + 15)
  {
    WrappedAtLeastLines(Split(text, '\n'));
  }

  /** `calculate_textarea_height`: a loop over the lines of the text. */
  method CalculateTextareaHeight(text: string) returns (height: int)
    ensures height == Height(text)
    ensures MinHeight <= height <= MaxHeight
    ensures text == [] ==> height == MinHeight
  {
    if text == [] {
      return MinHeight;
    }
    var lines := Occurrences(text, '\n') + 1;
    var pieces := Split(text, '\n');
    var wrapped := 0;
    var i := 0;
    while i < |pieces|
      invariant 0 <= i <= |pieces|
      invariant wrapped == WrappedRows(pieces[..i])
    {
      if |pieces[i]| == 0 {
        wrapped := wrapped + 1;
      } else {
        var r := (|pieces[i]| + CharsPerLine - 1) / CharsPerLine;
        wrapped := wrapped + (if r < 1 then 1 else r);
      }
      assert pieces[..i + 1][..i] == pieces[..i];
      i := i + 1;
    }
    assert pieces[..i] == pieces;
    var total := if lines > wrapped then lines else wrapped;
    height := total * 21 + 15;
    height := if height > MaxHeight then MaxHeight else height;
    height := if height < MinHeight then MinHeight else height;
  }
}
