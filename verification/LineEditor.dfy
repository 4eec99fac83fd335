/** The line editor: a byte buffer, the widths of its characters, and a cursor in characters and in bytes. */
module LineEditor {
  import opened Utf8
  import opened Utf8Text
  import opened Utf8Lines

  /** A character of the line with the width it was measured to take on the screen. */
  datatype Cell = Cell(cp: CodePoint, width: int)

  /** What the editor shows: characters, and a cursor between them. */
  datatype Doc = Doc(cells: seq<Cell>, cursor: nat)

  function Text(cells: seq<Cell>): (text: seq<CodePoint>)
    ensures |text| == |cells|
  {
    seq(|cells|, i requires 0 <= i < |cells| => cells[i].cp)
  }

  function Widths(cells: seq<Cell>): (widths: seq<int>)
    ensures |widths| == |cells|
  {
    seq(|cells|, i requires 0 <= i < |cells| => cells[i].width)
  }

  type Class = CodePoint -> bool

  // ----- edits of a document

  function InsertCell(d: Doc, cell: Cell): Doc
    requires d.cursor <= |d.cells|
  {
    Doc(d.cells[..d.cursor] + [cell] + d.cells[d.cursor..], d.cursor + 1)
  }

  function DeleteCell(d: Doc): Doc
    requires d.cursor <= |d.cells|
  {
    if d.cursor == |d.cells| then d else d.(cells := d.cells[..d.cursor] + d.cells[d.cursor + 1..])
  }

  function BackspaceCell(d: Doc): Doc
    requires d.cursor <= |d.cells|
  {
    if d.cursor == 0 then d else DeleteCell(d.(cursor := d.cursor - 1))
  }

  /** The end of the run of spaces, or of other characters, from `k` on. */
  function RunEnd(cells: seq<Cell>, k: nat, spaces: bool, isSpace: Class): (e: nat)
    requires k <= |cells|
    ensures k <= e <= |cells|
    decreases |cells| - k
  {
    if k < |cells| && isSpace(cells[k].cp) == spaces then RunEnd(cells, k + 1, spaces, isSpace) else k
  }

  /** The beginning of the run of spaces, or of other characters, before `k`. */
  function RunBegin(cells: seq<Cell>, k: nat, spaces: bool, isSpace: Class): (b: nat)
    requires k <= |cells|
    ensures b <= k
  {
    if k > 0 && isSpace(cells[k - 1].cp) == spaces then RunBegin(cells, k - 1, spaces, isSpace) else k
  }

  function WordLeftOf(cells: seq<Cell>, k: nat, isSpace: Class): (w: nat)
    requires k <= |cells|
    ensures w <= k
  {
    RunBegin(cells, RunBegin(cells, k, true, isSpace), false, isSpace)
  }

  function WordRightOf(cells: seq<Cell>, k: nat, isSpace: Class): (w: nat)
    requires k <= |cells|
    ensures k <= w <= |cells|
  {
    RunEnd(cells, RunEnd(cells, RunEnd(cells, k, true, isSpace), false, isSpace), true, isSpace)
  }

  /** How many whole pieces fit into the first `bytes` bytes; all of them if `bytes` is negative. */
  function PiecesWithin(pieces: seq<Decoded>, bytes: int): (k: nat)
    ensures k <= |pieces|
  {
    if bytes < 0 then |pieces| else PiecesUpTo(pieces, bytes, |pieces|)
  }

  function PiecesUpTo(pieces: seq<Decoded>, bytes: int, n: nat): (k: nat)
    requires n <= |pieces|
    ensures k <= n
  {
    if n == 0 || EndOf(pieces, n) <= bytes then n else PiecesUpTo(pieces, bytes, n - 1)
  }

  function NotNegative(width: int): (w: int)
    ensures w >= 0 && (width >= 0 ==> w == width) && (width < 0 ==> w == 0)
  {
    if width < 0 then 0 else width
  }

  /** The characters of a line with their measured widths. */
  function Loaded(pieces: seq<Decoded>, measured: nat -> int): (cells: seq<Cell>)
    ensures |cells| == |pieces|
  {
    seq(|pieces|, i requires 0 <= i < |pieces| => Cell(pieces[i].cp, NotNegative(measured(i))))
  }

  // ----- the editor

  class Editor {
    const isSpace: Class
    var line: seq<Byte>
    var widths: seq<int>
    var charPos: nat
    var bytePos: nat
    ghost var cells: seq<Cell>

    /** The buffer encodes the characters, each has a width, and both cursors are at the same place. */
    ghost predicate InStep()
      reads this
    {
      && AllValid(Text(cells))
      && line == EncodeAll(Text(cells))
      && widths == Widths(cells)
      && charPos <= |cells|
      && bytePos == Offset(Text(cells), charPos)
    }

    ghost function Abs(): Doc
      reads this
    {
      Doc(cells, charPos)
    }

    constructor (isSpace: Class)
      ensures InStep() && Abs() == Doc([], 0) && this.isSpace == isSpace
    {
      this.isSpace := isSpace;
      line, widths, charPos, bytePos, cells := [], [], 0, 0, [];
    }

    /** Inserts a character at the cursor. A number that is no code point gets a width but no bytes. */
    method Insert(ch: CodePoint, measured: int)
      requires InStep()
      modifies this
      ensures Valid(ch) ==> InStep() && Abs() == InsertCell(old(Abs()), Cell(ch, NotNegative(measured)))
      ensures !Valid(ch) ==> line == old(line) && bytePos == old(bytePos) && charPos == old(charPos) + 1
                             && widths ==
                                old(widths)[..old(charPos)] + [NotNegative(measured)] + old(widths)[old(charPos)..]
      ensures InStep() <==> Valid(ch)
    {
      hide EncodeAll;
      var newChar := Encode(ch);
      var width := NotNegative(measured);
      ghost var cell := Cell(ch, width);
      OffsetMonotone(Text(cells), charPos, |cells|);
      if Valid(ch) {
        InsertInStep(cells, charPos, cell);
      }
      if charPos == |widths| {
        OffsetEnd(Text(cells));
        line := line + newChar;
        widths := widths + [width];
      } else {
        line := line[..bytePos] + newChar + line[bytePos..];
        widths := widths[..charPos] + [width] + widths[charPos..];
      }
      bytePos := bytePos + |newChar|;
      if Valid(ch) {
        cells := cells[..charPos] + [cell] + cells[charPos..];
      }
      charPos := charPos + 1;
    }

    /** Removes the character at the cursor. */
    method DeleteAtCursor()
      requires InStep()
      modifies this
      ensures InStep() && Abs() == DeleteCell(old(Abs()))
    {
      if charPos >= |widths| {
        return;
      }
      RemoveInStep(cells, charPos);
      NextIsOffset(Text(cells), charPos);
      var nextPos := NextUtf8CharPos(line, bytePos);
      line := line[..bytePos] + line[nextPos..];
      widths := widths[..charPos] + widths[charPos + 1..];
      cells := cells[..charPos] + cells[charPos + 1..];
    }

    method Backspace()
      requires InStep()
      modifies this
      ensures InStep() && Abs() == BackspaceCell(old(Abs()))
    {
      if charPos > 0 {
        RemoveInStep(cells, charPos - 1);
        PrevIsOffset(Text(cells), charPos);
        charPos := charPos - 1;
        var prevPos := PrevUtf8CharPos(line, bytePos);
        line := line[..prevPos] + line[bytePos..];
        bytePos := prevPos;
        widths := widths[..charPos] + widths[charPos + 1..];
        cells := cells[..charPos] + cells[charPos + 1..];
      }
    }

    method MoveLeft()
      requires InStep()
      modifies this
      ensures InStep() && Abs() == old(Abs()).(cursor := if old(charPos) > 0 then old(charPos) - 1 else 0)
    {
      if charPos > 0 {
        PrevIsOffset(Text(cells), charPos);
        charPos := charPos - 1;
        bytePos := PrevUtf8CharPos(line, bytePos);
      }
    }

    method MoveRight()
      requires InStep()
      modifies this
      ensures InStep() && Abs() == old(Abs()).(cursor := if old(charPos) < |old(cells)| then old(charPos) + 1 else old(charPos))
    {
      if charPos < |widths| {
        NextIsOffset(Text(cells), charPos);
        charPos := charPos + 1;
        bytePos := NextUtf8CharPos(line, bytePos);
      }
    }

    method MoveToLineStart()
      requires InStep()
      modifies this
      ensures InStep() && Abs() == old(Abs()).(cursor := 0)
    {
      OffsetEnd(Text(cells));
      charPos, bytePos := 0, 0;
    }

    method MoveToLineEnd()
      requires InStep()
      modifies this
      ensures InStep() && Abs() == old(Abs()).(cursor := |old(cells)|)
    {
      OffsetEnd(Text(cells));
      charPos, bytePos := |widths|, |line|;
    }

    /** Skips spaces, or other characters, to the left of a position. */
    method SkipLeft(fromChar: nat, fromByte: nat, spaces: bool) returns (newChar: nat, newByte: nat)
      requires InStep() && fromChar <= |cells| && fromByte == Offset(Text(cells), fromChar)
      ensures newChar == RunBegin(cells, fromChar, spaces, isSpace) && newByte == Offset(Text(cells), newChar)
    {
      hide EncodeAll, Encode, Decode, PrevPos, AllValid, Valid;
      newChar, newByte := fromChar, fromByte;
      while newChar > 0
        invariant newChar <= fromChar && newByte == Offset(Text(cells), newChar)
        invariant RunBegin(cells, newChar, spaces, isSpace) == RunBegin(cells, fromChar, spaces, isSpace)
      {
        PrevIsOffset(Text(cells), newChar);
        NextIsOffset(Text(cells), newChar - 1);
        var prevByte := PrevUtf8CharPos(line, newByte);
        if isSpace(Decode(line, prevByte).cp) != spaces {
          break;
        }
        newChar := newChar - 1;
        newByte := prevByte;
      }
    }

    method MoveWordLeft()
      requires InStep()
      modifies this
      ensures InStep() && Abs() == old(Abs()).(cursor := WordLeftOf(old(cells), old(charPos), isSpace))
    {
      if charPos == 0 {
        return;
      }
      var newChar, newByte := SkipLeft(charPos, bytePos, true);
      newChar, newByte := SkipLeft(newChar, newByte, false);
      charPos, bytePos := newChar, newByte;
    }

    method SkipRight(fromChar: nat, fromByte: nat, spaces: bool) returns (newChar: nat, newByte: nat)
      requires InStep() && fromChar <= |cells| && fromByte == Offset(Text(cells), fromChar)
      ensures newChar == RunEnd(cells, fromChar, spaces, isSpace) && newByte == Offset(Text(cells), newChar)
    {
      newChar, newByte := fromChar, fromByte;
      while newChar < |widths|
        invariant fromChar <= newChar <= |cells| && newByte == Offset(Text(cells), newChar)
        invariant RunEnd(cells, newChar, spaces, isSpace) == RunEnd(cells, fromChar, spaces, isSpace)
      {
        NextIsOffset(Text(cells), newChar);
        var decoded := Decode(line, newByte);
        if isSpace(decoded.cp) != spaces {
          break;
        }
        newChar := newChar + 1;
        newByte := newByte + decoded.advance;
      }
    }

    method MoveWordRight()
      requires InStep()
      modifies this
      ensures InStep() && Abs() == old(Abs()).(cursor := WordRightOf(old(cells), old(charPos), isSpace))
    {
      if charPos >= |widths| {
        return;
      }
      var newChar, newByte := SkipRight(charPos, bytePos, true);
      newChar, newByte := SkipRight(newChar, newByte, false);
      newChar, newByte := SkipRight(newChar, newByte, true);
      charPos, bytePos := newChar, newByte;
    }

    /**
      Replaces the line, whatever its bytes are; the cursor goes after the pieces that end within the first `cursorBytePos`
      bytes. The editor is in step exactly if the line is well formed.
     */
    method SetLineContents(newLine: seq<Byte>, measured: nat -> int, cursorBytePos: int)
      modifies this
      ensures line == newLine && cells == Loaded(DecodeAll(newLine, 0), measured) && widths == Widths(cells)
      ensures charPos == PiecesWithin(DecodeAll(newLine, 0), cursorBytePos)
      ensures bytePos == EndOf(DecodeAll(newLine, 0), charPos)
      ensures InStep() <==> WellFormed(newLine)
    {
      hide Decode, EncodeAll, PiecesUpTo, Valid, Encode, Offset, DecodeAll;
      line, widths, bytePos, charPos := newLine, [], 0, 0;
      cells := [];
      ghost var pieces := DecodeAll(newLine, 0);
      UpToNone(pieces, cursorBytePos);
      var idx := 0;
      while idx < |line|
        invariant line == newLine && idx <= |line| && |cells| <= |pieces|
        invariant DecodeAll(line, idx) == pieces[|cells|..] && idx == EndOf(pieces, |cells|)
        invariant cells == Loaded(pieces, measured)[..|cells|] && widths == Widths(cells)
        invariant charPos <= |cells| && bytePos == EndOf(pieces, charPos)
        invariant charPos == if cursorBytePos < 0 then |cells| else PiecesUpTo(pieces, cursorBytePos, |cells|)
        decreases |line| - idx
      {
        PieceLeft(line, idx, pieces, |cells|);
        UpToNext(pieces, cursorBytePos, |cells|);
        var decoded := Decode(line, idx);
        var width := NotNegative(measured(|widths|));
        cells := cells + [Cell(decoded.cp, width)];
        widths := widths + [width];
        idx := idx + decoded.advance;
        if !(cursorBytePos >= 0 && cursorBytePos < idx) {
          charPos := charPos + 1;
          bytePos := idx;
        }
      }
      NothingLeft(line);
      assert |cells| == |pieces|;
      assert Text(cells) == Codes(pieces);
      LoadedInStep(newLine, charPos);
    }
  }

  // ----- runs of edits

  datatype Edit =
    | Insert(ch: CodePoint, measured: int)
    | Backspace
    | Delete
    | Left
    | Right
    | WordLeft
    | WordRight
    | Home
    | End
    | SetLine(line: seq<Byte>, measure: nat -> int, cursorBytePos: int)

  /** Characters are code points, and lines are well formed. */
  ghost predicate ValidEdit(edit: Edit) {
    (edit.Insert? ==> Valid(edit.ch)) && (edit.SetLine? ==> WellFormed(edit.line))
  }

  /** What an edit does to the document. */
  function EditDoc(d: Doc, edit: Edit, isSpace: Class): (d': Doc)
    requires d.cursor <= |d.cells|
    ensures d'.cursor <= |d'.cells|
  {
    match edit
    case Insert(ch, measured) => InsertCell(d, Cell(ch, NotNegative(measured)))
    case Backspace => BackspaceCell(d)
    case Delete => DeleteCell(d)
    case Left => d.(cursor := if d.cursor > 0 then d.cursor - 1 else 0)
    case Right => d.(cursor := if d.cursor < |d.cells| then d.cursor + 1 else d.cursor)
    case WordLeft => d.(cursor := WordLeftOf(d.cells, d.cursor, isSpace))
    case WordRight => d.(cursor := WordRightOf(d.cells, d.cursor, isSpace))
    case Home => d.(cursor := 0)
    case End => d.(cursor := |d.cells|)
    case SetLine(line, measure, cursorBytePos) =>
      var pieces := DecodeAll(line, 0);
      Doc(Loaded(pieces, measure), PiecesWithin(pieces, cursorBytePos))
  }

  function EditAll(d: Doc, edits: seq<Edit>, isSpace: Class): (d': Doc)
    requires d.cursor <= |d.cells|
    ensures d'.cursor <= |d'.cells|
    decreases edits
  {
    if edits == [] then d else EditAll(EditDoc(d, edits[0], isSpace), edits[1..], isSpace)
  }

  method Perform(editor: Editor, edit: Edit)
    requires editor.InStep()
    modifies editor
    ensures editor.InStep() <==> ValidEdit(edit)
    ensures editor.InStep() ==> editor.Abs() == EditDoc(old(editor.Abs()), edit, editor.isSpace)
  {
    match edit {
      case Insert(ch, measured) => editor.Insert(ch, measured);
      case Backspace => editor.Backspace();
      case Delete => editor.DeleteAtCursor();
      case Left => editor.MoveLeft();
      case Right => editor.MoveRight();
      case WordLeft => editor.MoveWordLeft();
      case WordRight => editor.MoveWordRight();
      case Home => editor.MoveToLineStart();
      case End => editor.MoveToLineEnd();
      case SetLine(line, measure, cursorBytePos) => editor.SetLineContents(line, measure, cursorBytePos);
    }
  }

  /** After any run of edits the editor is in step and shows what the edits make of the document. */
  method PerformAll(editor: Editor, edits: seq<Edit>)
    requires editor.InStep() && forall i :: 0 <= i < |edits| ==> ValidEdit(edits[i])
    modifies editor
    ensures editor.InStep() && editor.Abs() == EditAll(old(editor.Abs()), edits, editor.isSpace)
  {
    var i := 0;
    while i < |edits|
      invariant 0 <= i <= |edits| && editor.InStep()
      invariant EditAll(editor.Abs(), edits[i..], editor.isSpace) == EditAll(old(editor.Abs()), edits, editor.isSpace)
    {
      assert edits[i..][0] == edits[i] && edits[i..][1..] == edits[i + 1..];
      Perform(editor, edits[i]);
      i := i + 1;
    }
  }

  // ----- what edits do to each other

  /** Inserting and going back, in either way, leaves the document as it was. */
  lemma InsertUndone(d: Doc, ch: CodePoint, measured: int, isSpace: Class)
    requires d.cursor <= |d.cells|
    ensures var after := EditDoc(d, Insert(ch, measured), isSpace);
            && after.cursor == d.cursor + 1 <= |after.cells| && after.cells[d.cursor] == Cell(ch, NotNegative(measured))
            && EditDoc(after, Backspace, isSpace) == d
            && EditDoc(EditDoc(after, Left, isSpace), Delete, isSpace) == d
  {
    var after := EditDoc(d, Insert(ch, measured), isSpace);
    assert after.cells[..d.cursor] == d.cells[..d.cursor] && after.cells[d.cursor + 1..] == d.cells[d.cursor..];
    assert d.cells[..d.cursor] + d.cells[d.cursor..] == d.cells;
  }

  /** Removing the character at the cursor and inserting it again leaves the characters as they were. */
  lemma DeleteUndone(d: Doc, isSpace: Class)
    requires d.cursor < |d.cells| && d.cells[d.cursor].width >= 0
    ensures var c := d.cells[d.cursor];
            && EditDoc(EditDoc(d, Delete, isSpace), Insert(c.cp, c.width), isSpace) == d.(cursor := d.cursor + 1)
            && EditDoc(EditDoc(d, Right, isSpace), Backspace, isSpace) == EditDoc(d, Delete, isSpace)
  {
    var after := EditDoc(d, Delete, isSpace);
    assert after.cells[..d.cursor] == d.cells[..d.cursor] && after.cells[d.cursor..] == d.cells[d.cursor + 1..];
    assert d.cells[..d.cursor] + [d.cells[d.cursor]] + d.cells[d.cursor + 1..] == d.cells;
  }

  /** Moves keep the characters; left and right undo each other and stop at the ends. */
  lemma MovesUndone(d: Doc, isSpace: Class)
    requires d.cursor <= |d.cells|
    ensures d.cursor > 0 ==> EditDoc(d, Left, isSpace).cursor < d.cursor
                             && EditDoc(EditDoc(d, Left, isSpace), Right, isSpace) == d
    ensures d.cursor < |d.cells| ==> EditDoc(d, Right, isSpace).cursor > d.cursor
                                     && EditDoc(EditDoc(d, Right, isSpace), Left, isSpace) == d
    ensures EditDoc(EditDoc(d, Home, isSpace), Left, isSpace) == EditDoc(d, Home, isSpace) == Doc(d.cells, 0)
    ensures EditDoc(EditDoc(d, End, isSpace), Right, isSpace) == EditDoc(d, End, isSpace)
    ensures EditDoc(d, End, isSpace).cells == d.cells && EditDoc(EditDoc(d, End, isSpace), Home, isSpace) == Doc(d.cells, 0)
    ensures EditDoc(EditDoc(d, End, isSpace), Delete, isSpace) == EditDoc(d, End, isSpace)
    ensures EditDoc(EditDoc(d, Home, isSpace), Backspace, isSpace) == EditDoc(d, Home, isSpace)
  {
  }

  /** The edits of typing a text. */
  function Typing(typed: seq<Cell>): (edits: seq<Edit>)
    ensures |edits| == |typed|
  {
    seq(|typed|, i requires 0 <= i < |typed| => Insert(typed[i].cp, typed[i].width))
  }

  /** Typing a text puts it where the cursor is, and the cursor after it. */
  lemma {:induction false} TypingInserts(d: Doc, typed: seq<Cell>, isSpace: Class)
    requires d.cursor <= |d.cells| && forall i :: 0 <= i < |typed| ==> typed[i].width >= 0
    ensures EditAll(d, Typing(typed), isSpace)
            == Doc(d.cells[..d.cursor] + typed + d.cells[d.cursor..], d.cursor + |typed|)
    decreases typed
  {
    if typed == [] {
      assert d.cells[..d.cursor] + [] + d.cells[d.cursor..] == d.cells;
    } else {
      var next := EditDoc(d, Insert(typed[0].cp, typed[0].width), isSpace);
      assert Typing(typed)[1..] == Typing(typed[1..]);
      TypingInserts(next, typed[1..], isSpace);
      assert next.cells[..next.cursor] == d.cells[..d.cursor] + [typed[0]] && next.cells[next.cursor..] == d.cells[d.cursor..];
      assert typed == [typed[0]] + typed[1..];
    }
  }

  /** Typed into an empty line, the text is what the line shows. */
  lemma TypingShowsText(typed: seq<Cell>, isSpace: Class)
    requires forall i :: 0 <= i < |typed| ==> typed[i].width >= 0
    ensures EditAll(Doc([], 0), Typing(typed), isSpace) == Doc(typed, |typed|)
  {
    TypingInserts(Doc([], 0), typed, isSpace);
  }

  /** A step to the left by a word passes spaces and then a word, and stops where the word begins. */
  lemma WordLeftMeaning(cells: seq<Cell>, k: nat, isSpace: Class) returns (m: nat)
    requires k <= |cells|
    ensures var w := WordLeftOf(cells, k, isSpace);
            && w <= m <= k
            && (forall i :: m <= i < k ==> isSpace(cells[i].cp))
            && (forall i :: w <= i < m ==> !isSpace(cells[i].cp))
            && (w == 0 || isSpace(cells[w - 1].cp))
            && (w == m ==> m == 0)
  {
    m := RunBegin(cells, k, true, isSpace);
    RunBeginMeaning(cells, k, true, isSpace);
    RunBeginMeaning(cells, m, false, isSpace);
  }

  lemma {:induction false} RunBeginMeaning(cells: seq<Cell>, k: nat, spaces: bool, isSpace: Class)
    requires k <= |cells|
    ensures var b := RunBegin(cells, k, spaces, isSpace);
            && (forall i :: b <= i < k ==> isSpace(cells[i].cp) == spaces)
            && (b > 0 ==> isSpace(cells[b - 1].cp) != spaces)
  {
    if k > 0 && isSpace(cells[k - 1].cp) == spaces {
      RunBeginMeaning(cells, k - 1, spaces, isSpace);
    }
  }

  /** A step to the right by a word passes spaces, a word, and the spaces after it. */
  lemma WordRightMeaning(cells: seq<Cell>, k: nat, isSpace: Class) returns (m: nat, n: nat)
    requires k <= |cells|
    ensures var w := WordRightOf(cells, k, isSpace);
            && k <= m <= n <= w <= |cells|
            && (forall i :: k <= i < m ==> isSpace(cells[i].cp))
            && (forall i :: m <= i < n ==> !isSpace(cells[i].cp))
            && (forall i :: n <= i < w ==> isSpace(cells[i].cp))
            && (w < |cells| ==> !isSpace(cells[w].cp) && m < n < w)
  {
    m := RunEnd(cells, k, true, isSpace);
    n := RunEnd(cells, m, false, isSpace);
    RunEndMeaning(cells, k, true, isSpace);
    RunEndMeaning(cells, m, false, isSpace);
    RunEndMeaning(cells, n, true, isSpace);
  }

  lemma {:induction false} RunEndMeaning(cells: seq<Cell>, k: nat, spaces: bool, isSpace: Class)
    requires k <= |cells|
    ensures var e := RunEnd(cells, k, spaces, isSpace);
            && (forall i :: k <= i < e ==> isSpace(cells[i].cp) == spaces)
            && (e < |cells| ==> isSpace(cells[e].cp) != spaces)
    decreases |cells| - k
  {
    if k < |cells| && isSpace(cells[k].cp) == spaces {
      RunEndMeaning(cells, k + 1, spaces, isSpace);
    }
  }

  /**
    Inserting adds a width in any case; the buffer then holds one more character exactly for code points up to 0x10FFFF.
   */
  lemma InsertInStepIff(cells: seq<Cell>, k: nat, cp: CodePoint)
    requires k <= |cells| && AllValid(Text(cells))
    ensures var line, pos := EncodeAll(Text(cells)), Offset(Text(cells), k);
            pos <= |line|
            && ((exists text :: Holds(text, line[..pos] + Encode(cp) + line[pos..], cells)) <==> Valid(cp))
  {
    hide EncodeAll, AllValid;
    var line, pos := EncodeAll(Text(cells)), Offset(Text(cells), k);
    OffsetMonotone(Text(cells), k, |cells|);
    if Valid(cp) {
      InsertInStep(cells, k, Cell(cp, 0));
      assert Holds(Text(cells[..k] + [Cell(cp, 0)] + cells[k..]), line[..pos] + Encode(cp) + line[pos..], cells);
    } else {
      assert line[..pos] + Encode(cp) + line[pos..] == line;
      forall text | Holds(text, line, cells)
        ensures |text| == |cells|
      {
        EncodeInjective(text, Text(cells));
      }
    }
  }

  /** The buffer holds a text of one character more than before. */
  ghost predicate Holds(text: seq<CodePoint>, buffer: seq<Byte>, before: seq<Cell>) {
    AllValid(text) && EncodeAll(text) == buffer && |text| == |before| + 1
  }

  /** The cursor goes after the last piece that ends within the given number of bytes. */
  lemma PiecesWithinMeaning(pieces: seq<Decoded>, bytes: nat)
    ensures var k := PiecesWithin(pieces, bytes);
            EndOf(pieces, k) <= bytes && (k < |pieces| ==> bytes < EndOf(pieces, k + 1))
  {
    PiecesUpToMeaning(pieces, bytes, |pieces|);
  }

  lemma {:induction false} PiecesUpToMeaning(pieces: seq<Decoded>, bytes: nat, n: nat)
    requires n <= |pieces|
    ensures var k := PiecesUpTo(pieces, bytes, n);
            EndOf(pieces, k) <= bytes && (k < n ==> bytes < EndOf(pieces, k + 1))
  {
    if n > 0 && bytes < EndOf(pieces, n) {
      PiecesUpToMeaning(pieces, bytes, n - 1);
    }
  }

  /** Loading an encoded text shows the text. */
  lemma LoadedText(text: seq<CodePoint>, measured: nat -> int)
    requires AllValid(text)
    ensures WellFormed(EncodeAll(text)) && Text(Loaded(DecodeAll(EncodeAll(text), 0), measured)) == text
  {
    hide DecodeAll, EncodeAll;
    DecodeAllEncoded(text);
  }

  lemma UpToNone(pieces: seq<Decoded>, bytes: int)
    ensures PiecesUpTo(pieces, bytes, 0) == 0
  {
  }

  /** As long as bytes are left, so is a piece. */
  lemma PieceLeft(line: seq<Byte>, idx: nat, pieces: seq<Decoded>, k: nat)
    requires idx < |line| && k <= |pieces| && DecodeAll(line, idx) == pieces[k..]
    ensures k < |pieces| && pieces[k] == Decode(line, idx)
    ensures DecodeAll(line, idx + pieces[k].advance) == pieces[k + 1..]
  {
    hide Decode;
    assert pieces[k..][0] == pieces[k] && pieces[k..][1..] == pieces[k + 1..];
  }

  lemma NothingLeft(line: seq<Byte>)
    ensures DecodeAll(line, |line|) == []
  {
  }

  /** A line that is loaded as decoded leaves the editor in step exactly if it is well formed. */
  lemma LoadedInStep(line: seq<Byte>, charPos: nat)
    requires charPos <= |DecodeAll(line, 0)|
    ensures var pieces := DecodeAll(line, 0);
            WellFormed(line) <==> AllValid(Codes(pieces)) && line == EncodeAll(Codes(pieces))
                                  && EndOf(pieces, charPos) == Offset(Codes(pieces), charPos)
  {
    hide DecodeAll, EncodeAll, Offset;
    var text := Codes(DecodeAll(line, 0));
    WellFormedIff(line);
    if AllValid(text) && line == EncodeAll(text) {
      EndsAreOffsets(text, charPos);
    }
  }

  /** Pieces that end within a number of bytes come before those that do not. */
  lemma UpToNext(pieces: seq<Decoded>, bytes: int, n: nat)
    requires n < |pieces|
    ensures PiecesUpTo(pieces, bytes, n + 1) == if bytes >= EndOf(pieces, n + 1) then n + 1 else PiecesUpTo(pieces, bytes, n)
    ensures bytes >= EndOf(pieces, n + 1) ==> PiecesUpTo(pieces, bytes, n) == n
  {
  }

  lemma InsertInStep(cells: seq<Cell>, k: nat, cell: Cell)
    requires k <= |cells| && AllValid(Text(cells)) && Valid(cell.cp)
    ensures var after := cells[..k] + [cell] + cells[k..];
            var line, pos := EncodeAll(Text(cells)), Offset(Text(cells), k);
            && AllValid(Text(after)) && pos <= |line|
            && EncodeAll(Text(after)) == line[..pos] + Encode(cell.cp) + line[pos..]
            && Widths(after) == Widths(cells)[..k] + [cell.width] + Widths(cells)[k..]
            && Offset(Text(after), k + 1) == pos + |Encode(cell.cp)|
  {
    hide Encode, EncodeAll;
    var text := Text(cells);
    var after := Text(cells[..k] + [cell] + cells[k..]);
    assert after == text[..k] + [cell.cp] + text[k..];
    InsertBytes(text, k, cell.cp);
  }

  /** The bytes of a text with one more code point. */
  lemma InsertBytes(text: seq<CodePoint>, k: nat, cp: CodePoint)
    requires k <= |text|
    ensures var after := text[..k] + [cp] + text[k..];
            var line, pos := EncodeAll(text), Offset(text, k);
            && pos <= |line|
            && EncodeAll(after) == line[..pos] + Encode(cp) + line[pos..]
            && Offset(after, k + 1) == pos + |Encode(cp)|
  {
    hide Encode, EncodeAll;
    var after := text[..k] + [cp] + text[k..];
    assert text == text[..k] + text[k..];
    EncodeConcat(text[..k], text[k..]);
    EncodeConcat(text[..k] + [cp], text[k..]);
    EncodeConcat(text[..k], [cp]);
    EncodeSingle(cp);
    assert after[..k + 1] == text[..k] + [cp];
  }

  lemma RemoveInStep(cells: seq<Cell>, k: nat)
    requires k < |cells| && AllValid(Text(cells))
    ensures var after := cells[..k] + cells[k + 1..];
            var line, pos, next := EncodeAll(Text(cells)), Offset(Text(cells), k), Offset(Text(cells), k + 1);
            && AllValid(Text(after)) && pos <= next <= |line|
            && EncodeAll(Text(after)) == line[..pos] + line[next..]
            && Widths(after) == Widths(cells)[..k] + Widths(cells)[k + 1..]
            && Offset(Text(after), k) == pos
  {
    hide Encode;
    var text := Text(cells);
    var after := Text(cells[..k] + cells[k + 1..]);
    assert after == text[..k] + text[k + 1..];
    SplitAt(text, k);
    EncodeConcat(text[..k], text[k + 1..]);
    assert after[..k] == text[..k];
  }
}
