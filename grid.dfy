/** TextGrid (textlayout/__init__.py:145-227): a fixed-size rectangle of text whose
    content is an append-only list of rows, read back through the coordinates of
    the layout it is placed in. */
module Grids {
  import opened Base

  /** The constructor's guard (textlayout/__init__.py:24), negated: the dimensions
      the shared TextLayout/TextGrid constructor accepts. */
  predicate Accepts(height: nat, width: nat, border: bool)
  {
    !((height < 3 || width < 3) && (height == 0 || width == 0 || border))
  }

  /** What the guard means for non-negative sizes: both at least 1, and at least 3 with a border. */
  lemma AcceptsMeans(height: nat, width: nat, border: bool)
    ensures Accepts(height, width, border) <==>
            1 <= height && 1 <= width && (border ==> 3 <= height && 3 <= width)
  {
  }

  /** What `set` accepts: None, a list of lines, or a string of newline-separated lines. */
  datatype Source = NoText | Lines(lines: seq<string>) | Text(text: string)

  /** The lines `set` writes from a source other than None. */
  function SourceLines(src: Source): (r: seq<string>)
    requires !src.NoText?
  {
    if src.Lines? then src.lines else SplitLines(src.text)
  }

  /** The class-level id counter `TextGrid.gid_`, made an explicit object. */
  class GidCounter {
    var next: Gid

    constructor ()
      ensures next == 1
    {
      next := 1;
    }
  }

  /** The character a bordered or plain grid shows for content coordinates (ry, rx),
      after the border shift: `rows[ry][rx]` when `ry < len(rows)` and `rx < len(rows[ry])`,
      otherwise a blank. Negative coordinates follow Python's indexing from the end. */
  function ContentAt(rows: seq<string>, ry: int, rx: int): (r: Result<char>)
    ensures r != Err(OutOfRange) && r != Err(KeyError) && r != Err(AlreadyReserved)
    ensures 0 <= ry && 0 <= rx ==> r == Ok(ContentChar(rows, ry, rx))
  {
    if ry < |rows| then
      match PyIndex(rows, ry)
      case None => Err(IndexError)
      case Some(row) =>
        if rx < |row| then
          match PyIndex(row, rx)
          case None => Err(IndexError)
          case Some(c) => Ok(c)
        else Ok(' ')
    else Ok(' ')
  }

  class TextGrid {
    const height: nat
    const width: nat
    const border: bool
    const gid: Gid
    var ypos: nat
    var xpos: nat
    var rows: seq<string>

    /** Rows the grid keeps: the height, less the two border rows. */
    function MaxHeight(): (r: nat)
      requires Accepts(height, width, border)
    {
      if border then height - 2 else height
    }

    /** Characters a row keeps: the width, less the two border columns. */
    function MaxWidth(): (r: nat)
      requires Accepts(height, width, border)
    {
      if border then width - 2 else width
    }

    /** `line[0:max_width]`, the form in which `write` stores a line. */
    function Clip(line: string): (r: string)
      requires Accepts(height, width, border)
    {
      Head(line, MaxWidth())
    }

    /** Every line of `src`, clipped. */
    function ClipAll(src: seq<string>): (r: seq<string>)
      requires Accepts(height, width, border)
      ensures |r| == |src| && forall k :: 0 <= k < |src| ==> r[k] == Clip(src[k])
    {
      seq(|src|, k requires 0 <= k < |src| => Clip(src[k]))
    }

    /** The invariant `write` and `set` keep: at most MaxHeight rows of at most MaxWidth characters. */
    ghost predicate Valid()
      reads this
    {
      Accepts(height, width, border) &&
      |rows| <= MaxHeight() &&
      forall k :: 0 <= k < |rows| ==> |rows[k]| <= MaxWidth()
    }

    /** `TextGrid(height, width, border)` for accepted sizes: unplaced, empty, next id. */
    constructor (height: nat, width: nat, border: bool, counter: GidCounter)
      requires Accepts(height, width, border)
      modifies counter
      ensures Valid()
      ensures this.height == height && this.width == width && this.border == border
      ensures ypos == 0 && xpos == 0 && rows == []
      ensures gid == old(counter.next) && counter.next == old(counter.next) + 1
    {
      this.height := height;
      this.width := width;
      this.border := border;
      ypos := 0;
      xpos := 0;
      rows := [];
      gid := counter.next;
      new;
      counter.next := counter.next + 1;
    }

    /** `TextGrid(height, width, border)` with its failure: null where the constructor
        raises, and then the counter is not advanced (the guard runs first). */
    static method Create(height: nat, width: nat, border: bool, counter: GidCounter)
      returns (g: TextGrid?)
      modifies counter
      ensures g == null <==> !Accepts(height, width, border)
      ensures g == null ==> counter.next == old(counter.next)
      ensures g != null ==>
                fresh(g) && g.Valid() &&
                g.height == height && g.width == width && g.border == border &&
                g.ypos == 0 && g.xpos == 0 && g.rows == [] &&
                g.gid == old(counter.next) && counter.next == old(counter.next) + 1
    {
      if !Accepts(height, width, border) {
        return null;
      }
      g := new TextGrid(height, width, border, counter);
    }

    /** `locate`: sets the position and nothing else. */
    method Locate(y: nat, x: nat)
      modifies this`ypos, this`xpos
      ensures ypos == y && xpos == x
    {
      ypos := y;
      xpos := x;
    }

    /** `location`: the `None` branch of the source is dead, since both coordinates
        start at 0 and only `locate` changes them. */
    function Location(): (r: Option<(nat, nat)>)
      reads this
      ensures r.Some? && r.value.0 == ypos && r.value.1 == xpos
    {
      Some((ypos, xpos))
    }

    /** `write`: appends the clipped line while there is room, and says whether it did. */
    method Write(line: string) returns (ok: bool)
      requires Valid()
      modifies this`rows
      ensures Valid()
      ensures ok <==> |old(rows)| < MaxHeight()
      ensures rows == if ok then old(rows) + [Clip(line)] else old(rows)
    {
      var maxHeight, maxWidth := height, width;
      if border {
        maxHeight := maxHeight - 2;
        maxWidth := maxWidth - 2;
      }
      if |rows| < maxHeight {
        rows := rows + [Head(line, maxWidth)];
        return true;
      }
      return false;
    }

    /** How many lines of an n-line source `set` keeps when `have` rows are already stored. */
    function Taken(have: nat, n: nat): (r: nat)
      requires Accepts(height, width, border) && have <= MaxHeight()
      ensures r <= n && have + r <= MaxHeight()
    {
      Min(n, MaxHeight() - have)
    }

    /** `set(None)` empties the rows; `set(lines)` and `set(text)` write the lines (of a
        string, split at newlines) in order and stop at the first rejected one, so they
        append the clipped prefix that fits. They do not clear the rows first. */
    method Set(src: Source)
      requires Valid()
      modifies this`rows
      ensures Valid()
      ensures src.NoText? ==> rows == []
      ensures !src.NoText? ==>
                var lines := SourceLines(src);
                rows == old(rows) + ClipAll(lines[..Taken(|old(rows)|, |lines|)])
    {
      if src.NoText? {
        rows := [];
        return;
      }
      var lines := if src.Lines? then src.lines else SplitLines(src.text);
      ghost var room := MaxHeight() - |rows|;
      for i := 0 to |lines|
        invariant Valid()
        invariant i <= room
        invariant rows == old(rows) + ClipAll(lines[..i])
      {
        var ok := Write(lines[i]);
        if !ok {
          break;
        }
        assert ClipAll(lines[..i + 1]) == ClipAll(lines[..i]) + [Clip(lines[i])];
      }
    }

    /** The layout cell (i, j) lies in the grid's rectangle at its current position. */
    predicate Covers(i: int, j: int)
      reads this
    {
      InRect(ypos, xpos, height, width, i, j)
    }

    /** The border test compares the ABSOLUTE coordinates with the grid's own last
        row and column, as `read` does. */
    predicate OnRing(y: int, x: int)
    {
      y == 0 || y == height - 1 || x == 0 || x == width - 1
    }

    /** `read(y, x)` for layout coordinates: a blank on the (absolute) ring of a bordered
        grid, OutOfRange when the local coordinates reach the height or width, otherwise
        the content character after the border shift. */
    function Read(y: int, x: int): (r: Result<char>)
      reads this
      ensures r == Err(OutOfRange) <==>
                !(border && OnRing(y, x)) && (y - ypos >= height || x - xpos >= width)
      ensures border && OnRing(y, x) ==> r == Ok(' ')
      ensures r != Err(KeyError) && r != Err(AlreadyReserved)
    {
      if border && OnRing(y, x) then Ok(' ')
      else
        var ly, lx := y - ypos, x - xpos;
        if ly >= height || lx >= width then Err(OutOfRange)
        else if border then ContentAt(rows, ly - 1, lx - 1)
        else ContentAt(rows, ly, lx)
    }

    /** Inside its own rectangle a plain grid shows its content, and so does a bordered
        grid away from its ring as long as it sits at the origin. */
    lemma ReadInside(y: int, x: int)
      requires ypos <= y < ypos + height && xpos <= x < xpos + width
      requires !border || (ypos == 0 && xpos == 0 && !OnRing(y, x))
      ensures Read(y, x) ==
              Ok(ContentChar(rows, y - ypos - (if border then 1 else 0),
                                   x - xpos - (if border then 1 else 0)))
    {
    }

    /** As written, a bordered grid whose top row `ypos` is neither 0 nor `height - 1`
        does not blank that row at a column that is neither 0 nor `width - 1`: the
        shifted row index is -1, which Python reads as the LAST row (or fails with
        IndexError when there are no rows). */
    lemma ReadTopRowOffOrigin(x: int)
      requires Valid() && border && ypos != 0 && ypos != height - 1
      requires xpos < x < xpos + width && x != 0 && x != width - 1
      ensures rows == [] ==> Read(ypos, x) == Err(IndexError)
      ensures rows != [] && x - xpos - 1 < |rows[|rows| - 1]| ==>
                Read(ypos, x) == Ok(rows[|rows| - 1][x - xpos - 1])
    {
    }

    /** The results `__str__` reads for row i of the grid, at its own position. */
    ghost function RowCells(i: int): (r: seq<Result<char>>)
      reads this
    {
      seq(width, j reads this => Read(ypos + i, xpos + j))
    }

    /** Each row's characters, or the first fault in that row. */
    ghost function RowTexts(): (r: seq<Result<string>>)
      reads this
    {
      seq(height, i reads this => Collect(RowCells(i)))
    }

    /** Each row's text, or the first fault `read` raises on the way. */
    ghost function TextSpec(): (r: Result<seq<string>>)
      reads this
    {
      Collect(RowTexts())
    }

    /** `__str__`: reads every cell of the grid at its own position, row by row, ends
        each row with a newline, and strips the trailing newlines. */
    method Str() returns (r: Result<string>)
      ensures r == match TextSpec()
                   case Err(f) => Err(f)
                   case Ok(lines) => Ok(RStripNewlines(Terminated(lines)))
    {
      var text: string := "";
      ghost var lines: seq<string> := [];
      for i := 0 to height
        invariant Collect(RowTexts()[..i]) == Ok(lines)
        invariant text == Terminated(lines)
      {
        var line := RowText(i);
        CollectStep(RowTexts(), i, lines);
        if line.Err? {
          CollectPrefixErr(RowTexts(), i + 1);
          return Err(line.fault);
        }
        assert (lines + [line.value])[..|lines|] == lines;
        text := text + line.value + "\n";
        lines := lines + [line.value];
      }
      assert RowTexts()[..height] == RowTexts();
      return Ok(RStripNewlines(text));
    }

    /** The inner loop of `__str__` for row i: the characters `read` gives for the
        row's cells left to right, or the first fault it raises. */
    method RowText(i: nat) returns (r: Result<string>)
      requires i < height
      ensures r == Collect(RowCells(i))
    {
      var line: string := "";
      for j := 0 to width
        invariant Collect(RowCells(i)[..j]) == Ok(line)
      {
        var c := Read(ypos + i, xpos + j);
        CollectStep(RowCells(i), j, line);
        if c.Err? {
          CollectPrefixErr(RowCells(i), j + 1);
          return Err(c.fault);
        }
        line := line + [c.value];
      }
      assert RowCells(i)[..width] == RowCells(i);
      return Ok(line);
    }

    /** When no character shown is a newline, splitting the string form at newlines (as
        the callers of `__str__` do) gives back exactly the grid's lines. */
    lemma StrSplits()
      requires Valid() && TextSpec().Ok?
      requires forall k :: 0 <= k < |TextSpec().value| ==> '\n' !in TextSpec().value[k]
      ensures SplitLines(RStripNewlines(Terminated(TextSpec().value))) == TextSpec().value
    {
      var ls := TextSpec().value;
      CollectOk(RowTexts());
      var last := ls[|ls| - 1];
      CollectOk(RowCells(height - 1));
      assert |last| == width;
      assert last[|last| - 1] in last;
      StripTerminated(ls);
      SplitJoin(ls);
    }

    /** Cell (i, j) of the string form of a plain grid, or of a bordered grid at the origin. */
    lemma CellShown(i: int, j: int)
      requires Valid() && (!border || (ypos == 0 && xpos == 0))
      requires 0 <= i < height && 0 <= j < width
      ensures RowCells(i)[j] ==
                Ok(if border && OnRing(i, j) then ' '
                   else ContentChar(rows, i - (if border then 1 else 0), j - (if border then 1 else 0)))
    {
      assert RowCells(i)[j] == Read(ypos + i, xpos + j);
      if !(border && OnRing(ypos + i, xpos + j)) {
        ReadInside(ypos + i, xpos + j);
      }
    }

    /** The string form of a plain grid anywhere, or of a bordered grid at the origin
        (an unplaced grid is at the origin): `height` lines of `width` characters,
        blanks on the ring of a bordered grid, and the stored characters inside. */
    lemma {:induction false} TextShape()
      requires Valid()
      requires !border || (ypos == 0 && xpos == 0)
      ensures TextSpec().Ok?
      ensures |TextSpec().value| == height
      ensures forall i :: 0 <= i < height ==> |TextSpec().value[i]| == width
      ensures forall i, j :: 0 <= i < height && 0 <= j < width ==>
                TextSpec().value[i][j] ==
                  if border && OnRing(i, j) then ' '
                  else ContentChar(rows, i - (if border then 1 else 0), j - (if border then 1 else 0))
    {
      forall i | 0 <= i < height
        ensures Collect(RowCells(i)).Ok?
        ensures |Collect(RowCells(i)).value| == width
        ensures forall j :: 0 <= j < width ==>
                  Collect(RowCells(i)).value[j] ==
                    if border && OnRing(i, j) then ' '
                    else ContentChar(rows, i - (if border then 1 else 0), j - (if border then 1 else 0))
      {
        forall j | 0 <= j < width
          ensures RowCells(i)[j] ==
                    Ok(if border && OnRing(i, j) then ' '
                       else ContentChar(rows, i - (if border then 1 else 0), j - (if border then 1 else 0)))
        {
          CellShown(i, j);
        }
        CollectOk(RowCells(i));
      }
      CollectOk(RowTexts());
    }
  }

  /** The character at content coordinates (ry, rx) >= 0: the stored one, or a blank. */
  function ContentChar(rows: seq<string>, ry: nat, rx: nat): (c: char)
  {
    if ry < |rows| && rx < |rows[ry]| then rows[ry][rx] else ' '
  }
}
