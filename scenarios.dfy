/** Concrete runs of the unit tests in test.py, stated as methods whose postconditions
    are the outputs the tests expect. */
module Scenarios {
  import opened Base
  import opened Grids
  import opened Layouts

  /** The string test_grid_setstr3x3 passes to `set`, split at its newlines. */
  lemma SampleSplit()
    ensures SplitLines("abcd\nefgh\nijkl\nmno") == ["abcd", "efgh", "ijkl", "mno"]
  {
    assert JoinLines(["ijkl", "mno"]) == "ijkl\nmno";
    assert JoinLines(["efgh", "ijkl", "mno"]) == "efgh\nijkl\nmno";
    assert JoinLines(["abcd", "efgh", "ijkl", "mno"]) == "abcd\nefgh\nijkl\nmno";
    SplitJoin(["abcd", "efgh", "ijkl", "mno"]);
  }

  /** A plain 3 x 3 grid holding three full rows shows exactly those rows. */
  lemma ShowsFullRows(g: TextGrid, a: string, b: string, c: string)
    requires g.Valid() && !g.border && g.height == 3 && g.width == 3
    requires g.rows == [a, b, c] && |a| == 3 && |b| == 3 && |c| == 3
    ensures g.TextSpec() == Ok([a, b, c])
  {
    g.TextShape();
    var shown := g.TextSpec().value;
    forall i | 0 <= i < 3
      ensures shown[i] == [a, b, c][i]
    {
      assert |shown[i]| == 3;
      forall j | 0 <= j < 3
        ensures shown[i][j] == [a, b, c][i][j]
      {
      }
    }
    assert shown == [a, b, c];
  }

  /** Three four-character lines clipped to a plain grid three wide. */
  lemma SampleClip(g: TextGrid)
    requires Accepts(g.height, g.width, g.border) && !g.border && g.width == 3
    ensures g.ClipAll(["abcd", "efgh", "ijkl"]) == ["abc", "efg", "ijk"]
  {
    var clipped := g.ClipAll(["abcd", "efgh", "ijkl"]);
    assert "abcd"[..3] == "abc" && "efgh"[..3] == "efg" && "ijkl"[..3] == "ijk";
    assert clipped[0] == "abc" && clipped[1] == "efg" && clipped[2] == "ijk";
  }

  /** test_grid_setstr3x3: a 3 x 3 grid set from four newline-separated lines of four
      characters keeps the first three lines, clipped to three characters. */
  method SetStringClips() returns (lines: seq<string>)
    ensures lines == ["abc", "efg", "ijk"]
  {
    var counter := new GidCounter();
    var g := new TextGrid(3, 3, false, counter);
    SampleSplit();
    g.Set(Text("abcd\nefgh\nijkl\nmno"));
    var src := ["abcd", "efgh", "ijkl", "mno"];
    assert src[..3] == ["abcd", "efgh", "ijkl"];
    assert g.Taken(0, 4) == 3;
    SampleClip(g);
    ShowsFullRows(g, "abc", "efg", "ijk");
    g.StrSplits();
    var s := g.Str();
    lines := SplitLines(s.value);
  }

  /** test_grid_nonemtpy3x3_border: a bordered 3 x 3 grid keeps one character of a
      written line and shows it in the middle of a blank ring. */
  method BorderedWrite() returns (ok: bool, lines: seq<string>)
    ensures ok && lines == ["   ", " a ", "   "]
  {
    var counter := new GidCounter();
    var g := new TextGrid(3, 3, true, counter);
    ok := g.Write("aa");
    assert "aa"[..1] == "a";
    assert g.rows == ["a"];
    BorderedShows(g);
    g.StrSplits();
    var s := g.Str();
    lines := SplitLines(s.value);
  }

  /** A bordered 3 x 3 grid at the origin holding "a" shows it inside a blank ring. */
  lemma BorderedShows(g: TextGrid)
    requires g.Valid() && g.border && g.height == 3 && g.width == 3
    requires g.ypos == 0 && g.xpos == 0 && g.rows == ["a"]
    ensures g.TextSpec() == Ok(["   ", " a ", "   "])
  {
    g.TextShape();
    var shown := g.TextSpec().value;
    var want := ["   ", " a ", "   "];
    forall i | 0 <= i < 3
      ensures shown[i] == want[i]
    {
      assert |shown[i]| == 3;
      forall j | 0 <= j < 3
        ensures shown[i][j] == want[i][j]
      {
      }
    }
    assert shown == want;
  }

  /** test_grid_setnone: `set(None)` takes a filled 3 x 3 grid back to blanks. */
  method SetNoneClears() returns (before: seq<string>, after: seq<string>)
    ensures before == ["abc", "def", "ghi"]
    ensures after == ["   ", "   ", "   "]
  {
    var g := FilledGrid();
    ShowsFullRows(g, "abc", "def", "ghi");
    before := ShownLines(g, ["abc", "def", "ghi"]);
    g.Set(NoText);
    BlankShows(g);
    after := ShownLines(g, ["   ", "   ", "   "]);
  }

  /** `str(g).split("\n")` for a grid whose rows show as the newline-free `want`. */
  method ShownLines(g: TextGrid, want: seq<string>) returns (ls: seq<string>)
    requires g.Valid() && g.TextSpec() == Ok(want)
    requires forall k :: 0 <= k < |want| ==> '\n' !in want[k]
    ensures ls == want
  {
    g.StrSplits();
    var s := g.Str();
    ls := SplitLines(s.value);
  }

  /** A plain 3 x 3 grid after `set("abc\ndef\nghi")`. */
  method FilledGrid() returns (g: TextGrid)
    ensures fresh(g)
    ensures g.Valid() && !g.border && g.height == 3 && g.width == 3
    ensures g.rows == ["abc", "def", "ghi"]
  {
    var counter := new GidCounter();
    g := new TextGrid(3, 3, false, counter);
    OtherSplit();
    g.Set(Text("abc\ndef\nghi"));
    assert ["abc", "def", "ghi"][..3] == ["abc", "def", "ghi"];
    FullLinesKept(g, "abc", "def", "ghi");
  }

  /** The string test_grid_setnone passes to `set`, split at its newlines. */
  lemma OtherSplit()
    ensures SplitLines("abc\ndef\nghi") == ["abc", "def", "ghi"]
  {
    assert JoinLines(["def", "ghi"]) == "def\nghi";
    assert JoinLines(["abc", "def", "ghi"]) == "abc\ndef\nghi";
    SplitJoin(["abc", "def", "ghi"]);
  }

  /** Lines that already fit the width are stored unchanged. */
  lemma FullLinesKept(g: TextGrid, a: string, b: string, c: string)
    requires Accepts(g.height, g.width, g.border) && !g.border && g.width == 3
    requires |a| == 3 && |b| == 3 && |c| == 3
    ensures g.ClipAll([a, b, c]) == [a, b, c]
  {
    var clipped := g.ClipAll([a, b, c]);
    assert clipped[0] == a && clipped[1] == b && clipped[2] == c;
  }

  /** An empty plain 3 x 3 grid shows three lines of three blanks. */
  lemma BlankShows(g: TextGrid)
    requires g.Valid() && !g.border && g.height == 3 && g.width == 3 && g.rows == []
    ensures g.TextSpec() == Ok(["   ", "   ", "   "])
  {
    g.TextShape();
    var shown := g.TextSpec().value;
    var want := ["   ", "   ", "   "];
    forall i | 0 <= i < 3
      ensures shown[i] == want[i]
    {
      assert |shown[i]| == 3;
      forall j | 0 <= j < 3
        ensures shown[i][j] == want[i][j]
      {
      }
    }
    assert shown == want;
  }

  /** The reservation matrix of a 2 x 2 layout, cell by cell in row-major order. */
  ghost predicate Cells(l: TextLayout, a: nat, b: nat, c: nat, d: nat)
    reads l.reserved
    requires l.Shape() && l.height == 2 && l.width == 2
  {
    l.reserved[0, 0] == a && l.reserved[0, 1] == b && l.reserved[1, 0] == c && l.reserved[1, 1] == d
  }

  /** `inquire` for a 1 x 1 grid: None on a reserved cell, otherwise one less the
      columns from the cell to the right edge. */
  lemma InquireUnit(l: TextLayout, i: nat, j: nat)
    requires l.Shape() && i < l.height && j < l.width
    ensures l.InquireSpec(i, j, 1, 1) == if l.reserved[i, j] != 0 then None else Some(1 - (l.width - j))
  {
    if l.reserved[i, j] != 0 {
      assert InRect(i, j, 1, 1, i, j);
    } else {
      assert l.Loss(i, j, 1, 1) == l.RowLoss(i, j, 1);
    }
  }

  /** Where `search` puts a 1 x 1 grid on a plain 2 x 2 layout whose top row is free:
      the scan records (0, 0) with loss -1 and stops at (0, 1) with loss 0. */
  lemma PickTopLeft(l: TextLayout)
    requires l.Shape() && l.height == 2 && l.width == 2 && !l.border
    requires l.reserved[0, 0] == 0 && l.reserved[0, 1] == 0
    ensures l.SearchSpec(1, 1) == Some(Placement(0, 0, -1))
  {
    InquireUnit(l, 0, 0);
    InquireUnit(l, 0, 1);
    l.RowCandsGrow(0, 0, 1, 1);
    assert l.RowCands(0, 1, 1, 1) == [Placement(0, 0, -1)];
    l.ScanStops(0, 1, 1, 1);
    assert UpToZero(l.Cands(2, 1, 1)) == [Placement(0, 0, -1), Placement(0, 1, 0)];
  }

  /** With only (0, 0) taken, the scan stops at once at (0, 1) with loss 0. */
  lemma PickTopRight(l: TextLayout)
    requires l.Shape() && l.height == 2 && l.width == 2 && !l.border
    requires l.reserved[0, 0] != 0 && l.reserved[0, 1] == 0
    ensures l.SearchSpec(1, 1) == Some(Placement(0, 1, 0))
  {
    InquireUnit(l, 0, 0);
    InquireUnit(l, 0, 1);
    l.RowCandsGrow(0, 0, 1, 1);
    assert l.RowCands(0, 1, 1, 1) == [];
    l.ScanStops(0, 1, 1, 1);
    assert UpToZero(l.Cands(2, 1, 1)) == [Placement(0, 1, 0)];
  }

  /** With the top row taken and the bottom row free, the scan records (1, 0) with
      loss -1 and stops at (1, 1). */
  lemma PickBottomLeft(l: TextLayout)
    requires l.Shape() && l.height == 2 && l.width == 2 && !l.border
    requires l.reserved[0, 0] != 0 && l.reserved[0, 1] != 0
    requires l.reserved[1, 0] == 0 && l.reserved[1, 1] == 0
    ensures l.SearchSpec(1, 1) == Some(Placement(1, 0, -1))
  {
    TopRowTaken(l);
    InquireUnit(l, 1, 0);
    InquireUnit(l, 1, 1);
    l.RowCandsGrow(1, 0, 1, 1);
    assert l.RowCands(1, 1, 1, 1) == [Placement(1, 0, -1)];
    l.ScanStops(1, 1, 1, 1);
    assert UpToZero(l.Cands(2, 1, 1)) == [Placement(1, 0, -1), Placement(1, 1, 0)];
  }

  /** With only (1, 1) free, the scan stops there with loss 0. */
  lemma PickBottomRight(l: TextLayout)
    requires l.Shape() && l.height == 2 && l.width == 2 && !l.border
    requires l.reserved[0, 0] != 0 && l.reserved[0, 1] != 0
    requires l.reserved[1, 0] != 0 && l.reserved[1, 1] == 0
    ensures l.SearchSpec(1, 1) == Some(Placement(1, 1, 0))
  {
    TopRowTaken(l);
    InquireUnit(l, 1, 0);
    InquireUnit(l, 1, 1);
    l.RowCandsGrow(1, 0, 1, 1);
    assert l.RowCands(1, 1, 1, 1) == [];
    l.ScanStops(1, 1, 1, 1);
    assert UpToZero(l.Cands(2, 1, 1)) == [Placement(1, 1, 0)];
  }

  /** A fully taken top row yields no candidates. */
  lemma TopRowTaken(l: TextLayout)
    requires l.Shape() && l.height == 2 && l.width == 2
    requires l.reserved[0, 0] != 0 && l.reserved[0, 1] != 0
    ensures l.Cands(1, 1, 1) == []
  {
    InquireUnit(l, 0, 0);
    InquireUnit(l, 0, 1);
    l.RowCandsGrow(0, 0, 1, 1);
    l.RowCandsGrow(0, 1, 1, 1);
    l.CandsGrow(0, 1, 1);
  }

  /** test_layout_2x2addblank4x1x1: four 1 x 1 grids added to a plain 2 x 2 layout land
      left to right, top to bottom, and each `add` succeeds. */
  method PlaceFour() returns (l: TextLayout, g1: TextGrid, g2: TextGrid, g3: TextGrid, g4: TextGrid,
                              results: seq<Result<bool>>)
    ensures results == [Ok(true), Ok(true), Ok(true), Ok(true)]
    ensures g1.Location() == Some((0, 0)) && g2.Location() == Some((0, 1))
    ensures g3.Location() == Some((1, 0)) && g4.Location() == Some((1, 1))
    ensures l.Owned() && l.height == 2 && l.width == 2 && !l.border
    ensures l.data == map[g1.gid := g1, g2.gid := g2, g3.gid := g3, g4.gid := g4]
    ensures g1.gid == 1 && g2.gid == 2 && g3.gid == 3 && g4.gid == 4
    ensures Cells(l, g1.gid, g2.gid, g3.gid, g4.gid)
    ensures Blank(g1) && Blank(g2) && Blank(g3) && Blank(g4)
    ensures fresh(l) && fresh(l.reserved) && fresh(g1) && fresh(g2) && fresh(g3) && fresh(g4)
  {
    var r1, r2;
    l, g1, g2, g3, g4, r1, r2 := PlaceTop();
    var r3, r4 := PlaceBottom(l, g1, g2, g3, g4);
    results := [r1, r2, r3, r4];
  }

  /** The last two `add` calls of test_layout_2x2addblank4x1x1: they fill the bottom row. */
  method PlaceBottom(l: TextLayout, g1: TextGrid, g2: TextGrid, g3: TextGrid, g4: TextGrid)
    returns (r3: Result<bool>, r4: Result<bool>)
    requires l.Owned() && l.height == 2 && l.width == 2 && !l.border
    requires l.data == map[g1.gid := g1, g2.gid := g2]
    requires g1.gid == 1 && g2.gid == 2 && g3.gid == 3 && g4.gid == 4
    requires Cells(l, g1.gid, g2.gid, 0, 0)
    requires Blank(g3) && Blank(g4)
    modifies l.reserved, l`data, g3`ypos, g3`xpos, g4`ypos, g4`xpos
    ensures r3 == Ok(true) && r4 == Ok(true)
    ensures g3.Location() == Some((1, 0)) && g4.Location() == Some((1, 1))
    ensures l.Owned()
    ensures l.data == map[g1.gid := g1, g2.gid := g2, g3.gid := g3, g4.gid := g4]
    ensures Cells(l, g1.gid, g2.gid, g3.gid, g4.gid)
    ensures Blank(g3) && Blank(g4)
  {
    PickBottomLeft(l);
    r3 := AddUnit(l, g3, 1, 0, -1);
    PickBottomRight(l);
    r4 := AddUnit(l, g4, 1, 1, 0);
  }

  /** The first two `add` calls of test_layout_2x2addblank4x1x1: they fill the top row. */
  method PlaceTop() returns (l: TextLayout, g1: TextGrid, g2: TextGrid, g3: TextGrid, g4: TextGrid,
                             r1: Result<bool>, r2: Result<bool>)
    ensures r1 == Ok(true) && r2 == Ok(true)
    ensures g1.Location() == Some((0, 0)) && g2.Location() == Some((0, 1))
    ensures l.Owned() && l.height == 2 && l.width == 2 && !l.border
    ensures l.data == map[g1.gid := g1, g2.gid := g2]
    ensures g1.gid == 1 && g2.gid == 2 && g3.gid == 3 && g4.gid == 4
    ensures Cells(l, g1.gid, g2.gid, 0, 0)
    ensures Blank(g1) && Blank(g2) && Blank(g3) && Blank(g4)
    ensures fresh(l) && fresh(l.reserved) && fresh(g1) && fresh(g2) && fresh(g3) && fresh(g4)
  {
    l, g1, g2, g3, g4 := Setup();
    PickTopLeft(l);
    r1 := AddUnit(l, g1, 0, 0, -1);
    PickTopRight(l);
    r2 := AddUnit(l, g2, 0, 1, 0);
  }

  /** `add` of a new 1 x 1 grid to a plain 2 x 2 layout whose search picks the free cell
      (y, x): it succeeds, places the grid there, stamps that one cell and keeps the
      ownership invariant. */
  method AddUnit(l: TextLayout, g: TextGrid, y: nat, x: nat, ghost loss: int) returns (r: Result<bool>)
    requires l.Owned() && !l.border && l.height == 2 && l.width == 2
    requires Blank(g) && g.gid !in l.data
    requires y < 2 && x < 2 && l.reserved[y, x] == 0
    requires l.SearchSpec(1, 1) == Some(Placement(y, x, loss))
    modifies l.reserved, l`data, g`ypos, g`xpos
    ensures r == Ok(true) && g.ypos == y && g.xpos == x && l.Owned() && Blank(g)
    ensures l.data == old(l.data)[g.gid := g]
    ensures forall i, j :: 0 <= i < 2 && 0 <= j < 2 ==>
              l.reserved[i, j] == if i == y && j == x then g.gid else old(l.reserved[i, j])
  {
    assert l.FreeUpTo(y, x, 1, 1, y, x);
    r := l.Add(g);
  }

  /** A fresh plain 2 x 2 layout and four fresh blank 1 x 1 grids with ids 1 to 4. */
  method Setup() returns (l: TextLayout, g1: TextGrid, g2: TextGrid, g3: TextGrid, g4: TextGrid)
    ensures fresh(l) && fresh(l.reserved) && fresh(g1) && fresh(g2) && fresh(g3) && fresh(g4)
    ensures l.Owned() && l.height == 2 && l.width == 2 && !l.border && l.data == map[]
    ensures forall i, j :: 0 <= i < 2 && 0 <= j < 2 ==> l.reserved[i, j] == 0
    ensures g1.gid == 1 && g2.gid == 2 && g3.gid == 3 && g4.gid == 4
    ensures Blank(g1) && Blank(g2) && Blank(g3) && Blank(g4)
  {
    var counter := new GidCounter();
    l := new TextLayout(2, 2, false);
    g1 := new TextGrid(1, 1, false, counter);
    g2 := new TextGrid(1, 1, false, counter);
    g3 := new TextGrid(1, 1, false, counter);
    g4 := new TextGrid(1, 1, false, counter);
  }

  /** An empty plain 1 x 1 grid. */
  ghost predicate Blank(g: TextGrid)
    reads g
  {
    g.height == 1 && g.width == 1 && !g.border && g.rows == []
  }

  /** A plain 2 x 2 layout whose four cells are reserved by four plain 1 x 1 grids, one
      per cell, renders the character each grid reads in the grid's cell. */
  lemma ShowsFour(l: TextLayout, g1: TextGrid, g2: TextGrid, g3: TextGrid, g4: TextGrid,
                  a: char, b: char, c: char, d: char)
    requires l.Shape() && l.height == 2 && l.width == 2 && !l.border
    requires l.data == map[g1.gid := g1, g2.gid := g2, g3.gid := g3, g4.gid := g4]
    requires g1.gid == 1 && g2.gid == 2 && g3.gid == 3 && g4.gid == 4
    requires Cells(l, g1.gid, g2.gid, g3.gid, g4.gid)
    requires g1.Read(0, 0) == Ok(a) && g2.Read(0, 1) == Ok(b)
    requires g3.Read(1, 0) == Ok(c) && g4.Read(1, 1) == Ok(d)
    ensures l.RenderSpec() == Ok([[a, b], [c, d]])
  {
    assert l.CellSpec(0, 0) == Ok(a) && l.CellSpec(0, 1) == Ok(b);
    assert l.CellSpec(1, 0) == Ok(c) && l.CellSpec(1, 1) == Ok(d);
    RendersCells(l, a, b, c, d);
  }

  /** A plain 2 x 2 layout whose cells render as a, b, c and d renders as two lines. */
  lemma RendersCells(l: TextLayout, a: char, b: char, c: char, d: char)
    requires l.Shape() && l.height == 2 && l.width == 2 && !l.border
    requires l.CellSpec(0, 0) == Ok(a) && l.CellSpec(0, 1) == Ok(b)
    requires l.CellSpec(1, 0) == Ok(c) && l.CellSpec(1, 1) == Ok(d)
    ensures l.RenderSpec() == Ok([[a, b], [c, d]])
  {
    assert l.RowCells(0) == [Ok(a), Ok(b)];
    assert l.RowCells(1) == [Ok(c), Ok(d)];
    CollectOk(l.RowCells(0));
    CollectOk(l.RowCells(1));
    assert Collect(l.RowCells(0)).value == [a, b];
    assert Collect(l.RowCells(1)).value == [c, d];
    assert l.RowTexts() == [Ok([a, b]), Ok([c, d])];
    CollectOk(l.RowTexts());
    var body := Collect(l.RowTexts()).value;
    assert body == [[a, b], [c, d]];
    assert l.Pad() == "";
    assert "" + [a, b] + "" == [a, b] && "" + [c, d] + "" == [c, d];
    assert l.Padded(body) == body;
  }

  /** A plain 1 x 1 grid at (y, x) reads its stored character there, or a blank when empty. */
  lemma ReadsUnit(g: TextGrid, y: nat, x: nat, c: char)
    requires g.height == 1 && g.width == 1 && !g.border && g.ypos == y && g.xpos == x
    requires g.rows == [[c]] || (g.rows == [] && c == ' ')
    ensures g.Read(y, x) == Ok(c)
  {
    g.ReadInside(y, x);
  }

  /** test_layout_2x2addblank4x1x1, last step: the four blank grids render as two lines
      of two blanks. */
  method RenderBlank() returns (r: Result<seq<string>>)
    ensures r == Ok(["  ", "  "])
  {
    var l, g1, g2, g3, g4, results := PlaceFour();
    ReadsUnit(g1, 0, 0, ' ');
    ReadsUnit(g2, 0, 1, ' ');
    ReadsUnit(g3, 1, 0, ' ');
    ReadsUnit(g4, 1, 1, ' ');
    ShowsFour(l, g1, g2, g3, g4, ' ', ' ', ' ', ' ');
    r := l.Lines();
  }

  /** test_layout_2x2add4x1x1: after `set` on each placed grid, the layout shows each
      grid's first character in the grid's cell. */
  method RenderSet() returns (r: Result<seq<string>>)
    ensures r == Ok(["ab", "cd"])
  {
    var l, g1, g2, g3, g4, results := PlaceFour();
    SetAll(l, g1, g2, g3, g4);
    ReadsUnit(g1, 0, 0, 'a');
    ReadsUnit(g2, 0, 1, 'b');
    ReadsUnit(g3, 1, 0, 'c');
    ReadsUnit(g4, 1, 1, 'd');
    ShowsFour(l, g1, g2, g3, g4, 'a', 'b', 'c', 'd');
    r := l.Lines();
  }

  /** The four `set` calls of test_layout_2x2add4x1x1: they change only the grids'
      rows, so the layout's ownership invariant still holds. */
  method SetAll(l: TextLayout, g1: TextGrid, g2: TextGrid, g3: TextGrid, g4: TextGrid)
    requires l.Owned() && l.height == 2 && l.width == 2 && !l.border
    requires l.data == map[g1.gid := g1, g2.gid := g2, g3.gid := g3, g4.gid := g4]
    requires g1.gid == 1 && g2.gid == 2 && g3.gid == 3 && g4.gid == 4
    requires Blank(g1) && Blank(g2) && Blank(g3) && Blank(g4)
    modifies g1`rows, g2`rows, g3`rows, g4`rows
    ensures l.Owned()
    ensures g1.Valid() && g1.rows == ["a"] && g2.Valid() && g2.rows == ["b"]
    ensures g3.Valid() && g3.rows == ["c"] && g4.Valid() && g4.rows == ["d"]
  {
    SetTwice(g1, "aa");
    SetTwice(g2, "bb");
    SetTwice(g3, "cc");
    SetTwice(g4, "dd");
  }

  /** `set([s, s])` on an empty plain 1 x 1 grid keeps only the first character of the
      first line. */
  method SetTwice(g: TextGrid, s: string)
    requires Blank(g) && |s| == 2
    modifies g`rows
    ensures g.Valid() && g.rows == [[s[0]]]
  {
    g.Set(Lines([s, s]));
    assert [s, s][..1] == [s];
    assert g.ClipAll([s]) == [s[..1]];
    assert s[..1] == [s[0]];
  }

  /** test_layout_bordered1x1: a bordered 3 x 3 grid added to a plain 3 x 3 layout fills
      it; after `set("a")` the layout shows the "a" inside the grid's blank ring. */
  method BorderedInLayout() returns (added: Result<bool>, r: Result<seq<string>>)
    ensures added == Ok(true)
    ensures r == Ok(["   ", " a ", "   "])
  {
    var counter := new GidCounter();
    var l := new TextLayout(3, 3, false);
    var g := new TextGrid(3, 3, true, counter);
    added := AddWhole(l, g);
    SplitLines1();
    g.Set(Text("a"));
    assert g.rows == ["a"] by {
      assert ["a"][..1] == ["a"];
      assert g.ClipAll(["a"]) == ["a"];
    }
    BorderedShows(g);
    ShowsWhole(l, g);
    r := l.Lines();
  }

  /** `add` of a 3 x 3 grid to a free plain 3 x 3 layout: it succeeds, leaves the grid at
      the origin and stamps the grid's id into every cell. */
  method AddWhole(l: TextLayout, g: TextGrid) returns (r: Result<bool>)
    requires l.Shape() && l.height == 3 && l.width == 3 && !l.border
    requires forall i, j :: 0 <= i < 3 && 0 <= j < 3 ==> l.reserved[i, j] == 0
    requires g.height == 3 && g.width == 3
    modifies l.reserved, l`data, g`ypos, g`xpos
    ensures r == Ok(true) && g.ypos == 0 && g.xpos == 0
    ensures l.data == old(l.data)[g.gid := g]
    ensures forall i, j :: 0 <= i < 3 && 0 <= j < 3 ==> l.reserved[i, j] == g.gid
  {
    PickWhole(l);
    assert l.FreeUpTo(0, 0, 3, 3, 2, 2);
    r := l.Add(g);
  }

  /** The string test_layout_bordered1x1 passes to `set` is a single line. */
  lemma SplitLines1()
    ensures SplitLines("a") == ["a"]
  {
    var rest := SplitLines("a"[1..]);
    assert "a"[1..] == "" && rest == [""];
    assert ["a"[0]] + rest[0] == "a" && rest[1..] == [];
  }

  /** Where `search` puts a 3 x 3 grid on a free plain 3 x 3 layout: the first position
      covers the layout exactly, scores 0 and ends the scan. */
  lemma PickWhole(l: TextLayout)
    requires l.Shape() && l.height == 3 && l.width == 3 && !l.border
    requires forall i, j :: 0 <= i < 3 && 0 <= j < 3 ==> l.reserved[i, j] == 0
    ensures l.SearchSpec(3, 3) == Some(Placement(0, 0, 0))
  {
    l.LossClosedForm(0, 0, 3, 3);
    assert l.InquireSpec(0, 0, 3, 3) == Some(0);
    l.ScanStops(0, 0, 3, 3);
    assert UpToZero(l.Cands(3, 3, 3)) == [Placement(0, 0, 0)];
  }

  /** A plain layout whose every cell is reserved by one grid at the origin of the
      layout's size renders as that grid's string form. */
  lemma ShowsWhole(l: TextLayout, g: TextGrid)
    requires l.Shape() && !l.border && l.height == g.height && l.width == g.width
    requires g.ypos == 0 && g.xpos == 0
    requires g.gid in l.data && l.data[g.gid] == g
    requires forall i, j :: 0 <= i < l.height && 0 <= j < l.width ==> l.reserved[i, j] == g.gid
    ensures l.RenderSpec() == g.TextSpec()
  {
    forall y | 0 <= y < l.height
      ensures l.RowTexts()[y] == g.RowTexts()[y]
    {
      assert l.RowCells(y) == g.RowCells(y);
    }
    assert l.RowTexts() == g.RowTexts();
    if g.TextSpec().Ok? {
      var body := g.TextSpec().value;
      assert l.Pad() == "";
      forall k | 0 <= k < |body|
        ensures l.Padded(body)[k] == body[k]
      {
        assert "" + body[k] + "" == body[k];
      }
      assert l.Padded(body) == body;
    }
  }
}
