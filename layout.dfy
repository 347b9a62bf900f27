/** TextLayout (textlayout/__init__.py:18-142): a fixed-size canvas with a
    height x width reservation matrix (0 = free, otherwise the id of the owning
    grid) and a map from grid id to grid. Placement scores every top-left
    position with `inquire`, picks one with `search`, stamps it with `reserve`;
    `lines` renders the canvas by asking each cell's owner for its character. */
module Layouts {
  import opened Base
  import opened Grids

  /** A recorded candidate position (already shifted by the border offset) and its loss. */
  datatype Placement = Placement(ypos: nat, xpos: nat, loss: int)

  /** No recorded candidate has loss 0. */
  predicate ZeroFree(s: seq<Placement>)
  {
    forall k :: 0 <= k < |s| ==> s[k].loss != 0
  }

  /** The candidate `sorted(positions, key=loss)[0]` returns: Python's sort is stable,
      so it is the first one of minimum loss. */
  function FirstMinIndex(s: seq<Placement>): (k: nat)
    requires |s| > 0
    ensures k < |s|
    ensures forall j :: 0 <= j < |s| ==> s[k].loss <= s[j].loss
    ensures forall j :: 0 <= j < k ==> s[k].loss < s[j].loss
    decreases |s|
  {
    if |s| == 1 then 0
    else
      var k := FirstMinIndex(s[..|s| - 1]);
      if s[|s| - 1].loss < s[k].loss then |s| - 1 else k
  }

  /** The candidates `search` records before it stops: all of them up to and
      including the first one of loss 0. */
  function UpToZero(s: seq<Placement>): (r: seq<Placement>)
    ensures |r| <= |s| && r == s[..|r|]
    ensures r == [] <==> s == []
    ensures forall k :: 0 <= k < |r| - 1 ==> r[k].loss != 0
    ensures |r| < |s| ==> r[|r| - 1].loss == 0
    decreases |s|
  {
    if s == [] then []
    else if s[0].loss == 0 then [s[0]]
    else [s[0]] + UpToZero(s[1..])
  }

  /** A zero-loss candidate after a zero-free run ends the scan right there. */
  lemma {:induction false} UpToZeroAt(s: seq<Placement>, m: nat)
    requires m < |s| && s[m].loss == 0 && ZeroFree(s[..m])
    ensures UpToZero(s) == s[..m + 1]
    decreases m
  {
    if m > 0 {
      assert s[0] == s[..m][0];
      assert s[1..][..m - 1] == s[..m][1..];
      UpToZeroAt(s[1..], m - 1);
      assert s[..m + 1] == [s[0]] + s[1..][..m];
    }
  }

  /** Without a zero-loss candidate the scan records everything. */
  lemma {:induction false} UpToZeroAll(s: seq<Placement>)
    requires ZeroFree(s)
    ensures UpToZero(s) == s
    decreases |s|
  {
    if s != [] {
      UpToZeroAll(s[1..]);
    }
  }

  /** a + b is a prefix of `all` when b is a prefix of bb and a + bb is one. */
  lemma PrefixOfConcat<T>(a: seq<T>, b: seq<T>, bb: seq<T>, all: seq<T>)
    requires |b| <= |bb| && b == bb[..|b|]
    requires |a + bb| <= |all| && a + bb == all[..|a + bb|]
    ensures |a + b| <= |all| && a + b == all[..|a + b|]
  {
    assert a + b == (a + bb)[..|a + b|];
  }

  /** The entries of `s` are strictly increasing in row-major order of position. */
  predicate RowMajor(s: seq<Placement>)
  {
    forall a, b :: 0 <= a < b < |s| ==> LexLt(s[a].ypos, s[a].xpos, s[b].ypos, s[b].xpos)
  }

  /** In a row-major list, position order and index order agree. */
  lemma RowMajorIndex(s: seq<Placement>, a: nat, b: nat)
    requires RowMajor(s) && a < |s| && b < |s|
    requires LexLt(s[a].ypos, s[a].xpos, s[b].ypos, s[b].xpos)
    ensures a < b
  {
  }

  /** A scan whose first zero-loss entry z comes right after the zero-free `pre` stops at z. */
  lemma StopAfter(pre: seq<Placement>, z: Placement, all: seq<Placement>)
    requires |pre| + 1 <= |all| && all[..|pre| + 1] == pre + [z]
    requires ZeroFree(pre) && z.loss == 0
    ensures UpToZero(all) == pre + [z]
  {
    assert all[..|pre|] == (pre + [z])[..|pre|];
    assert all[|pre|] == (pre + [z])[|pre|];
    UpToZeroAt(all, |pre|);
  }

  /** StopAfter for a zero-free run split in two parts, the second of which grows by z. */
  lemma StopAfterConcat(front: seq<Placement>, partial: seq<Placement>, next: seq<Placement>,
                        z: Placement, all: seq<Placement>)
    requires next == partial + [z]
    requires |front + next| <= |all| && front + next == all[..|front + next|]
    requires ZeroFree(front + partial) && z.loss == 0
    ensures UpToZero(all) == front + partial + [z]
  {
    assert front + next == front + partial + [z];
    StopAfter(front + partial, z, all);
  }

  /** Within a row-major list, the first minimum of the scanned part comes no later
      than any zero-loss entry. */
  lemma PickBeforeZeros(cs: seq<Placement>, i: nat)
    requires RowMajor(cs) && UpToZero(cs) != [] && i < |cs| && cs[i].loss == 0
    ensures var p := cs[FirstMinIndex(UpToZero(cs))];
            !LexLt(cs[i].ypos, cs[i].xpos, p.ypos, p.xpos)
  {
    var s := UpToZero(cs);
    var k := FirstMinIndex(s);
    assert i < |s| ==> s[i] == cs[i];
    assert k <= i;
  }

  /** An entry with no zero-loss entry before it was scanned, so the pick's loss is no larger. */
  lemma PickBest(cs: seq<Placement>, i: nat)
    requires RowMajor(cs) && UpToZero(cs) != [] && i < |cs|
    requires forall j :: 0 <= j < |cs| && cs[j].loss == 0 ==>
               !LexLt(cs[j].ypos, cs[j].xpos, cs[i].ypos, cs[i].xpos)
    ensures cs[FirstMinIndex(UpToZero(cs))].loss <= cs[i].loss
  {
    var s := UpToZero(cs);
    var k := FirstMinIndex(s);
    assert s[k] == cs[k];
    var last := |s| - 1;
    assert s[last] == cs[last];
    assert i < |s|;
    assert s[i] == cs[i];
  }

  /** Every entry before the pick in row-major order has a strictly larger loss. */
  lemma PickFirst(cs: seq<Placement>, i: nat)
    requires RowMajor(cs) && UpToZero(cs) != [] && i < |cs|
    requires var p := cs[FirstMinIndex(UpToZero(cs))];
             LexLt(cs[i].ypos, cs[i].xpos, p.ypos, p.xpos)
    ensures cs[i].loss > cs[FirstMinIndex(UpToZero(cs))].loss
  {
    var s := UpToZero(cs);
    var k := FirstMinIndex(s);
    RowMajorIndex(cs, i, k);
    assert s[i] == cs[i] && s[k] == cs[k];
  }

  class TextLayout {
    const height: nat
    const width: nat
    const border: bool
    /** `reserved_`: one row per layout row, 0 for a free cell, else the owner's id. */
    const reserved: array2<nat>
    /** `data`: the grids placed so far, by id. */
    var data: map<nat, TextGrid>

    predicate Shape()
    {
      reserved.Length0 == height && reserved.Length1 == width
    }

    /** `search` reports positions shifted by one when the layout has a border. */
    function Offset(): (r: nat)
    {
      if border then 1 else 0
    }

    /** The ownership invariant: ids in `data` are their grids' ids, every reserved
        cell belongs to a grid in `data` whose rectangle covers it, and every
        in-bounds cell a grid covers holds that grid's id (so no two placed grids
        share a cell). */
    ghost predicate Owned()
      reads this, reserved, data.Values
    {
      Shape() &&
      (forall k :: k in data ==> data[k].gid == k) &&
      (forall i, j :: 0 <= i < height && 0 <= j < width && reserved[i, j] != 0 ==>
         reserved[i, j] in data && data[reserved[i, j]].Covers(i, j)) &&
      (forall k, i, j :: k in data && 0 <= i < height && 0 <= j < width && data[k].Covers(i, j) ==>
         reserved[i, j] == k)
    }

    /** `TextLayout(height, width, border)` for accepted sizes: an all-free matrix, no grids. */
    constructor (height: nat, width: nat, border: bool)
      requires Accepts(height, width, border)
      ensures this.height == height && this.width == width && this.border == border
      ensures Shape() && fresh(reserved) && data == map[]
      ensures forall i, j :: 0 <= i < height && 0 <= j < width ==> reserved[i, j] == 0
      ensures Owned()
    {
      this.height := height;
      this.width := width;
      this.border := border;
      reserved := new nat[height, width]((i, j) => 0);
      data := map[];
    }

    /** `TextLayout(height, width, border)` with its failure: null where the constructor raises. */
    static method Create(height: nat, width: nat, border: bool) returns (l: TextLayout?)
      ensures l == null <==> !Accepts(height, width, border)
      ensures l != null ==>
                fresh(l) && fresh(l.reserved) && l.Owned() && l.data == map[] &&
                l.height == height && l.width == width && l.border == border &&
                forall i, j :: 0 <= i < height && 0 <= j < width ==> l.reserved[i, j] == 0
    {
      if !Accepts(height, width, border) {
        return null;
      }
      l := new TextLayout(height, width, border);
    }

    // ---------------------------------------------------------------- inquire

    /** How many of the h rows starting at row y lie inside the layout. */
    function RowsInside(y: nat, h: nat): (r: nat)
      ensures r <= h && (r > 0 ==> y + r <= height)
    {
      if y >= height then 0 else Min(h, height - y)
    }

    /** `len(reserved_[r][x:])`: the columns from x to the right edge. */
    function ColsFrom(x: nat): (r: nat)
      ensures r <= width
    {
      if x >= width then 0 else width - x
    }

    /** What one row of a w-wide candidate at column x costs when it is row r of the
        layout: w past the bottom, w minus the columns left from x inside. */
    function RowLoss(r: nat, x: nat, w: nat): (loss: int)
    {
      if r >= height then w else w - ColsFrom(x)
    }

    /** The loss of an h x w candidate at (y, x): the sum of its rows' losses. */
    function Loss(y: nat, x: nat, h: nat, w: nat): (loss: int)
      decreases h
    {
      if h == 0 then 0 else Loss(y, x, h - 1, w) + RowLoss(y + h - 1, x, w)
    }

    /** The loss in closed form: every covered cell costs one, every cell of the
        layout from x to the right edge in a row inside the layout earns one back. */
    lemma {:induction false} LossClosedForm(y: nat, x: nat, h: nat, w: nat)
      ensures Loss(y, x, h, w) == h * w - RowsInside(y, h) * ColsFrom(x)
      decreases h
    {
      if h > 0 {
        LossClosedForm(y, x, h - 1, w);
        assert h * w == (h - 1) * w + w;
        if y + h - 1 < height {
          assert RowsInside(y, h) == RowsInside(y, h - 1) + 1;
          assert RowsInside(y, h) * ColsFrom(x) == RowsInside(y, h - 1) * ColsFrom(x) + ColsFrom(x);
        } else {
          assert RowsInside(y, h) == RowsInside(y, h - 1);
        }
      }
    }

    /** Some in-bounds cell of the h x w rectangle at (y, x) is reserved. */
    ghost predicate Collides(y: nat, x: nat, h: nat, w: nat)
      requires Shape()
      reads reserved
    {
      exists i, j :: 0 <= i < height && 0 <= j < width && InRect(y, x, h, w, i, j) && reserved[i, j] != 0
    }

    /** What `inquire` answers: None on a collision, else the loss. */
    ghost function InquireSpec(y: nat, x: nat, h: nat, w: nat): (r: Option<int>)
      requires Shape()
      reads reserved
    {
      if Collides(y, x, h, w) then None else Some(Loss(y, x, h, w))
    }

    /** `inquire(y, x, grid)`: None exactly when the grid would cover a reserved cell;
        otherwise the sum of the per-row losses. Reads only. */
    method Inquire(y: nat, x: nat, g: TextGrid) returns (loss: Option<int>)
      requires Shape()
      ensures loss.None? <==> Collides(y, x, g.height, g.width)
      ensures loss.Some? ==> loss.value == Loss(y, x, g.height, g.width)
    {
      var acc := 0;
      for row := 0 to g.height
        invariant acc == Loss(y, x, row, g.width)
        invariant forall i, j :: 0 <= i < height && 0 <= j < width && InRect(y, x, row, g.width, i, j) ==>
                    reserved[i, j] == 0
      {
        var r := row + y;
        if r >= height {
          acc := acc + g.width;
        } else {
          var c := x;
          var cEnd := c + g.width;
          var stop := Min(cEnd, width);
          var collisions: nat := 0;
          var k := c;
          while k < stop
            invariant c <= k && (k <= stop || k == c)
            invariant collisions == 0 <==> forall j :: c <= j < k ==> reserved[r, j] == 0
          {
            collisions := collisions + reserved[r, k];
            k := k + 1;
          }
          if collisions > 0 {
            return None;
          }
          assert forall j :: x <= j < x + g.width && j < width ==> reserved[r, j] == 0;
          var overhang := g.width - ColsFrom(c);
          acc := acc + overhang;
        }
      }
      return Some(acc);
    }

    /** A grid that fits with columns to spare scores below zero; one that fits
        exactly against the right edge scores zero. */
    lemma LossSign(y: nat, x: nat, h: nat, w: nat)
      requires 0 < h && y + h <= height && x <= width
      ensures x + w < width ==> Loss(y, x, h, w) < 0
      ensures x + w == width ==> Loss(y, x, h, w) == 0
      ensures x + w > width ==> Loss(y, x, h, w) > 0
    {
      LossClosedForm(y, x, h, w);
      assert RowsInside(y, h) == h;
      assert Loss(y, x, h, w) == h * (w - (width - x));
    }

    // ---------------------------------------------------------------- search

    /** The candidates of row `row` among its first c columns, in column order. */
    ghost function RowCands(row: nat, c: nat, h: nat, w: nat): (cs: seq<Placement>)
      requires Shape() && row < height && c <= width
      reads reserved
      decreases c
    {
      if c == 0 then []
      else
        RowCands(row, c - 1, h, w) +
        match InquireSpec(row, c - 1, h, w)
        case None => []
        case Some(l) => [Placement(row + Offset(), c - 1 + Offset(), l)]
    }

    /** The candidates of the first r rows, in row-major order. */
    ghost function Cands(r: nat, h: nat, w: nat): (cs: seq<Placement>)
      requires Shape() && r <= height
      reads reserved
      decreases r
    {
      if r == 0 then [] else Cands(r - 1, h, w) + RowCands(r - 1, width, h, w)
    }

    /** What `search` answers: None when it recorded nothing, else the first
        minimum-loss candidate among those recorded before the scan stopped. */
    ghost function SearchSpec(h: nat, w: nat): (best: Option<Placement>)
      requires Shape()
      reads reserved
    {
      var s := UpToZero(Cands(height, h, w));
      if s == [] then None else Some(s[FirstMinIndex(s)])
    }

    /** p is a position `search` could record: inside the layout (after the offset)
        and scored by `inquire` with p's loss. */
    ghost predicate IsCandidate(p: Placement, h: nat, w: nat)
      requires Shape()
      reads reserved
    {
      Offset() <= p.ypos < height + Offset() && Offset() <= p.xpos < width + Offset() &&
      InquireSpec(p.ypos - Offset(), p.xpos - Offset(), h, w) == Some(p.loss)
    }

    /** No zero-loss candidate comes before q in row-major order, so the scan reaches q. */
    ghost predicate BeforeStop(q: Placement, h: nat, w: nat)
      requires Shape()
      reads reserved
    {
      forall z :: IsCandidate(z, h, w) && z.loss == 0 ==> !LexLt(z.ypos, z.xpos, q.ypos, q.xpos)
    }

    /** Each entry of RowCands(row, c) is a candidate of row `row` left of column c. */
    lemma {:induction false} RowCandsSound(row: nat, c: nat, h: nat, w: nat)
      requires Shape() && row < height && c <= width
      ensures forall k :: 0 <= k < |RowCands(row, c, h, w)| ==>
                IsCandidate(RowCands(row, c, h, w)[k], h, w) &&
                RowCands(row, c, h, w)[k].ypos == row + Offset() &&
                RowCands(row, c, h, w)[k].xpos < c + Offset()
      decreases c
    {
      if c > 0 {
        RowCandsSound(row, c - 1, h, w);
        var front := RowCands(row, c - 1, h, w);
        assert forall k :: 0 <= k < |front| ==> RowCands(row, c, h, w)[k] == front[k];
      }
    }

    /** RowCands(row, c) is ordered by column. */
    lemma {:induction false} RowCandsSorted(row: nat, c: nat, h: nat, w: nat)
      requires Shape() && row < height && c <= width
      ensures forall a, b :: 0 <= a < b < |RowCands(row, c, h, w)| ==>
                RowCands(row, c, h, w)[a].xpos < RowCands(row, c, h, w)[b].xpos
      decreases c
    {
      if c > 0 {
        RowCandsSorted(row, c - 1, h, w);
        RowCandsSound(row, c - 1, h, w);
        var front := RowCands(row, c - 1, h, w);
        assert forall k :: 0 <= k < |front| ==> RowCands(row, c, h, w)[k] == front[k];
      }
    }

    /** Every candidate of row `row` left of column c is in RowCands(row, c). */
    lemma {:induction false} RowCandsComplete(row: nat, c: nat, h: nat, w: nat)
      requires Shape() && row < height && c <= width
      ensures forall col :: 0 <= col < c && InquireSpec(row, col, h, w).Some? ==>
                Placement(row + Offset(), col + Offset(), InquireSpec(row, col, h, w).value) in RowCands(row, c, h, w)
      decreases c
    {
      if c > 0 {
        RowCandsComplete(row, c - 1, h, w);
      }
    }

    /** Each entry of Cands(r) is a candidate in one of the first r rows. */
    lemma {:induction false} CandsSound(r: nat, h: nat, w: nat)
      requires Shape() && r <= height
      ensures forall k :: 0 <= k < |Cands(r, h, w)| ==>
                IsCandidate(Cands(r, h, w)[k], h, w) && Cands(r, h, w)[k].ypos < r + Offset()
      decreases r
    {
      if r > 0 {
        CandsSound(r - 1, h, w);
        RowCandsSound(r - 1, width, h, w);
        var front, last := Cands(r - 1, h, w), RowCands(r - 1, width, h, w);
        assert Cands(r, h, w) == front + last;
      }
    }

    /** Cands(r) is strictly ordered row-major. */
    lemma {:induction false} CandsSorted(r: nat, h: nat, w: nat)
      requires Shape() && r <= height
      ensures RowMajor(Cands(r, h, w))
      decreases r
    {
      if r > 0 {
        CandsSorted(r - 1, h, w);
        CandsSound(r - 1, h, w);
        RowCandsSound(r - 1, width, h, w);
        RowCandsSorted(r - 1, width, h, w);
        var front, last := Cands(r - 1, h, w), RowCands(r - 1, width, h, w);
        var cs := Cands(r, h, w);
        assert cs == front + last;
        forall a, b | 0 <= a < b < |cs|
          ensures LexLt(cs[a].ypos, cs[a].xpos, cs[b].ypos, cs[b].xpos)
        {
          if b < |front| {
            assert cs[a] == front[a] && cs[b] == front[b];
          } else if a >= |front| {
            assert cs[a] == last[a - |front|] && cs[b] == last[b - |front|];
          } else {
            assert cs[a] == front[a] && cs[b] == last[b - |front|];
          }
        }
      }
    }

    /** Every candidate of the first r rows is in Cands(r). */
    lemma CandsComplete(r: nat, h: nat, w: nat)
      requires Shape() && r <= height
      ensures forall row, col :: 0 <= row < r && 0 <= col < width && InquireSpec(row, col, h, w).Some? ==>
                Placement(row + Offset(), col + Offset(), InquireSpec(row, col, h, w).value) in Cands(r, h, w)
    {
      forall row, col | 0 <= row < r && 0 <= col < width && InquireSpec(row, col, h, w).Some?
        ensures Placement(row + Offset(), col + Offset(), InquireSpec(row, col, h, w).value) in Cands(r, h, w)
      {
        CandIn(r, row, col, h, w);
      }
    }

    /** The candidate at (row, col) is among those of the first r rows when row < r. */
    lemma {:induction false} CandIn(r: nat, row: nat, col: nat, h: nat, w: nat)
      requires Shape() && row < r <= height && col < width && InquireSpec(row, col, h, w).Some?
      ensures Placement(row + Offset(), col + Offset(), InquireSpec(row, col, h, w).value) in Cands(r, h, w)
      decreases r
    {
      var p := Placement(row + Offset(), col + Offset(), InquireSpec(row, col, h, w).value);
      assert Cands(r, h, w) == Cands(r - 1, h, w) + RowCands(r - 1, width, h, w);
      if row < r - 1 {
        CandIn(r - 1, row, col, h, w);
      } else {
        RowCandsComplete(r - 1, width, h, w);
        assert p in RowCands(r - 1, width, h, w);
      }
    }

    lemma {:induction false} RowCandsPrefix(row: nat, c: nat, d: nat, h: nat, w: nat)
      requires Shape() && row < height && c <= d <= width
      ensures |RowCands(row, c, h, w)| <= |RowCands(row, d, h, w)|
      ensures RowCands(row, c, h, w) == RowCands(row, d, h, w)[..|RowCands(row, c, h, w)|]
      decreases d
    {
      if c < d {
        RowCandsPrefix(row, c, d - 1, h, w);
      }
    }

    lemma {:induction false} CandsPrefix(r: nat, s: nat, h: nat, w: nat)
      requires Shape() && r <= s <= height
      ensures |Cands(r, h, w)| <= |Cands(s, h, w)|
      ensures Cands(r, h, w) == Cands(s, h, w)[..|Cands(r, h, w)|]
      decreases s
    {
      if r < s {
        CandsPrefix(r, s - 1, h, w);
      }
    }

    /** One more column of the scan adds the position's candidate, if any. */
    lemma RowCandsGrow(row: nat, col: nat, h: nat, w: nat)
      requires Shape() && row < height && col < width
      ensures RowCands(row, col + 1, h, w) ==
              RowCands(row, col, h, w) +
              if InquireSpec(row, col, h, w).Some?
              then [Placement(row + Offset(), col + Offset(), InquireSpec(row, col, h, w).value)]
              else []
    {
    }

    /** One more row of the scan adds that row's candidates. */
    lemma CandsGrow(r: nat, h: nat, w: nat)
      requires Shape() && r < height
      ensures Cands(r + 1, h, w) == Cands(r, h, w) + RowCands(r, width, h, w)
    {
    }

    /** The candidates of the rows above and of row `row` left of column c come first in the scan. */
    lemma ScanPrefix(row: nat, c: nat, h: nat, w: nat)
      requires Shape() && row < height && c <= width
      ensures var pre := Cands(row, h, w) + RowCands(row, c, h, w);
              |pre| <= |Cands(height, h, w)| && pre == Cands(height, h, w)[..|pre|]
    {
      RowCandsPrefix(row, c, width, h, w);
      CandsPrefix(row + 1, height, h, w);
      CandsGrow(row, h, w);
      PrefixOfConcat(Cands(row, h, w), RowCands(row, c, h, w), RowCands(row, width, h, w), Cands(height, h, w));
    }

    /** A zero-loss candidate at (row, col) after a zero-free scan ends the scan there. */
    lemma ScanStops(row: nat, col: nat, h: nat, w: nat)
      requires Shape() && row < height && col < width
      requires ZeroFree(Cands(row, h, w) + RowCands(row, col, h, w))
      requires InquireSpec(row, col, h, w) == Some(0)
      ensures UpToZero(Cands(height, h, w)) ==
              Cands(row, h, w) + RowCands(row, col, h, w) + [Placement(row + Offset(), col + Offset(), 0)]
    {
      var front, partial := Cands(row, h, w), RowCands(row, col, h, w);
      var z := Placement(row + Offset(), col + Offset(), 0);
      RowCandsGrow(row, col, h, w);
      ScanPrefix(row, col + 1, h, w);
      StopAfterConcat(front, partial, RowCands(row, col + 1, h, w), z, Cands(height, h, w));
    }

    /** `search(grid)`: scans rows top to bottom and columns left to right, records
        each position `inquire` accepts (shifted by the border offset), stops right
        after the first zero-loss one, and returns the first of minimum loss. */
    method Search(g: TextGrid) returns (best: Option<Placement>)
      requires Shape()
      ensures best == SearchSpec(g.height, g.width)
    {
      var positions: seq<Placement> := [];
      ghost var stopped := false;
      for row := 0 to height
        invariant positions == Cands(row, g.height, g.width) && ZeroFree(positions)
      {
        positions := SearchRow(row, g, positions);
        if |positions| > 0 && positions[|positions| - 1].loss == 0 {
          stopped := true;
          break;
        }
      }
      if !stopped {
        UpToZeroAll(positions);
      }
      if |positions| > 0 {
        return Some(positions[FirstMinIndex(positions)]);
      }
      return None;
    }

    /** The inner loop of `search` for one row: appends the row's candidates to
        `positions`, stopping right after a zero-loss one. */
    method SearchRow(row: nat, g: TextGrid, positions: seq<Placement>) returns (ps: seq<Placement>)
      requires Shape() && row < height
      requires positions == Cands(row, g.height, g.width) && ZeroFree(positions)
      ensures |ps| > 0 && ps[|ps| - 1].loss == 0 ==> ps == UpToZero(Cands(height, g.height, g.width))
      ensures !(|ps| > 0 && ps[|ps| - 1].loss == 0) ==>
                ps == Cands(row + 1, g.height, g.width) && ZeroFree(ps)
    {
      ghost var h, w := g.height, g.width;
      ps := positions;
      for col := 0 to width
        invariant ps == Cands(row, h, w) + RowCands(row, col, h, w) && ZeroFree(ps)
      {
        var stop;
        ps, stop := ScanCell(row, col, g, ps);
        if stop {
          return;
        }
      }
      assert |ps| > 0 ==> ps[|ps| - 1].loss != 0;
      CandsGrow(row, h, w);
    }

    /** The body of the inner loop of `search` for position (row, col): records the
        position when `inquire` accepts it, and says whether its loss of 0 ends the scan. */
    method ScanCell(row: nat, col: nat, g: TextGrid, positions: seq<Placement>)
      returns (ps: seq<Placement>, stop: bool)
      requires Shape() && row < height && col < width
      requires positions == Cands(row, g.height, g.width) + RowCands(row, col, g.height, g.width)
      requires ZeroFree(positions)
      ensures stop ==> ps == UpToZero(Cands(height, g.height, g.width)) && |ps| > 0 && ps[|ps| - 1].loss == 0
      ensures !stop ==> ps == Cands(row, g.height, g.width) + RowCands(row, col + 1, g.height, g.width) &&
                        ZeroFree(ps)
    {
      var borderOffset := if border then 1 else 0;
      ghost var h, w := g.height, g.width;
      var loss := Inquire(row, col, g);
      assert loss == InquireSpec(row, col, h, w);
      ScanStep(row, col, h, w);
      ps, stop := positions, false;
      if loss.Some? {
        assert borderOffset == Offset();
        ps := ps + [Placement(row + borderOffset, col + borderOffset, loss.value)];
        stop := loss.value == 0;
      }
    }

    /** One column of the scan: the position's candidate, if any, is appended; a zero
        loss ends the whole scan there, any other keeps the recorded run zero-free. */
    lemma ScanStep(row: nat, col: nat, h: nat, w: nat)
      requires Shape() && row < height && col < width
      requires ZeroFree(Cands(row, h, w) + RowCands(row, col, h, w))
      ensures var q := InquireSpec(row, col, h, w);
              Cands(row, h, w) + RowCands(row, col + 1, h, w) ==
              Cands(row, h, w) + RowCands(row, col, h, w) +
              if q.Some? then [Placement(row + Offset(), col + Offset(), q.value)] else []
      ensures InquireSpec(row, col, h, w) == Some(0) ==>
              UpToZero(Cands(height, h, w)) == Cands(row, h, w) + RowCands(row, col + 1, h, w)
      ensures InquireSpec(row, col, h, w) != Some(0) ==>
              ZeroFree(Cands(row, h, w) + RowCands(row, col + 1, h, w))
    {
      RowCandsGrow(row, col, h, w);
      if InquireSpec(row, col, h, w) == Some(0) {
        ScanStops(row, col, h, w);
      }
    }

    /** `search` finds nothing exactly when `inquire` rejects every position of the layout. */
    lemma SearchNone(h: nat, w: nat)
      requires Shape()
      ensures SearchSpec(h, w).None? <==>
              forall row, col :: 0 <= row < height && 0 <= col < width ==> InquireSpec(row, col, h, w).None?
    {
      var cs := Cands(height, h, w);
      if cs != [] {
        CandsSound(height, h, w);
        assert IsCandidate(cs[0], h, w);
        var row, col := cs[0].ypos - Offset(), cs[0].xpos - Offset();
        assert InquireSpec(row, col, h, w).Some?;
      } else {
        CandsComplete(height, h, w);
      }
    }

    /** Every candidate sits somewhere in the full scan order. */
    lemma CandIndex(q: Placement, h: nat, w: nat) returns (i: nat)
      requires Shape() && IsCandidate(q, h, w)
      ensures i < |Cands(height, h, w)| && Cands(height, h, w)[i] == q
    {
      CandsComplete(height, h, w);
      var cs := Cands(height, h, w);
      assert InquireSpec(q.ypos - Offset(), q.xpos - Offset(), h, w).Some?;
      assert Placement(q.ypos - Offset() + Offset(), q.xpos - Offset() + Offset(), q.loss) == q;
      assert q in cs;
      i :| 0 <= i < |cs| && cs[i] == q;
    }

    /** The result of `search` is a position the scan reached, scored by `inquire`. */
    lemma SearchFoundReached(h: nat, w: nat)
      requires Shape() && SearchSpec(h, w).Some?
      ensures IsCandidate(SearchSpec(h, w).value, h, w)
      ensures BeforeStop(SearchSpec(h, w).value, h, w)
    {
      var cs := Cands(height, h, w);
      var k := FirstMinIndex(UpToZero(cs));
      var p := cs[k];
      assert SearchSpec(h, w).value == p;
      CandsSound(height, h, w);
      CandsSorted(height, h, w);
      forall z | IsCandidate(z, h, w) && z.loss == 0
        ensures !LexLt(z.ypos, z.xpos, p.ypos, p.xpos)
      {
        var i := CandIndex(z, h, w);
        PickBeforeZeros(cs, i);
      }
    }

    /** No position the scan reached scores less than the result of `search`. */
    lemma SearchFoundBest(h: nat, w: nat, q: Placement)
      requires Shape() && SearchSpec(h, w).Some?
      requires IsCandidate(q, h, w) && BeforeStop(q, h, w)
      ensures SearchSpec(h, w).value.loss <= q.loss
    {
      var cs := Cands(height, h, w);
      assert SearchSpec(h, w).value == cs[FirstMinIndex(UpToZero(cs))];
      CandsSound(height, h, w);
      CandsSorted(height, h, w);
      var i := CandIndex(q, h, w);
      forall j | 0 <= j < |cs| && cs[j].loss == 0
        ensures !LexLt(cs[j].ypos, cs[j].xpos, cs[i].ypos, cs[i].xpos)
      {
        assert IsCandidate(cs[j], h, w);
      }
      PickBest(cs, i);
    }

    /** Every candidate before the result of `search` in row-major order scores strictly more:
        the stable sort keeps the earliest of the minimum-loss positions. */
    lemma SearchFoundFirst(h: nat, w: nat, q: Placement)
      requires Shape() && SearchSpec(h, w).Some?
      requires IsCandidate(q, h, w)
      requires LexLt(q.ypos, q.xpos, SearchSpec(h, w).value.ypos, SearchSpec(h, w).value.xpos)
      ensures SearchSpec(h, w).value.loss < q.loss
    {
      var cs := Cands(height, h, w);
      assert SearchSpec(h, w).value == cs[FirstMinIndex(UpToZero(cs))];
      CandsSorted(height, h, w);
      var i := CandIndex(q, h, w);
      PickFirst(cs, i);
    }

    // ---------------------------------------------------------------- reserve

    /** Every in-bounds cell of the h x w rectangle at (y, x) up to (i, j) in row-major order is free. */
    ghost predicate FreeUpTo(y: nat, x: nat, h: nat, w: nat, i: int, j: int)
      requires Shape()
      reads reserved
    {
      forall a, b :: 0 <= a < height && 0 <= b < width && InRect(y, x, h, w, a, b) && !LexLt(i, j, a, b) ==>
        reserved[a, b] == 0
    }

    /** The cells `reserve` has stamped when it is about to visit (row, col): the rows of
        the w-wide rectangle at (y, x) above `row`, and row `row` from x up to col. */
    predicate Stamped(y: nat, x: nat, w: nat, row: int, col: int, i: int, j: int)
    {
      InRect(y, x, row - y, w, i, j) || (i == row && x <= j < col)
    }

    /** `reserve(grid)`: walks the grid's rectangle row by row and stamps the grid's id into
        each in-bounds cell; on reaching a reserved cell it raises (returns false), leaving
        the cells stamped so far. On success the grid is entered in `data`. */
    method Reserve(g: TextGrid) returns (ok: bool)
      requires Shape()
      modifies reserved, this`data
      ensures ok <==> !old(Collides(g.ypos, g.xpos, g.height, g.width))
      ensures forall i, j :: 0 <= i < height && 0 <= j < width ==>
                reserved[i, j] ==
                  if InRect(g.ypos, g.xpos, g.height, g.width, i, j) &&
                     old(FreeUpTo(g.ypos, g.xpos, g.height, g.width, i, j))
                  then g.gid else old(reserved[i, j])
      ensures data == if ok then old(data)[g.gid := g] else old(data)
    {
      var y, x, h, w := g.ypos, g.xpos, g.height, g.width;
      for row := y to y + h
        invariant forall i, j :: 0 <= i < height && 0 <= j < width ==>
                    reserved[i, j] == if InRect(y, x, row - y, w, i, j) then g.gid else old(reserved[i, j])
        invariant forall i, j :: 0 <= i < height && 0 <= j < width && InRect(y, x, row - y, w, i, j) ==>
                    old(reserved[i, j]) == 0
        invariant data == old(data)
      {
        var rowOk, at := ReserveRow(row, x, w, g.gid);
        if !rowOk {
          // the rectangle's cells before (row, at) in row-major order were free and are now
          // stamped; (row, at) itself was reserved
          forall i, j | 0 <= i < height && 0 <= j < width && InRect(y, x, h, w, i, j)
            ensures old(FreeUpTo(y, x, h, w, i, j)) <==> LexLt(i, j, row, at)
          {
            if !LexLt(i, j, row, at) {
              assert !LexLt(i, j, row, at) && InRect(y, x, h, w, row, at);
            }
          }
          return false;
        }
      }
      data := data[g.gid := g];
      return true;
    }

    /** The inner loop of `reserve` for one row: stamps `id` into the in-bounds cells of
        columns x .. x + w - 1 left to right, and stops (false) at the first reserved one,
        whose column is `at`. A row past the bottom is skipped. */
    method ReserveRow(row: nat, x: nat, w: nat, id: nat) returns (ok: bool, ghost at: nat)
      requires Shape()
      modifies reserved
      ensures forall i, j :: 0 <= i < height && 0 <= j < width ==>
                reserved[i, j] ==
                  if i == row && x <= j < (if ok then x + w else at) then id else old(reserved[i, j])
      ensures forall j :: 0 <= j < width && row < height && x <= j < (if ok then x + w else at) ==>
                old(reserved[row, j]) == 0
      ensures !ok ==> row < height && x <= at < x + w && at < width && old(reserved[row, at]) != 0
    {
      for col := x to x + w
        invariant forall i, j :: 0 <= i < height && 0 <= j < width ==>
                    reserved[i, j] == if i == row && x <= j < col then id else old(reserved[i, j])
        invariant forall j :: 0 <= j < width && row < height && x <= j < col ==> old(reserved[row, j]) == 0
      {
        if row < height && col < width {
          if reserved[row, col] > 0 {
            return false, col;
          }
          reserved[row, col] := id;
        }
      }
      return true, x + w;
    }

    // ---------------------------------------------------------------- add

    /** `add(grid)`: search; if nothing was found, report false and change nothing;
        otherwise locate the grid at the result and reserve it. On a layout without a
        border that satisfies the ownership invariant, adding a grid whose id is not
        yet placed never raises and keeps the invariant. */
    method Add(g: TextGrid) returns (r: Result<bool>)
      requires Shape()
      modifies reserved, this`data, g`ypos, g`xpos
      ensures old(SearchSpec(g.height, g.width)).None? ==>
                r == Ok(false) && data == old(data) && unchanged(reserved) &&
                g.ypos == old(g.ypos) && g.xpos == old(g.xpos)
      ensures old(SearchSpec(g.height, g.width)).Some? ==>
                var p := old(SearchSpec(g.height, g.width)).value;
                g.ypos == p.ypos && g.xpos == p.xpos &&
                (r == Ok(true) <==> !old(Collides(p.ypos, p.xpos, g.height, g.width))) &&
                (r != Ok(true) ==> r == Err(AlreadyReserved)) &&
                (forall i, j :: 0 <= i < height && 0 <= j < width ==>
                   reserved[i, j] ==
                     if InRect(p.ypos, p.xpos, g.height, g.width, i, j) &&
                        old(FreeUpTo(p.ypos, p.xpos, g.height, g.width, i, j))
                     then g.gid else old(reserved[i, j])) &&
                data == if r == Ok(true) then old(data)[g.gid := g] else old(data)
      ensures !border && old(Owned()) && g.gid !in old(data) ==>
                r == Ok(old(SearchSpec(g.height, g.width)).Some?) && Owned()
    {
      ghost var wasOwned := Owned() && !border && g.gid !in data;
      var position := Search(g);
      if position.None? {
        return Ok(false);
      }
      if wasOwned {
        SearchFoundReached(g.height, g.width);
        assert g !in data.Values;
      }
      g.Locate(position.value.ypos, position.value.xpos);
      var ok := Reserve(g);
      if !ok {
        return Err(AlreadyReserved);
      }
      if wasOwned {
        // the stamped rectangle was free, so the new grid's cells hold its id; the grids
        // already placed are distinct from g and keep their positions
        forall i, j | 0 <= i < height && 0 <= j < width && InRect(g.ypos, g.xpos, g.height, g.width, i, j)
          ensures reserved[i, j] == g.gid && old(reserved[i, j]) == 0
        {
        }
        forall k | k in old(data)
          ensures old(data)[k] != g && data[k] == old(data)[k]
        {
        }
      }
      return Ok(true);
    }

    // ---------------------------------------------------------------- lines

    /** The character `lines` emits for cell (y, x): a blank when free, otherwise what the
        owner's `read` answers; KeyError when the id is not in `data`. */
    ghost function CellSpec(y: nat, x: nat): (r: Result<char>)
      requires Shape() && y < height && x < width
      reads this, reserved, data.Values
    {
      var id := reserved[y, x];
      if id == 0 then Ok(' ')
      else if id !in data then Err(KeyError)
      else data[id].Read(y, x)
    }

    ghost function RowCells(y: nat): (r: seq<Result<char>>)
      requires Shape() && y < height
      reads this, reserved, data.Values
    {
      seq(width, x requires 0 <= x < width reads this, reserved, data.Values => CellSpec(y, x))
    }

    ghost function RowTexts(): (r: seq<Result<string>>)
      requires Shape()
      reads this, reserved, data.Values
    {
      seq(height, y requires 0 <= y < height reads this, reserved, data.Values => Collect(RowCells(y)))
    }

    /** The padding `lines` puts on each side of a row. */
    function Pad(): (r: string)
    {
      if border then " " else ""
    }

    /** The rows padded on both sides, between a top and a bottom line of `width`
        blanks when the layout has a border. */
    function Framed(body: seq<string>): (r: seq<string>)
    {
      if border then [Spaces(width)] + Padded(body) + [Spaces(width)] else Padded(body)
    }

    /** Each row padded on both sides. */
    function Padded(body: seq<string>): (r: seq<string>)
      ensures |r| == |body| && forall k :: 0 <= k < |body| ==> r[k] == Pad() + body[k] + Pad()
    {
      seq(|body|, k requires 0 <= k < |body| => Pad() + body[k] + Pad())
    }

    /** The framed rows are the top line, the padded rows and, when bordered, the top line again. */
    lemma FramedTop(lines: seq<string>, body: seq<string>)
      requires lines == Top() + Padded(body)
      ensures border ==> |lines| > 0 && lines + [lines[0]] == Framed(body)
      ensures !border ==> lines == Framed(body)
    {
    }

    /** The lines `lines` has built before its first row: the top border line, if any. */
    function Top(): (r: seq<string>)
    {
      if border then [Spaces(width)] else []
    }

    /** What `lines` returns, or the first fault met in row-major order. */
    ghost function RenderSpec(): (r: Result<seq<string>>)
      requires Shape()
      reads this, reserved, data.Values
    {
      match Collect(RowTexts())
      case Err(f) => Err(f)
      case Ok(body) => Ok(Framed(body))
    }

    /** `lines`: one line per matrix row, a blank for each free cell and the owner's
        character for each reserved one, padded and framed when bordered. */
    method Lines() returns (r: Result<seq<string>>)
      requires Shape()
      ensures r == RenderSpec()
    {
      var lines: seq<string> := [];
      var bChar: string := "";
      if border {
        bChar := " ";
        lines := lines + [Spaces(width)];
      }
      ghost var body: seq<string> := [];
      for y := 0 to height
        invariant bChar == Pad()
        invariant Collect(RowTexts()[..y]) == Ok(body)
        invariant lines == Top() + Padded(body)
      {
        var line := RenderRow(y);
        assert RowTexts()[y] == line;
        CollectStep(RowTexts(), y, body);
        if line.Err? {
          CollectPrefixErr(RowTexts(), y + 1);
          return Err(line.fault);
        }
        assert Padded(body + [line.value]) == Padded(body) + [bChar + line.value + bChar];
        lines := lines + [bChar + line.value + bChar];
        body := body + [line.value];
      }
      assert RowTexts()[..height] == RowTexts();
      assert RenderSpec() == Ok(Framed(body));
      FramedTop(lines, body);
      if border {
        lines := lines + [lines[0]];
      }
      return Ok(lines);
    }

    /** The inner loop of `lines` for row y: the row's characters left to right, or the
        first fault met. */
    method RenderRow(y: nat) returns (r: Result<string>)
      requires Shape() && y < height
      ensures r == Collect(RowCells(y))
    {
      var line: string := "";
      for x := 0 to width
        invariant Collect(RowCells(y)[..x]) == Ok(line)
      {
        var id := reserved[y, x];
        CollectStep(RowCells(y), x, line);
        if id == 0 {
          line := line + " ";
        } else {
          if id !in data {
            CollectPrefixErr(RowCells(y), x + 1);
            return Err(KeyError);
          }
          var c := data[id].Read(y, x);
          if c.Err? {
            CollectPrefixErr(RowCells(y), x + 1);
            return Err(c.fault);
          }
          line := line + [c.value];
        }
      }
      assert RowCells(y)[..width] == RowCells(y);
      return Ok(line);
    }

    /** A rendering has `height` lines, plus a top and a bottom line of `width` blanks when
        bordered; each row line has `width` characters plus one blank on each side when
        bordered (so bordered output mixes lines of two widths), and shows each cell's
        character at the cell's position shifted by the padding. */
    lemma RenderShape()
      requires Shape() && RenderSpec().Ok?
      ensures |RenderSpec().value| == height + 2 * Offset()
      ensures border ==> RenderSpec().value[0] == Spaces(width) &&
                         RenderSpec().value[height + 1] == Spaces(width)
      ensures forall k :: Offset() <= k < height + Offset() ==>
                |RenderSpec().value[k]| == width + 2 * Offset()
      ensures forall i, j :: 0 <= i < height && 0 <= j < width ==>
                CellSpec(i, j) == Ok(RenderSpec().value[i + Offset()][j + Offset()])
    {
      CollectOk(RowTexts());
      var body := Collect(RowTexts()).value;
      assert |body| == height;
      forall i | 0 <= i < height
        ensures |body[i]| == width && forall j :: 0 <= j < width ==> CellSpec(i, j) == Ok(body[i][j])
      {
        CollectOk(RowCells(i));
      }
      assert |RenderSpec().value| == height + 2 * Offset();
      forall k | Offset() <= k < height + Offset()
        ensures |RenderSpec().value[k]| == width + 2 * Offset()
      {
        assert RenderSpec().value[k] == Pad() + body[k - Offset()] + Pad();
      }
      forall i, j | 0 <= i < height && 0 <= j < width
        ensures CellSpec(i, j) == Ok(RenderSpec().value[i + Offset()][j + Offset()])
      {
        assert RenderSpec().value[i + Offset()] == Pad() + body[i] + Pad();
      }
    }

    /** Under the ownership invariant, `lines` never meets `read`'s out-of-range error
        nor an id missing from `data`. */
    lemma RenderNeverOutOfRange()
      requires Owned()
      ensures RenderSpec() != Err(OutOfRange) && RenderSpec() != Err(KeyError)
    {
      if Collect(RowTexts()).Err? {
        var f := Collect(RowTexts()).fault;
        CollectErr(RowTexts());
        var y :| 0 <= y < height && RowTexts()[y] == Err(f) &&
                 forall j :: 0 <= j < y ==> RowTexts()[j].Ok?;
        CollectErr(RowCells(y));
        var x :| 0 <= x < width && RowCells(y)[x] == Err(f) &&
                 forall j :: 0 <= j < x ==> RowCells(y)[j].Ok?;
        assert CellSpec(y, x) == Err(f);
        assert reserved[y, x] in data && data[reserved[y, x]].Covers(y, x);
      }
    }

    /** Under the ownership invariant, and with every bordered grid at the origin, every
        cell renders: a blank when free, the owner's `read` answer when reserved. */
    lemma CellsShown()
      requires Owned()
      requires forall k :: k in data && data[k].border ==> data[k].ypos == 0 && data[k].xpos == 0
      ensures forall i, j :: 0 <= i < height && 0 <= j < width && reserved[i, j] != 0 ==>
                data[reserved[i, j]].Read(i, j).Ok?
      ensures forall i, j :: 0 <= i < height && 0 <= j < width ==>
                CellSpec(i, j) ==
                  if reserved[i, j] == 0 then Ok(' ') else data[reserved[i, j]].Read(i, j)
    {
      forall i, j | 0 <= i < height && 0 <= j < width && reserved[i, j] != 0
        ensures data[reserved[i, j]].Read(i, j).Ok?
      {
        var g := data[reserved[i, j]];
        assert g.Covers(i, j);
        if !(g.border && g.OnRing(i, j)) {
          g.ReadInside(i, j);
        }
      }
    }

    /** Under the same conditions `lines` succeeds. */
    lemma RenderShown()
      requires Owned()
      requires forall k :: k in data && data[k].border ==> data[k].ypos == 0 && data[k].xpos == 0
      ensures RenderSpec().Ok?
    {
      CellsShown();
      forall i | 0 <= i < height
        ensures RowTexts()[i].Ok?
      {
        CollectOk(RowCells(i));
      }
      CollectOk(RowTexts());
    }
  }
}
