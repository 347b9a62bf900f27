/** Shared vocabulary of the model: optional values, the faults the Python code
    can raise, Python's indexing and slicing rules, and a helper that gathers
    per-cell results in row-major order, stopping at the first fault. */
module Base {

  datatype Option<T> = None | Some(value: T)

  /** The exceptions the modelled code can raise.
      OutOfRange      - the explicit raise in TextGrid.read
      IndexError      - Python list/string indexing with an index that does not exist
      KeyError        - TextLayout.lines meeting an id that is not in `data`
      AlreadyReserved - the AssertionError raised by TextLayout.reserve */
  datatype Fault = OutOfRange | IndexError | KeyError | AlreadyReserved

  datatype Result<T> = Ok(value: T) | Err(fault: Fault)

  /** Grid ids come from a counter that starts at 1, so 0 can mark a free cell. */
  type Gid = n: nat | n >= 1 witness 1

  /** Python's `s[i]`: a negative index counts from the end; None where Python raises IndexError. */
  function PyIndex<T>(s: seq<T>, i: int): (r: Option<T>)
    ensures r.Some? <==> -|s| <= i < |s|
    ensures 0 <= i < |s| ==> r == Some(s[i])
    ensures -|s| <= i < 0 ==> r == Some(s[|s| + i])
  {
    if 0 <= i < |s| then Some(s[i])
    else if -|s| <= i < 0 then Some(s[|s| + i])
    else None
  }

  /** Python's slice `s[0:n]` for a non-negative `n`. */
  function Head<T>(s: seq<T>, n: nat): (r: seq<T>)
    ensures |r| <= n && r <= s
    ensures |s| <= n ==> r == s
    ensures n <= |s| ==> |r| == n
  {
    if |s| <= n then s else s[..n]
  }

  /** A string of `n` blanks. */
  function Spaces(n: nat): (r: string)
    ensures |r| == n && forall k :: 0 <= k < n ==> r[k] == ' '
  {
    seq(n, _ => ' ')
  }

  function Min(a: int, b: int): (r: int)
    ensures r <= a && r <= b && (r == a || r == b)
  {
    if a <= b then a else b
  }

  /** Row-major order on cells: (a, b) comes strictly before (c, d). */
  predicate LexLt(a: int, b: int, c: int, d: int) { a < c || (a == c && b < d) }

  /** The cell (i, j) lies in the rectangle of height h and width w whose top-left cell is (y, x). */
  predicate InRect(y: int, x: int, h: int, w: int, i: int, j: int)
  {
    y <= i < y + h && x <= j < x + w
  }

  /** Python's `s.split("\n")`: the pieces between newlines, always at least one. */
  function SplitLines(s: string): (r: seq<string>)
    ensures |r| >= 1
    ensures forall k :: 0 <= k < |r| ==> '\n' !in r[k]
    decreases |s|
  {
    if s == [] then [""]
    else
      var rest := SplitLines(s[1..]);
      if s[0] == '\n' then [""] + rest else [[s[0]] + rest[0]] + rest[1..]
  }

  /** Python's `"\n".join(ls)`. */
  function JoinLines(ls: seq<string>): (r: string)
    ensures |ls| == 1 ==> r == ls[0]
    ensures ls != [] ==> ls[0] <= r
    decreases |ls|
  {
    if ls == [] then "" else if |ls| == 1 then ls[0] else ls[0] + "\n" + JoinLines(ls[1..])
  }

  /** Splitting and joining again gives back the string. */
  lemma {:induction false} JoinSplit(s: string)
    ensures JoinLines(SplitLines(s)) == s
    decreases |s|
  {
    if s != [] {
      var rest := SplitLines(s[1..]);
      JoinSplit(s[1..]);
      if s[0] == '\n' {
        assert ([""] + rest)[1..] == rest;
      } else {
        var r := [[s[0]] + rest[0]] + rest[1..];
        if |rest| == 1 {
          assert r == [[s[0]] + rest[0]];
        } else {
          assert r[1..] == rest[1..];
          assert JoinLines(rest) == rest[0] + "\n" + JoinLines(rest[1..]);
        }
      }
    }
  }

  /** Joining newline-free lines and splitting again gives back the lines. */
  lemma {:induction false} SplitJoin(ls: seq<string>)
    requires |ls| >= 1 && forall k :: 0 <= k < |ls| ==> '\n' !in ls[k]
    ensures SplitLines(JoinLines(ls)) == ls
    decreases |ls|, |ls[0]|
  {
    if ls[0] == [] {
      if |ls| > 1 {
        SplitJoin(ls[1..]);
        assert JoinLines(ls) == "\n" + JoinLines(ls[1..]);
        assert ls == [""] + ls[1..];
      }
    } else {
      var tail := [ls[0][1..]] + ls[1..];
      assert '\n' !in ls[0][1..] by {
        forall c | c in ls[0][1..] ensures c != '\n' { assert c in ls[0]; }
      }
      SplitJoin(tail);
      assert JoinLines(ls) == [ls[0][0]] + JoinLines(tail) by {
        if |ls| == 1 {
          assert ls[0] == [ls[0][0]] + ls[0][1..];
        } else {
          assert tail[1..] == ls[1..];
          assert ls[0] == [ls[0][0]] + ls[0][1..];
        }
      }
      assert ls[0][0] != '\n' by { assert ls[0][0] in ls[0]; }
      assert JoinLines(ls)[1..] == JoinLines(tail);
      assert [ls[0][0]] + tail[0] == ls[0];
      assert tail[1..] == ls[1..];
      assert [[ls[0][0]] + tail[0]] + tail[1..] == ls;
    }
  }

  /** Python's `s.rstrip("\n")`: `s` without its trailing newlines. */
  function RStripNewlines(s: string): (r: string)
    ensures r <= s && (r == [] || r[|r| - 1] != '\n')
    ensures forall k :: |r| <= k < |s| ==> s[k] == '\n'
    decreases |s|
  {
    if s != [] && s[|s| - 1] == '\n' then RStripNewlines(s[..|s| - 1]) else s
  }

  /** Each line followed by a newline, as a loop that appends a line and then "\n" builds it. */
  function Terminated(ls: seq<string>): (r: string)
    ensures |r| >= |ls|
    ensures ls != [] ==> r[|r| - 1] == '\n'
    decreases |ls|
  {
    if ls == [] then "" else Terminated(ls[..|ls| - 1]) + ls[|ls| - 1] + "\n"
  }

  /** Stripping the trailing newline of newline-terminated lines joins them, provided
      the last line is not empty. */
  lemma {:induction false} StripTerminated(ls: seq<string>)
    requires |ls| >= 1 && ls[|ls| - 1] != [] && ls[|ls| - 1][|ls[|ls| - 1]| - 1] != '\n'
    ensures RStripNewlines(Terminated(ls)) == JoinLines(ls)
  {
    var front := ls[..|ls| - 1];
    assert Terminated(ls)[..|Terminated(ls)| - 1] == Terminated(front) + ls[|ls| - 1];
    TerminatedJoin(front, ls[|ls| - 1]);
    assert front + [ls[|ls| - 1]] == ls;
  }

  /** Newline-terminated lines followed by one more line are those lines joined. */
  lemma {:induction false} TerminatedJoin(front: seq<string>, last: string)
    ensures Terminated(front) + last == JoinLines(front + [last])
    decreases |front|
  {
    if front != [] {
      var rest := front[1..];
      assert (front + [last])[1..] == rest + [last];
      TerminatedJoin(rest, last);
      TerminatedCons(front);
    }
  }

  /** Terminated, unfolded from the front. */
  lemma {:induction false} TerminatedCons(ls: seq<string>)
    requires ls != []
    ensures Terminated(ls) == ls[0] + "\n" + Terminated(ls[1..])
    decreases |ls|
  {
    if |ls| > 1 {
      var front, rest, last := ls[..|ls| - 1], ls[1..], ls[|ls| - 1];
      TerminatedCons(front);
      assert front[1..] == rest[..|rest| - 1];
      assert Terminated(rest) == Terminated(front[1..]) + last + "\n";
      assert front[0] == ls[0];
      calc {
        Terminated(ls);
        Terminated(front) + last + "\n";
        ls[0] + "\n" + Terminated(front[1..]) + last + "\n";
        ls[0] + "\n" + (Terminated(front[1..]) + last + "\n");
      }
    } else {
      assert ls[..0] == [] && ls[1..] == [];
    }
  }

  /** The values of `rs` in order, or the first fault among them: what a loop
      that appends each value and raises on the first fault produces. */
  function Collect<T>(rs: seq<Result<T>>): (r: Result<seq<T>>)
    decreases |rs|
  {
    if rs == [] then Ok([])
    else
      match Collect(rs[..|rs| - 1])
      case Err(f) => Err(f)
      case Ok(vs) =>
        match rs[|rs| - 1]
        case Err(f) => Err(f)
        case Ok(v) => Ok(vs + [v])
  }

  /** One more step of the loop behind Collect. */
  lemma CollectStep<T>(rs: seq<Result<T>>, k: nat, vs: seq<T>)
    requires k < |rs| && Collect(rs[..k]) == Ok(vs)
    ensures rs[k].Ok? ==> Collect(rs[..k + 1]) == Ok(vs + [rs[k].value])
    ensures rs[k].Err? ==> Collect(rs[..k + 1]) == Err(rs[k].fault)
  {
    assert rs[..k + 1][..k] == rs[..k];
  }

  /** Once a prefix has failed, the whole sequence fails with the same fault. */
  lemma {:induction false} CollectPrefixErr<T>(rs: seq<Result<T>>, k: nat)
    requires k <= |rs| && Collect(rs[..k]).Err?
    ensures Collect(rs) == Collect(rs[..k])
    decreases |rs| - k
  {
    if k == |rs| {
      assert rs[..k] == rs;
    } else {
      assert rs[..k + 1][..k] == rs[..k];
      CollectPrefixErr(rs, k + 1);
    }
  }

  /** A loop that stops at the first fault yields that fault for the whole sequence. */
  lemma CollectFirstErr<T>(rs: seq<Result<T>>, k: nat)
    requires k < |rs| && Collect(rs[..k]).Ok? && rs[k].Err?
    ensures Collect(rs) == Err(rs[k].fault)
  {
    CollectStep(rs, k, Collect(rs[..k]).value);
    CollectPrefixErr(rs, k + 1);
  }

  /** Collect succeeds exactly when every element does, and then lists the values in order. */
  lemma {:induction false} CollectOk<T>(rs: seq<Result<T>>)
    ensures Collect(rs).Ok? <==> forall k :: 0 <= k < |rs| ==> rs[k].Ok?
    ensures Collect(rs).Ok? ==>
              |Collect(rs).value| == |rs| &&
              forall k :: 0 <= k < |rs| ==> Collect(rs).value[k] == rs[k].value
    decreases |rs|
  {
    if rs != [] {
      var front := rs[..|rs| - 1];
      CollectOk(front);
      assert forall k :: 0 <= k < |front| ==> front[k] == rs[k];
    }
  }

  /** When Collect fails, its fault is that of the first failing element. */
  lemma {:induction false} CollectErr<T>(rs: seq<Result<T>>)
    requires Collect(rs).Err?
    ensures exists k :: 0 <= k < |rs| && rs[k] == Err(Collect(rs).fault) &&
                        forall j :: 0 <= j < k ==> rs[j].Ok?
    decreases |rs|
  {
    var front := rs[..|rs| - 1];
    assert forall k :: 0 <= k < |front| ==> front[k] == rs[k];
    if Collect(front).Err? {
      CollectErr(front);
    } else {
      CollectOk(front);
      assert rs[|rs| - 1] == Err(Collect(rs).fault);
    }
  }
}
