/** Line cleanup of sTeX sources (`transform_line` and `cleanup_stex` in
    get_course_stex.py): comment lines and lines that open with a junk macro
    are dropped, every other line is kept whitespace-stripped. */
module StexCleanup {
  import opened Wrappers
  import opened Text

  /** Macros whose lines carry no course content. */
  const JunkTags: seq<string> := [
    "documentclass",
    "importmodule",
    "tociftopnotes",
    "libinput",
    "mhgraphics",
    "nvideonugget",
    "symdecl"
  ]

  /** The line opens with a backslash followed by one of the junk macros. */
  ghost predicate IsJunk(line: string) {
    exists t :: t in JunkTags && StartsWith(line, "\\" + t)
  }

  /** A line cleanup keeps as it is: stripped, no comment, no junk macro. */
  ghost predicate IsCleanLine(line: string) {
    IsStripped(line) && !StartsWith(line, "%") && !IsJunk(line)
  }

  /** The early-return scan over `tags`: does some tag, after a backslash, open
      the line? */
  function ScanTags(line: string, tags: seq<string>): (found: bool)
    ensures found <==> exists t :: t in tags && StartsWith(line, "\\" + t)
  {
    if tags == [] then false
    else if StartsWith(line, "\\" + tags[0]) then true
    else ScanTags(line, tags[1..])
  }

  /** `transform_line(line, debug)`: `None` drops the line. */
  function TransformLine(line: string, debug: bool): (r: Option<string>)
    ensures !debug && r.Some? ==> r.value == Strip(line) && IsCleanLine(r.value)
  {
    var s := Strip(line);
    if StartsWith(s, "%") then None
    else if ScanTags(s, JunkTags) then (if debug then Some("%% removed: " + s) else None)
    else Some(s)
  }

  /** The three outcomes of `transform_line`: a comment is dropped; a junk
      line is dropped, or marked as removed in debug mode; any other line is
      kept as its stripped form. */
  lemma TransformLineCases(line: string, debug: bool)
    ensures var s := Strip(line);
      && (StartsWith(s, "%") ==> TransformLine(line, debug) == None)
      && (!StartsWith(s, "%") && IsJunk(s) ==>
            TransformLine(line, debug) == if debug then Some("%% removed: " + s) else None)
      && (!StartsWith(s, "%") && !IsJunk(s) ==> TransformLine(line, debug) == Some(s))
  {
  }

  /** The lines that survive cleanup are exactly its fixed points: a line is
      kept unchanged if and only if it is clean. */
  lemma TransformLineFixedPoint(line: string)
    ensures TransformLine(line, false) == Some(line) <==> IsCleanLine(line)
  {
    if IsCleanLine(line) {
      StripOfStripped(line);
    }
  }

  /** A line that debug mode marks as removed is itself dropped by a later
      cleanup: the marker is a `%` comment. */
  lemma RemovedMarkerIsComment(line: string)
    requires TransformLine(line, true).Some? && TransformLine(line, false).None?
    ensures TransformLine(TransformLine(line, true).value, false).None?
  {
    var s := Strip(line);
    assert s != [] by {
      var t :| t in JunkTags && StartsWith(s, "\\" + t);
    }
    RemovedMarkerShape(s);
    CommentDropped("%% removed: " + s);
  }

  lemma RemovedMarkerShape(s: string)
    requires s != [] && IsStripped(s)
    ensures var m := "%% removed: " + s; IsStripped(m) && m != [] && m[0] == '%'
  {
    var m := "%% removed: " + s;
    assert m[12 + |s| - 1] == s[|s| - 1];
  }

  lemma CommentDropped(m: string)
    requires IsStripped(m) && m != [] && m[0] == '%'
    ensures TransformLine(m, false).None?
  {
    StripOfStripped(m);
    assert StartsWith(m, "%");
  }

  ghost predicate NoNewlines(lines: seq<string>) {
    forall k :: 0 <= k < |lines| ==> '\n' !in lines[k]
  }

  /** Stripping a line that has no newline leaves none. */
  lemma StripKeepsNoNewline(s: string)
    ensures '\n' in Strip(s) ==> '\n' in s
  {
    StripSlice(s);
    var i := |s| - |TrimStart(s)|;
    if '\n' in Strip(s) {
      var j :| 0 <= j < |Strip(s)| && Strip(s)[j] == '\n';
      assert s[i + j] == '\n';
    }
  }

  /** `transform_line` (without debug) applied to every line. */
  function Transformed(lines: seq<string>): seq<Option<string>>
  {
    seq(|lines|, i requires 0 <= i < |lines| => TransformLine(lines[i], false))
  }

  /** The present values, in order: the `if ... is not None` filter. */
  function Present<T>(xs: seq<Option<T>>): seq<T>
  {
    if xs == [] then []
    else (if xs[0].Some? then [xs[0].value] else []) + Present(xs[1..])
  }

  /** The positions of the present values. */
  function PresentPositions<T>(xs: seq<Option<T>>): seq<nat>
  {
    if xs == [] then []
    else (if xs[0].Some? then [0] else []) + Shift(PresentPositions(xs[1..]))
  }

  /** Every position moved one place on: positions in the tail of a list as
      positions in the whole list. */
  function Shift(pos: seq<nat>): seq<nat>
  {
    seq(|pos|, k requires 0 <= k < |pos| => pos[k] + 1)
  }

  /** There are as many present positions as present values, and no more
      than values. */
  lemma {:induction false} PresentLengths<T>(xs: seq<Option<T>>)
    ensures |PresentPositions(xs)| == |Present(xs)| <= |xs|
  {
    if xs != [] {
      PresentLengths(xs[1..]);
    }
  }

  /** The k-th present value is the one at the k-th present position. */
  lemma {:induction false} PresentAt<T>(xs: seq<Option<T>>, k: nat)
    requires k < |Present(xs)|
    ensures |PresentPositions(xs)| == |Present(xs)|
    ensures PresentPositions(xs)[k] < |xs| && xs[PresentPositions(xs)[k]] == Some(Present(xs)[k])
  {
    PresentLengths(xs);
    var tail := xs[1..];
    var p := PresentPositions(tail);
    if xs[0].Some? && k == 0 {
      assert PresentPositions(xs)[0] == 0 && Present(xs)[0] == xs[0].value;
    } else {
      var j := if xs[0].Some? then k - 1 else k;
      assert j < |Present(tail)| && PresentPositions(xs)[k] == p[j] + 1 && Present(xs)[k] == Present(tail)[j] by {
        PresentLengths(tail);
        if xs[0].Some? {
          assert PresentPositions(xs) == [0] + Shift(p);
          assert Present(xs) == [xs[0].value] + Present(tail);
        } else {
          assert PresentPositions(xs) == Shift(p);
          assert Present(xs) == Present(tail);
        }
      }
      PresentAt(tail, j);
      assert xs[p[j] + 1] == tail[p[j]];
    }
  }

  /** Every present value sits at its present position. */
  lemma PresentAtPositions<T>(xs: seq<Option<T>>)
    ensures |PresentPositions(xs)| == |Present(xs)| <= |xs|
    ensures forall k :: 0 <= k < |Present(xs)| ==>
      PresentPositions(xs)[k] < |xs| && xs[PresentPositions(xs)[k]] == Some(Present(xs)[k])
  {
    PresentLengths(xs);
    forall k | 0 <= k < |Present(xs)|
      ensures PresentPositions(xs)[k] < |xs| && xs[PresentPositions(xs)[k]] == Some(Present(xs)[k])
    {
      PresentAt(xs, k);
    }
  }

  /** The present positions increase strictly: the filter keeps the order. */
  lemma {:induction false} PresentPositionsIncrease<T>(xs: seq<Option<T>>)
    ensures forall k, m :: 0 <= k < m < |PresentPositions(xs)| ==>
      PresentPositions(xs)[k] < PresentPositions(xs)[m]
  {
    if xs != [] {
      PresentPositionsIncrease(xs[1..]);
    }
  }

  /** A position is listed exactly when a value is present there. */
  lemma {:induction false} PresentPositionsExact<T>(xs: seq<Option<T>>)
    ensures forall i :: 0 <= i < |xs| ==> (i in PresentPositions(xs) <==> xs[i].Some?)
  {
    if xs != [] {
      var tail := xs[1..];
      PresentPositionsExact(tail);
      var p := PresentPositions(tail);
      var pos := PresentPositions(xs);
      forall i | 0 < i < |xs| ensures i in pos <==> xs[i].Some? {
        assert xs[i] == tail[i - 1];
        if i - 1 in p {
          var k :| 0 <= k < |p| && p[k] == i - 1;
          assert Shift(p)[k] == i;
        }
        if i in Shift(p) {
          var k :| 0 <= k < |p| && Shift(p)[k] == i;
        }
      }
    }
  }

  /** When every value is present, the filter returns them all. */
  lemma {:induction false} PresentOfAllSome<T>(xs: seq<Option<T>>, vs: seq<T>)
    requires |xs| == |vs| && forall i :: 0 <= i < |xs| ==> xs[i] == Some(vs[i])
    ensures Present(xs) == vs
  {
    if xs != [] {
      PresentOfAllSome(xs[1..], vs[1..]);
      assert [vs[0]] + vs[1..] == vs;
    }
  }

  /** The list comprehension of `cleanup_stex`: every line transformed, the
      dropped ones filtered out. */
  function KeptLines(lines: seq<string>): (kept: seq<string>)
    ensures |kept| <= |lines|
    ensures forall k :: 0 <= k < |kept| ==> IsCleanLine(kept[k])
    ensures NoNewlines(lines) ==> NoNewlines(kept)
  {
    PresentLinesClean(lines);
    Present(Transformed(lines))
  }

  lemma PresentLinesClean(lines: seq<string>)
    ensures var kept := Present(Transformed(lines));
      |kept| <= |lines|
      && (forall k :: 0 <= k < |kept| ==> IsCleanLine(kept[k]))
      && (NoNewlines(lines) ==> NoNewlines(kept))
  {
    var xs := Transformed(lines);
    var kept := Present(xs);
    PresentAtPositions(xs);
    var pos := PresentPositions(xs);
    forall k | 0 <= k < |kept|
      ensures IsCleanLine(kept[k]) && ('\n' in kept[k] ==> '\n' in lines[pos[k]])
    {
      assert xs[pos[k]] == Some(kept[k]);
      assert TransformLine(lines[pos[k]], false) == Some(kept[k]);
      StripKeepsNoNewline(lines[pos[k]]);
    }
  }

  /** The kept lines are the stripped forms of exactly the lines that are not
      dropped, in their original relative order. */
  lemma KeptLinesInOrder(lines: seq<string>)
    ensures var pos := PresentPositions(Transformed(lines)); var kept := KeptLines(lines);
      |pos| == |kept|
      && (forall k :: 0 <= k < |pos| ==> pos[k] < |lines| && kept[k] == Strip(lines[pos[k]]))
      && (forall k, m :: 0 <= k < m < |pos| ==> pos[k] < pos[m])
      && (forall i :: 0 <= i < |lines| ==> (i in pos <==> TransformLine(lines[i], false).Some?))
  {
    var xs := Transformed(lines);
    PresentAtPositions(xs);
    PresentPositionsIncrease(xs);
    PresentPositionsExact(xs);
  }

  /** `cleanup_stex(text)`. */
  function CleanupStex(text: string): string {
    Join(KeptLines(Split(text)))
  }

  /** Every line of cleaned text is clean, and there are no more lines than
      before. */
  lemma CleanupStexLines(text: string)
    ensures var r := CleanupStex(text);
      (forall k :: 0 <= k < |Split(r)| ==> IsCleanLine(Split(r)[k]))
      && |Split(r)| <= |Split(text)|
  {
    var kept := KeptLines(Split(text));
    assert NoNewlines(Split(text));
    CleanupLines(kept);
  }

  /** The lines of cleaned text are the kept lines, or one empty line when
      nothing was kept. */
  lemma CleanupLines(kept: seq<string>)
    requires NoNewlines(kept)
    ensures Split(Join(kept)) == if kept == [] then [""] else kept
  {
    if kept != [] {
      SplitJoin(kept);
    }
  }

  /** Clean lines pass through the filter unchanged. */
  lemma KeptLinesOfClean(lines: seq<string>)
    requires forall k :: 0 <= k < |lines| ==> IsCleanLine(lines[k])
    ensures KeptLines(lines) == lines
  {
    forall i | 0 <= i < |lines| ensures Transformed(lines)[i] == Some(lines[i]) {
      TransformLineFixedPoint(lines[i]);
    }
    PresentOfAllSome(Transformed(lines), lines);
  }

  /** Cleaning already cleaned text changes nothing. */
  lemma CleanupIdempotent(text: string)
    ensures CleanupStex(CleanupStex(text)) == CleanupStex(text)
  {
    var kept := KeptLines(Split(text));
    assert NoNewlines(Split(text));
    if kept == [] {
      CleanupOfEmpty();
    } else {
      CleanupLines(kept);
      KeptLinesOfClean(kept);
    }
  }

  /** Empty text stays empty: its one empty line is clean. */
  lemma CleanupOfEmpty()
    ensures CleanupStex("") == ""
  {
    assert Split("") == [""];
    EmptyLineClean();
    KeptLinesOfClean([""]);
  }

  /** The empty line is clean. */
  lemma EmptyLineClean()
    ensures IsCleanLine("")
  {
    forall t | t in JunkTags ensures !StartsWith("", "\\" + t) {
      assert |"\\" + t| > 0;
    }
  }
}
