/**
 * The drawing canvas's stroke state: pointer handlers that start, extend and
 * finish a stroke, and undo and clear on the list of finished strokes.
 * Points are abstract coordinates; rendering is not modelled.
 */
module UseCanvas {

  datatype Point = Point(x: real, y: real)

  /** `s.slice(0, -1)`: all but the last element, and [] for []. */
  function DropLast<T>(s: seq<T>): (r: seq<T>)
    ensures |r| == if |s| == 0 then 0 else |s| - 1
    ensures forall i :: 0 <= i < |r| ==> r[i] == s[i]
  {
    if |s| == 0 then [] else s[..|s| - 1]
  }

  /** Undo takes back exactly the stroke just finished. */
  lemma {:induction false} UndoAfterFinish<T>(s: seq<T>, x: T)
    ensures DropLast(s + [x]) == s
  {
    assert (s + [x])[..|s|] == s;
  }

  /** A stroke under construction: its point list grows in place. */
  class Stroke {
    var points: seq<Point>
    const color: string
    const width: int

    constructor (start: Point, color: string, width: int)
      ensures points == [start] && this.color == color && this.width == width
    {
      points := [start];
      this.color := color;
      this.width := width;
    }

    /** `points.push(p)`. */
    method Push(p: Point)
      modifies this
      ensures points == old(points) + [p]
    {
      points := points + [p];
    }
  }

  class Canvas {
    var strokes: seq<Stroke>
    var isDrawing: bool
    var current: Stroke?
    var color: string
    var brushSize: int

    /** A stroke is in progress exactly while drawing; it is not yet among
        the finished strokes, and every stroke holds at least one point. */
    ghost predicate Valid()
      reads this, current, strokes
    {
      (isDrawing <==> current != null) &&
      (current != null ==> current !in strokes && |current.points| >= 1) &&
      (forall i :: 0 <= i < |strokes| ==> |strokes[i].points| >= 1)
    }

    constructor ()
      ensures Valid()
      ensures strokes == [] && !isDrawing && current == null
      ensures color == "#000000" && brushSize == 4
    {
      strokes := [];
      isDrawing := false;
      current := null;
      color := "#000000";
      brushSize := 4;
    }

    method SetColor(c: string)
      requires Valid()
      modifies this
      ensures Valid()
      ensures color == c
      ensures strokes == old(strokes) && isDrawing == old(isDrawing) && current == old(current)
      ensures brushSize == old(brushSize)
    {
      color := c;
    }

    method SetBrushSize(size: int)
      requires Valid()
      modifies this
      ensures Valid()
      ensures brushSize == size
      ensures strokes == old(strokes) && isDrawing == old(isDrawing) && current == old(current)
      ensures color == old(color)
    {
      brushSize := size;
    }

    /** `onPointerDown`: a new stroke with exactly the pressed point, in the
        current color and brush size; any unfinished stroke is dropped. */
    method PointerDown(p: Point)
      requires Valid()
      modifies this
      ensures Valid()
      ensures fresh(current) && current.points == [p]
      ensures current.color == color && current.width == brushSize && isDrawing
      ensures strokes == old(strokes) && color == old(color) && brushSize == old(brushSize)
    {
      current := new Stroke(p, color, brushSize);
      isDrawing := true;
    }

    /** `onPointerMove`: while drawing, the point is pushed onto the stroke in
        progress; otherwise nothing changes. */
    method PointerMove(p: Point)
      requires Valid()
      modifies current
      ensures Valid()
      ensures old(isDrawing) ==> current.points == old(current.points) + [p]
      ensures !old(isDrawing) ==> current == null
      ensures forall i :: 0 <= i < |strokes| ==> strokes[i].points == old(strokes[i].points)
    {
      if isDrawing && current != null {
        current.Push(p);
      }
    }

    /** `onPointerUp`: the stroke in progress, if any, joins the finished
        strokes; then nothing is in progress. */
    method PointerUp()
      requires Valid()
      modifies this
      ensures Valid()
      ensures old(current) != null ==> strokes == old(strokes) + [old(current)]
      ensures old(current) == null ==> strokes == old(strokes)
      ensures current == null && !isDrawing
      ensures color == old(color) && brushSize == old(brushSize)
    {
      if current != null && |current.points| >= 1 {
        strokes := strokes + [current];
      }
      current := null;
      isDrawing := false;
    }

    /** `undo`: drops the last finished stroke, if there is one. */
    method Undo()
      requires Valid()
      modifies this
      ensures Valid()
      ensures strokes == DropLast(old(strokes))
      ensures current == old(current) && isDrawing == old(isDrawing)
      ensures color == old(color) && brushSize == old(brushSize)
    {
      strokes := DropLast(strokes);
    }

    /** `clear`: no finished strokes remain. */
    method Clear()
      requires Valid()
      modifies this
      ensures Valid()
      ensures strokes == []
      ensures current == old(current) && isDrawing == old(isDrawing)
      ensures color == old(color) && brushSize == old(brushSize)
    {
      strokes := [];
    }

    /** `hasStrokes`. */
    function HasStrokes(): (b: bool)
      reads this
      ensures b <==> strokes != []
    {
      |strokes| > 0
    }
  }
}
