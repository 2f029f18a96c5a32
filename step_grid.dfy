/** The step grid of the sequencer: three tracks of clickable cells, each
    cell pairing an on-screen rectangle with one "armed" flag. The metronome
    reads the flags to decide which tracks to trigger; mouse clicks flip them. */
module GuiHandling {

  /** The grid always has three tracks (hi-hat, snare, kick). */
  const TrackCount := 3

  /** Geometry of cell (i, j), in pixels: track i is a row, step j a column. */
  const Left := 10
  const Top := 20
  const ColumnPitch := 18
  const RowPitch := 25
  const CellSide := 15

  datatype Rect = Rect(x: int, y: int, width: int, height: int)
  datatype Point = Point(x: int, y: int)
  datatype Cell = Cell(rect: Rect, flag: bool)
  datatype Color = Color(r: int, g: int, b: int)

  /** A point lies inside a rectangle when it is strictly between its edges. */
  predicate Inside(r: Rect, p: Point) {
    r.x < p.x < r.x + r.width && r.y < p.y < r.y + r.height
  }

  /** The rectangle of step j on track i. */
  function CellRect(i: int, j: int): Rect {
    Rect(Left + j * ColumnPitch, Top + i * RowPitch, CellSide, CellSide)
  }

  /** The centre of the rectangle of step j on track i. */
  function CellCentre(i: int, j: int): Point {
    Point(Left + j * ColumnPitch + CellSide / 2, Top + i * RowPitch + CellSide / 2)
  }

  /** Every cell sits at its own grid position. */
  ghost predicate Layout(tracks: seq<seq<Cell>>) {
    forall i, j :: 0 <= i < |tracks| && 0 <= j < |tracks[i]| ==> tracks[i][j].rect == CellRect(i, j)
  }

  /** Track i of a freshly configured grid: only the first track is armed. */
  function DefaultTrack(i: int, steps: nat): seq<Cell> {
    seq(steps, j requires 0 <= j < steps => Cell(CellRect(i, j), i == 0))
  }

  /** The pattern the grid is reset to whenever the meter is configured. */
  function DefaultPattern(steps: nat): seq<seq<Cell>> {
    [DefaultTrack(0, steps), DefaultTrack(1, steps), DefaultTrack(2, steps)]
  }

  /** One click on a cell: its flag flips when the click is inside it. */
  function Flip(c: Cell, p: Point): Cell {
    if Inside(c.rect, p) then Cell(c.rect, !c.flag) else c
  }

  function ToggleTrack(track: seq<Cell>, p: Point): seq<Cell> {
    seq(|track|, j requires 0 <= j < |track| => Flip(track[j], p))
  }

  /** The whole grid after one click at p. */
  function Toggle(tracks: seq<seq<Cell>>, p: Point): seq<seq<Cell>> {
    seq(|tracks|, i requires 0 <= i < |tracks| => ToggleTrack(tracks[i], p))
  }

  /** Some cell among the first n of a track contains p. */
  ghost predicate HitInTrack(track: seq<Cell>, p: Point, n: int) {
    exists j :: 0 <= j < n && j < |track| && Inside(track[j].rect, p)
  }

  /** Some cell of the first n tracks contains p. */
  ghost predicate HitInTracks(tracks: seq<seq<Cell>>, p: Point, n: int) {
    exists i :: 0 <= i < n && i < |tracks| && HitInTrack(tracks[i], p, |tracks[i]|)
  }

  /** The default pattern has the requested length on every track, arms all of
      track 0, disarms tracks 1 and 2, and lays every cell out on the grid. */
  lemma DefaultPatternShape(steps: nat)
    ensures |DefaultPattern(steps)| == TrackCount
    ensures forall i :: 0 <= i < TrackCount ==> |DefaultPattern(steps)[i]| == steps
    ensures forall j :: 0 <= j < steps ==> DefaultPattern(steps)[0][j].flag
    ensures forall i, j :: 1 <= i < TrackCount && 0 <= j < steps ==> !DefaultPattern(steps)[i][j].flag
    ensures Layout(DefaultPattern(steps))
  {
  }

  /** Two cells never overlap: a point inside two cell rectangles is inside the same cell. */
  lemma CellsDisjoint(i: int, j: int, k: int, l: int, p: Point)
    requires Inside(CellRect(i, j), p) && Inside(CellRect(k, l), p)
    ensures i == k && j == l
  {
  }

  /** Clicking the same point twice restores the pattern. */
  lemma {:induction false} ToggleTwice(tracks: seq<seq<Cell>>, p: Point)
    ensures Toggle(Toggle(tracks, p), p) == tracks
  {
    var once := Toggle(tracks, p);
    var twice := Toggle(once, p);
    forall i | 0 <= i < |tracks|
      ensures twice[i] == tracks[i]
    {
      forall j | 0 <= j < |tracks[i]|
        ensures twice[i][j] == tracks[i][j]
      {
        assert once[i][j] == Flip(tracks[i][j], p);
      }
    }
  }

  /** A click changes only cells containing the click, only their flags, and
      on a laid-out grid at most one cell. */
  lemma ClickFlipsAtMostOneCell(tracks: seq<seq<Cell>>, p: Point)
    requires Layout(tracks)
    ensures |Toggle(tracks, p)| == |tracks|
    ensures forall i :: 0 <= i < |tracks| ==> |Toggle(tracks, p)[i]| == |tracks[i]|
    ensures forall i, j :: 0 <= i < |tracks| && 0 <= j < |tracks[i]| ==>
      Toggle(tracks, p)[i][j].rect == tracks[i][j].rect &&
      (Toggle(tracks, p)[i][j].flag != tracks[i][j].flag <==> Inside(tracks[i][j].rect, p))
    ensures forall i, j, k, l ::
      0 <= i < |tracks| && 0 <= j < |tracks[i]| && 0 <= k < |tracks| && 0 <= l < |tracks[k]| &&
      Toggle(tracks, p)[i][j] != tracks[i][j] && Toggle(tracks, p)[k][l] != tracks[k][l] ==>
      i == k && j == l
  {
    forall i, j, k, l |
      0 <= i < |tracks| && 0 <= j < |tracks[i]| && 0 <= k < |tracks| && 0 <= l < |tracks[k]| &&
      Toggle(tracks, p)[i][j] != tracks[i][j] && Toggle(tracks, p)[k][l] != tracks[k][l]
      ensures i == k && j == l
    {
      CellsDisjoint(i, j, k, l, p);
    }
  }

  /** A click keeps every cell at its grid position. */
  lemma ToggleKeepsLayout(tracks: seq<seq<Cell>>, p: Point)
    requires Layout(tracks)
    ensures Layout(Toggle(tracks, p))
  {
  }

  /** Clicking the centre of a laid-out cell flips exactly that cell. */
  lemma ClickOnCellFlipsIt(tracks: seq<seq<Cell>>, i: int, j: int)
    requires Layout(tracks) && 0 <= i < |tracks| && 0 <= j < |tracks[i]|
    ensures Toggle(tracks, CellCentre(i, j))[i][j].flag == !tracks[i][j].flag
    ensures forall k, l :: 0 <= k < |tracks| && 0 <= l < |tracks[k]| && (k, l) != (i, j) ==>
      Toggle(tracks, CellCentre(i, j))[k][l] == tracks[k][l]
  {
    var p := CellCentre(i, j);
    assert Inside(CellRect(i, j), p);
    forall k, l | 0 <= k < |tracks| && 0 <= l < |tracks[k]| && (k, l) != (i, j)
      ensures Toggle(tracks, p)[k][l] == tracks[k][l]
    {
      if Inside(CellRect(k, l), p) {
        CellsDisjoint(i, j, k, l, p);
      }
    }
  }

  /** The state of the step grid (class sequencerGui, without its drawing). */
  class SequencerGui {
    /** m_beats[3]: one vector of cells per track. */
    const tracks: array<seq<Cell>>
    var guiChanged: bool
    var highlightTick: int
    var tuplets: int

    ghost predicate Valid()
      reads tracks
    {
      tracks.Length == TrackCount &&
      |tracks[0]| == |tracks[1]| == |tracks[2]|
    }

    /** The number of steps on every track. */
    function Steps(): nat
      reads tracks
      requires Valid()
    {
      |tracks[0]|
    }

    /** A new grid has three empty tracks, no highlight and no pending change;
        the tuplet count is left undefined. */
    constructor ()
      ensures Valid() && fresh(tracks)
      ensures tracks[..] == [[], [], []]
      ensures !guiChanged && highlightTick == -1
    {
      tracks := new seq<Cell>[TrackCount](_ => []);
      guiChanged := false;
      highlightTick := -1;
    }

    /** Rebuild the grid for `quarters` beats of `newTuplets` steps each. A
        non-positive step count leaves the tracks as they were (only the tuplet
        count is already overwritten); otherwise the old pattern is discarded. */
    method Setup(quarters: int, newTuplets: int)
      requires Valid()
      modifies this`tuplets, this`guiChanged, tracks
      ensures Valid()
      ensures tuplets == newTuplets
      ensures quarters * newTuplets <= 0 ==> tracks[..] == old(tracks[..]) && guiChanged == old(guiChanged)
      ensures quarters * newTuplets > 0 ==> tracks[..] == DefaultPattern(quarters * newTuplets) && guiChanged
    {
      var steps := quarters * newTuplets;
      tuplets := newTuplets;
      if steps <= 0 {
        return;
      }
      for i := 0 to TrackCount
        invariant tuplets == newTuplets
        invariant forall k :: 0 <= k < i ==> tracks[k] == []
      {
        tracks[i] := [];
      }
      for i := 0 to TrackCount
        invariant tuplets == newTuplets
        invariant forall k :: 0 <= k < i ==> tracks[k] == DefaultTrack(k, steps)
        invariant forall k :: i <= k < TrackCount ==> tracks[k] == []
      {
        for j := 0 to steps
          invariant tuplets == newTuplets
          invariant tracks[i] == DefaultTrack(i, steps)[..j]
          invariant forall k :: 0 <= k < i ==> tracks[k] == DefaultTrack(k, steps)
          invariant forall k :: i < k < TrackCount ==> tracks[k] == []
        {
          if i == 0 {
            tracks[i] := tracks[i] + [Cell(CellRect(i, j), true)];
          } else {
            tracks[i] := tracks[i] + [Cell(CellRect(i, j), false)];
          }
        }
      }
      guiChanged := true;
      DefaultPatternShape(steps);
      assert tracks[..] == DefaultPattern(steps);
    }

    /** Highlight step `newHighlightTick`; no flag changes. */
    method Update(newHighlightTick: int)
      modifies this`highlightTick, this`guiChanged
      ensures highlightTick == newHighlightTick && guiChanged
    {
      highlightTick := newHighlightTick;
      guiChanged := true;
    }

    /** Whether step `tick` of track `whichTrack` is armed; out-of-range
        indices answer false instead of failing. */
    function IsTickHighlighted(tick: int, whichTrack: int): (armed: bool)
      reads tracks
      requires Valid()
      ensures armed ==> 0 <= whichTrack < TrackCount && 0 <= tick < Steps()
      ensures 0 <= whichTrack < TrackCount && 0 <= tick < Steps() ==> armed == tracks[whichTrack][tick].flag
    {
      if whichTrack < 0 || whichTrack >= TrackCount || tick < 0 || tick >= |tracks[whichTrack]| then
        false
      else
        tracks[whichTrack][tick].flag
    }

    /** A mouse click: every cell whose rectangle contains the click flips its
        flag, and the grid is marked changed when one did. */
    method CheckBox(click: Point)
      requires Valid()
      modifies this`guiChanged, tracks
      ensures Valid()
      ensures tracks[..] == Toggle(old(tracks[..]), click)
      ensures guiChanged == (old(guiChanged) || HitInTracks(old(tracks[..]), click, TrackCount))
    {
      ghost var before := tracks[..];
      ghost var changedBefore := guiChanged;
      for i := 0 to TrackCount
        invariant forall k :: 0 <= k < i ==> tracks[k] == ToggleTrack(before[k], click)
        invariant forall k :: i <= k < TrackCount ==> tracks[k] == before[k]
        invariant guiChanged == (changedBefore || HitInTracks(before, click, i))
      {
        ghost var row := tracks[..];
        for j := 0 to |tracks[i]|
          invariant |tracks[i]| == |before[i]|
          invariant forall l :: 0 <= l < j ==> tracks[i][l] == Flip(before[i][l], click)
          invariant forall l :: j <= l < |before[i]| ==> tracks[i][l] == before[i][l]
          invariant forall k :: 0 <= k < TrackCount && k != i ==> tracks[k] == row[k]
          invariant guiChanged == (changedBefore || HitInTracks(before, click, i) || HitInTrack(before[i], click, j))
        {
          var item := tracks[i][j];
          if Inside(item.rect, click) {
            tracks[i] := tracks[i][j := Cell(item.rect, !item.flag)];
            guiChanged := true;
          }
          assert HitInTrack(before[i], click, j + 1) <==> HitInTrack(before[i], click, j) || Inside(before[i][j].rect, click);
        }
        assert tracks[i] == ToggleTrack(before[i], click);
        assert HitInTracks(before, click, i + 1) <==> HitInTracks(before, click, i) || HitInTrack(before[i], click, |before[i]|);
      }
      assert tracks[..] == Toggle(before, click);
    }

    /** The colour of step `numberInVector`: grey, lighter on the first step of
        each beat, and tinted red on the highlighted step only. The tuplet count
        must have been set (a zero count divides by zero). */
    function RectangleColor(numberInVector: int): (c: Color)
      reads this
      requires tuplets != 0
      ensures c.g == c.b
      ensures c.g == 155 <==> numberInVector % tuplets == 0
      ensures c.g == 120 <==> numberInVector % tuplets != 0
      ensures c.r > c.g <==> numberInVector == highlightTick
      ensures c.r == c.g || c.r == c.g + 100
    {
      var addRed := if numberInVector == highlightTick then 100 else 0;
      if numberInVector % tuplets == 0 then Color(155 + addRed, 155, 155)
      else Color(120 + addRed, 120, 120)
    }
  }

  /** Before any highlight update (index -1) no step of the grid is tinted. */
  lemma NothingHighlightedInitially(gui: SequencerGui, n: int)
    requires gui.tuplets != 0 && gui.highlightTick == -1 && n >= 0
    ensures gui.RectangleColor(n).r == gui.RectangleColor(n).g
  {
  }
}
