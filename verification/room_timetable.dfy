/** The per-room timetable screen: a flattened, row-major grid of cells with a
    header row (corner plus day headers) and one row per half-hour label, into
    which schedule entries are written slot by slot. Week view has 8 columns
    (time label plus seven days), day view has 2 (time label plus the current
    day). Placement never merges: every half-hour slot of an entry becomes its
    own block of height 1, and a later entry overwrites an earlier one. */
module RoomTimetable {
  import opened Base
  import opened Text
  import opened Axes

  /** A schedule entry as the screen builds it from the server's JSON. */
  datatype ScheduleEntry = ScheduleEntry(
    scheduleId: int,
    dayName: string,
    startDisplay: string,
    endDisplay: string,
    subject: string,
    section: string,
    teacher: string,
    status: string)

  /** One cell of the flattened grid. */
  datatype TimetableItem =
    | Header(text: string)
    | TimeLabel(time: string)
    | Empty
    | ClassBlock(
        scheduleId: int,
        subject: string,
        section: string,
        teacher: string,
        rowSpan: int,
        status: string,
        dayName: string,
        timeSlot: string)

  /** Week view, or day view showing only `currentDay`. */
  datatype ViewMode = WeekView | DayView(currentDay: string)

  function NumColumns(m: ViewMode): (n: nat)
    ensures n == 8 || n == 2
  {
    if m.WeekView? then 8 else 2
  }

  /** The header row holds the corner and one header per body column: seven
      day headers in week view, the current day's in day view. */
  lemma ColumnsMatchHeaders(m: ViewMode)
    ensures NumColumns(m) == 1 + |DayHeaders(m)|
    ensures m.WeekView? ==> NumColumns(m) == 1 + |Days|
    ensures m.DayView? ==> NumColumns(m) == 2 && DayHeaders(m) == [Header(UpperStr(m.currentDay))]
  {
    AxesSizes();
  }

  // The arithmetic below is written per view with the column count as a
  // literal, so that the solver only ever divides by a constant.

  /** One header row plus one row per time label: `NumColumns × 26` cells. */
  function GridSize(m: ViewMode): (n: nat)
    ensures n == NumColumns(m) * (1 + |TimeSlots|)
  {
    if m.WeekView? then 8 * (1 + |TimeSlots|) else 2 * (1 + |TimeSlots|)
  }

  /** The column of a position. */
  function ColOf(m: ViewMode, pos: nat): (c: nat)
    ensures c < NumColumns(m)
  {
    if m.WeekView? then pos % 8 else pos % 2
  }

  /** The time-axis row of a position (the header row is row -1). */
  function RowOf(m: ViewMode, pos: nat): int {
    if m.WeekView? then pos / 8 - 1 else pos / 2 - 1
  }

  /** Headers (the first row) and time labels (the first column). */
  predicate IsFrame(m: ViewMode, pos: nat) {
    pos < NumColumns(m) || ColOf(m, pos) == 0
  }

  /** The flattened position of time row `row` and column `col`, as
      `populateTimetable` computes it: the header row, then `row` full rows,
      then the column. */
  function Position(m: ViewMode, row: nat, col: nat): nat {
    if m.WeekView? then 8 + row * 8 + col else 2 + row * 2 + col
  }

  /** Row-major addressing is a bijection between (row, column) pairs and body
      positions, and every time row lies inside the grid. */
  lemma PositionDecode(m: ViewMode, pos: nat, row: nat, col: nat)
    requires col < NumColumns(m)
    ensures pos == Position(m, row, col) <==> (pos >= NumColumns(m) && ColOf(m, pos) == col && RowOf(m, pos) == row)
    ensures row < |TimeSlots| ==> Position(m, row, col) < GridSize(m)
  {
    if m.WeekView? {
      assert NumColumns(m) == 8;
    } else {
      assert NumColumns(m) == 2;
    }
  }

  // ------------------------------------------------------------- skeleton

  function Blanks(n: nat): (r: seq<TimetableItem>)
    ensures |r| == n && forall i :: 0 <= i < n ==> r[i] == Empty
  {
    if n == 0 then [] else [Empty] + Blanks(n - 1)
  }

  /** For each label, the label cell followed by `width - 1` empty cells. */
  function TimeRows(labels: seq<string>, width: nat): seq<TimetableItem>
    requires width >= 1
  {
    if |labels| == 0 then []
    else [TimeLabel(labels[0])] + Blanks(width - 1) + TimeRows(labels[1..], width)
  }

  /** The day headers: the three-letter upper-case names in week view, the
      upper-case current day in day view. */
  function DayHeaders(m: ViewMode): seq<TimetableItem> {
    match m
    case WeekView => AbbreviatedHeaders(Days)
    case DayView(d) => [Header(UpperStr(d))]
  }

  function AbbreviatedHeaders(days: seq<string>): (r: seq<TimetableItem>)
    requires forall i :: 0 <= i < |days| ==> |days[i]| >= 3
    ensures |r| == |days|
    ensures forall i :: 0 <= i < |days| ==> r[i] == Header(UpperStr(days[i][..3]))
  {
    if |days| == 0 then [] else [Header(UpperStr(days[0][..3]))] + AbbreviatedHeaders(days[1..])
  }

  /** What the skeleton holds at each position, stated by coordinates. */
  function SkeletonCell(m: ViewMode, pos: nat): TimetableItem
    requires pos < GridSize(m)
  {
    if pos == 0 then Header("")
    else if pos < NumColumns(m) then
      (match m
       case WeekView => Header(UpperStr(Days[pos - 1][..3]))
       case DayView(d) => Header(UpperStr(d)))
    else if ColOf(m, pos) == 0 then
      PositionBounds(m, pos);
      TimeLabel(TimeSlots[RowOf(m, pos)])
    else Empty
  }

  lemma PositionBounds(m: ViewMode, pos: nat)
    requires NumColumns(m) <= pos < GridSize(m)
    ensures 0 <= RowOf(m, pos) < |TimeSlots|
  {
  }

  /** The number of cells in `rows` full rows of view `m`. */
  function Cells(m: ViewMode, rows: nat): (n: nat)
    ensures n == NumColumns(m) * rows
  {
    if m.WeekView? then 8 * rows else 2 * rows
  }

  /** The time rows of view `m` take one full row per label. */
  lemma {:induction false} TimeRowsLength(m: ViewMode, labels: seq<string>)
    ensures |TimeRows(labels, NumColumns(m))| == Cells(m, |labels|)
    decreases |labels|
  {
    if |labels| > 0 {
      TimeRowsLength(m, labels[1..]);
    }
  }

  /** Position `k` of the time rows of view `m` holds a label at the start of
      each row and an empty cell elsewhere. */
  lemma {:induction false} TimeRowsAt(m: ViewMode, labels: seq<string>, k: nat)
    requires k < Cells(m, |labels|)
    ensures k < |TimeRows(labels, NumColumns(m))|
    ensures TimeRows(labels, NumColumns(m))[k] ==
      (if ColOf(m, k) == 0 then TimeLabel(labels[RowOf(m, k) + 1]) else Empty)
    decreases |labels|
  {
    var w := NumColumns(m);
    TimeRowsLength(m, labels);
    var head := [TimeLabel(labels[0])] + Blanks(w - 1);
    var tail := TimeRows(labels[1..], w);
    assert TimeRows(labels, w) == head + tail;
    if k < w {
      assert ColOf(m, k) == k && RowOf(m, k) == -1;
    } else {
      TimeRowsAt(m, labels[1..], k - w);
      if m.WeekView? {
        assert (k - 8) % 8 == k % 8 && (k - 8) / 8 == k / 8 - 1;
      } else {
        assert (k - 2) % 2 == k % 2 && (k - 2) / 2 == k / 2 - 1;
      }
      assert labels[1..][RowOf(m, k)] == labels[RowOf(m, k) + 1];
    }
  }

  /** The time rows for any label list, read at a body position. */
  lemma LabelRowsCell(m: ViewMode, labels: seq<string>, pos: nat)
    requires NumColumns(m) <= pos < Cells(m, 1 + |labels|)
    ensures 0 <= RowOf(m, pos) < |labels|
    ensures pos - NumColumns(m) < |TimeRows(labels, NumColumns(m))|
    ensures TimeRows(labels, NumColumns(m))[pos - NumColumns(m)] ==
      (if ColOf(m, pos) == 0 then TimeLabel(labels[RowOf(m, pos)]) else Empty)
  {
    var nc := NumColumns(m);
    if m.WeekView? {
      assert pos / 8 - 1 < |labels|;
      assert (pos - 8) % 8 == pos % 8 && (pos - 8) / 8 == pos / 8 - 1;
    } else {
      assert pos / 2 - 1 < |labels|;
      assert (pos - 2) % 2 == pos % 2 && (pos - 2) / 2 == pos / 2 - 1;
    }
    TimeRowsAt(m, labels, pos - nc);
  }

  /** `setupTimetableGrid`: the corner, the day headers, then for every time
      label the label followed by empty cells. The result has exactly
      `NumColumns × 26` cells and each holds what its coordinates prescribe. */
  function BuildSkeleton(m: ViewMode): (r: seq<TimetableItem>)
    ensures |r| == GridSize(m)
    ensures forall pos :: 0 <= pos < |r| ==> r[pos] == SkeletonCell(m, pos)
  {
    var head := [Header("")] + DayHeaders(m);
    var body := TimeRows(TimeSlots, NumColumns(m));
    HeaderRowCells(m);
    TimeRowsLength(m, TimeSlots);
    forall pos | 0 <= pos < |head + body| ensures (head + body)[pos] == SkeletonCell(m, pos) {
      if pos >= |head| {
        BodyCell(m, pos, TimeSlots);
      }
    }
    head + body
  }

  lemma HeaderRowCells(m: ViewMode)
    ensures var head := [Header("")] + DayHeaders(m);
      |head| == NumColumns(m) && forall pos :: 0 <= pos < |head| ==> head[pos] == SkeletonCell(m, pos)
  {
    AxesSizes();
  }

  /** A body position of the skeleton holds the label of its row in the
      first column and is empty elsewhere. (`labels` stands for the time axis
      so that the solver does not unfold the literal list.) */
  lemma BodyCell(m: ViewMode, pos: nat, labels: seq<string>)
    requires labels == TimeSlots
    requires NumColumns(m) <= pos < GridSize(m)
    ensures pos - NumColumns(m) < |TimeRows(labels, NumColumns(m))|
    ensures TimeRows(labels, NumColumns(m))[pos - NumColumns(m)] == SkeletonCell(m, pos)
  {
    LabelRowsCell(m, labels, pos);
    SkeletonBodyCell(m, pos);
  }

  lemma SkeletonBodyCell(m: ViewMode, pos: nat)
    requires NumColumns(m) <= pos < GridSize(m)
    ensures 0 <= RowOf(m, pos) < |TimeSlots|
    ensures SkeletonCell(m, pos) == if ColOf(m, pos) == 0 then TimeLabel(TimeSlots[RowOf(m, pos)]) else Empty
  {
    PositionBounds(m, pos);
  }

  // ------------------------------------------------------------ clearing

  /** The frame of `g` is the skeleton's frame: same size, same headers and
      time labels. */
  predicate HasSkeletonFrame(m: ViewMode, g: seq<TimetableItem>) {
    |g| == GridSize(m) &&
    forall pos :: 0 <= pos < |g| && IsFrame(m, pos) ==> g[pos] == SkeletonCell(m, pos)
  }

  /** Step 1 of `populateTimetable`: every body cell becomes empty, headers and
      time labels stay. */
  method ClearBody(g: seq<TimetableItem>, m: ViewMode) returns (r: seq<TimetableItem>)
    ensures |r| == |g|
    ensures forall pos :: 0 <= pos < |r| && IsFrame(m, pos) ==> r[pos] == g[pos]
    ensures forall pos :: 0 <= pos < |r| && !IsFrame(m, pos) ==> r[pos] == Empty
  {
    var nc := NumColumns(m);
    r := g;
    var i := 0;
    while i < |r|
      invariant 0 <= i <= |r| == |g|
      invariant forall pos :: 0 <= pos < |r| && (IsFrame(m, pos) || pos >= i) ==> r[pos] == g[pos]
      invariant forall pos :: 0 <= pos < i && !IsFrame(m, pos) ==> r[pos] == Empty
    {
      if i >= nc && ColOf(m, i) != 0 {
        r := r[i := Empty];
      }
      i := i + 1;
    }
  }

  /** A grid that carries the skeleton's frame and an empty body is the
      skeleton: clearing a grid with the skeleton's frame gives back the
      skeleton itself. */
  lemma ClearedFrameIsSkeleton(m: ViewMode, g: seq<TimetableItem>, r: seq<TimetableItem>)
    requires HasSkeletonFrame(m, g) && |r| == |g|
    requires forall pos :: 0 <= pos < |r| && IsFrame(m, pos) ==> r[pos] == g[pos]
    requires forall pos :: 0 <= pos < |r| && !IsFrame(m, pos) ==> r[pos] == Empty
    ensures r == BuildSkeleton(m)
  {
    var s := BuildSkeleton(m);
    forall pos | 0 <= pos < |r| ensures r[pos] == s[pos] {
      if !IsFrame(m, pos) {
        SkeletonBodyIsEmpty(m, pos);
      }
    }
  }

  lemma SkeletonBodyIsEmpty(m: ViewMode, pos: nat)
    requires pos < GridSize(m) && !IsFrame(m, pos)
    ensures SkeletonCell(m, pos) == Empty
  {
  }

  // ------------------------------------------------------------ placement

  /** Where a valid entry goes: its day column and the half-open row range
      from its start label up to (not including) its end label. */
  datatype Placement = Placement(col: nat, startRow: nat, endRow: nat)

  /** Where `populateTimetable` places an entry: None when one of its skip
      rules drops the entry, otherwise the column of its day and the rows of
      its start and end labels. */
  function Resolve(m: ViewMode, e: ScheduleEntry): (r: Option<Placement>)
    ensures r.Some? ==> 1 <= r.value.col < NumColumns(m) && r.value.startRow < r.value.endRow < |TimeSlots|
  {
    var dayColumnIndex := if m.WeekView? then IndexOf(Days, e.dayName) + 1 else 1;
    if m.DayView? && e.dayName != m.currentDay then None
    else if dayColumnIndex <= 0 && m.WeekView? then None
    else
      var startRow := IndexOf(TimeSlots, e.startDisplay);
      var endRow := IndexOf(TimeSlots, e.endDisplay);
      if startRow == -1 || endRow == -1 || startRow >= endRow then None
      else Some(Placement(dayColumnIndex, startRow, endRow))
  }

  /** The skip rules of `populateTimetable`. An entry is dropped exactly when
      its day is not a week day (week view) or is not the current day (day
      view), when either label is not on the time axis, or when the start is
      not before the end; otherwise it is placed in the column of its day,
      from the row of its start label up to the row of its end label. */
  lemma ResolveRules(m: ViewMode, e: ScheduleEntry)
    ensures Resolve(m, e).None? <==>
      || (m.WeekView? && e.dayName !in Days)
      || (m.DayView? && e.dayName != m.currentDay)
      || e.startDisplay !in TimeSlots
      || e.endDisplay !in TimeSlots
      || IndexOf(TimeSlots, e.startDisplay) >= IndexOf(TimeSlots, e.endDisplay)
    ensures Resolve(m, e).Some? ==>
      var p := Resolve(m, e).value;
      && TimeSlots[p.startRow] == e.startDisplay
      && TimeSlots[p.endRow] == e.endDisplay
      && (m.WeekView? ==> Days[p.col - 1] == e.dayName)
      && (m.DayView? ==> p.col == 1 && e.dayName == m.currentDay)
  {
    ResolveDropRule(m, e);
    ResolvePlacementFacts(m, e);
  }

  lemma ResolveDropRule(m: ViewMode, e: ScheduleEntry)
    ensures Resolve(m, e).None? <==>
      || (m.WeekView? && e.dayName !in Days)
      || (m.DayView? && e.dayName != m.currentDay)
      || e.startDisplay !in TimeSlots
      || e.endDisplay !in TimeSlots
      || IndexOf(TimeSlots, e.startDisplay) >= IndexOf(TimeSlots, e.endDisplay)
  {
    var s := IndexOf(TimeSlots, e.startDisplay);
    var t := IndexOf(TimeSlots, e.endDisplay);
    if m.WeekView? {
      var d := IndexOf(Days, e.dayName);
      assert d == -1 <==> e.dayName !in Days;
    }
    assert s == -1 <==> e.startDisplay !in TimeSlots;
    assert t == -1 <==> e.endDisplay !in TimeSlots;
  }

  lemma ResolvePlacementFacts(m: ViewMode, e: ScheduleEntry)
    ensures Resolve(m, e).Some? ==>
      var p := Resolve(m, e).value;
      && TimeSlots[p.startRow] == e.startDisplay
      && TimeSlots[p.endRow] == e.endDisplay
      && (m.WeekView? ==> Days[p.col - 1] == e.dayName)
      && (m.DayView? ==> p.col == 1 && e.dayName == m.currentDay)
  {
  }

  /** Position `pos` lies in the column and row range of placement `p`. */
  predicate InPlacement(m: ViewMode, p: Placement, pos: nat) {
    pos >= NumColumns(m) && ColOf(m, pos) == p.col && p.startRow <= RowOf(m, pos) < p.endRow
  }

  /** Entry `e` writes position `pos`. */
  predicate Covers(m: ViewMode, e: ScheduleEntry, pos: nat) {
    var r := Resolve(m, e);
    r.Some? && InPlacement(m, r.value, pos)
  }

  /** The block written for entry `e` in time row `row`: height 1, carrying the
      entry's identity and that row's own label. */
  function Block(e: ScheduleEntry, row: nat): TimetableItem
    requires row < |TimeSlots|
  {
    ClassBlock(e.scheduleId, e.subject, e.section, e.teacher, 1, e.status, e.dayName, TimeSlots[row])
  }

  lemma CoversIsBody(m: ViewMode, e: ScheduleEntry, pos: nat)
    requires Covers(m, e, pos)
    ensures !IsFrame(m, pos)
    ensures 0 <= RowOf(m, pos) < |TimeSlots|
  {
  }

  /** The positions a valid entry writes, one per row of its range. */
  function EntryPositions(m: ViewMode, p: Placement): (ps: seq<int>)
    requires 1 <= p.col < NumColumns(m) && p.startRow <= p.endRow
  {
    seq(p.endRow - p.startRow, (k: nat) => Position(m, p.startRow + k, p.col))
  }

  /** A placement covers exactly `endRow - startRow` positions, one per row
      from its start label up to but excluding its end label, all distinct,
      inside the grid and never in the header row or the time-label column. */
  lemma PlacementCoverage(m: ViewMode, p: Placement)
    requires 1 <= p.col < NumColumns(m) && p.startRow <= p.endRow <= |TimeSlots|
    ensures var ps := EntryPositions(m, p);
      && |ps| == p.endRow - p.startRow
      && (forall pos: nat :: InPlacement(m, p, pos) <==> pos in ps)
      && (forall i, j :: 0 <= i < j < |ps| ==> ps[i] != ps[j])
      && (forall i :: 0 <= i < |ps| ==> 0 <= ps[i] < GridSize(m) && !IsFrame(m, ps[i]))
  {
    var ps := EntryPositions(m, p);
    forall pos: nat ensures InPlacement(m, p, pos) <==> pos in ps {
      if InPlacement(m, p, pos) {
        var row: nat := RowOf(m, pos);
        PositionDecode(m, pos, row, p.col);
        assert ps[row - p.startRow] == pos;
      }
      if pos in ps {
        var k :| 0 <= k < |ps| && ps[k] == pos;
        PositionDecode(m, pos, p.startRow + k, p.col);
      }
    }
    EntryPositionsDistinct(m, p);
  }

  lemma EntryPositionsDistinct(m: ViewMode, p: Placement)
    requires 1 <= p.col < NumColumns(m) && p.startRow <= p.endRow <= |TimeSlots|
    ensures var ps := EntryPositions(m, p);
      && (forall i, j :: 0 <= i < j < |ps| ==> ps[i] != ps[j])
      && (forall i :: 0 <= i < |ps| ==> 0 <= ps[i] < GridSize(m) && !IsFrame(m, ps[i]))
  {
    var ps := EntryPositions(m, p);
    forall i, j | 0 <= i < j < |ps| ensures ps[i] != ps[j] {
      PositionDecode(m, Position(m, p.startRow + i, p.col), p.startRow + i, p.col);
      PositionDecode(m, Position(m, p.startRow + j, p.col), p.startRow + j, p.col);
    }
    forall i | 0 <= i < |ps| ensures 0 <= ps[i] < GridSize(m) && !IsFrame(m, ps[i]) {
      PositionDecode(m, Position(m, p.startRow + i, p.col), p.startRow + i, p.col);
    }
  }

  /** The last label, 7:00 PM, can only ever end a range: no entry covers
      the bottom row. */
  lemma BottomRowNeverCovered(m: ViewMode, e: ScheduleEntry, pos: nat)
    requires pos >= NumColumns(m) && RowOf(m, pos) == |TimeSlots| - 1
    ensures !Covers(m, e, pos)
  {
  }

  /** Writes the block of `e` into every position of placement `p`, one
      row at a time, keeping every other cell. */
  method WriteBlocks(g: seq<TimetableItem>, m: ViewMode, p: Placement, e: ScheduleEntry) returns (r: seq<TimetableItem>)
    requires |g| == GridSize(m)
    requires 1 <= p.col < NumColumns(m) && p.startRow <= p.endRow <= |TimeSlots|
    ensures |r| == |g|
    ensures forall pos :: 0 <= pos < |r| && InPlacement(m, p, pos) ==> r[pos] == Block(e, RowOf(m, pos))
    ensures forall pos :: 0 <= pos < |r| && !InPlacement(m, p, pos) ==> r[pos] == g[pos]
  {
    r := g;
    var row := p.startRow;
    while row < p.endRow
      invariant p.startRow <= row <= p.endRow
      invariant |r| == |g|
      invariant forall pos :: 0 <= pos < |r| && InPlacement(m, p, pos) && RowOf(m, pos) < row ==> r[pos] == Block(e, RowOf(m, pos))
      invariant forall pos :: 0 <= pos < |r| && !(InPlacement(m, p, pos) && RowOf(m, pos) < row) ==> r[pos] == g[pos]
    {
      var position := Position(m, row, p.col);
      PositionDecode(m, position, row, p.col);
      forall pos | 0 <= pos < |r| ensures pos == position <==> (InPlacement(m, p, pos) && RowOf(m, pos) == row) {
        PositionDecode(m, pos, row, p.col);
      }
      r := r[position := Block(e, row)];
      row := row + 1;
    }
  }

  /** Step 2 of `populateTimetable` for one entry: an entry the skip rules
      drop leaves the grid as it is; otherwise for each row of its range a
      block with that row's label is written in the entry's column, and
      every other cell is kept. */
  method PlaceEntry(g: seq<TimetableItem>, m: ViewMode, e: ScheduleEntry) returns (r: seq<TimetableItem>)
    requires |g| == GridSize(m)
    ensures |r| == |g|
    ensures forall pos :: 0 <= pos < |r| && Covers(m, e, pos) ==> r[pos] == Block(e, RowOf(m, pos))
    ensures forall pos :: 0 <= pos < |r| && !Covers(m, e, pos) ==> r[pos] == g[pos]
  {
    var placement := Resolve(m, e);
    if placement.None? {
      r := g;
    } else {
      r := WriteBlocks(g, m, placement.value, e);
    }
  }

  /** The last entry, in input order, that covers `pos`. */
  function LastCovering(m: ViewMode, es: seq<ScheduleEntry>, pos: nat): (r: Option<ScheduleEntry>)
    ensures r.Some? ==> r.value in es && Covers(m, r.value, pos)
    ensures r.None? <==> forall i :: 0 <= i < |es| ==> !Covers(m, es[i], pos)
  {
    if |es| == 0 then None
    else if Covers(m, es[|es| - 1], pos) then Some(es[|es| - 1])
    else
      var r := LastCovering(m, es[..|es| - 1], pos);
      assert forall i :: 0 <= i < |es| - 1 ==> es[..|es| - 1][i] == es[i];
      r
  }

  /** The body cell that the entries `es` leave at `pos`: the block of the
      last entry covering it, or empty. */
  function ExpectedCell(m: ViewMode, es: seq<ScheduleEntry>, pos: nat): TimetableItem {
    match LastCovering(m, es, pos)
    case None => Empty
    case Some(e) =>
      CoversIsBody(m, e, pos);
      Block(e, RowOf(m, pos))
  }

  /** `r` is the grid `populateTimetable` leaves from `g` and `es`: the frame
      of `g` untouched, every body cell the last covering entry's block or
      empty. */
  predicate Populated(g: seq<TimetableItem>, m: ViewMode, es: seq<ScheduleEntry>, r: seq<TimetableItem>) {
    && |r| == |g|
    && (forall pos :: 0 <= pos < |r| && IsFrame(m, pos) ==> r[pos] == g[pos])
    && (forall pos :: 0 <= pos < |r| && !IsFrame(m, pos) ==> r[pos] == ExpectedCell(m, es, pos))
  }

  /** Placing one more entry changes the expected cell exactly where that
      entry writes. */
  lemma ExpectedCellSnoc(m: ViewMode, es: seq<ScheduleEntry>, e: ScheduleEntry, pos: nat)
    ensures Covers(m, e, pos) ==> ExpectedCell(m, es + [e], pos) == Block(e, RowOf(m, pos))
    ensures !Covers(m, e, pos) ==> ExpectedCell(m, es + [e], pos) == ExpectedCell(m, es, pos)
  {
    assert (es + [e])[..|es|] == es;
  }

  /** A cleared grid is the grid no entry has been placed on. */
  lemma ClearedIsPopulatedByNothing(g: seq<TimetableItem>, m: ViewMode, r: seq<TimetableItem>)
    requires |r| == |g|
    requires forall pos :: 0 <= pos < |r| && IsFrame(m, pos) ==> r[pos] == g[pos]
    requires forall pos :: 0 <= pos < |r| && !IsFrame(m, pos) ==> r[pos] == Empty
    ensures Populated(g, m, [], r)
  {
  }

  /** One step of `populateTimetable`: placing `e` on a grid populated from
      `es` gives the grid populated from `es + [e]`. */
  lemma PlacedOneMore(g: seq<TimetableItem>, m: ViewMode, es: seq<ScheduleEntry>, e: ScheduleEntry,
                      before: seq<TimetableItem>, after: seq<TimetableItem>)
    requires Populated(g, m, es, before)
    requires |after| == |before|
    requires forall pos :: 0 <= pos < |after| && Covers(m, e, pos) ==> after[pos] == Block(e, RowOf(m, pos))
    requires forall pos :: 0 <= pos < |after| && !Covers(m, e, pos) ==> after[pos] == before[pos]
    ensures Populated(g, m, es + [e], after)
  {
    forall pos | 0 <= pos < |after|
      ensures IsFrame(m, pos) ==> after[pos] == g[pos]
      ensures !IsFrame(m, pos) ==> after[pos] == ExpectedCell(m, es + [e], pos)
    {
      if Covers(m, e, pos) {
        CoversIsBody(m, e, pos);
      }
      ExpectedCellSnoc(m, es, e, pos);
    }
  }

  /** `populateTimetable`: clear the body, then place the entries in input
      order. At a position several entries share, the last one wins; a
      position no valid entry covers is empty. */
  method Populate(g: seq<TimetableItem>, m: ViewMode, es: seq<ScheduleEntry>) returns (r: seq<TimetableItem>)
    requires |g| == GridSize(m)
    ensures Populated(g, m, es, r)
  {
    var cleared := ClearBody(g, m);
    ClearedIsPopulatedByNothing(g, m, cleared);
    r := PlaceAll(g, m, es, cleared);
  }

  /** The placement loop of `populateTimetable`, from a cleared grid. */
  method PlaceAll(g: seq<TimetableItem>, m: ViewMode, es: seq<ScheduleEntry>, cleared: seq<TimetableItem>) returns (r: seq<TimetableItem>)
    requires |g| == GridSize(m) && Populated(g, m, [], cleared)
    ensures Populated(g, m, es, r)
  {
    r := cleared;
    var k := 0;
    while k < |es|
      invariant 0 <= k <= |es|
      invariant Populated(g, m, es[..k], r)
    {
      var before := r;
      r := PlaceEntry(r, m, es[k]);
      assert es[..k + 1] == es[..k] + [es[k]];
      PlacedOneMore(g, m, es[..k], es[k], before, r);
      k := k + 1;
    }
    assert es[..|es|] == es;
  }

  // ----------------------------------------------------- screen actions

  /** `setupDayView`: keep only the entries of `day`, then populate. */
  function EntriesOfDay(es: seq<ScheduleEntry>, day: string): (r: seq<ScheduleEntry>)
    ensures forall e :: e in r <==> e in es && e.dayName == day
  {
    if |es| == 0 then []
    else
      var rest := EntriesOfDay(es[1..], day);
      assert forall e :: e in es <==> e == es[0] || e in es[1..];
      if es[0].dayName == day then [es[0]] + rest else rest
  }

  /** In day view, the filter of `setupDayView` changes nothing: placement
      already skips every entry of another day. */
  lemma {:induction false} DayFilterIsRedundant(es: seq<ScheduleEntry>, day: string, pos: nat)
    ensures LastCovering(DayView(day), EntriesOfDay(es, day), pos) == LastCovering(DayView(day), es, pos)
    decreases |es|
  {
    if |es| > 0 {
      var m := DayView(day);
      var init := es[..|es| - 1];
      var last := es[|es| - 1];
      var kept := EntriesOfDay(init, day);
      assert init + [last] == es;
      DayFilterIsRedundant(init, day, pos);
      EntriesOfDaySnoc(init, last, day);
      LastCoveringSnoc(m, init, last, pos);
      if last.dayName == day {
        assert EntriesOfDay(es, day) == kept + [last];
        LastCoveringSnoc(m, kept, last, pos);
      } else {
        assert EntriesOfDay(es, day) == kept;
        OtherDayNeverCovers(day, last, pos);
      }
    }
  }

  /** Day view places nothing from another day. */
  lemma OtherDayNeverCovers(day: string, e: ScheduleEntry, pos: nat)
    requires e.dayName != day
    ensures !Covers(DayView(day), e, pos)
  {
  }

  /** The last covering entry of a longer list is the new entry when it
      covers the position, and otherwise the one found before. */
  lemma LastCoveringSnoc(m: ViewMode, es: seq<ScheduleEntry>, e: ScheduleEntry, pos: nat)
    ensures LastCovering(m, es + [e], pos) == if Covers(m, e, pos) then Some(e) else LastCovering(m, es, pos)
  {
    assert (es + [e])[..|es|] == es;
  }

  lemma {:induction false} EntriesOfDaySnoc(es: seq<ScheduleEntry>, e: ScheduleEntry, day: string)
    ensures EntriesOfDay(es + [e], day) == EntriesOfDay(es, day) + (if e.dayName == day then [e] else [])
    decreases |es|
  {
    if |es| > 0 {
      assert (es + [e])[1..] == es[1..] + [e];
      EntriesOfDaySnoc(es[1..], e, day);
    } else {
      assert es + [e] == [e];
    }
  }

  /** The week button: a fresh week skeleton populated with every entry. */
  method ShowWeek(all: seq<ScheduleEntry>) returns (r: seq<TimetableItem>)
    ensures Populated(BuildSkeleton(WeekView), WeekView, all, r)
  {
    r := Populate(BuildSkeleton(WeekView), WeekView, all);
  }

  /** The day button: a fresh day skeleton for `currentDay`, populated with
      that day's entries. The grid is the one the unfiltered list would give. */
  method ShowDay(all: seq<ScheduleEntry>, currentDay: string) returns (r: seq<TimetableItem>)
    ensures Populated(BuildSkeleton(DayView(currentDay)), DayView(currentDay), all, r)
  {
    var m := DayView(currentDay);
    r := Populate(BuildSkeleton(m), m, EntriesOfDay(all, currentDay));
    forall pos | 0 <= pos < |r| && !IsFrame(m, pos)
      ensures r[pos] == ExpectedCell(m, all, pos)
    {
      DayFilterIsRedundant(all, currentDay, pos);
    }
  }

  // --------------------------------------------------------- calendar day

  /** `getCurrentDayName`: `Calendar.DAY_OF_WEEK` (1 = Sunday, 2 = Monday, …,
      7 = Saturday) mapped to its name; any other value gives Monday. */
  function CurrentDayName(dayOfWeek: int): (r: string)
    ensures r in Days
    ensures 1 <= dayOfWeek <= 7 ==> r == Days[(dayOfWeek + 5) % 7]
    ensures !(1 <= dayOfWeek <= 7) ==> r == "Monday"
  {
    match dayOfWeek
    case 2 => "Monday"
    case 3 => "Tuesday"
    case 4 => "Wednesday"
    case 5 => "Thursday"
    case 6 => "Friday"
    case 7 => "Saturday"
    case 1 => "Sunday"
    case _ => "Monday"
  }

  // ------------------------------------------------------------- clicks

  /** The screen's room, as its launch intent gave it. */
  datatype RoomContext = RoomContext(roomId: int, roomName: string)

  /** The extras of the intent that opens the schedule editor. */
  datatype EditIntent = EditIntent(
    scheduleId: int,
    roomId: int,
    roomName: string,
    dayName: string,
    timeSlot: string,
    status: string)

  /** `onScheduleClick`: edit an existing schedule. */
  function OnScheduleClick(ctx: RoomContext, scheduleId: int, dayName: string, timeSlot: string, status: string): EditIntent
  {
    EditIntent(scheduleId, ctx.roomId, ctx.roomName, dayName, timeSlot, status)
  }

  /** `onEmptySlotClick`: create a schedule; the editor is told -1 and an
      empty status. */
  function OnEmptySlotClick(ctx: RoomContext, dayName: string, timeSlot: string): EditIntent
  {
    EditIntent(-1, ctx.roomId, ctx.roomName, dayName, timeSlot, "")
  }

  /** The day a body column stands for. */
  function ColumnDay(m: ViewMode, col: nat): string
    requires 1 <= col < NumColumns(m)
  {
    match m
    case WeekView => Days[col - 1]
    case DayView(d) => d
  }

  /** A click on a grid cell: a block opens the editor on its own schedule,
      an empty body cell opens it to create one at that cell's day and time,
      headers and time labels do nothing. */
  function CellClick(ctx: RoomContext, m: ViewMode, grid: seq<TimetableItem>, pos: nat): Option<EditIntent>
    requires |grid| == GridSize(m) && pos < |grid|
  {
    match grid[pos]
    case ClassBlock(id, _, _, _, _, status, day, time) => Some(OnScheduleClick(ctx, id, day, time, status))
    case Empty =>
      if IsFrame(m, pos) then None
      else
        PositionBounds(m, pos);
        Some(OnEmptySlotClick(ctx, ColumnDay(m, ColOf(m, pos)), TimeSlots[RowOf(m, pos)]))
    case _ => None
  }

  /** After populating a grid with the skeleton's frame, a click on a covered cell edits the last
      entry covering it, at that cell's own time label; a click on any other
      body cell creates at the cell's own day and time; a header or time label
      click does nothing. */
  lemma ClickOnPopulated(ctx: RoomContext, m: ViewMode, g: seq<TimetableItem>, es: seq<ScheduleEntry>, r: seq<TimetableItem>, pos: nat)
    requires HasSkeletonFrame(m, g) && Populated(g, m, es, r) && pos < |r|
    ensures IsFrame(m, pos) ==> CellClick(ctx, m, r, pos).None?
    ensures !IsFrame(m, pos) ==> 0 <= RowOf(m, pos) < |TimeSlots| && 1 <= ColOf(m, pos) < NumColumns(m)
    ensures !IsFrame(m, pos) && LastCovering(m, es, pos).Some? ==>
      var e := LastCovering(m, es, pos).value;
      CellClick(ctx, m, r, pos) == Some(EditIntent(e.scheduleId, ctx.roomId, ctx.roomName, e.dayName, TimeSlots[RowOf(m, pos)], e.status))
    ensures !IsFrame(m, pos) && LastCovering(m, es, pos).None? ==>
      CellClick(ctx, m, r, pos) == Some(EditIntent(-1, ctx.roomId, ctx.roomName, ColumnDay(m, ColOf(m, pos)), TimeSlots[RowOf(m, pos)], ""))
  {
    if IsFrame(m, pos) {
      SkeletonFrameCell(m, pos);
    } else {
      PositionBounds(m, pos);
      ClickOnBody(ctx, m, es, r, pos);
    }
  }

  lemma ClickOnBody(ctx: RoomContext, m: ViewMode, es: seq<ScheduleEntry>, r: seq<TimetableItem>, pos: nat)
    requires |r| == GridSize(m) && pos < |r| && !IsFrame(m, pos)
    requires r[pos] == ExpectedCell(m, es, pos)
    ensures 0 <= RowOf(m, pos) < |TimeSlots|
    ensures LastCovering(m, es, pos).Some? ==>
      var e := LastCovering(m, es, pos).value;
      CellClick(ctx, m, r, pos) == Some(EditIntent(e.scheduleId, ctx.roomId, ctx.roomName, e.dayName, TimeSlots[RowOf(m, pos)], e.status))
    ensures LastCovering(m, es, pos).None? ==>
      CellClick(ctx, m, r, pos) == Some(EditIntent(-1, ctx.roomId, ctx.roomName, ColumnDay(m, ColOf(m, pos)), TimeSlots[RowOf(m, pos)], ""))
  {
    PositionBounds(m, pos);
    match LastCovering(m, es, pos)
    case Some(e) =>
      assert r[pos] == Block(e, RowOf(m, pos));
    case None =>
      assert r[pos] == Empty;
  }

  /** A covered body cell of a populated grid is the block of the last entry
      covering it: that entry's id, texts and status, height 1, the cell's
      own row label, and a day that names the cell's column. */
  lemma PopulatedBlockCell(g: seq<TimetableItem>, m: ViewMode, es: seq<ScheduleEntry>, r: seq<TimetableItem>, pos: nat)
    requires Populated(g, m, es, r) && pos < |r| && !IsFrame(m, pos)
    requires LastCovering(m, es, pos).Some?
    ensures 0 <= RowOf(m, pos) < |TimeSlots| && 1 <= ColOf(m, pos) < NumColumns(m)
    ensures var e := LastCovering(m, es, pos).value;
      && r[pos] == ClassBlock(e.scheduleId, e.subject, e.section, e.teacher, 1, e.status, e.dayName, TimeSlots[RowOf(m, pos)])
      && e.dayName == ColumnDay(m, ColOf(m, pos))
  {
    var e := LastCovering(m, es, pos).value;
    CoversIsBody(m, e, pos);
    BlockDayMatchesColumn(m, e, pos);
  }

  /** The skeleton's frame holds only headers and time labels. */
  lemma SkeletonFrameCell(m: ViewMode, pos: nat)
    requires pos < GridSize(m) && IsFrame(m, pos)
    ensures SkeletonCell(m, pos).Header? || SkeletonCell(m, pos).TimeLabel?
  {
  }

  /** In week view the column of an entry's block names the entry's own day,
      so edit and create clicks agree on the day of a column. */
  lemma BlockDayMatchesColumn(m: ViewMode, e: ScheduleEntry, pos: nat)
    requires Covers(m, e, pos)
    ensures 1 <= ColOf(m, pos) < NumColumns(m) && ColumnDay(m, ColOf(m, pos)) == e.dayName
  {
  }
}
