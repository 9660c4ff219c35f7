/** The merged weekly timetable list: one row per time slot, seven day cells
    per row. Before any row is shown, a run-length pass walks each day column
    and merges vertical runs of the same class (subject, section and teacher)
    into one tall row; the rows a run swallows are hidden. The hidden rows and
    the run heights are keyed by row only and shared by all seven days. */
module TimeSlotMerge {
  import opened Base
  import opened Axes
  import opened Text

  /** What one day cell of a row holds. `isFree` defaults to false in the
      constructor; `teacher` is nullable. */
  datatype TimeSlotContent = TimeSlotContent(subject: string, section: string, teacher: Option<string>, isFree: bool)

  /** One row of the list: its time label and the cells it has, by day name. */
  datatype TimeSlotData = TimeSlotData(timeSlot: string, daySchedules: map<string, TimeSlotContent>)

  /** The cell of `day` in row `row`, or None when the row has none. */
  function ContentAt(list: seq<TimeSlotData>, day: string, row: nat): Option<TimeSlotContent>
    requires row < |list|
  {
    if day in list[row].daySchedules then Some(list[row].daySchedules[day]) else None
  }

  /** Same subject, section and teacher; the free flag is not compared. */
  predicate SameClass(a: TimeSlotContent, b: TimeSlotContent) {
    a.subject == b.subject && a.section == b.section && a.teacher == b.teacher
  }

  /** The test of the inner loop: `next` carries on the run started by `cur`
      when it exists, is not free and has the class of `cur`. A run started
      at a missing cell never grows, since the class of a missing cell
      compares unequal to every subject. */
  predicate Extends(cur: Option<TimeSlotContent>, next: Option<TimeSlotContent>) {
    next.Some? && !next.value.isFree && cur.Some? && SameClass(next.value, cur.value)
  }

  /** A real class (present and not free). */
  predicate Occupied(c: Option<TimeSlotContent>) {
    c.Some? && !c.value.isFree
  }

  /** Row `h` continues, on `day`, the class of the row above it. */
  predicate Continues(list: seq<TimeSlotData>, day: string, h: int) {
    0 < h < |list| && Occupied(ContentAt(list, day, h - 1)) && Extends(ContentAt(list, day, h - 1), ContentAt(list, day, h))
  }

  /** Rows `k .. k + n - 1` on `day` are a merged run of at least two rows,
      closed at its bottom: `k` holds a class, every later row continues it,
      and the row just after the run (if any) does not. Nothing is said of
      the row above `k`. */
  predicate MergedRun(list: seq<TimeSlotData>, day: string, k: int, n: int) {
    && 0 <= k && 2 <= n && k + n <= |list|
    && Occupied(ContentAt(list, day, k))
    && (forall r :: k < r < k + n ==> Continues(list, day, r))
    && (k + n < |list| ==> !Continues(list, day, k + n))
  }

  /** The integers `lo .. hi - 1`. */
  function Range(lo: int, hi: int): (r: set<int>)
    ensures forall x :: x in r <==> lo <= x < hi
    decreases hi - lo
  {
    if lo >= hi then {} else {lo} + Range(lo + 1, hi)
  }

  /** `heights[k]` was written or rewritten between `before` and `after`. */
  predicate Changed(before: map<int, int>, after: map<int, int>, k: int)
    requires k in after
  {
    k !in before || after[k] != before[k]
  }

  /** The inner loop: how many rows, from `i` on, the run started at `i` takes. */
  method RunLength(list: seq<TimeSlotData>, day: string, i: nat) returns (n: nat)
    requires i < |list|
    ensures 1 <= n && i + n <= |list|
    ensures forall k :: i < k < i + n ==> Extends(ContentAt(list, day, i), ContentAt(list, day, k))
    ensures i + n < |list| ==> !Extends(ContentAt(list, day, i), ContentAt(list, day, i + n))
  {
    var cur := ContentAt(list, day, i);
    n := 1;
    var j := i + 1;
    while j < |list|
      invariant i + 1 <= j <= |list| && n == j - i
      invariant forall k :: i < k < j ==> Extends(cur, ContentAt(list, day, k))
    {
      var next := ContentAt(list, day, j);
      if next.Some? && !next.value.isFree && cur.Some? && next.value.subject == cur.value.subject
         && next.value.section == cur.value.section && next.value.teacher == cur.value.teacher
      {
        n := n + 1;
        j := j + 1;
      } else {
        break;
      }
    }
  }

  /** Every row inside a run continues the row above it, and the row after a
      run does not continue it. */
  lemma RunShape(list: seq<TimeSlotData>, day: string, i: nat, n: nat)
    requires 1 <= n && i + n <= |list|
    requires !(ContentAt(list, day, i).Some? && ContentAt(list, day, i).value.isFree)
    requires forall k :: i < k < i + n ==> Extends(ContentAt(list, day, i), ContentAt(list, day, k))
    requires i + n < |list| ==> !Extends(ContentAt(list, day, i), ContentAt(list, day, i + n))
    ensures forall r :: i < r < i + n ==> Continues(list, day, r)
    ensures i + n < |list| ==> !Continues(list, day, i + n)
    ensures 2 <= n ==> MergedRun(list, day, i, n)
  {
    var c := ContentAt(list, day, i);
    forall r | i < r < i + n ensures Continues(list, day, r) {
      var above := ContentAt(list, day, r - 1);
      var here := ContentAt(list, day, r);
      assert Extends(c, here);
      if r - 1 > i {
        assert Extends(c, above);
      } else {
        assert above == c;
      }
      assert Occupied(above) && Extends(above, here);
    }
    if i + n < |list| && n > 1 {
      var last := ContentAt(list, day, i + n - 1);
      assert Extends(c, last);
      var next := ContentAt(list, day, i + n);
      assert Continues(list, day, i + n) ==> Extends(c, next);
    }
    if n >= 2 {
      assert Extends(c, ContentAt(list, day, i + 1));
    }
  }

  /** What the walk of one day keeps after looking at rows `0 .. i - 1`:
      the rows it hid continue their class and lie before `i`; every height
      it wrote heads a merged run that ends by `i` and whose other rows are
      hidden; its runs do not overlap; and, when it started from nothing,
      every continuing row before `i` is hidden and row `i` itself does not
      continue the row above. */
  ghost predicate MergeInv(list: seq<TimeSlotData>, day: string, hidden0: set<int>, heights0: map<int, int>,
                           hidden: set<int>, heights: map<int, int>, i: int)
  {
    && 0 <= i <= |list|
    && hidden0 <= hidden && heights0.Keys <= heights.Keys
    && (forall h :: h in hidden && h !in hidden0 ==> Continues(list, day, h) && h < i)
    && (forall k :: k in heights && Changed(heights0, heights, k) ==>
          && k !in hidden0
          && MergedRun(list, day, k, heights[k])
          && k + heights[k] <= i
          && (forall r :: k < r < k + heights[k] ==> r in hidden))
    && (forall k1, k2 :: k1 in heights && k2 in heights && Changed(heights0, heights, k1) && Changed(heights0, heights, k2) && k1 < k2 ==>
          k1 + heights[k1] <= k2)
    && (hidden0 == {} ==> forall h :: 0 < h < i && Continues(list, day, h) ==> h in hidden)
    && (hidden0 == {} && 0 < i < |list| ==> !Continues(list, day, i))
  }

  /** Stepping over a hidden row or a free cell keeps the walk's invariant. */
  lemma MergeSkip(list: seq<TimeSlotData>, day: string, hidden0: set<int>, heights0: map<int, int>,
                  hidden: set<int>, heights: map<int, int>, i: nat)
    requires i < |list| && MergeInv(list, day, hidden0, heights0, hidden, heights, i)
    requires i in hidden || (ContentAt(list, day, i).Some? && ContentAt(list, day, i).value.isFree)
    ensures MergeInv(list, day, hidden0, heights0, hidden, heights, i + 1)
  {
    if hidden0 == {} && i + 1 < |list| {
      assert Continues(list, day, i + 1) ==> Occupied(ContentAt(list, day, i));
    }
  }

  /** A run of one row writes nothing and keeps the walk's invariant. */
  lemma MergeSingle(list: seq<TimeSlotData>, day: string, hidden0: set<int>, heights0: map<int, int>,
                    hidden: set<int>, heights: map<int, int>, i: nat)
    requires i < |list| && MergeInv(list, day, hidden0, heights0, hidden, heights, i)
    requires i + 1 < |list| ==> !Continues(list, day, i + 1)
    ensures MergeInv(list, day, hidden0, heights0, hidden, heights, i + 1)
  {
  }

  /** A run of `n >= 2` rows from the unhidden row `i` hides rows
      `i + 1 .. i + n - 1`, records `n` at `i`, and keeps the invariant at
      `i + n`. */
  lemma MergeRunOf(list: seq<TimeSlotData>, day: string, hidden0: set<int>, heights0: map<int, int>,
                   hidden: set<int>, heights: map<int, int>, i: nat, n: nat)
    requires MergeInv(list, day, hidden0, heights0, hidden, heights, i)
    requires i !in hidden && 2 <= n && MergedRun(list, day, i, n)
    ensures MergeInv(list, day, hidden0, heights0, hidden + Range(i + 1, i + n), heights[i := n], i + n)
  {
    var hidden' := hidden + Range(i + 1, i + n);
    var heights' := heights[i := n];
    forall k | k in heights' && Changed(heights0, heights', k)
      ensures && k !in hidden0
              && MergedRun(list, day, k, heights'[k])
              && k + heights'[k] <= i + n
              && (forall r :: k < r < k + heights'[k] ==> r in hidden')
    {
      if k != i {
        assert Changed(heights0, heights, k);
      }
    }
    forall k1, k2 | k1 in heights' && k2 in heights' && Changed(heights0, heights', k1) && Changed(heights0, heights', k2) && k1 < k2
      ensures k1 + heights'[k1] <= k2
    {
      if k1 != i && k2 != i {
        assert Changed(heights0, heights, k1) && Changed(heights0, heights, k2);
      } else if k2 == i {
        assert Changed(heights0, heights, k1);
      }
    }
  }

  /** One day of `calculateMergedRows`: walk the rows; a row already hidden
      or holding a free class is stepped over; any other row starts a run,
      and a run of two or more rows hides all its rows but the first and
      records its length at the first. */
  method MergeDay(list: seq<TimeSlotData>, day: string, hidden0: set<int>, heights0: map<int, int>)
    returns (hidden: set<int>, heights: map<int, int>)
    ensures hidden0 <= hidden && heights0.Keys <= heights.Keys
    ensures forall h :: h in hidden && h !in hidden0 ==> Continues(list, day, h)
    ensures forall k :: k in heights && Changed(heights0, heights, k) ==>
      && k !in hidden0
      && MergedRun(list, day, k, heights[k])
      && (forall r :: k < r < k + heights[k] ==> r in hidden)
    ensures forall k1, k2 :: k1 in heights && k2 in heights && Changed(heights0, heights, k1) && Changed(heights0, heights, k2) && k1 < k2 ==>
      k1 + heights[k1] <= k2
    ensures hidden0 == {} ==> forall h :: Continues(list, day, h) ==> h in hidden
  {
    hidden := hidden0;
    heights := heights0;
    var i := 0;
    MergeStart(list, day, hidden0, heights0);
    while i < |list|
      invariant MergeInv(list, day, hidden0, heights0, hidden, heights, i)
    {
      var current := ContentAt(list, day, i);
      if i in hidden || (current.Some? && current.value.isFree) {
        MergeSkip(list, day, hidden0, heights0, hidden, heights, i);
        i := i + 1;
        continue;
      }
      var mergeCount := RunLength(list, day, i);
      RunShape(list, day, i, mergeCount);
      if mergeCount > 1 {
        MergeRunOf(list, day, hidden0, heights0, hidden, heights, i, mergeCount);
        hidden := hidden + Range(i + 1, i + mergeCount);
        heights := heights[i := mergeCount];
      } else {
        MergeSingle(list, day, hidden0, heights0, hidden, heights, i);
      }
      i := i + mergeCount;
    }
    MergeDone(list, day, hidden0, heights0, hidden, heights);
  }

  lemma MergeStart(list: seq<TimeSlotData>, day: string, hidden0: set<int>, heights0: map<int, int>)
    ensures MergeInv(list, day, hidden0, heights0, hidden0, heights0, 0)
  {
  }

  /** At the end of the walk the invariant gives the day's guarantees. */
  lemma MergeDone(list: seq<TimeSlotData>, day: string, hidden0: set<int>, heights0: map<int, int>,
                  hidden: set<int>, heights: map<int, int>)
    requires MergeInv(list, day, hidden0, heights0, hidden, heights, |list|)
    ensures hidden0 <= hidden && heights0.Keys <= heights.Keys
    ensures forall h :: h in hidden && h !in hidden0 ==> Continues(list, day, h)
    ensures forall k :: k in heights && Changed(heights0, heights, k) ==>
      && k !in hidden0
      && MergedRun(list, day, k, heights[k])
      && (forall r :: k < r < k + heights[k] ==> r in hidden)
    ensures forall k1, k2 :: k1 in heights && k2 in heights && Changed(heights0, heights, k1) && Changed(heights0, heights, k2) && k1 < k2 ==>
      k1 + heights[k1] <= k2
    ensures hidden0 == {} ==> forall h :: Continues(list, day, h) ==> h in hidden
  {
  }

  /** `calculateMergedRows`: the day walks Monday to Sunday, sharing one
      hidden set and one height map. Every hidden row continues the class of
      the row above it on some day, every recorded height is a merged run of
      some day whose other rows are hidden, and on Monday, which walks first,
      every continuing row is hidden. */
  method CalculateMergedRows(list: seq<TimeSlotData>) returns (hidden: set<int>, heights: map<int, int>)
    ensures forall h :: h in hidden ==> 0 < h < |list| && exists x :: 0 <= x < |Days| && Continues(list, Days[x], h)
    ensures forall k :: k in heights ==>
      && 2 <= heights[k] && k + heights[k] <= |list|
      && (exists x :: 0 <= x < |Days| && MergedRun(list, Days[x], k, heights[k]))
      && (forall r :: k < r < k + heights[k] ==> r in hidden)
    ensures forall h :: Continues(list, Days[0], h) ==> h in hidden
  {
    hidden := {};
    heights := map[];
    var dayIndex := 0;
    while dayIndex < |Days|
      invariant 0 <= dayIndex <= |Days|
      invariant forall h :: h in hidden ==> exists x :: 0 <= x < dayIndex && Continues(list, Days[x], h)
      invariant forall k :: k in heights ==>
        && (exists x :: 0 <= x < dayIndex && MergedRun(list, Days[x], k, heights[k]))
        && (forall r :: k < r < k + heights[k] ==> r in hidden)
      invariant dayIndex > 0 ==> forall h :: Continues(list, Days[0], h) ==> h in hidden
    {
      var hidden', heights' := MergeDay(list, Days[dayIndex], hidden, heights);
      forall k | k in heights' && !Changed(heights, heights', k)
        ensures forall r :: k < r < k + heights'[k] ==> r in hidden'
      {
      }
      hidden, heights := hidden', heights';
      dayIndex := dayIndex + 1;
    }
  }

  // -------------------------------------------------------------- binding

  /** `Int` values of the ARGB colours the rows use (`0xFF…toInt()`). */
  const White: int := WrapInt(0xFFFF_FFFF)
  const LightBlue: int := WrapInt(0xFFF0_F4FF)
  const Gray: int := WrapInt(0xFFCC_CCCC)
  const Dark: int := WrapInt(0xFF33_3333)

  /** One bound day cell. */
  datatype CellView = CellView(text: string, background: int, textColor: int)

  /** A bound row: hidden (GONE, height 0), or shown with its time, an
      explicit height when it spans several slots (None: the height is not
      set, so the view keeps whatever height it had) and its seven day
      cells. */
  datatype RowView = Gone | Shown(time: string, height: Option<int>, cells: seq<CellView>)

  /** The text, background and text colour of one day cell. */
  function BindCell(c: Option<TimeSlotContent>): (v: CellView)
    ensures v.text == "Free" <==> !Occupied(c)
    ensures v.background == White <==> !Occupied(c)
    ensures v.textColor == Gray <==> !Occupied(c)
    ensures Occupied(c) ==> v.background == LightBlue && v.textColor == Dark
  {
    match c
    case None => CellView("Free", White, Gray)
    case Some(content) =>
      if content.isFree then CellView("Free", White, Gray)
      else
        var text := content.subject + "\n" + content.section
          + (match content.teacher case Some(t) => "\n" + t case None => "");
        assert text[|content.subject|] == '\n';
        assert text != "Free" by {
          if |text| == 4 { assert text[|content.subject|] == '\n'; }
        }
        CellView(text, LightBlue, Dark)
  }

  /** An occupied cell reads back, line by line, as its subject, its section
      and, when there is one, its teacher: a missing teacher adds no line,
      an empty teacher adds an empty one. */
  lemma OccupiedCellReadsBack(c: Option<TimeSlotContent>)
    requires Occupied(c)
    requires '\n' !in c.value.subject && '\n' !in c.value.section
    requires c.value.teacher.Some? ==> '\n' !in c.value.teacher.value
    ensures Split(BindCell(c).text, '\n') ==
      [c.value.subject, c.value.section] + (if c.value.teacher.Some? then [c.value.teacher.value] else [])
  {
    var x := c.value;
    assert [x.subject, x.section] == [x.subject] + [x.section];
    JoinCons(x.subject, [x.section], "\n");
    match x.teacher
    case None =>
      assert Join([x.section], "\n") == x.section;
      assert BindCell(c).text == Join([x.subject, x.section], "\n");
      SplitJoin([x.subject, x.section], '\n');
      assert [x.subject, x.section] + [] == [x.subject, x.section];
    case Some(t) =>
      assert [x.subject, x.section, t] == [x.subject] + [x.section, t];
      assert [x.section, t] == [x.section] + [t];
      JoinCons(x.subject, [x.section, t], "\n");
      JoinCons(x.section, [t], "\n");
      assert Join([t], "\n") == t;
      assert BindCell(c).text == Join([x.subject, x.section, t], "\n");
      SplitJoin([x.subject, x.section, t], '\n');
      assert [x.subject, x.section] + [t] == [x.subject, x.section, t];
  }

  /** `onBindViewHolder`: a hidden row is gone; any other row shows its label,
      a height of 60 per slot when it heads a run, and a cell per day. */
  function BindRow(list: seq<TimeSlotData>, hidden: set<int>, heights: map<int, int>, position: nat): (v: RowView)
    requires position < |list|
    ensures v.Gone? <==> position in hidden
    ensures v.Shown? ==> v.time == list[position].timeSlot && |v.cells| == |Days|
    ensures v.Shown? ==> forall i :: 0 <= i < |Days| ==> v.cells[i] == BindCell(ContentAt(list, Days[i], position))
    ensures v.Shown? ==> (v.height.Some? <==> position in heights && heights[position] > 1)
    ensures v.Shown? && v.height.Some? ==> v.height.value == 60 * heights[position]
  {
    if position in hidden then Gone
    else
      var span := if position in heights then heights[position] else 1;
      var height := if span > 1 then Some(60 * span) else None;
      Shown(list[position].timeSlot, height, seq(|Days|, i requires 0 <= i < |Days| => BindCell(ContentAt(list, Days[i], position))))
  }

  /** The whole list as the screen shows it: merge, then bind every row. The
      first row is always shown; a gone row continues the class above it on
      some day; on Monday every continuing row is gone; and a row shown
      taller than one slot heads a merged run of some day, `height / 60`
      rows long, whose other rows are gone. */
  method MergedRows(list: seq<TimeSlotData>) returns (rows: seq<RowView>)
    ensures |rows| == |list|
    ensures |list| > 0 ==> rows[0].Shown?
    ensures forall h :: 0 <= h < |rows| && rows[h].Gone? ==> exists x :: 0 <= x < |Days| && Continues(list, Days[x], h)
    ensures forall h :: 0 <= h < |rows| && Continues(list, Days[0], h) ==> rows[h].Gone?
    ensures forall h :: 0 <= h < |rows| && rows[h].Shown? ==> rows[h].time == list[h].timeSlot
    ensures forall k :: 0 <= k < |rows| && rows[k].Shown? && rows[k].height.Some? ==>
      var n := rows[k].height.value / 60;
      && rows[k].height.value == 60 * n
      && (exists x :: 0 <= x < |Days| && MergedRun(list, Days[x], k, n))
      && (forall r :: k < r < k + n ==> rows[r].Gone?)
  {
    var hidden, heights := CalculateMergedRows(list);
    rows := seq(|list|, i requires 0 <= i < |list| => BindRow(list, hidden, heights, i));
    forall k | 0 <= k < |rows| && rows[k].Shown? && rows[k].height.Some?
      ensures rows[k].height.value / 60 == heights[k]
    {
    }
  }
}
