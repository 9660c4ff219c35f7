/** The keyed weekly timetable: schedules are grouped into buckets under the
    key `day_start` (day name, underscore, start label), and each cell of the
    seven-day grid reads the bucket of its day and its row's label. Only the
    start label is part of the key, so an entry shows on its start row and
    nowhere else. */
module KeyedTimetable {
  import opened Base
  import opened Text
  import opened Axes

  /** The fields of a server schedule record this screen uses. */
  datatype ScheduleRecord = ScheduleRecord(
    dayName: string,
    timeStart: string,
    subjectCode: string,
    sectionName: string,
    teacherName: string)

  /** What a bucket stores for one schedule. */
  datatype ClassItem = ClassItem(subject: string, section: string, teacher: string)

  /** The bucket key: `day + "_" + time`. */
  function BucketKey(day: string, time: string): string {
    day + "_" + time
  }

  function KeyOf(s: ScheduleRecord): string {
    BucketKey(s.dayName, s.timeStart)
  }

  function ItemOf(s: ScheduleRecord): ClassItem {
    ClassItem(s.subjectCode, s.sectionName, s.teacherName)
  }

  /** The reference bucket: the items of the schedules whose key is `k`, in
      input order. */
  function Bucket(ss: seq<ScheduleRecord>, k: string): (b: seq<ClassItem>)
    ensures |b| <= |ss|
    ensures |b| > 0 <==> exists j :: 0 <= j < |ss| && KeyOf(ss[j]) == k
  {
    if |ss| == 0 then []
    else
      var init := ss[..|ss| - 1];
      var b := Bucket(init, k) + (if KeyOf(ss[|ss| - 1]) == k then [ItemOf(ss[|ss| - 1])] else []);
      assert forall j :: 0 <= j < |init| ==> init[j] == ss[j];
      b
  }

  /** The map holds exactly the keys of `ss`, each with its reference bucket. */
  ghost predicate Grouped(ss: seq<ScheduleRecord>, m: map<string, seq<ClassItem>>) {
    && (forall k :: k in m <==> exists j :: 0 <= j < |ss| && KeyOf(ss[j]) == k)
    && (forall k :: k in m ==> m[k] == Bucket(ss, k))
  }

  /** `map.getOrPut(key) { mutableListOf() }.add(item)`. */
  function AddItem(m: map<string, seq<ClassItem>>, x: ScheduleRecord): map<string, seq<ClassItem>> {
    var key := KeyOf(x);
    m[key := (if key in m then m[key] else []) + [ItemOf(x)]]
  }

  /** Appending one schedule's item to its bucket keeps the map grouped. */
  lemma GroupedSnoc(init: seq<ScheduleRecord>, x: ScheduleRecord, m: map<string, seq<ClassItem>>)
    requires Grouped(init, m)
    ensures Grouped(init + [x], AddItem(m, x))
  {
    var ss := init + [x];
    var m' := AddItem(m, x);
    forall k ensures k in m' <==> exists j :: 0 <= j < |ss| && KeyOf(ss[j]) == k {
      KeysSnoc(init, x, k);
    }
    forall k | k in m' ensures m'[k] == Bucket(ss, k) {
      BucketSnoc(init, x, k);
      if k == KeyOf(x) && k !in m {
        assert |Bucket(init, k)| == 0;
      }
    }
  }

  /** The keys of a longer input are the old keys and the new one. */
  lemma KeysSnoc(init: seq<ScheduleRecord>, x: ScheduleRecord, k: string)
    ensures (exists j :: 0 <= j < |init + [x]| && KeyOf((init + [x])[j]) == k) <==>
      (KeyOf(x) == k || exists j :: 0 <= j < |init| && KeyOf(init[j]) == k)
  {
    var ss := init + [x];
    assert ss[|init|] == x;
    assert forall j :: 0 <= j < |init| ==> ss[j] == init[j];
  }

  /** A bucket of a longer input is the old bucket, plus the new item when
      the key matches. */
  lemma BucketSnoc(init: seq<ScheduleRecord>, x: ScheduleRecord, k: string)
    ensures Bucket(init + [x], k) == Bucket(init, k) + (if KeyOf(x) == k then [ItemOf(x)] else [])
  {
    var ss := init + [x];
    assert ss[..|ss| - 1] == init;
  }

  /** The grouping loop of `loadSchedule`: each schedule's item is appended
      to the bucket of its key, creating the bucket on first use. */
  method Group(ss: seq<ScheduleRecord>) returns (m: map<string, seq<ClassItem>>)
    ensures Grouped(ss, m)
  {
    m := map[];
    var i := 0;
    GroupStart(ss);
    while i < |ss|
      invariant 0 <= i <= |ss|
      invariant Grouped(ss[..i], m)
    {
      GroupStep(ss, i, m);
      m := AddItem(m, ss[i]);
      i := i + 1;
    }
    GroupEnd(ss, m);
  }

  lemma GroupEnd(ss: seq<ScheduleRecord>, m: map<string, seq<ClassItem>>)
    requires Grouped(ss[..|ss|], m)
    ensures Grouped(ss, m)
  {
    assert ss[..|ss|] == ss;
  }

  lemma GroupStart(ss: seq<ScheduleRecord>)
    ensures Grouped(ss[..0], map[])
  {
  }

  lemma GroupStep(ss: seq<ScheduleRecord>, i: nat, m: map<string, seq<ClassItem>>)
    requires i < |ss| && Grouped(ss[..i], m)
    ensures Grouped(ss[..i + 1], AddItem(m, ss[i]))
  {
    GroupedSnoc(ss[..i], ss[i], m);
    assert ss[..i + 1] == ss[..i] + [ss[i]];
  }

  // -------------------------------------------------- every schedule once

  /** The keys of `ss`, each once, in order of first occurrence. */
  function DistinctKeys(ss: seq<ScheduleRecord>): (ks: seq<string>)
    ensures forall a, b :: 0 <= a < b < |ks| ==> ks[a] != ks[b]
    ensures forall k :: k in ks <==> exists j :: 0 <= j < |ss| && KeyOf(ss[j]) == k
  {
    if |ss| == 0 then []
    else
      var init := ss[..|ss| - 1];
      var ks := DistinctKeys(init);
      var key := KeyOf(ss[|ss| - 1]);
      assert forall j :: 0 <= j < |init| ==> init[j] == ss[j];
      if key in ks then ks else ks + [key]
  }

  /** The total size of the buckets named by `keys`. */
  function SumBuckets(ss: seq<ScheduleRecord>, keys: seq<string>): nat {
    if |keys| == 0 then 0 else |Bucket(ss, keys[0])| + SumBuckets(ss, keys[1..])
  }

  lemma {:induction false} SumBucketsSnoc(init: seq<ScheduleRecord>, x: ScheduleRecord, keys: seq<string>)
    requires forall a, b :: 0 <= a < b < |keys| ==> keys[a] != keys[b]
    ensures SumBuckets(init + [x], keys) == SumBuckets(init, keys) + (if KeyOf(x) in keys then 1 else 0)
    decreases |keys|
  {
    if |keys| > 0 {
      var ss := init + [x];
      assert ss[..|ss| - 1] == init;
      SumBucketsSnoc(init, x, keys[1..]);
      assert KeyOf(x) in keys <==> KeyOf(x) == keys[0] || KeyOf(x) in keys[1..];
      assert KeyOf(x) == keys[0] ==> KeyOf(x) !in keys[1..];
    }
  }

  lemma {:induction false} SumBucketsAppend(ss: seq<ScheduleRecord>, keys: seq<string>, k: string)
    ensures SumBuckets(ss, keys + [k]) == SumBuckets(ss, keys) + |Bucket(ss, k)|
    decreases |keys|
  {
    if |keys| == 0 {
      assert keys + [k] == [k];
    } else {
      assert (keys + [k])[1..] == keys[1..] + [k];
      SumBucketsAppend(ss, keys[1..], k);
    }
  }

  /** Every schedule lands in exactly one bucket: the bucket sizes add up to
      the number of schedules. */
  lemma {:induction false} BucketSizesAddUp(ss: seq<ScheduleRecord>)
    ensures SumBuckets(ss, DistinctKeys(ss)) == |ss|
    decreases |ss|
  {
    if |ss| > 0 {
      var init := ss[..|ss| - 1];
      var x := ss[|ss| - 1];
      assert init + [x] == ss;
      BucketSizesAddUp(init);
      var ks := DistinctKeys(init);
      SumBucketsSnoc(init, x, ks);
      if KeyOf(x) !in ks {
        SumBucketsAppend(ss, ks, KeyOf(x));
        assert |Bucket(init, KeyOf(x))| == 0;
      }
    }
  }

  /** The sizes of the grouped map's buckets, taken over its keys, add up to
      the number of schedules. */
  lemma GroupedSizesAddUp(ss: seq<ScheduleRecord>, m: map<string, seq<ClassItem>>)
    requires Grouped(ss, m)
    ensures var ks := DistinctKeys(ss);
      && (forall k :: k in m <==> k in ks)
      && SumBuckets(ss, ks) == |ss|
  {
    BucketSizesAddUp(ss);
  }

  // --------------------------------------------------------------- cells

  /** One item as a cell shows it: subject, section and teacher on three lines. */
  function RenderItem(c: ClassItem): (t: string)
    ensures |t| >= 2
  {
    c.subject + "\n" + c.section + "\n" + c.teacher
  }

  /** The items of the bucket of `day` and `time`; a missing key is empty. */
  function Classes(m: map<string, seq<ClassItem>>, day: string, time: string): seq<ClassItem> {
    var key := BucketKey(day, time);
    if key in m then m[key] else []
  }

  /** The text of a cell: empty for an empty bucket, otherwise the rendered
      items joined by line breaks. */
  function CellText(m: map<string, seq<ClassItem>>, day: string, time: string): (t: string)
    ensures t == "" <==> |Classes(m, day, time)| == 0
  {
    var classes := Classes(m, day, time);
    if |classes| == 0 then ""
    else
      var rendered := seq(|classes|, i requires 0 <= i < |classes| => RenderItem(classes[i]));
      JoinKeepsFirst(rendered, "\n");
      Join(rendered, "\n")
  }

  lemma {:induction false} JoinKeepsFirst(parts: seq<string>, sep: string)
    requires |parts| > 0
    ensures |Join(parts, sep)| >= |parts[0]|
  {
  }

  /** The lines a cell shows for a bucket: subject, section and teacher of
      each item, item after item. */
  function Lines(cs: seq<ClassItem>): (ls: seq<string>)
    ensures |ls| == 3 * |cs|
  {
    if |cs| == 0 then [] else [cs[0].subject, cs[0].section, cs[0].teacher] + Lines(cs[1..])
  }

  /** No field of the item holds a line break. */
  predicate LineFree(c: ClassItem) {
    '\n' !in c.subject && '\n' !in c.section && '\n' !in c.teacher
  }

  /** A rendered item reads back, line by line, as its subject, section and
      teacher. */
  lemma RenderItemReadsBack(c: ClassItem)
    requires LineFree(c)
    ensures Split(RenderItem(c), '\n') == [c.subject, c.section, c.teacher]
  {
    RenderIsJoin(c);
    SplitJoin([c.subject, c.section, c.teacher], '\n');
  }

  lemma RenderIsJoin(c: ClassItem)
    ensures RenderItem(c) == Join([c.subject, c.section, c.teacher], "\n")
  {
    assert [c.subject, c.section, c.teacher] == [c.subject] + [c.section, c.teacher];
    assert [c.section, c.teacher] == [c.section] + [c.teacher];
    JoinCons(c.subject, [c.section, c.teacher], "\n");
    JoinCons(c.section, [c.teacher], "\n");
  }

  /** Joining the rendered items is joining all their lines. */
  lemma {:induction false} JoinRendered(cs: seq<ClassItem>)
    requires |cs| > 0
    ensures Join(seq(|cs|, i requires 0 <= i < |cs| => RenderItem(cs[i])), "\n") == Join(Lines(cs), "\n")
    decreases |cs|
  {
    var rendered := seq(|cs|, i requires 0 <= i < |cs| => RenderItem(cs[i]));
    var c := cs[0];
    var three := [c.subject, c.section, c.teacher];
    RenderIsJoin(c);
    if |cs| == 1 {
      assert Lines(cs[1..]) == [];
      assert Lines(cs) == three;
      assert rendered == [RenderItem(c)];
    } else {
      var rest := cs[1..];
      JoinRendered(rest);
      assert rendered[1..] == seq(|rest|, i requires 0 <= i < |rest| => RenderItem(rest[i]));
      JoinAppend(three, Lines(rest), "\n");
    }
  }

  lemma {:induction false} LinesAvoidBreak(cs: seq<ClassItem>)
    requires forall k :: 0 <= k < |cs| ==> LineFree(cs[k])
    ensures forall k :: 0 <= k < |Lines(cs)| ==> '\n' !in Lines(cs)[k]
    decreases |cs|
  {
    if |cs| > 0 {
      LinesAvoidBreak(cs[1..]);
      assert LineFree(cs[0]);
    }
  }

  /** A non-empty cell reads back, line by line, as the subject, section and
      teacher of every item of its bucket, in bucket order: three lines per
      class, nothing lost and nothing added. */
  lemma CellTextReadsBack(m: map<string, seq<ClassItem>>, day: string, time: string)
    requires forall k :: 0 <= k < |Classes(m, day, time)| ==> LineFree(Classes(m, day, time)[k])
    requires |Classes(m, day, time)| > 0
    ensures Split(CellText(m, day, time), '\n') == Lines(Classes(m, day, time))
    ensures |Split(CellText(m, day, time), '\n')| == 3 * |Classes(m, day, time)|
  {
    var cs := Classes(m, day, time);
    JoinRendered(cs);
    LinesAvoidBreak(cs);
    SplitJoin(Lines(cs), '\n');
  }

  const LightBlue: int := WrapInt(0xFFF0_F4FF)
  const White: int := WrapInt(0xFFFF_FFFF)

  /** The background of a cell: highlighted exactly when its bucket has
      items. */
  function CellBackground(m: map<string, seq<ClassItem>>, day: string, time: string): int
  {
    if |Classes(m, day, time)| > 0 then LightBlue else White
  }

  // ------------------------------------------------ entries on start rows

  /** A key built from an underscore-free day and time has only that split:
      no other pair of strings gives the same key. */
  lemma KeyInjective(d1: string, t1: string, d2: string, t2: string)
    requires '_' !in d1 && '_' !in t1
    ensures BucketKey(d1, t1) == BucketKey(d2, t2) <==> d1 == d2 && t1 == t2
  {
    var k1 := BucketKey(d1, t1);
    var k2 := BucketKey(d2, t2);
    assert forall q :: 0 <= q < |d1| ==> k1[q] == d1[q];
    assert forall q :: |d1| < q < |k1| ==> k1[q] == t1[q - |d1| - 1];
    if k1 == k2 {
      assert k2[|d2|] == '_';
      assert |d1| == |d2|;
      assert d1 == k1[..|d1|] && d2 == k2[..|d2|];
      assert t1 == k1[|d1| + 1..] && t2 == k2[|d2| + 1..];
    }
  }

  /** The fixed axes contain no underscore. */
  lemma AxesHaveNoUnderscore()
    ensures forall i :: 0 <= i < |Days| ==> '_' !in Days[i]
    ensures forall p :: 0 <= p < |TimeSlots| ==> '_' !in TimeSlots[p]
  {
  }

  /** The cell of day column `i` and row `p` shows something exactly when some
      schedule has that day and starts at that row's label: an entry appears
      on its start row only, and an entry starting off the axis appears
      nowhere. */
  lemma EntryShowsOnStartRowOnly(ss: seq<ScheduleRecord>, m: map<string, seq<ClassItem>>, i: nat, p: nat)
    requires Grouped(ss, m) && i < |Days| && p < |TimeSlots|
    ensures CellText(m, Days[i], TimeSlots[p]) != "" <==>
      exists j :: 0 <= j < |ss| && ss[j].dayName == Days[i] && ss[j].timeStart == TimeSlots[p]
    ensures CellBackground(m, Days[i], TimeSlots[p]) == LightBlue <==> CellText(m, Days[i], TimeSlots[p]) != ""
  {
    AxesHaveNoUnderscore();
    var day := Days[i];
    var time := TimeSlots[p];
    forall j | 0 <= j < |ss| ensures KeyOf(ss[j]) == BucketKey(day, time) <==> ss[j].dayName == day && ss[j].timeStart == time {
      KeyInjective(day, time, ss[j].dayName, ss[j].timeStart);
    }
  }
}
