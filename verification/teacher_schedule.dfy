/** The teacher's schedule list (TeacherScheduleAdapter): the texts of a
    row, the status badge ("Today", "Pending" or "Scheduled") and its
    colour, and the identity and content comparisons of the list. */
module TeacherSchedule {
  import opened Base
  import opened Text

  datatype Item = Item(
    scheduleId: int, dayName: string, timeStart: string, timeEnd: string,
    subjectCode: string, subjectName: string, sectionName: string, sectionYear: int,
    roomName: string, roomCapacity: int, scheduleStatus: string, isToday: bool)

  /** The badge colours: green, orange and grey. */
  datatype Tone = Green | Orange | Gray

  /** What a row shows. */
  datatype Row = Row(subject: string, section: string, room: string, time: string, day: string,
                     status: string, tone: Tone)

  /** The badge text: today's classes first, then a pending status in any
      case, and everything else as scheduled. */
  function StatusLabel(i: Item): (r: string)
    ensures r in {"Today", "Pending", "Scheduled"}
  {
    if i.isToday then "Today"
    else if EqualsIgnoreCase(i.scheduleStatus, "pending") then "Pending"
    else "Scheduled"
  }

  /** The colour that goes with each badge. */
  function ToneOf(badge: string): Tone {
    if badge == "Today" then Green else if badge == "Pending" then Orange else Gray
  }

  function SubjectText(i: Item): string { i.subjectCode + " - " + i.subjectName }
  function SectionText(i: Item): string { i.sectionName + " (" + IntToString(i.sectionYear) + ")" }
  function TimeText(i: Item): string { i.timeStart + " - " + i.timeEnd }

  /** `bind`: the texts of the row and its badge. */
  function Bind(i: Item): (r: Row)
    ensures r.status == StatusLabel(i) && r.tone == ToneOf(r.status)
    ensures r.room == i.roomName && r.day == i.dayName
    ensures r.subject == SubjectText(i) && r.section == SectionText(i) && r.time == TimeText(i)
  {
    var badge := StatusLabel(i);
    Row(SubjectText(i), SectionText(i), i.roomName, TimeText(i), i.dayName, badge, ToneOf(badge))
  }

  /** The badge decision in full: "Today" exactly for today's classes,
      whatever their status; "Pending" exactly for the other classes whose
      status reads "pending" ignoring case; "Scheduled" for the rest. Each
      badge has its own colour. */
  lemma StatusBadge(i: Item)
    ensures Bind(i).status == "Today" <==> i.isToday
    ensures Bind(i).status == "Pending" <==> !i.isToday && LowerStr(i.scheduleStatus) == "pending"
    ensures Bind(i).status == "Scheduled" <==> !i.isToday && LowerStr(i.scheduleStatus) != "pending"
    ensures (Bind(i).tone == Green <==> i.isToday) && (Bind(i).tone == Orange <==> Bind(i).status == "Pending")
  {
    EqualsIgnoreCaseIsLowerEquality(i.scheduleStatus, "pending");
    assert LowerStr("pending") == "pending";
  }

  /** The statuses the schedule editor offers: only "Pending" shows as
      pending; "Occupied" and "Available" show as scheduled. */
  lemma EditorStatusesBadges(i: Item)
    requires !i.isToday
    ensures i.scheduleStatus == "Pending" ==> StatusLabel(i) == "Pending"
    ensures i.scheduleStatus == "Occupied" || i.scheduleStatus == "Available" ==> StatusLabel(i) == "Scheduled"
  {
    if i.scheduleStatus == "Occupied" {
      assert Lower(i.scheduleStatus[0]) != Lower("pending"[0]);
    }
    if i.scheduleStatus == "Available" {
      assert Lower(i.scheduleStatus[0]) != Lower("pending"[0]);
    }
  }

  /** The section text carries the year: what stands between the opening
      bracket after the name and the closing bracket reads back as the
      year. */
  lemma SectionTextCarriesYear(i: Item)
    requires IsInt32(i.sectionYear)
    ensures var t := SectionText(i); var n := |i.sectionName|;
      && |t| >= n + 3 && t[..n] == i.sectionName && t[n..n + 2] == " ("
      && t[|t| - 1] == ')' && ParseInt(t[n + 2..|t| - 1]) == Some(i.sectionYear)
  {
    var t := SectionText(i);
    var n := |i.sectionName|;
    var y := IntToString(i.sectionYear);
    assert t == i.sectionName + " (" + y + ")";
    assert t[n + 2..|t| - 1] == y;
    ParseIntOfIntToString(i.sectionYear);
  }

  /** The subject and time lines put a dash between their two parts: the
      code (the start) before " - ", the name (the end) after it. */
  lemma DashedTextsReadBack(i: Item)
    ensures var t := Bind(i).subject; var n := |i.subjectCode|;
      |t| == n + 3 + |i.subjectName| && t[..n] == i.subjectCode && t[n..n + 3] == " - " && t[n + 3..] == i.subjectName
    ensures var t := Bind(i).time; var n := |i.timeStart|;
      |t| == n + 3 + |i.timeEnd| && t[..n] == i.timeStart && t[n..n + 3] == " - " && t[n + 3..] == i.timeEnd
  {
  }

  /** `a + " - " + b` with a dash-free `a` splits in one way only. */
  lemma DashJoinInjective(a1: string, b1: string, a2: string, b2: string)
    requires '-' !in a1 && '-' !in a2
    ensures a1 + " - " + b1 == a2 + " - " + b2 <==> a1 == a2 && b1 == b2
  {
    var t1 := a1 + " - " + b1;
    var t2 := a2 + " - " + b2;
    assert t1 == (a1 + " ") + ['-'] + (" " + b1);
    assert t2 == (a2 + " ") + ['-'] + (" " + b2);
    SplitAfterPiece(a1 + " ", '-', " " + b1);
    SplitAfterPiece(a2 + " ", '-', " " + b2);
    if t1 == t2 {
      assert Split(t1, '-')[0] == a1 + " " && Split(t2, '-')[0] == a2 + " ";
      assert a1 == (a1 + " ")[..|a1|];
      assert a2 == (a2 + " ")[..|a2|];
      assert b1 == t1[|a1| + 3..];
      assert b2 == t2[|a2| + 3..];
    }
  }

  /** With dash-free subject codes and start labels, two rows show the same
      subject line exactly when code and name agree, and the same time line
      exactly when start and end agree. */
  lemma DashedTextsIdentify(x: Item, y: Item)
    requires '-' !in x.subjectCode && '-' !in y.subjectCode
    requires '-' !in x.timeStart && '-' !in y.timeStart
    ensures Bind(x).subject == Bind(y).subject <==> x.subjectCode == y.subjectCode && x.subjectName == y.subjectName
    ensures Bind(x).time == Bind(y).time <==> x.timeStart == y.timeStart && x.timeEnd == y.timeEnd
  {
    DashJoinInjective(x.subjectCode, x.subjectName, y.subjectCode, y.subjectName);
    DashJoinInjective(x.timeStart, x.timeEnd, y.timeStart, y.timeEnd);
  }

  /** `areItemsTheSame`: the same schedule id. */
  predicate SameItem(a: Item, b: Item) {
    a.scheduleId == b.scheduleId
  }

  /** `areContentsTheSame`: equal in every field. */
  predicate SameContents(a: Item, b: Item) {
    a == b
  }

  /** The differ's decision for an old and a new item. */
  function Diff(a: Item, b: Item): Change {
    DiffStep(SameItem(a, b), SameContents(a, b))
  }

  /** The differ keeps a row exactly when nothing about the item changed,
      rebinds it exactly when the same schedule's fields changed (its badge
      included), and replaces it exactly when the schedule id differs; a row
      whose shown texts would change is never kept. */
  lemma DiffDecidesRow(a: Item, b: Item)
    ensures Diff(a, b) == Kept <==> a == b
    ensures Diff(a, b) == Rebound <==> a.scheduleId == b.scheduleId && a != b
    ensures Diff(a, b) == Replaced <==> a.scheduleId != b.scheduleId
    ensures Bind(a) != Bind(b) ==> Diff(a, b) != Kept
  {
  }
}
