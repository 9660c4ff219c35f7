/** The schedule editor (EditScheduleActivity): six dropdown selections held
    as ids (-1 while unset), the prefill of those selections from a stored
    schedule by case-insensitive first match, the guard that a section list
    is fetched only once teacher and subject are chosen, and the save
    request: its guard, its JSON payload and its endpoint. */
module EditSchedule {
  import opened Base
  import opened Text
  import opened Json
  import RoomTimetable

  const BackendUrl: string := "http://10.0.2.2/scheduling-api"
  const UpdateUrl: string := BackendUrl + "/update_schedule.php"
  const AddUrl: string := BackendUrl + "/add_schedule.php"

  /** The id of a selection that has not been made. */
  const Unset: int := -1

  /** The choices the status dropdown offers. */
  const StatusOptions: seq<string> := ["Pending", "Occupied", "Available"]

  // ------------------------------------------------------------ entities

  datatype Day = Day(id: int, name: string)
  datatype Teacher = Teacher(id: int, name: string, email: string)
  datatype Subject = Subject(id: int, code: string, name: string)
  datatype Section = Section(id: int, name: string, year: int)
  datatype TimeSlot = TimeSlot(id: int, displayName: string, startTime: string, endTime: string)

  /** The dropdown data loaded from the backend. */
  datatype Lists = Lists(
    days: seq<Day>,
    teachers: seq<Teacher>,
    timeSlots: seq<TimeSlot>,
    subjects: seq<Subject>,
    sections: seq<Section>)

  /** The screen's state: the selected ids and the texts of the fields. */
  datatype Form = Form(
    dayId: int, teacherId: int, subjectId: int, sectionId: int,
    timeStartId: int, timeEndId: int,
    dayText: string, subjectCodeText: string, subjectNameText: string,
    teacherText: string, sectionText: string,
    timeStartText: string, timeEndText: string, statusText: string)

  /** The form before anything is chosen. */
  const EmptyForm: Form := Form(Unset, Unset, Unset, Unset, Unset, Unset, "", "", "", "", "", "", "", "")

  /** How the teacher dropdown shows a teacher. */
  function TeacherDisplay(name: string, email: string): string {
    name + " (" + email + ")"
  }

  /** How the section dropdown shows a section. */
  function SectionDisplay(s: Section): string {
    s.name + " - Year " + IntToString(s.year)
  }

  // --------------------------------------------------------------- launch

  /** What the screen reads from its launch intent. */
  datatype Screen = Screen(scheduleId: int, roomId: int, roomName: string)

  /** Missing extras default to -1, -1 and "". */
  function Launch(scheduleExtra: Option<int>, roomExtra: Option<int>, roomNameExtra: Option<string>): Screen
  {
    Screen(scheduleExtra.GetOr(Unset), roomExtra.GetOr(Unset), roomNameExtra.GetOr(""))
  }

  /** An existing schedule's details are loaded only when a schedule id was
      given; otherwise the screen creates a new schedule. */
  predicate LoadsDetails(s: Screen) {
    s.scheduleId != Unset
  }

  /** The screen a room timetable click opens: the editor reads the schedule
      id, room id and room name of the click's intent and no other extra. */
  function ScreenOf(i: RoomTimetable.EditIntent): Screen {
    Launch(Some(i.scheduleId), Some(i.roomId), Some(i.roomName))
  }

  /** A click on a schedule's block in a populated room grid opens the
      editor on that schedule: the last entry covering the cell gives the
      schedule id, the screen gives the room, and the stored schedule is
      loaded exactly when its id is not -1 (an entry stored with id -1
      opens a blank editor). */
  lemma EditorFromClick(ctx: RoomTimetable.RoomContext, m: RoomTimetable.ViewMode, g: seq<RoomTimetable.TimetableItem>,
                        es: seq<RoomTimetable.ScheduleEntry>, r: seq<RoomTimetable.TimetableItem>, pos: nat)
    requires RoomTimetable.HasSkeletonFrame(m, g) && RoomTimetable.Populated(g, m, es, r) && pos < |r|
    requires !RoomTimetable.IsFrame(m, pos) && RoomTimetable.LastCovering(m, es, pos).Some?
    ensures RoomTimetable.CellClick(ctx, m, r, pos).Some?
    ensures var e := RoomTimetable.LastCovering(m, es, pos).value;
      var s := ScreenOf(RoomTimetable.CellClick(ctx, m, r, pos).value);
      s == Screen(e.scheduleId, ctx.roomId, ctx.roomName) && (LoadsDetails(s) <==> e.scheduleId != -1)
  {
    RoomTimetable.ClickOnPopulated(ctx, m, g, es, r, pos);
  }

  /** The day and time of an empty slot never reach the editor: every empty
      slot of a room opens the same blank screen, which loads nothing. */
  lemma EmptySlotOpensBlankEditor(ctx: RoomTimetable.RoomContext, d1: string, t1: string, d2: string, t2: string)
    ensures ScreenOf(RoomTimetable.OnEmptySlotClick(ctx, d1, t1)) == ScreenOf(RoomTimetable.OnEmptySlotClick(ctx, d2, t2))
    ensures ScreenOf(RoomTimetable.OnEmptySlotClick(ctx, d1, t1)) == Screen(Unset, ctx.roomId, ctx.roomName)
    ensures !LoadsDetails(ScreenOf(RoomTimetable.OnEmptySlotClick(ctx, d1, t1)))
  {
  }

  /** The reply to the details request: the schedule object when `success`
      is true; None for "Schedule not found" and for a reply whose
      `success` or `schedule` cannot be read. */
  function ScheduleDetails(reply: JObject): (r: Option<JObject>)
    ensures r.Some? ==> GetBoolean(reply, "success") == Some(true)
    ensures r.Some? <==> GetBoolean(reply, "success") == Some(true) && GetObject(reply, "schedule").Some?
  {
    var ok := GetBoolean(reply, "success");
    if ok.None? || !ok.value then None else GetObject(reply, "schedule")
  }

  // ---------------------------------------------------------------- picks

  /** The sections of a teacher and subject are requested only once both are
      chosen. */
  predicate SectionsFetchAllowed(f: Form) {
    f.teacherId != Unset && f.subjectId != Unset
  }

  /** A choice in one of the dropdowns, by position in its list. */
  datatype Pick =
    | PickDay(pos: nat)
    | PickTeacher(pos: nat)
    | PickTimeStart(pos: nat)
    | PickTimeEnd(pos: nat)
    | PickSubjectCode(pos: nat)
    | PickSubjectName(pos: nat)
    | PickSection(pos: nat)
    | PickStatus(pos: nat)

  /** A pick offers only positions of the list its dropdown shows. */
  predicate ValidPick(l: Lists, p: Pick) {
    match p
    case PickDay(i) => i < |l.days|
    case PickTeacher(i) => i < |l.teachers|
    case PickTimeStart(i) => i < |l.timeSlots|
    case PickTimeEnd(i) => i < |l.timeSlots|
    case PickSubjectCode(i) => i < |l.subjects|
    case PickSubjectName(i) => i < |l.subjects|
    case PickSection(i) => i < |l.sections|
    case PickStatus(i) => i < |StatusOptions|
  }

  /** The form after a pick (the dropdown writes the chosen entry into its
      own field), and whether the pick asks for the section list. */
  function OnPick(l: Lists, f: Form, p: Pick): (r: (Form, bool))
    requires ValidPick(l, p)
    ensures r.1 ==> (p.PickTeacher? || p.PickSubjectCode? || p.PickSubjectName?) && SectionsFetchAllowed(r.0)
    ensures (p.PickTeacher? || p.PickSubjectCode? || p.PickSubjectName?) && SectionsFetchAllowed(r.0) ==> r.1
    ensures p.PickSubjectCode? ==> (r.0.subjectId == l.subjects[p.pos].id
      && r.0.subjectCodeText == l.subjects[p.pos].code && r.0.subjectNameText == l.subjects[p.pos].name)
    ensures p.PickSubjectName? ==> (r.0.subjectId == l.subjects[p.pos].id
      && r.0.subjectCodeText == l.subjects[p.pos].code && r.0.subjectNameText == l.subjects[p.pos].name)
    ensures r.0.sectionId != f.sectionId ==> p.PickSection?
    ensures r.0.dayId != f.dayId ==> p.PickDay?
    ensures r.0.teacherId != f.teacherId ==> p.PickTeacher?
    ensures r.0.subjectId != f.subjectId ==> p.PickSubjectCode? || p.PickSubjectName?
    ensures r.0.timeStartId != f.timeStartId ==> p.PickTimeStart?
    ensures r.0.timeEndId != f.timeEndId ==> p.PickTimeEnd?
  {
    match p
    case PickDay(i) => (f.(dayId := l.days[i].id, dayText := l.days[i].name), false)
    case PickTeacher(i) =>
      var t := l.teachers[i];
      var g := f.(teacherId := t.id, teacherText := TeacherDisplay(t.name, t.email));
      (g, SectionsFetchAllowed(g))
    case PickTimeStart(i) =>
      (f.(timeStartId := l.timeSlots[i].id, timeStartText := l.timeSlots[i].displayName), false)
    case PickTimeEnd(i) =>
      (f.(timeEndId := l.timeSlots[i].id, timeEndText := l.timeSlots[i].displayName), false)
    case PickSubjectCode(i) =>
      var s := l.subjects[i];
      var g := f.(subjectId := s.id, subjectCodeText := s.code, subjectNameText := s.name);
      (g, SectionsFetchAllowed(g))
    case PickSubjectName(i) =>
      var s := l.subjects[i];
      var g := f.(subjectId := s.id, subjectNameText := s.name, subjectCodeText := s.code);
      (g, SectionsFetchAllowed(g))
    case PickSection(i) =>
      (f.(sectionId := l.sections[i].id, sectionText := SectionDisplay(l.sections[i])), false)
    case PickStatus(i) => (f.(statusText := StatusOptions[i]), false)
  }

  // ------------------------------------------------------------- prefill

  predicate DayMatches(d: Day, name: string) { EqualsIgnoreCase(d.name, name) }
  predicate SubjectMatches(s: Subject, code: string) { EqualsIgnoreCase(s.code, code) }
  predicate TeacherMatches(t: Teacher, display: string) { EqualsIgnoreCase(TeacherDisplay(t.name, t.email), display) }
  predicate SlotMatches(t: TimeSlot, name: string) { EqualsIgnoreCase(t.displayName, name) }
  predicate SectionMatches(s: Section, name: string, year: int) { EqualsIgnoreCase(s.name, name) && s.year == year }

  /** The first day matching `name`, or -1. */
  function FindDay(days: seq<Day>, name: string): (k: int)
    ensures -1 <= k < |days|
    ensures k == -1 <==> forall i :: 0 <= i < |days| ==> !DayMatches(days[i], name)
    ensures 0 <= k ==> DayMatches(days[k], name) && forall j :: 0 <= j < k ==> !DayMatches(days[j], name)
  {
    IndexOfFirst(days, (d: Day) => DayMatches(d, name))
  }

  /** Selects the first day named `name` ignoring case; without one the form
      is unchanged. */
  function SelectDay(f: Form, days: seq<Day>, name: string): (r: Form)
    ensures r == f.(dayId := r.dayId, dayText := r.dayText)
  {
    var k := FindDay(days, name);
    if k >= 0 then f.(dayId := days[k].id, dayText := days[k].name) else f
  }

  lemma SelectDayFirstMatch(f: Form, days: seq<Day>, name: string)
    ensures (forall i :: 0 <= i < |days| ==> !DayMatches(days[i], name)) ==> SelectDay(f, days, name) == f
    ensures forall i :: (0 <= i < |days| && DayMatches(days[i], name)
      && (forall j :: 0 <= j < i ==> !DayMatches(days[j], name))) ==>
        SelectDay(f, days, name) == f.(dayId := days[i].id, dayText := days[i].name)
  {
    var k := FindDay(days, name);
    forall i | 0 <= i < |days| && DayMatches(days[i], name) && (forall j :: 0 <= j < i ==> !DayMatches(days[j], name))
      ensures k == i
    {
    }
  }

  /** The first subject matching `code`, or -1. */
  function FindSubject(subjects: seq<Subject>, code: string): (k: int)
    ensures -1 <= k < |subjects|
    ensures k == -1 <==> forall i :: 0 <= i < |subjects| ==> !SubjectMatches(subjects[i], code)
    ensures 0 <= k ==> SubjectMatches(subjects[k], code) && forall j :: 0 <= j < k ==> !SubjectMatches(subjects[j], code)
  {
    IndexOfFirst(subjects, (s: Subject) => SubjectMatches(s, code))
  }

  /** Selects the first subject whose code is `code` ignoring case; without
      one the selected subject is unchanged. */
  function SelectSubject(f: Form, subjects: seq<Subject>, code: string): (r: Form)
    ensures r == f.(subjectId := r.subjectId)
  {
    var k := FindSubject(subjects, code);
    if k >= 0 then f.(subjectId := subjects[k].id) else f
  }

  lemma SelectSubjectFirstMatch(f: Form, subjects: seq<Subject>, code: string)
    ensures (forall i :: 0 <= i < |subjects| ==> !SubjectMatches(subjects[i], code)) ==> SelectSubject(f, subjects, code) == f
    ensures forall i :: (0 <= i < |subjects| && SubjectMatches(subjects[i], code)
      && (forall j :: 0 <= j < i ==> !SubjectMatches(subjects[j], code))) ==>
        SelectSubject(f, subjects, code) == f.(subjectId := subjects[i].id)
  {
    var k := FindSubject(subjects, code);
    forall i | 0 <= i < |subjects| && SubjectMatches(subjects[i], code) && (forall j :: 0 <= j < i ==> !SubjectMatches(subjects[j], code))
      ensures k == i
    {
    }
  }

  /** The first teacher matching `display`, or -1. */
  function FindTeacher(teachers: seq<Teacher>, display: string): (k: int)
    ensures -1 <= k < |teachers|
    ensures k == -1 <==> forall i :: 0 <= i < |teachers| ==> !TeacherMatches(teachers[i], display)
    ensures 0 <= k ==> TeacherMatches(teachers[k], display) && forall j :: 0 <= j < k ==> !TeacherMatches(teachers[j], display)
  {
    IndexOfFirst(teachers, (t: Teacher) => TeacherMatches(t, display))
  }

  /** Selects the first teacher shown as `display` ignoring case; without one
      the form is unchanged. */
  function SelectTeacher(f: Form, teachers: seq<Teacher>, display: string): (r: Form)
    ensures r == f.(teacherId := r.teacherId, teacherText := r.teacherText)
  {
    var k := FindTeacher(teachers, display);
    if k >= 0 then f.(teacherId := teachers[k].id, teacherText := display) else f
  }

  lemma SelectTeacherFirstMatch(f: Form, teachers: seq<Teacher>, display: string)
    ensures (forall i :: 0 <= i < |teachers| ==> !TeacherMatches(teachers[i], display)) ==> SelectTeacher(f, teachers, display) == f
    ensures forall i :: (0 <= i < |teachers| && TeacherMatches(teachers[i], display)
      && (forall j :: 0 <= j < i ==> !TeacherMatches(teachers[j], display))) ==>
        SelectTeacher(f, teachers, display) == f.(teacherId := teachers[i].id, teacherText := display)
  {
    var k := FindTeacher(teachers, display);
    forall i | 0 <= i < |teachers| && TeacherMatches(teachers[i], display) && (forall j :: 0 <= j < i ==> !TeacherMatches(teachers[j], display))
      ensures k == i
    {
    }
  }

  /** The first time slot shown as `name` ignoring case, or -1. */
  function FindSlot(slots: seq<TimeSlot>, name: string): (k: int)
    ensures -1 <= k < |slots|
    ensures k == -1 <==> forall i :: 0 <= i < |slots| ==> !SlotMatches(slots[i], name)
    ensures 0 <= k ==> SlotMatches(slots[k], name) && forall j :: 0 <= j < k ==> !SlotMatches(slots[j], name)
  {
    IndexOfFirst(slots, (t: TimeSlot) => SlotMatches(t, name))
  }

  function SelectTimeStart(f: Form, slots: seq<TimeSlot>, name: string): (r: Form)
    ensures r == f.(timeStartId := r.timeStartId, timeStartText := r.timeStartText)
  {
    var k := FindSlot(slots, name);
    if k >= 0 then f.(timeStartId := slots[k].id, timeStartText := slots[k].displayName) else f
  }

  lemma SelectTimeStartFirstMatch(f: Form, slots: seq<TimeSlot>, name: string)
    ensures (forall i :: 0 <= i < |slots| ==> !SlotMatches(slots[i], name)) ==> SelectTimeStart(f, slots, name) == f
    ensures forall i :: (0 <= i < |slots| && SlotMatches(slots[i], name)
      && (forall j :: 0 <= j < i ==> !SlotMatches(slots[j], name))) ==>
        SelectTimeStart(f, slots, name) == f.(timeStartId := slots[i].id, timeStartText := slots[i].displayName)
  {
    var k := FindSlot(slots, name);
    forall i | 0 <= i < |slots| && SlotMatches(slots[i], name) && (forall j :: 0 <= j < i ==> !SlotMatches(slots[j], name))
      ensures k == i
    {
    }
  }

  function SelectTimeEnd(f: Form, slots: seq<TimeSlot>, name: string): (r: Form)
    ensures r == f.(timeEndId := r.timeEndId, timeEndText := r.timeEndText)
  {
    var k := FindSlot(slots, name);
    if k >= 0 then f.(timeEndId := slots[k].id, timeEndText := slots[k].displayName) else f
  }

  lemma SelectTimeEndFirstMatch(f: Form, slots: seq<TimeSlot>, name: string)
    ensures (forall i :: 0 <= i < |slots| ==> !SlotMatches(slots[i], name)) ==> SelectTimeEnd(f, slots, name) == f
    ensures forall i :: (0 <= i < |slots| && SlotMatches(slots[i], name)
      && (forall j :: 0 <= j < i ==> !SlotMatches(slots[j], name))) ==>
        SelectTimeEnd(f, slots, name) == f.(timeEndId := slots[i].id, timeEndText := slots[i].displayName)
  {
    var k := FindSlot(slots, name);
    forall i | 0 <= i < |slots| && SlotMatches(slots[i], name) && (forall j :: 0 <= j < i ==> !SlotMatches(slots[j], name))
      ensures k == i
    {
    }
  }

  /** The result of prefilling: the form, whether the section list was
      requested on the way, and whether a required name was missing (the
      steps before it stay applied). */
  datatype Prefilled = Prefilled(form: Form, sectionsRequested: bool, failed: bool)

  /** Every name prefill reads with `getString` can be read. */
  predicate HasPrefillStrings(schedule: JObject) {
    && GetString(schedule, "day_name").Some?
    && GetString(schedule, "subject_code").Some? && GetString(schedule, "subject_name").Some?
    && GetString(schedule, "teacher_name").Some?
    && GetString(schedule, "time_start").Some? && GetString(schedule, "time_end").Some?
  }

  /** Prefill of the form from a stored schedule: day, subject, teacher, the
      section request, both times and the status, each selection by
      case-insensitive first match. The section itself is chosen later, when
      the requested list arrives (SelectSection). */
  function Prefill(l: Lists, f: Form, schedule: JObject): (r: Prefilled)
    ensures !r.failed <==> HasPrefillStrings(schedule)
    ensures r.form.sectionId == f.sectionId
    ensures r.sectionsRequested ==> SectionsFetchAllowed(r.form)
    ensures !r.failed ==> r.form.statusText == OptString(schedule, "schedule_status", "Pending")
    ensures !r.failed ==> (r.form.subjectCodeText == GetString(schedule, "subject_code").value
      && r.form.subjectNameText == GetString(schedule, "subject_name").value)
    ensures GetString(schedule, "day_name").None? ==> r.form == f
  {
    var dayName := GetString(schedule, "day_name");
    if dayName.None? then Prefilled(f, false, true)
    else
      var f1 := SelectDay(f, l.days, dayName.value);
      var code := GetString(schedule, "subject_code");
      var name := GetString(schedule, "subject_name");
      if code.None? || name.None? then Prefilled(f1, false, true)
      else
        var f2 := SelectSubject(f1.(subjectCodeText := code.value, subjectNameText := name.value), l.subjects, code.value);
        var teacherName := GetString(schedule, "teacher_name");
        if teacherName.None? then Prefilled(f2, false, true)
        else
          var display := TeacherDisplay(teacherName.value, OptString(schedule, "teacher_email", ""));
          var f3 := SelectTeacher(f2, l.teachers, display);
          var fetch := SectionsFetchAllowed(f3);
          var start := GetString(schedule, "time_start");
          var end := GetString(schedule, "time_end");
          if start.None? || end.None? then Prefilled(f3, fetch, true)
          else
            var f4 := SelectTimeEnd(SelectTimeStart(f3, l.timeSlots, start.value), l.timeSlots, end.value);
            Prefilled(f4.(statusText := OptString(schedule, "schedule_status", "Pending")), fetch, false)
  }

  /** The first section matching `name` and `year`, or -1. */
  function FindSection(sections: seq<Section>, name: string, year: int): (k: int)
    ensures -1 <= k < |sections|
    ensures k == -1 <==> forall i :: 0 <= i < |sections| ==> !SectionMatches(sections[i], name, year)
    ensures 0 <= k ==> SectionMatches(sections[k], name, year) && forall j :: 0 <= j < k ==> !SectionMatches(sections[j], name, year)
  {
    IndexOfFirst(sections, (s: Section) => SectionMatches(s, name, year))
  }

  /** Selects the first section with name `name` (ignoring case) and year
      `year`; without one the form is unchanged. */
  function SelectSectionBy(f: Form, sections: seq<Section>, name: string, year: int): (r: Form)
    ensures r == f.(sectionId := r.sectionId, sectionText := r.sectionText)
  {
    var k := FindSection(sections, name, year);
    if k >= 0 then f.(sectionId := sections[k].id, sectionText := SectionDisplay(sections[k])) else f
  }

  lemma SelectSectionByFirstMatch(f: Form, sections: seq<Section>, name: string, year: int)
    ensures (forall i :: 0 <= i < |sections| ==> !SectionMatches(sections[i], name, year)) ==> SelectSectionBy(f, sections, name, year) == f
    ensures forall i :: (0 <= i < |sections| && SectionMatches(sections[i], name, year)
      && (forall j :: 0 <= j < i ==> !SectionMatches(sections[j], name, year))) ==>
        SelectSectionBy(f, sections, name, year) == f.(sectionId := sections[i].id, sectionText := SectionDisplay(sections[i]))
  {
    var k := FindSection(sections, name, year);
    forall i | 0 <= i < |sections| && SectionMatches(sections[i], name, year) && (forall j :: 0 <= j < i ==> !SectionMatches(sections[j], name, year))
      ensures k == i
    {
    }
  }

  /** When the requested sections arrive: the section is chosen by the
      stored `section_name` and `section_year` (`optInt`, default 0). None
      where reading `section_name` throws. */
  function SelectSection(f: Form, sections: seq<Section>, schedule: JObject): (r: Option<Form>)
    ensures r.None? <==> GetString(schedule, "section_name").None?
    ensures r.Some? ==> r.value == SelectSectionBy(f, sections, GetString(schedule, "section_name").value,
      if "section_year" in schedule then OptInt(schedule, "section_year", 0) else 0)
    ensures r.Some? ==> r.value == f.(sectionId := r.value.sectionId, sectionText := r.value.sectionText)
  {
    var name := GetString(schedule, "section_name");
    if name.None? then None
    else Some(SelectSectionBy(f, sections, name.value, OptInt(schedule, "section_year", 0)))
  }

  /** A form that already carries the day `SelectDay` would pick is left
      alone by it; likewise for the other selections below. */
  lemma SelectDayKeeps(g: Form, h: Form, days: seq<Day>, name: string)
    requires g.dayId == SelectDay(h, days, name).dayId && g.dayText == SelectDay(h, days, name).dayText
    ensures SelectDay(g, days, name) == g
  {
    var k := FindDay(days, name);
  }

  lemma SelectSubjectKeeps(g: Form, h: Form, subjects: seq<Subject>, code: string)
    requires g.subjectId == SelectSubject(h, subjects, code).subjectId
    ensures SelectSubject(g, subjects, code) == g
  {
    var k := FindSubject(subjects, code);
  }

  lemma SelectTeacherKeeps(g: Form, h: Form, teachers: seq<Teacher>, display: string)
    requires g.teacherId == SelectTeacher(h, teachers, display).teacherId
    requires g.teacherText == SelectTeacher(h, teachers, display).teacherText
    ensures SelectTeacher(g, teachers, display) == g
  {
    var k := FindTeacher(teachers, display);
  }

  lemma SelectTimesKeep(g: Form, h: Form, slots: seq<TimeSlot>, start: string, end: string)
    requires var r := SelectTimeEnd(SelectTimeStart(h, slots, start), slots, end);
      g.timeStartId == r.timeStartId && g.timeStartText == r.timeStartText
      && g.timeEndId == r.timeEndId && g.timeEndText == r.timeEndText
    ensures SelectTimeEnd(SelectTimeStart(g, slots, start), slots, end) == g
  {
    var k := FindSlot(slots, start);
    var m := FindSlot(slots, end);
  }

  /** Prefilling an already prefilled form from the same schedule changes
      nothing: every step either sets its fields from the schedule and the
      lists alone or leaves them as they were. */
  lemma PrefillIdempotent(l: Lists, f: Form, schedule: JObject)
    ensures Prefill(l, Prefill(l, f, schedule).form, schedule) == Prefill(l, f, schedule)
  {
    var r := Prefill(l, f, schedule).form;
    var dayName := GetString(schedule, "day_name");
    if dayName.Some? {
      SelectDayKeeps(r, f, l.days, dayName.value);
      var f1 := SelectDay(f, l.days, dayName.value);
      var code := GetString(schedule, "subject_code");
      var name := GetString(schedule, "subject_name");
      if code.Some? && name.Some? {
        var h := f1.(subjectCodeText := code.value, subjectNameText := name.value);
        var f2 := SelectSubject(h, l.subjects, code.value);
        SelectSubjectKeeps(r, h, l.subjects, code.value);
        var teacherName := GetString(schedule, "teacher_name");
        if teacherName.Some? {
          var display := TeacherDisplay(teacherName.value, OptString(schedule, "teacher_email", ""));
          var f3 := SelectTeacher(f2, l.teachers, display);
          SelectTeacherKeeps(r, f2, l.teachers, display);
          var start := GetString(schedule, "time_start");
          var end := GetString(schedule, "time_end");
          if start.Some? && end.Some? {
            SelectTimesKeep(r, f3, l.timeSlots, start.value, end.value);
          }
        }
      }
    }
  }

  /** A stored schedule that arrives before the dropdown lists is matched
      against empty lists: only the subject texts and the status are set,
      and the section list is requested only if the form already allowed it. */
  lemma PrefillBeforeLists(f: Form, schedule: JObject)
    requires HasPrefillStrings(schedule)
    ensures var r := Prefill(Lists([], [], [], [], []), f, schedule);
      && r.form == f.(subjectCodeText := GetString(schedule, "subject_code").value,
                      subjectNameText := GetString(schedule, "subject_name").value,
                      statusText := OptString(schedule, "schedule_status", "Pending"))
      && r.sectionsRequested == SectionsFetchAllowed(f)
      && !r.failed
  {
  }

  // ----------------------------------------------------------------- save

  /** A save request: the endpoint and the JSON payload. */
  datatype Request = Request(url: string, payload: JObject)

  /** The ids a save requires: day, teacher, subject, section, both times and
      the room. */
  predicate AllChosen(f: Form, roomId: int) {
    && f.dayId != Unset && f.teacherId != Unset && f.subjectId != Unset
    && f.sectionId != Unset && f.timeStartId != Unset && f.timeEndId != Unset
    && roomId != Unset
  }

  /** The names every save payload carries. */
  const PayloadKeys: set<string> :=
    {"day_id", "subject_id", "section_id", "teacher_id", "time_start_id", "time_end_id", "room_id", "schedule_status"}

  /** The save button: no request unless every selection and the room are
      set; then a payload of the ids and the status text, with
      `schedule_id` only when editing, posted to update_schedule.php when
      editing and to add_schedule.php when creating. */
  function SaveSchedule(f: Form, scheduleId: int, roomId: int): (r: Option<Request>)
    ensures r.Some? <==> AllChosen(f, roomId)
    ensures r.Some? ==> r.value.payload.Keys == PayloadKeys + (if scheduleId != Unset then {"schedule_id"} else {})
    ensures r.Some? ==> r.value.url == (if scheduleId != Unset then UpdateUrl else AddUrl)
    ensures r.Some? ==> r.value.payload["schedule_status"] == JStr(f.statusText)
  {
    if !AllChosen(f, roomId) then None
    else
      var base := map[
        "day_id" := JNum(f.dayId), "subject_id" := JNum(f.subjectId), "section_id" := JNum(f.sectionId),
        "teacher_id" := JNum(f.teacherId), "time_start_id" := JNum(f.timeStartId),
        "time_end_id" := JNum(f.timeEndId), "room_id" := JNum(roomId),
        "schedule_status" := JStr(f.statusText)];
      var payload := if scheduleId != Unset then base["schedule_id" := JNum(scheduleId)] else base;
      Some(Request(if scheduleId != Unset then UpdateUrl else AddUrl, payload))
  }

  /** What the backend reads back out of a save payload. */
  datatype SaveFields = SaveFields(
    dayId: int, subjectId: int, sectionId: int, teacherId: int,
    timeStartId: int, timeEndId: int, roomId: int, status: string, scheduleId: Option<int>)

  /** Reading a payload with `getInt`/`getString`, `schedule_id` optional. */
  function DecodeSave(p: JObject): Option<SaveFields> {
    var day := GetInt(p, "day_id");
    var subject := GetInt(p, "subject_id");
    var section := GetInt(p, "section_id");
    var teacher := GetInt(p, "teacher_id");
    var start := GetInt(p, "time_start_id");
    var end := GetInt(p, "time_end_id");
    var room := GetInt(p, "room_id");
    var status := GetString(p, "schedule_status");
    if day.None? || subject.None? || section.None? || teacher.None?
      || start.None? || end.None? || room.None? || status.None? then None
    else
      var sid := if "schedule_id" in p then GetInt(p, "schedule_id") else None;
      Some(SaveFields(day.value, subject.value, section.value, teacher.value,
        start.value, end.value, room.value, status.value, sid))
  }

  /** The ids are Kotlin `Int`s. */
  predicate IdsAreInts(f: Form, scheduleId: int, roomId: int) {
    && IsInt32(f.dayId) && IsInt32(f.teacherId) && IsInt32(f.subjectId) && IsInt32(f.sectionId)
    && IsInt32(f.timeStartId) && IsInt32(f.timeEndId) && IsInt32(scheduleId) && IsInt32(roomId)
  }

  /** The payload carries the selections unchanged: reading it back gives the
      chosen ids, the room, the status text, and the schedule id exactly
      when one was being edited. */
  lemma SavePayloadRoundTrip(f: Form, scheduleId: int, roomId: int)
    requires AllChosen(f, roomId) && IdsAreInts(f, scheduleId, roomId)
    ensures SaveSchedule(f, scheduleId, roomId).Some?
    ensures DecodeSave(SaveSchedule(f, scheduleId, roomId).value.payload) ==
      Some(SaveFields(f.dayId, f.subjectId, f.sectionId, f.teacherId, f.timeStartId, f.timeEndId,
        roomId, f.statusText, if scheduleId != Unset then Some(scheduleId) else None))
  {
  }

  /** The endpoint and the payload agree: a request goes to
      update_schedule.php exactly when its payload names a schedule. */
  lemma EndpointMatchesPayload(f: Form, scheduleId: int, roomId: int)
    requires SaveSchedule(f, scheduleId, roomId).Some?
    ensures var q := SaveSchedule(f, scheduleId, roomId).value;
      q.url == UpdateUrl <==> "schedule_id" in q.payload
  {
    assert UpdateUrl != AddUrl by {
      assert UpdateUrl[|BackendUrl| + 1] != AddUrl[|BackendUrl| + 1];
    }
  }

  /** The outcome of a save reply. */
  datatype SaveOutcome = Saved | Rejected(message: string) | SaveError

  /** `success` true closes the screen; false shows the reply's message
      (default "Operation completed"); an unreadable `success` is an error. */
  function SaveReply(reply: JObject): (r: SaveOutcome)
    ensures r.Saved? <==> GetBoolean(reply, "success") == Some(true)
    ensures r.SaveError? <==> GetBoolean(reply, "success").None?
    ensures r.Rejected? ==> r.message == OptString(reply, "message", "Operation completed")
    ensures r.Rejected? && "message" !in reply ==> r.message == "Operation completed"
  {
    var ok := GetBoolean(reply, "success");
    if ok.None? then SaveError
    else if ok.value then Saved
    else Rejected(OptString(reply, "message", "Operation completed"))
  }
}
