/** The two fixed axes every timetable screen uses: the 25 half-hour labels
    from 7:00 AM to 7:00 PM (inclusive) and the seven day names, Monday first.
    The screens each declare their own copy of these lists; the copies are
    identical, so they are defined once here. */
module Axes {

  const TimeSlots: seq<string> := [
    "7:00 AM", "7:30 AM", "8:00 AM", "8:30 AM", "9:00 AM", "9:30 AM",
    "10:00 AM", "10:30 AM", "11:00 AM", "11:30 AM", "12:00 PM", "12:30 PM",
    "1:00 PM", "1:30 PM", "2:00 PM", "2:30 PM", "3:00 PM", "3:30 PM",
    "4:00 PM", "4:30 PM", "5:00 PM", "5:30 PM", "6:00 PM", "6:30 PM", "7:00 PM"
  ]

  const Days: seq<string> := ["Monday", "Tuesday", "Wednesday", "Thursday", "Friday", "Saturday", "Sunday"]

  /** Number of half-hour labels on the time axis. */
  const SlotCount: nat := 25

  lemma AxesSizes()
    ensures |TimeSlots| == SlotCount
    ensures |Days| == 7
    ensures forall i :: 0 <= i < 7 ==> |Days[i]| >= 6
  {
  }
}
