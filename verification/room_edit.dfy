/** The room editor, which exists twice with the same rules: as an activity
    (EditRoomDialogActivity, launched by an intent) and as a dialog fragment
    (EditRoomDialogFragment, created with an argument bundle). Both check the
    launch values, pre-fill a name and a capacity field, and on "update"
    decide between a name error, a capacity error, "No changes made" and an
    update request. */
module RoomEdit {
  import opened Base
  import opened Text
  import opened Json

  const UpdateRoomUrl: string := "http://10.0.2.2/scheduling-api/update_room.php"

  /** The room as the editor was launched with it. */
  datatype Room = Room(roomId: int, name: string, capacity: int)

  /** The activity's intent extras: a missing id is -1, a missing name "",
      a missing capacity 0. */
  function LaunchFromIntent(idExtra: Option<int>, nameExtra: Option<string>, capacityExtra: Option<int>): Room
  {
    Room(idExtra.GetOr(-1), nameExtra.GetOr(""), capacityExtra.GetOr(0))
  }

  /** The activity goes on exactly when its intent carries a room id other
      than -1 and a non-empty name; the capacity extra plays no part. */
  lemma IntentLaunchAccepted(idExtra: Option<int>, nameExtra: Option<string>, capacityExtra: Option<int>)
    ensures LaunchAccepted(LaunchFromIntent(idExtra, nameExtra, capacityExtra)) <==>
      idExtra.Some? && idExtra.value != -1 && nameExtra.Some? && |nameExtra.value| > 0
  {
  }

  /** The fragment's argument bundle, as `newInstance` fills it. */
  datatype Bundle = Bundle(ints: map<string, int>, strings: map<string, string>)

  function NewInstance(roomId: int, roomName: string, roomCapacity: int): Bundle {
    Bundle(map["room_id" := roomId, "room_capacity" := roomCapacity], map["room_name" := roomName])
  }

  /** The fragment reads its bundle with defaults -1, "" and 0; without a
      bundle the fields keep the same initial values. */
  function LaunchFromArguments(args: Option<Bundle>): (r: Room)
    ensures args.None? ==> r == Room(-1, "", 0)
  {
    match args
    case None => Room(-1, "", 0)
    case Some(b) =>
      Room(if "room_id" in b.ints then b.ints["room_id"] else -1,
           if "room_name" in b.strings then b.strings["room_name"] else "",
           if "room_capacity" in b.ints then b.ints["room_capacity"] else 0)
  }

  /** What `newInstance` stores, the fragment reads back. */
  lemma ArgumentsRoundTrip(roomId: int, roomName: string, roomCapacity: int)
    ensures LaunchFromArguments(Some(NewInstance(roomId, roomName, roomCapacity))) == Room(roomId, roomName, roomCapacity)
  {
  }

  /** The editor goes on only with a real room id and a non-empty name;
      otherwise it shows "Error loading room" and closes. */
  predicate LaunchAccepted(r: Room) {
    r.roomId != -1 && |r.name| > 0
  }

  /** A launch without any room information is refused. */
  lemma MissingLaunchValuesRefused(idExtra: Option<int>, capacityExtra: Option<int>)
    ensures !LaunchAccepted(LaunchFromIntent(idExtra, None, capacityExtra))
    ensures !LaunchAccepted(LaunchFromIntent(None, Some("x"), capacityExtra))
    ensures !LaunchAccepted(LaunchFromArguments(None))
  {
  }

  /** The texts the two fields start with: the name and the capacity in
      decimal. */
  function PrefillTexts(r: Room): (string, string) {
    (r.name, IntToString(r.capacity))
  }

  /** A capacity text the editor accepts: a Kotlin `Int` above zero, read
      from the text as typed (not trimmed). */
  predicate ValidCapacity(text: string) {
    ParseInt(text).Some? && ParseInt(text).value > 0
  }

  /** The outcome of pressing "update". */
  datatype Outcome =
    | NameRequired              // "Room name required" on the name field
    | CapacityRequired          // "Valid capacity required" on the capacity field
    | NoChanges                 // "No changes made", the editor closes
    | Update(payload: JObject)  // posted to update_room.php

  /** The update button: the trimmed name must be non-empty, then the
      capacity text must hold a positive `Int`; an edit equal to the launch
      values is "No changes made"; anything else is an update request of the
      room id, the trimmed name and the capacity. */
  function Submit(r: Room, nameText: string, capacityText: string): (o: Outcome)
    ensures o.NameRequired? <==> IsBlank(nameText)
    ensures o.CapacityRequired? <==> !IsBlank(nameText) && !ValidCapacity(capacityText)
    ensures o.NoChanges? <==> (!IsBlank(nameText) && ValidCapacity(capacityText)
      && Trim(nameText) == r.name && ParseInt(capacityText).value == r.capacity)
    ensures o.Update? ==> (ValidCapacity(capacityText)
      && o.payload == map["room_id" := JNum(r.roomId), "room_name" := JStr(Trim(nameText)),
                          "room_capacity" := JNum(ParseInt(capacityText).value)])
  {
    BlankIffTrimEmpty(nameText);
    var newName := Trim(nameText);
    if |newName| == 0 then NameRequired
    else if |capacityText| == 0 || ParseInt(capacityText).None? || ParseInt(capacityText).value <= 0 then CapacityRequired
    else
      var newCapacity := ParseInt(capacityText).value;
      if newName == r.name && newCapacity == r.capacity then NoChanges
      else Update(map["room_id" := JNum(r.roomId), "room_name" := JStr(newName), "room_capacity" := JNum(newCapacity)])
  }

  /** Pressing "update" on the untouched pre-filled fields of a room with a
      positive capacity and a name without surrounding whitespace changes
      nothing: the name trims to itself and the capacity reads back as it
      was printed. */
  lemma UnchangedSubmitIsNoChange(r: Room)
    requires LaunchAccepted(r)
    requires IsInt32(r.capacity) && r.capacity > 0
    requires !IsWhitespace(r.name[0]) && !IsWhitespace(r.name[|r.name| - 1])
    ensures Submit(r, PrefillTexts(r).0, PrefillTexts(r).1) == NoChanges
  {
    TrimOfTrimmed(r.name);
    ParseIntOfIntToString(r.capacity);
    BlankIffTrimEmpty(r.name);
  }

  /** A room launched with capacity 0 (the default of a missing value) or
      below cannot be submitted unchanged: its own capacity is refused. */
  lemma NonPositiveCapacityRefused(r: Room, nameText: string)
    requires IsInt32(r.capacity) && r.capacity <= 0
    requires !IsBlank(nameText)
    ensures Submit(r, nameText, PrefillTexts(r).1) == CapacityRequired
  {
    ParseIntOfIntToString(r.capacity);
  }

  /** The capacity text is read as typed: any whitespace before or after the
      number makes it invalid, whatever the number. */
  lemma UntrimmedCapacityRefused(r: Room, nameText: string, capacityText: string)
    requires !IsBlank(nameText)
    requires |capacityText| > 0
    requires IsWhitespace(capacityText[0]) || IsWhitespace(capacityText[|capacityText| - 1])
    ensures Submit(r, nameText, capacityText) == CapacityRequired
  {
  }

  /** The fields the backend reads out of an update payload. */
  function DecodeUpdate(p: JObject): Option<Room> {
    var id := GetInt(p, "room_id");
    var name := GetString(p, "room_name");
    var capacity := GetInt(p, "room_capacity");
    if id.None? || name.None? || capacity.None? then None
    else Some(Room(id.value, name.value, capacity.value))
  }

  /** An update request carries the room id, the trimmed name and the typed
      capacity, and it is sent only when one of name and capacity differs
      from the launch values. */
  lemma UpdatePayloadRoundTrip(r: Room, nameText: string, capacityText: string)
    requires IsInt32(r.roomId)
    requires Submit(r, nameText, capacityText).Update?
    ensures var d := DecodeUpdate(Submit(r, nameText, capacityText).payload);
      && d == Some(Room(r.roomId, Trim(nameText), ParseInt(capacityText).value))
      && (d.value.name != r.name || d.value.capacity != r.capacity)
  {
  }

  /** The reply to an update request. */
  datatype UpdateResult =
    | Updated                 // "Room updated successfully!", the editor closes
    | Refused(message: string)
    | ServerError(code: int)  // "Server error: <code>"
    | NetworkError            // the call or reading its reply threw

  /** `response.isSuccessful`: a status code in 200..299. */
  predicate IsSuccessful(code: int) {
    200 <= code < 300
  }

  /** A non-2xx status is a server error; otherwise `success` decides, and a
      refusal shows the reply's `message`; a reply that cannot be parsed or
      read is a network error. */
  function UpdateReply(code: int, reply: Option<JObject>): (r: UpdateResult)
    ensures r.ServerError? <==> !IsSuccessful(code)
    ensures r.ServerError? ==> r.code == code
    ensures r.Updated? <==> IsSuccessful(code) && reply.Some? && GetBoolean(reply.value, "success") == Some(true)
    ensures r.Refused? ==> reply.Some? && GetString(reply.value, "message") == Some(r.message)
    ensures (IsSuccessful(code) && reply.Some? && GetBoolean(reply.value, "success") == Some(false)
             && GetString(reply.value, "message").Some?)
      ==> r == Refused(GetString(reply.value, "message").value)
  {
    if !IsSuccessful(code) then ServerError(code)
    else if reply.None? then NetworkError
    else
      var ok := GetBoolean(reply.value, "success");
      if ok.None? then NetworkError
      else if ok.value then Updated
      else
        var message := GetString(reply.value, "message");
        if message.None? then NetworkError else Refused(message.value)
  }
}
