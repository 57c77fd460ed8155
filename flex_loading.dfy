/** The tolerant loaders of the flexible pipeline: `enum_try`, which turns
    a JSON string into an enumeration member when it can (with room-type
    synonyms), and `load_timeslots`, which reads timeslot records into the
    sorted slot ids, the slots grouped by weekday and the records by id. */
module FlexLoading {

  import opened Wrappers
  import opened PyStr
  import opened Sequences
  import opened ListDict
  import opened Structures

  // ---------------------------------------------------------------------
  // enum_try
  // ---------------------------------------------------------------------

  datatype EnumClass = FacultyEnum | RoomTypeEnum | BuildingEnum

  /** The member names of each enumeration. */
  function MemberNames(cls: EnumClass): seq<string> {
    match cls
    case FacultyEnum => ["BU", "AU", "KG", "M"]
    case RoomTypeEnum => ["LECTURE", "LAB", "COMPUTER", "SEMINAR"]
    case BuildingEnum => ["GSS", "M13", "C11"]
  }

  /** A JSON value handed to `enum_try`, or a member it has already become. */
  datatype PyValue = NoneValue | Member(cls: EnumClass, name: string) | Text(s: string) | Number(n: int)

  /** `ROOMTYPE_SYNONYMS` as written: the last key is the UTF-8 bytes of
      "HÖRSAAL" read as Windows-1252, i.e. "H", U+00C3, U+2013, "RSAAL". */
  const SynonymsAsWritten: map<string, string> := map[
    "LAB" := "COMPUTER", "PC" := "COMPUTER", "PCPOOL" := "COMPUTER", "POOL" := "COMPUTER",
    "H\U{00C3}\U{2013}RSAAL" := "LECTURE"]

  /** `ROOMTYPE_SYNONYMS` with the lecture-hall key spelt "HÖRSAAL". */
  const Synonyms: map<string, string> := map[
    "LAB" := "COMPUTER", "PC" := "COMPUTER", "PCPOOL" := "COMPUTER", "POOL" := "COMPUTER",
    "H\U{00D6}RSAAL" := "LECTURE"]

  /** The lookup key `enum_try` makes of a string: stripped, and for room
      types replaced by its synonym when its upper-case form has one. */
  function KeyOf(syn: map<string, string>, cls: EnumClass, s: string): string {
    var stripped := Strip(s);
    if cls == RoomTypeEnum && Upper(stripped) in syn then syn[Upper(stripped)] else stripped
  }

  /** The member named by `key` as given, else by its upper-case form. */
  function MemberFor(cls: EnumClass, key: string): (r: Option<string>)
    ensures r.Some? ==> r.value in MemberNames(cls)
  {
    if key in MemberNames(cls) then Some(key)
    else if Upper(key) in MemberNames(cls) then Some(Upper(key))
    else None
  }

  /** `enum_try(enum_cls, value)` with the synonym table `syn`: None and
      members pass through, a string becomes the member its key names, and
      anything else comes back unchanged. */
  function EnumTryWith(syn: map<string, string>, cls: EnumClass, v: PyValue): (r: PyValue)
    ensures r == v || (r.Member? && r.cls == cls && r.name in MemberNames(cls))
  {
    match v
    case Text(s) =>
      (match MemberFor(cls, KeyOf(syn, cls, s))
       case Some(n) => Member(cls, n)
       case None => v)
    case _ => v
  }

  /** `enum_try` as the pipeline uses it. */
  function EnumTry(cls: EnumClass, v: PyValue): PyValue {
    EnumTryWith(Synonyms, cls, v)
  }

  /** `enum_try` with the synonym table as written. */
  function EnumTryAsWritten(cls: EnumClass, v: PyValue): PyValue {
    EnumTryWith(SynonymsAsWritten, cls, v)
  }

  /** The member names are the enumerations' names, all in upper case. */
  lemma MemberNamesAreEnumNames()
    ensures forall n :: n in MemberNames(FacultyEnum) <==> exists f :: FacultyName(f) == n
    ensures forall n :: n in MemberNames(RoomTypeEnum) <==> exists t :: RoomTypeName(t) == n
    ensures forall n :: n in MemberNames(BuildingEnum) <==> exists b :: BuildingName(b) == n
    ensures forall cls, n :: n in MemberNames(cls) ==> Upper(n) == n
  {
    assert FacultyName(BU) == "BU" && FacultyName(AU) == "AU" && FacultyName(KG) == "KG" && FacultyName(M) == "M";
    assert RoomTypeName(LECTURE) == "LECTURE" && RoomTypeName(LAB) == "LAB";
    assert RoomTypeName(COMPUTER) == "COMPUTER" && RoomTypeName(SEMINAR) == "SEMINAR";
    assert BuildingName(GSS) == "GSS" && BuildingName(M13) == "M13" && BuildingName(C11) == "C11";
    forall cls, n | n in MemberNames(cls) ensures Upper(n) == n {
      UpperOfUpper(n);
    }
  }

  /** Upper-casing leaves upper-case letters and digits alone. */
  lemma UpperOfUpper(s: string)
    requires forall i :: 0 <= i < |s| ==> 'A' <= s[i] <= 'Z' || '0' <= s[i] <= '9'
    ensures Upper(s) == s
  {
  }

  /** A key whose upper-case form names a member finds that member. */
  lemma MemberForUpper(cls: EnumClass, key: string)
    requires Upper(key) in MemberNames(cls)
    ensures MemberFor(cls, key) == Some(Upper(key))
  {
    if key in MemberNames(cls) {
      MemberNamesAreEnumNames();
    }
  }

  /** None, members and numbers come back unchanged. */
  lemma EnumTryKeepsNonStrings(cls: EnumClass, v: PyValue)
    requires !v.Text?
    ensures EnumTry(cls, v) == v && EnumTryAsWritten(cls, v) == v
  {
  }

  /** A string whose stripped, upper-cased form names a member (and, for
      room types, is not a synonym) becomes that member, whatever its case
      and surrounding whitespace. */
  lemma EnumTryIgnoresCase(cls: EnumClass, s: string)
    requires Upper(Strip(s)) in MemberNames(cls)
    requires cls == RoomTypeEnum ==> Upper(Strip(s)) !in Synonyms
    ensures EnumTry(cls, Text(s)) == Member(cls, Upper(Strip(s)))
  {
    assert KeyOf(Synonyms, cls, s) == Strip(s);
    MemberForUpper(cls, Strip(s));
  }

  /** A string that names no member in any case and is no synonym stays a
      string. */
  lemma EnumTryUnknown(cls: EnumClass, s: string)
    requires Strip(s) !in MemberNames(cls) && Upper(Strip(s)) !in MemberNames(cls)
    requires cls == RoomTypeEnum ==> Upper(Strip(s)) !in Synonyms
    ensures EnumTry(cls, Text(s)) == Text(s)
  {
    assert KeyOf(Synonyms, cls, s) == Strip(s);
  }

  /** "lab", "pc", "pcpool" and "pool", in any case, mean a computer room. */
  lemma ComputerSynonyms(s: string)
    requires Upper(Strip(s)) == "LAB" || Upper(Strip(s)) == "PC" || Upper(Strip(s)) == "PCPOOL" || Upper(Strip(s)) == "POOL"
    ensures EnumTry(RoomTypeEnum, Text(s)) == Member(RoomTypeEnum, "COMPUTER")
  {
    var u := Upper(Strip(s));
    ComputerKeys(u);
    assert u in Synonyms && Synonyms[u] == "COMPUTER";
    assert KeyOf(Synonyms, RoomTypeEnum, s) == "COMPUTER";
    NamedMembers();
  }

  lemma ComputerKeys(u: string)
    requires u == "LAB" || u == "PC" || u == "PCPOOL" || u == "POOL"
    ensures u in Synonyms && Synonyms[u] == "COMPUTER"
  {
  }

  /** The room-type names find themselves. */
  lemma NamedMembers()
    ensures MemberFor(RoomTypeEnum, "COMPUTER") == Some("COMPUTER")
    ensures MemberFor(RoomTypeEnum, "LECTURE") == Some("LECTURE")
  {
    assert "COMPUTER" in MemberNames(RoomTypeEnum);
    assert "LECTURE" in MemberNames(RoomTypeEnum);
  }

  /** Every synonym names COMPUTER or LECTURE. */
  lemma SynonymTargets()
    ensures forall k :: k in Synonyms ==> Synonyms[k] == "COMPUTER" || Synonyms[k] == "LECTURE"
    ensures "LAB" in Synonyms
  {
  }

  /** No string becomes the LAB room type: its name is a synonym of
      COMPUTER. */
  lemma NoStringBecomesLab(s: string)
    ensures EnumTry(RoomTypeEnum, Text(s)) != Member(RoomTypeEnum, "LAB")
  {
    var stripped := Strip(s);
    var key := KeyOf(Synonyms, RoomTypeEnum, s);
    SynonymTargets();
    if Upper(stripped) in Synonyms {
      assert key == "COMPUTER" || key == "LECTURE";
      NamedMembers();
    } else {
      NotLab(stripped);
      assert key == stripped;
    }
  }

  /** A key that is not a synonym finds no LAB member. */
  lemma NotLab(key: string)
    requires Upper(key) !in Synonyms
    ensures MemberFor(RoomTypeEnum, key) != Some("LAB")
  {
    SynonymTargets();
    assert Upper("LAB") == "LAB";
    assert Upper(key) != "LAB" && key != "LAB";
  }

  /** The lecture-hall synonym: any spelling of "Hörsaal" is the LECTURE
      type with the table spelt correctly, and stays a string with the
      table as written. */
  lemma LectureHallSynonym(s: string)
    requires Upper(Strip(s)) == "H\U{00D6}RSAAL"
    ensures EnumTry(RoomTypeEnum, Text(s)) == Member(RoomTypeEnum, "LECTURE")
    ensures EnumTryAsWritten(RoomTypeEnum, Text(s)) == Text(s)
  {
    var stripped := Strip(s);
    var u := Upper(stripped);
    LectureHallKeys(u);
    assert u in Synonyms && Synonyms[u] == "LECTURE";
    assert KeyOf(Synonyms, RoomTypeEnum, s) == "LECTURE";
    NamedMembers();
    assert u !in SynonymsAsWritten;
    assert KeyOf(SynonymsAsWritten, RoomTypeEnum, s) == stripped;
    LectureHallNoMember(stripped);
  }

  /** "HÖRSAAL" is a key of the corrected table only. */
  lemma LectureHallKeys(u: string)
    requires u == "H\U{00D6}RSAAL"
    ensures u in Synonyms && Synonyms[u] == "LECTURE"
    ensures u !in SynonymsAsWritten
  {
    assert u[1] == '\U{00D6}';
  }

  /** No spelling of "Hörsaal" names a member. */
  lemma LectureHallNoMember(stripped: string)
    requires Upper(stripped) == "H\U{00D6}RSAAL"
    ensures MemberFor(RoomTypeEnum, stripped) == None
  {
    assert |stripped| == 7 && UpperChar(stripped[1]) == '\U{00D6}';
    assert stripped[1] != 'E' && UpperChar('E') == 'E';
    assert stripped != "LECTURE" by {
      assert "LECTURE"[1] == 'E';
    }
    assert Upper(stripped) != "LECTURE" by {
      assert "LECTURE"[1] == 'E';
    }
  }

  /** The case that shows the mis-encoded key: "Hörsaal". */
  lemma HoersaalAsWritten()
    ensures EnumTryAsWritten(RoomTypeEnum, Text("H\U{00F6}rsaal")) == Text("H\U{00F6}rsaal")
    ensures EnumTry(RoomTypeEnum, Text("H\U{00F6}rsaal")) == Member(RoomTypeEnum, "LECTURE")
  {
    var s := "H\U{00F6}rsaal";
    StripNoSpace(s);
    UpperHoersaal();
    LectureHallSynonym(s);
  }

  lemma UpperHoersaal()
    ensures Upper("H\U{00F6}rsaal") == "H\U{00D6}RSAAL"
  {
    var u := Upper("H\U{00F6}rsaal");
    assert UpperChar('\U{00F6}') == '\U{00D6}' && UpperChar('r') == 'R' && UpperChar('s') == 'S';
    assert UpperChar('a') == 'A' && UpperChar('l') == 'L' && UpperChar('H') == 'H';
    assert u[0] == 'H' && u[1] == '\U{00D6}' && u[2] == 'R' && u[3] == 'S';
    assert u[4] == 'A' && u[5] == 'A' && u[6] == 'L';
  }

  // ---------------------------------------------------------------------
  // load_timeslots
  // ---------------------------------------------------------------------

  /** The JSON scalars a record field can hold. */
  datatype JsonScalar = JInt(n: int) | JStr(s: string)

  /** A field of a JSON object: missing, `null`, or a value. */
  datatype Field = Absent | Null | Present(v: JsonScalar)

  /** The fields of a timeslot record that `load_timeslots` reads. */
  datatype TimeslotRecord = TimeslotRecord(timeslotId: Field, slotId: Field, id: Field, day: Field)

  /** `ts.get(key, default)` */
  function GetOr(f: Field, default: Option<JsonScalar>): Option<JsonScalar> {
    match f
    case Absent => default
    case Null => None
    case Present(v) => Some(v)
  }

  /** `ts.get("timeslot_id", ts.get("slot_id", ts.get("id")))`: the first key
      present decides, even when its value is null. */
  function SlotIdOf(ts: TimeslotRecord): Option<JsonScalar> {
    GetOr(ts.timeslotId, GetOr(ts.slotId, GetOr(ts.id, None)))
  }

  /** `int(v)` */
  function IntOf(v: JsonScalar): Option<int> {
    match v
    case JInt(n) => Some(n)
    case JStr(s) => ParseInt(s)
  }

  /** `str(v)` */
  function StrOf(v: JsonScalar): string {
    match v
    case JInt(n) => IntToString(n)
    case JStr(s) => s
  }

  /** The id a record contributes: nothing when it has none, a ValueError
      when `int()` refuses it. */
  function RecordId(ts: TimeslotRecord): Result<Option<int>, string> {
    match SlotIdOf(ts)
    case None => Success(None)
    case Some(v) =>
      match IntOf(v)
      case None => Failure("ValueError")
      case Some(n) => Success(Some(n))
  }

  /** The day a record is filed under, when it has one. */
  function DayOf(ts: TimeslotRecord): Option<string> {
    match ts.day
    case Present(v) => Some(StrOf(v))
    case _ => None
  }

  /** `slot_ids`, `day_map` and `ts_by_id` while the records are read. */
  datatype Collected = Collected(slotIds: seq<int>, dayMap: seq<Entry>, byId: map<int, TimeslotRecord>)

  /** How a record's id is read (`RecordId`) and how its day is read
      (`DayOf`). The reading loop is written over any such pair, so that what
      is proved about the loop does not depend on how `int()` and `str()`
      work. */
  type IdReader = TimeslotRecord -> Result<Option<int>, string>
  type DayReader = TimeslotRecord -> Option<string>

  /** Record one timeslot with id `id`. */
  function Record(col: Collected, id: int, ts: TimeslotRecord, dayOf: DayReader): Collected {
    var dayMap := match dayOf(ts) case Some(d) => AppendId(col.dayMap, d, id) case None => col.dayMap;
    Collected(col.slotIds + [id], dayMap, col.byId[id := ts])
  }

  /** One iteration of the reading loop. */
  function Step(col: Collected, ts: TimeslotRecord, idOf: IdReader, dayOf: DayReader): Result<Collected, string> {
    match idOf(ts)
    case Failure(e) => Failure(e)
    case Success(None) => Success(col)
    case Success(Some(id)) => Success(Record(col, id, ts, dayOf))
  }

  /** The reading loop over all records; the first failure ends it. */
  function CollectBy(data: seq<TimeslotRecord>, idOf: IdReader, dayOf: DayReader): Result<Collected, string> {
    if data == [] then Success(Collected([], [], map[]))
    else
      match CollectBy(data[..|data| - 1], idOf, dayOf)
      case Failure(e) => Failure(e)
      case Success(col) => Step(col, data[|data| - 1], idOf, dayOf)
  }

  /** The reading loop of `load_timeslots`, with its own id and day reading. */
  function Collect(data: seq<TimeslotRecord>): Result<Collected, string> {
    CollectBy(data, RecordId, DayOf)
  }

  /** The reading loop of `load_timeslots`. */
  method CollectTimeslots(data: seq<TimeslotRecord>) returns (r: Result<Collected, string>)
    ensures r == Collect(data)
  {
    var slotIds: seq<int> := [];
    var dayMap: seq<Entry> := [];
    var byId: map<int, TimeslotRecord> := map[];
    for i := 0 to |data|
      invariant Collect(data[..i]) == Success(Collected(slotIds, dayMap, byId))
    {
      assert data[..i + 1][..i] == data[..i];
      var ts := data[i];
      var slotId := SlotIdOf(ts);
      if slotId.None? {
        continue;
      }
      var n := IntOf(slotId.value);
      if n.None? {
        FailureStops(data, i + 1);
        return Failure("ValueError");
      }
      slotIds := slotIds + [n.value];
      byId := byId[n.value := ts];
      var day := DayOf(ts);
      if day.Some? {
        dayMap := AppendId(dayMap, day.value, n.value);
      }
    }
    assert data[..|data|] == data;
    r := Success(Collected(slotIds, dayMap, byId));
  }

  /** Once a prefix fails, the whole list fails the same way. */
  lemma {:induction false} FailureStops(data: seq<TimeslotRecord>, i: nat)
    requires i <= |data| && Collect(data[..i]) == Failure("ValueError")
    ensures Collect(data) == Failure("ValueError")
    decreases |data| - i
  {
    if i < |data| {
      assert data[..i + 1][..i] == data[..i];
      FailureStops(data, i + 1);
    } else {
      assert data[..i] == data;
    }
  }

  /** The weekdays in their order; any other day ranks 999. */
  function DayRank(d: string): int {
    if d == "Montag" then 0
    else if d == "Dienstag" then 1
    else if d == "Mittwoch" then 2
    else if d == "Donnerstag" then 3
    else if d == "Freitag" then 4
    else if d == "Samstag" then 5
    else if d == "Sonntag" then 6
    else 999
  }

  /** The order of `day_sort_key`: by rank, then by name. */
  function DayLe(): (string, string) -> bool {
    (a: string, b: string) => DayRank(a) < DayRank(b) || (DayRank(a) == DayRank(b) && StrLe(a, b))
  }

  lemma DayLeTotal()
    ensures TotalPreorder(DayLe())
  {
    forall a, b ensures DayLe()(a, b) || DayLe()(b, a) {
      StrLeTotal(a, b);
    }
    forall a, b, c | DayLe()(a, b) && DayLe()(b, c) ensures DayLe()(a, c) {
      if DayRank(a) == DayRank(b) == DayRank(c) {
        StrLeTransitive(a, b, c);
      }
    }
  }

  /** A contiguous run of ids or the ids themselves. */
  datatype SlotSet = SlotRange(lo: int, hi: int) | SlotList(ids: seq<int>)

  /** The slot ids a `SlotSet` stands for, in order. */
  function Elements(s: SlotSet): seq<int> {
    match s
    case SlotRange(lo, hi) => Range(lo, hi)
    case SlotList(ids) => ids
  }

  /** `range(first, last + 1)` when the sorted ids have no gap, else the ids. */
  function SlotsOf(ids: seq<int>): SlotSet
    requires ids != []
  {
    if ids[|ids| - 1] - ids[0] + 1 == |ids| then SlotRange(ids[0], ids[|ids| - 1] + 1) else SlotList(ids)
  }

  /** Either form stands for the ids themselves. */
  lemma SlotsOfIds(ids: seq<int>)
    requires ids != [] && forall i, j :: 0 <= i < j < |ids| ==> ids[i] < ids[j]
    ensures Elements(SlotsOf(ids)) == ids
    ensures SlotsOf(ids).SlotRange? <==> ids[|ids| - 1] - ids[0] + 1 == |ids|
  {
    if ids[|ids| - 1] - ids[0] + 1 == |ids| {
      ContiguousIsRange(ids);
    }
  }

  /** What `load_timeslots` returns: `slots`, `days` and `ts_by_id`. */
  datatype Timeslots = Timeslots(slots: SlotSet, days: seq<seq<int>>, byId: map<int, TimeslotRecord>)

  /** The weekday names in `day_sort_key` order. */
  function DayNames(col: Collected): seq<string> {
    SortBy(Keys(col.dayMap), DayLe())
  }

  /** `days`: the sorted id list of each day, in day order. */
  function DayLists(col: Collected): (days: seq<seq<int>>)
    ensures |days| == |DayNames(col)|
  {
    var names := DayNames(col);
    seq(|names|, i requires 0 <= i < |names| => SortBy(Lookup(col.dayMap, names[i]), IntLe()))
  }

  /** Sorting and grouping after the reading loop. */
  function Finish(col: Collected): Result<Timeslots, string> {
    var ids := SortedSet(col.slotIds);
    if ids == [] then Failure("ValueError")
    else
      Success(Timeslots(SlotsOf(ids), DayLists(col), col.byId))
  }

  /** Reading, then sorting and grouping, with the given readers. */
  function LoadedBy(data: seq<TimeslotRecord>, idOf: IdReader, dayOf: DayReader): Result<Timeslots, string> {
    match CollectBy(data, idOf, dayOf)
    case Failure(e) => Failure(e)
    case Success(col) => Finish(col)
  }

  /** `load_timeslots` on the parsed JSON list. */
  function LoadedTimeslots(data: seq<TimeslotRecord>): Result<Timeslots, string> {
    LoadedBy(data, RecordId, DayOf)
  }

  method LoadTimeslots(data: seq<TimeslotRecord>) returns (r: Result<Timeslots, string>)
    ensures r == LoadedTimeslots(data)
  {
    var col := CollectTimeslots(data);
    if col.Failure? {
      return Failure(col.error);
    }
    r := Finish(col.value);
  }

  /** Some record has the id `id`. */
  predicate SomeRecordHasId(data: seq<TimeslotRecord>, idOf: IdReader, id: int) {
    exists k :: 0 <= k < |data| && idOf(data[k]) == Success(Some(id))
  }

  /** Some record has the id `id` and the day `d`. */
  predicate SomeRecordFiles(data: seq<TimeslotRecord>, idOf: IdReader, dayOf: DayReader, id: int, d: string) {
    exists k :: 0 <= k < |data| && idOf(data[k]) == Success(Some(id)) && dayOf(data[k]) == Some(d)
  }

  /** Some record has an id and the day `d`. */
  predicate SomeRecordHasDay(data: seq<TimeslotRecord>, idOf: IdReader, dayOf: DayReader, d: string) {
    exists k :: 0 <= k < |data| && idOf(data[k]).Success? && idOf(data[k]).value.Some? && dayOf(data[k]) == Some(d)
  }

  /** The reading loop fails exactly when some record has an id `int()`
      refuses. */
  lemma {:induction false} CollectFailure(data: seq<TimeslotRecord>, idOf: IdReader, dayOf: DayReader)
    ensures CollectBy(data, idOf, dayOf).Failure? <==> exists k :: 0 <= k < |data| && idOf(data[k]).Failure?
  {
    if data != [] {
      var init := data[..|data| - 1];
      CollectFailure(init, idOf, dayOf);
      assert forall k :: 0 <= k < |init| ==> data[k] == init[k];
      if exists k :: 0 <= k < |init| && idOf(init[k]).Failure? {
        var k :| 0 <= k < |init| && idOf(init[k]).Failure?;
        assert idOf(data[k]).Failure?;
      }
    }
  }

  /** Otherwise it lists the id of every record that has one, and keeps a
      record for exactly those ids. */
  lemma {:induction false} CollectIds(data: seq<TimeslotRecord>, idOf: IdReader, dayOf: DayReader)
    requires CollectBy(data, idOf, dayOf).Success?
    ensures forall id :: id in CollectBy(data, idOf, dayOf).value.slotIds <==>
      SomeRecordHasId(data, idOf, id)
    ensures forall id :: id in CollectBy(data, idOf, dayOf).value.byId <==> id in CollectBy(data, idOf, dayOf).value.slotIds
  {
    if data != [] {
      var init := data[..|data| - 1];
      CollectIds(init, idOf, dayOf);
      assert forall k :: 0 <= k < |init| ==> data[k] == init[k];
      forall id | SomeRecordHasId(data, idOf, id)
        ensures id in CollectBy(data, idOf, dayOf).value.slotIds
      {
        var k :| 0 <= k < |data| && idOf(data[k]) == Success(Some(id));
        if k < |init| {
          assert idOf(init[k]) == Success(Some(id));
        }
      }
    }
  }

  /** For each id it keeps the last record with that id. */
  lemma {:induction false} CollectById(data: seq<TimeslotRecord>, idOf: IdReader, dayOf: DayReader)
    requires CollectBy(data, idOf, dayOf).Success?
    ensures forall id :: id in CollectBy(data, idOf, dayOf).value.byId ==>
      exists k :: 0 <= k < |data| && idOf(data[k]) == Success(Some(id)) && CollectBy(data, idOf, dayOf).value.byId[id] == data[k]
                  && forall j :: k < j < |data| ==> idOf(data[j]) != Success(Some(id))
  {
    if data != [] {
      var init := data[..|data| - 1];
      var ts := data[|data| - 1];
      CollectById(init, idOf, dayOf);
      var col := CollectBy(init, idOf, dayOf).value;
      var byId := CollectBy(data, idOf, dayOf).value.byId;
      forall id | id in byId
        ensures exists k :: 0 <= k < |data| && idOf(data[k]) == Success(Some(id)) && byId[id] == data[k]
                            && forall j :: k < j < |data| ==> idOf(data[j]) != Success(Some(id))
      {
        if idOf(ts) == Success(Some(id)) {
          assert idOf(data[|data| - 1]) == Success(Some(id));
        } else {
          var k :| 0 <= k < |init| && idOf(init[k]) == Success(Some(id)) && col.byId[id] == init[k]
                   && forall j :: k < j < |init| ==> idOf(init[j]) != Success(Some(id));
          assert data[k] == init[k];
          assert forall j :: k < j < |data| - 1 ==> data[j] == init[j];
        }
      }
    }
  }

  /** It files each id under the days of the records that have it. */
  lemma {:induction false} CollectDayLists(data: seq<TimeslotRecord>, idOf: IdReader, dayOf: DayReader)
    requires CollectBy(data, idOf, dayOf).Success?
    ensures KeysDistinct(CollectBy(data, idOf, dayOf).value.dayMap)
    ensures forall d, id :: id in Lookup(CollectBy(data, idOf, dayOf).value.dayMap, d) <==>
      SomeRecordFiles(data, idOf, dayOf, id, d)
  {
    if data != [] {
      var init := data[..|data| - 1];
      var ts := data[|data| - 1];
      CollectDayLists(init, idOf, dayOf);
      var col := CollectBy(init, idOf, dayOf).value;
      assert CollectBy(data, idOf, dayOf) == Step(col, ts, idOf, dayOf);
      StepLookup(col, ts, idOf, dayOf);
      var dm := CollectBy(data, idOf, dayOf).value.dayMap;
      forall d, id
        ensures id in Lookup(dm, d) <==> SomeRecordFiles(data, idOf, dayOf, id, d)
      {
        if SomeRecordFiles(data, idOf, dayOf, id, d) {
          var k :| 0 <= k < |data| && idOf(data[k]) == Success(Some(id)) && dayOf(data[k]) == Some(d);
          if k < |init| {
            assert data[k] == init[k];
          }
        }
        if SomeRecordFiles(init, idOf, dayOf, id, d) {
          var k :| 0 <= k < |init| && idOf(init[k]) == Success(Some(id)) && dayOf(init[k]) == Some(d);
          assert data[k] == init[k];
        }
      }
    } else {
      var dm := CollectBy(data, idOf, dayOf).value.dayMap;
      assert dm == [];
      forall d ensures Lookup(dm, d) == [] {
      }
    }
  }

  /** The ids of the records filed under day `d`, in record order. */
  function DayIds(data: seq<TimeslotRecord>, idOf: IdReader, dayOf: DayReader, d: string): seq<int> {
    if data == [] then []
    else
      var ts := data[|data| - 1];
      DayIds(data[..|data| - 1], idOf, dayOf, d)
        + (if idOf(ts).Success? && idOf(ts).value.Some? && dayOf(ts) == Some(d) then [idOf(ts).value.value] else [])
  }

  /** Each day's list is exactly the ids of that day's records, in the order
      the records come, repeats included. */
  lemma {:induction false} CollectDayListsInOrder(data: seq<TimeslotRecord>, idOf: IdReader, dayOf: DayReader, d: string)
    requires CollectBy(data, idOf, dayOf).Success?
    ensures Lookup(CollectBy(data, idOf, dayOf).value.dayMap, d) == DayIds(data, idOf, dayOf, d)
  {
    if data != [] {
      var init := data[..|data| - 1];
      var ts := data[|data| - 1];
      CollectDayListsInOrder(init, idOf, dayOf, d);
      var col := CollectBy(init, idOf, dayOf).value;
      assert CollectBy(data, idOf, dayOf) == Step(col, ts, idOf, dayOf);
      if idOf(ts).value.Some? && dayOf(ts).Some? {
        AppendIdLookup(col.dayMap, dayOf(ts).value, idOf(ts).value.value, d);
      }
    }
  }

  /** One step of the loop files the record's id under its day, if it has
      both, and keeps the days distinct. */
  lemma StepLookup(col: Collected, ts: TimeslotRecord, idOf: IdReader, dayOf: DayReader)
    requires KeysDistinct(col.dayMap) && Step(col, ts, idOf, dayOf).Success?
    ensures KeysDistinct(Step(col, ts, idOf, dayOf).value.dayMap)
    ensures forall d, x :: x in Lookup(Step(col, ts, idOf, dayOf).value.dayMap, d) <==>
      x in Lookup(col.dayMap, d) || (idOf(ts) == Success(Some(x)) && dayOf(ts) == Some(d))
  {
    if idOf(ts).value.Some? {
      RecordContents(col, idOf(ts).value.value, ts, dayOf);
    }
  }

  /** Its days are those of the records that have an id. */
  lemma {:induction false} CollectDayKeys(data: seq<TimeslotRecord>, idOf: IdReader, dayOf: DayReader)
    requires CollectBy(data, idOf, dayOf).Success?
    ensures forall d :: d in Keys(CollectBy(data, idOf, dayOf).value.dayMap) <==>
      SomeRecordHasDay(data, idOf, dayOf, d)
  {
    if data != [] {
      var init := data[..|data| - 1];
      var ts := data[|data| - 1];
      CollectDayKeys(init, idOf, dayOf);
      var col := CollectBy(init, idOf, dayOf).value;
      if idOf(ts).value.Some? {
        RecordKeys(col, idOf(ts).value.value, ts, dayOf);
      }
      var dm := CollectBy(data, idOf, dayOf).value.dayMap;
      forall d
        ensures d in Keys(dm) <==> SomeRecordHasDay(data, idOf, dayOf, d)
      {
        if SomeRecordHasDay(data, idOf, dayOf, d) {
          var k :| 0 <= k < |data| && idOf(data[k]).Success? && idOf(data[k]).value.Some? && dayOf(data[k]) == Some(d);
          if k < |init| {
            assert data[k] == init[k];
          }
        }
        if SomeRecordHasDay(init, idOf, dayOf, d) {
          var k :| 0 <= k < |init| && idOf(init[k]).Success? && idOf(init[k]).value.Some? && dayOf(init[k]) == Some(d);
          assert data[k] == init[k];
        }
      }
    }
  }

  /** Recording one id adds its day to the days. */
  lemma RecordKeys(col: Collected, id: int, ts: TimeslotRecord, dayOf: DayReader)
    ensures forall d :: d in Keys(Record(col, id, ts, dayOf).dayMap) <==> d in Keys(col.dayMap) || dayOf(ts) == Some(d)
  {
    if dayOf(ts).Some? {
      AppendIdKeys(col.dayMap, dayOf(ts).value, id);
    }
  }

  /** Recording one id: what changes in each part of the state. */
  lemma RecordContents(col: Collected, id: int, ts: TimeslotRecord, dayOf: DayReader)
    requires KeysDistinct(col.dayMap)
    ensures var r := Record(col, id, ts, dayOf);
      && r.slotIds == col.slotIds + [id]
      && r.byId == col.byId[id := ts]
      && KeysDistinct(r.dayMap)
      && (forall d, x :: x in Lookup(r.dayMap, d) <==> x in Lookup(col.dayMap, d) || (x == id && dayOf(ts) == Some(d)))
      && (forall d :: d in Keys(r.dayMap) <==> d in Keys(col.dayMap) || dayOf(ts) == Some(d))
  {
    if dayOf(ts).Some? {
      var day := dayOf(ts).value;
      AppendIdDistinct(col.dayMap, day, id);
      AppendIdKeys(col.dayMap, day, id);
      forall d, x ensures x in Lookup(AppendId(col.dayMap, day, id), d) <==> x in Lookup(col.dayMap, d) || (x == id && d == day) {
        AppendIdLookup(col.dayMap, day, id, d);
      }
    }
  }

  /** Loading fails exactly when a record's id does not parse or no record
      has an id. */
  lemma LoadFailure(data: seq<TimeslotRecord>, idOf: IdReader, dayOf: DayReader)
    ensures LoadedBy(data, idOf, dayOf).Failure? <==>
      (exists k :: 0 <= k < |data| && idOf(data[k]).Failure?) || (forall k :: 0 <= k < |data| ==> idOf(data[k]) == Success(None))
  {
    CollectFailure(data, idOf, dayOf);
    if CollectBy(data, idOf, dayOf).Success? {
      CollectIds(data, idOf, dayOf);
      var col := CollectBy(data, idOf, dayOf).value;
      if forall k :: 0 <= k < |data| ==> idOf(data[k]) == Success(None) {
        forall id ensures id !in col.slotIds {
          assert forall k :: 0 <= k < |data| ==> idOf(data[k]) != Success(Some(id));
        }
        FirstIsMember(col.slotIds);
      } else {
        var k :| 0 <= k < |data| && idOf(data[k]) != Success(None);
        var id := idOf(data[k]).value.value;
        assert idOf(data[k]) == Success(Some(id));
        assert id in SortedSet(col.slotIds);
      }
    }
  }

  /** The slots that loading returns stand for the sorted distinct ids,
      given as a range exactly when they have no gap. */
  lemma LoadedSlots(data: seq<TimeslotRecord>, idOf: IdReader, dayOf: DayReader)
    requires LoadedBy(data, idOf, dayOf).Success?
    ensures var ids := SortedSet(CollectBy(data, idOf, dayOf).value.slotIds);
      && ids != []
      && LoadedBy(data, idOf, dayOf).value.slots == SlotsOf(ids)
      && Elements(SlotsOf(ids)) == ids
      && (forall i, j :: 0 <= i < j < |ids| ==> ids[i] < ids[j])
      && (SlotsOf(ids).SlotRange? <==> ids[|ids| - 1] - ids[0] + 1 == |ids|)
  {
    var col := CollectBy(data, idOf, dayOf).value;
    assert LoadedBy(data, idOf, dayOf) == Finish(col);
    FinishSlots(col);
  }

  lemma FinishSlots(col: Collected)
    requires Finish(col).Success?
    ensures var ids := SortedSet(col.slotIds);
      && ids != []
      && Finish(col).value.slots == SlotsOf(ids)
      && Elements(SlotsOf(ids)) == ids
      && (forall i, j :: 0 <= i < j < |ids| ==> ids[i] < ids[j])
      && (SlotsOf(ids).SlotRange? <==> ids[|ids| - 1] - ids[0] + 1 == |ids|)
  {
    SortedSetIncreasing(col.slotIds);
    SlotsOfIds(SortedSet(col.slotIds));
  }

  /** The slots are exactly the records' ids. */
  lemma SlotsAreRecordIds(data: seq<TimeslotRecord>, idOf: IdReader, dayOf: DayReader)
    requires LoadedBy(data, idOf, dayOf).Success?
    ensures forall id :: id in Elements(LoadedBy(data, idOf, dayOf).value.slots) <==>
      SomeRecordHasId(data, idOf, id)
  {
    CollectIds(data, idOf, dayOf);
    LoadedSlots(data, idOf, dayOf);
  }

  /** The day names come in weekday order, Monday first and unknown names
      last by name, each once; they are the days of the records that have
      an id. */
  lemma DayNamesOrdered(data: seq<TimeslotRecord>, idOf: IdReader, dayOf: DayReader)
    requires CollectBy(data, idOf, dayOf).Success?
    ensures var names := DayNames(CollectBy(data, idOf, dayOf).value);
      && (forall d :: d in names <==>
            SomeRecordHasDay(data, idOf, dayOf, d))
      && (forall i, j :: 0 <= i < j < |names| ==> DayLe()(names[i], names[j]) && names[i] != names[j])
  {
    CollectDayLists(data, idOf, dayOf);
    CollectDayKeys(data, idOf, dayOf);
    var col := CollectBy(data, idOf, dayOf).value;
    var names := DayNames(col);
    DayLeTotal();
    SortBySorted(Keys(col.dayMap), DayLe());
    assert multiset(names) == multiset(Keys(col.dayMap));
    forall d ensures d in names <==> d in Keys(col.dayMap) {
      assert d in names <==> d in multiset(names);
    }
    forall i, j | 0 <= i < j < |names| ensures names[i] != names[j] {
      KeysDistinctCount(col.dayMap, names[j]);
      SingleOccurrence(names, i, j);
    }
  }

  /** Each day lists, ascending, the ids of the records of that day. */
  lemma DaysAreSortedIds(data: seq<TimeslotRecord>, idOf: IdReader, dayOf: DayReader)
    requires LoadedBy(data, idOf, dayOf).Success?
    ensures var days := LoadedBy(data, idOf, dayOf).value.days;
      var names := DayNames(CollectBy(data, idOf, dayOf).value);
      && |days| == |names|
      && (forall i :: 0 <= i < |days| ==>
            && SortedBy(days[i], IntLe())
            && (forall id :: id in days[i] <==>
                  SomeRecordFiles(data, idOf, dayOf, id, names[i])))
  {
    CollectDayLists(data, idOf, dayOf);
    var col := CollectBy(data, idOf, dayOf).value;
    var days := DayLists(col);
    var names := DayNames(col);
    assert LoadedBy(data, idOf, dayOf).value.days == days;
    DayListsSorted(col);
    forall i, id | 0 <= i < |days|
      ensures id in days[i] <==> SomeRecordFiles(data, idOf, dayOf, id, names[i])
    {
      assert id in days[i] <==> id in Lookup(col.dayMap, names[i]);
    }
  }

  /** Each day's list is its ids in the dictionary, sorted. */
  lemma DayListsSorted(col: Collected)
    ensures var days := DayLists(col);
      forall i :: 0 <= i < |days| ==>
        && SortedBy(days[i], IntLe())
        && (forall id :: id in days[i] <==> id in Lookup(col.dayMap, DayNames(col)[i]))
  {
    var names := DayNames(col);
    var days := DayLists(col);
    IntLeTotal();
    forall i | 0 <= i < |days|
      ensures SortedBy(days[i], IntLe())
      ensures forall id :: id in days[i] <==> id in Lookup(col.dayMap, names[i])
    {
      var l := Lookup(col.dayMap, names[i]);
      assert days[i] == SortBy(l, IntLe());
      SortBySorted(l, IntLe());
      forall id ensures id in days[i] <==> id in l {
        assert id in days[i] <==> id in multiset(days[i]);
        assert id in l <==> id in multiset(l);
      }
    }
  }

  /** A dictionary's keys hold each key at most once. */
  lemma KeysDistinctCount(idx: seq<Entry>, key: string)
    requires KeysDistinct(idx)
    ensures multiset(Keys(idx))[key] <= 1
  {
    DistinctCount(Keys(idx), key);
  }

  /** A weekday comes before every other day name. */
  lemma WeekdaysFirst(a: string, b: string)
    requires DayRank(a) < 7 && DayRank(b) == 999
    ensures DayLe()(a, b) && !DayLe()(b, a)
  {
  }
}
