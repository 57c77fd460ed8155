/** The entities of the timetabling problem: three enumerations and the
    teacher, course and room records (structures.py). */
module Structures {

  import opened Wrappers

  /** The faculties; the source numbers them BU = 1 .. M = 4. */
  datatype Faculty = BU | AU | KG | M

  /** The kinds of room; the source numbers them LECTURE = 1 .. SEMINAR = 4. */
  datatype RoomType = LECTURE | LAB | COMPUTER | SEMINAR

  /** The buildings; the source numbers them GSS = 1 .. C11 = 3. */
  datatype Building = GSS | M13 | C11

  /** A teacher. `hardTimeConstr` lists slots the teacher can never teach in,
      `softTimeConstr` slots that are penalised; both are lists of slot ids
      and may repeat an id. */
  datatype Teacher = Teacher(
    teacherId: int,
    teacherName: string,
    faculty: Faculty,
    courseName: seq<string>,
    hardTimeConstr: seq<int>,
    softTimeConstr: seq<int>)

  /** A course. `semester` is a list, so one course can belong to several
      semesters; `facilityConstr`, the room types it accepts, may be empty.
      `teacherIds` (the teachers allowed to give it) is not a field of the
      `Course` dataclass in structures.py: the flexible pipeline reads it as
      an optional attribute that defaults to the empty list, so it stands
      for a course type that carries such a list; with the dataclass as
      defined it is always empty. */
  datatype Course = Course(
    courseId: int,
    faculty: Faculty,
    expectedNumStudents: int,
    semester: seq<string>,
    name: string,
    facilityConstr: seq<RoomType>,
    teacherIds: seq<int>)

  /** A room (`type` in the source). */
  datatype Room = Room(
    roomId: int,
    address: Building,
    name: string,
    roomType: RoomType,
    faculty: Faculty,
    capacity: int)

  /** The members of each enumeration in declaration order. */
  const AllFaculties: seq<Faculty> := [BU, AU, KG, M]
  const AllRoomTypes: seq<RoomType> := [LECTURE, LAB, COMPUTER, SEMINAR]
  const AllBuildings: seq<Building> := [GSS, M13, C11]

  function FacultyValue(f: Faculty): int {
    match f
    case BU => 1
    case AU => 2
    case KG => 3
    case M => 4
  }

  function RoomTypeValue(t: RoomType): int {
    match t
    case LECTURE => 1
    case LAB => 2
    case COMPUTER => 3
    case SEMINAR => 4
  }

  function BuildingValue(b: Building): int {
    match b
    case GSS => 1
    case M13 => 2
    case C11 => 3
  }

  /** The member names (`Faculty.BU.name` is "BU"). */
  function FacultyName(f: Faculty): string {
    match f
    case BU => "BU"
    case AU => "AU"
    case KG => "KG"
    case M => "M"
  }

  function RoomTypeName(t: RoomType): string {
    match t
    case LECTURE => "LECTURE"
    case LAB => "LAB"
    case COMPUTER => "COMPUTER"
    case SEMINAR => "SEMINAR"
  }

  function BuildingName(b: Building): string {
    match b
    case GSS => "GSS"
    case M13 => "M13"
    case C11 => "C11"
  }

  /** Each enumeration is exactly its listed members, each once, with the
      values 1, 2, ... in declaration order and pairwise different names. */
  lemma EnumerationsAreExact()
    ensures forall f: Faculty :: f in AllFaculties
    ensures forall i :: 0 <= i < |AllFaculties| ==> FacultyValue(AllFaculties[i]) == i + 1
    ensures forall t: RoomType :: t in AllRoomTypes
    ensures forall i :: 0 <= i < |AllRoomTypes| ==> RoomTypeValue(AllRoomTypes[i]) == i + 1
    ensures forall b: Building :: b in AllBuildings
    ensures forall i :: 0 <= i < |AllBuildings| ==> BuildingValue(AllBuildings[i]) == i + 1
    ensures forall f, g: Faculty :: FacultyName(f) == FacultyName(g) ==> f == g
    ensures forall t, u: RoomType :: RoomTypeName(t) == RoomTypeName(u) ==> t == u
    ensures forall b, c: Building :: BuildingName(b) == BuildingName(c) ==> b == c
  {
    forall f: Faculty ensures f in AllFaculties {
      assert AllFaculties[FacultyValue(f) - 1] == f;
    }
    forall t: RoomType ensures t in AllRoomTypes {
      assert AllRoomTypes[RoomTypeValue(t) - 1] == t;
    }
    forall b: Building ensures b in AllBuildings {
      assert AllBuildings[BuildingValue(b) - 1] == b;
    }
  }
}
