/** The solver's input and output records (types.rs, ids.rs). */
module Types {
  import opened Machine
  import opened Collections

  /** A 128-bit UUID, ordered by its bytes. */
  type Uuid = n: int | 0 <= n < 0x1_0000_0000_0000_0000_0000_0000_0000_0000

  predicate UuidLe(a: Uuid, b: Uuid) {
    a <= b
  }

  type TimeBlockId = Uuid
  type TeacherId = Uuid
  type RoomId = Uuid
  type SubjectId = Uuid
  type SchoolClassId = Uuid
  type LessonId = Uuid

  datatype TimeBlockKind = LessonBlock | BreakBlock

  datatype TimeBlock = TimeBlock(id: TimeBlockId, dayOfWeek: u8, position: u8, kind: TimeBlockKind)

  datatype Subject = Subject(
    id: SubjectId,
    preferEarlyPeriod: u32,
    avoidFirstPeriod: u32,
    avoidLastPeriod: u32,
    preferLatePeriod: u32)

  datatype SchoolClass = SchoolClass(id: SchoolClassId, homeRoomId: Option<RoomId>, classTeacherId: Option<TeacherId>)

  datatype Lesson = Lesson(
    id: LessonId,
    schoolClassIds: seq<SchoolClassId>,
    subjectId: SubjectId,
    teacherCandidates: seq<TeacherId>,
    teacherPin: Option<TeacherId>,
    hoursPerWeek: u8,
    preferredBlockSize: u8)
  {
    /** Every lesson has a pin or a candidate; validation guarantees it. */
    predicate HasTeacher() {
      teacherPin.Some? || teacherCandidates != []
    }

    function AssignedTeacherId(): TeacherId
      requires HasTeacher()
    {
      match teacherPin
      case Some(t) => t
      case None => teacherCandidates[0]
    }
  }

  datatype Placement = Placement(lessonId: LessonId, timeBlockId: TimeBlockId, roomId: RoomId, teacherId: TeacherId)

  datatype PinKind = Hard | Soft

  datatype PinnedPlacement = PinnedPlacement(lessonId: LessonId, timeBlockId: TimeBlockId, kind: PinKind)

  datatype TeacherQualification = TeacherQualification(teacherId: TeacherId, subjectId: SubjectId)
  datatype TeacherBlockedTime = TeacherBlockedTime(teacherId: TeacherId, timeBlockId: TimeBlockId)
  datatype RoomBlockedTime = RoomBlockedTime(roomId: RoomId, timeBlockId: TimeBlockId)
  datatype RoomSubjectSuitability = RoomSubjectSuitability(roomId: RoomId, subjectId: SubjectId)

  datatype Problem = Problem(
    timeBlocks: seq<TimeBlock>,
    teachers: seq<TeacherId>,
    rooms: seq<RoomId>,
    subjects: seq<Subject>,
    schoolClasses: seq<SchoolClass>,
    lessons: seq<Lesson>,
    teacherQualifications: seq<TeacherQualification>,
    teacherBlockedTimes: seq<TeacherBlockedTime>,
    roomBlockedTimes: seq<RoomBlockedTime>,
    roomSubjectSuitabilities: seq<RoomSubjectSuitability>,
    pinnedPlacements: seq<PinnedPlacement>)

  datatype ConstraintWeights = ConstraintWeights(
    classGap: u32,
    teacherGap: u32,
    preferEarlyPeriod: u32,
    avoidFirstPeriod: u32,
    preferHomeRoom: u32,
    avoidLastPeriod: u32,
    preferLatePeriod: u32,
    classDayBalance: u32,
    preferClassTeacher: u32,
    maxPerClassSpread: u32,
    maxPerClassInteriorGaps: u32,
    supervisionSpread: u32,
    softPinMiss: u32)

  // ----- the lookup tables every pass starts from -----

  function Blocks(pr: Problem): map<TimeBlockId, TimeBlock> {
    CollectBy(pr.timeBlocks, (tb: TimeBlock) => tb.id)
  }

  function LessonsById(pr: Problem): map<LessonId, Lesson> {
    CollectBy(pr.lessons, (l: Lesson) => l.id)
  }

  function SubjectsById(pr: Problem): map<SubjectId, Subject> {
    CollectBy(pr.subjects, (s: Subject) => s.id)
  }

  function ClassesById(pr: Problem): map<SchoolClassId, SchoolClass> {
    CollectBy(pr.schoolClasses, (c: SchoolClass) => c.id)
  }

  ghost predicate UniqueBlockIds(pr: Problem) {
    UniqueKeys(pr.timeBlocks, (tb: TimeBlock) => tb.id)
  }

  ghost predicate UniqueClassIds(pr: Problem) {
    UniqueKeys(pr.schoolClasses, (c: SchoolClass) => c.id)
  }
}
