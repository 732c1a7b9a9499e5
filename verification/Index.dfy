/** Lookup tables over a problem's relation lists (index.rs). */
module Index {
  import opened Types

  datatype Indexed = Indexed(
    teacherSubject: map<TeacherId, set<SubjectId>>,
    teacherBlocked: set<(TeacherId, TimeBlockId)>,
    roomSubject: map<RoomId, set<SubjectId>>,
    roomBlocked: set<(RoomId, TimeBlockId)>)
  {
    predicate TeacherQualified(teacher: TeacherId, subject: SubjectId) {
      teacher in teacherSubject && subject in teacherSubject[teacher]
    }

    predicate TeacherBlocked(teacher: TeacherId, tb: TimeBlockId) {
      (teacher, tb) in teacherBlocked
    }

    /** A room without entries suits every subject; with entries only the listed ones. */
    predicate RoomSuitsSubject(room: RoomId, subject: SubjectId) {
      room !in roomSubject || subject in roomSubject[room]
    }

    predicate RoomBlocked(room: RoomId, tb: TimeBlockId) {
      (room, tb) in roomBlocked
    }
  }

  // ----- what scanning the relation lists answers -----

  predicate ListsQualified(pr: Problem, t: TeacherId, s: SubjectId) {
    TeacherQualification(t, s) in pr.teacherQualifications
  }

  predicate ListsTeacherBlocked(pr: Problem, t: TeacherId, tb: TimeBlockId) {
    TeacherBlockedTime(t, tb) in pr.teacherBlockedTimes
  }

  predicate ListsSuits(pr: Problem, r: RoomId, s: SubjectId) {
    (forall i :: 0 <= i < |pr.roomSubjectSuitabilities| ==> pr.roomSubjectSuitabilities[i].roomId != r)
    || RoomSubjectSuitability(r, s) in pr.roomSubjectSuitabilities
  }

  predicate ListsRoomBlocked(pr: Problem, r: RoomId, tb: TimeBlockId) {
    RoomBlockedTime(r, tb) in pr.roomBlockedTimes
  }

  /** The index answers every question exactly as the lists do. */
  ghost predicate Answers(idx: Indexed, pr: Problem) {
    && (forall t, s :: idx.TeacherQualified(t, s) <==> ListsQualified(pr, t, s))
    && (forall t, tb :: idx.TeacherBlocked(t, tb) <==> ListsTeacherBlocked(pr, t, tb))
    && (forall r, s :: idx.RoomSuitsSubject(r, s) <==> ListsSuits(pr, r, s))
    && (forall r, tb :: idx.RoomBlocked(r, tb) <==> ListsRoomBlocked(pr, r, tb))
  }

  /** Add `s` to the set under `k`, which starts empty. */
  function Join(m: map<Uuid, set<SubjectId>>, k: Uuid, s: SubjectId): map<Uuid, set<SubjectId>> {
    m[k := (if k in m then m[k] else {}) + {s}]
  }

  method IndexQualifications(rows: seq<TeacherQualification>) returns (m: map<TeacherId, set<SubjectId>>)
    ensures forall t, s :: t in m && s in m[t] <==> TeacherQualification(t, s) in rows
  {
    m := map[];
    for i := 0 to |rows|
      invariant forall t, s :: t in m && s in m[t] <==> TeacherQualification(t, s) in rows[..i]
    {
      assert rows[..i + 1] == rows[..i] + [rows[i]];
      m := Join(m, rows[i].teacherId, rows[i].subjectId);
    }
    assert rows[..|rows|] == rows;
  }

  method IndexSuitabilities(rows: seq<RoomSubjectSuitability>) returns (m: map<RoomId, set<SubjectId>>)
    ensures forall r, s :: r in m && s in m[r] <==> RoomSubjectSuitability(r, s) in rows
    ensures forall r :: r in m <==> exists i :: 0 <= i < |rows| && rows[i].roomId == r
  {
    m := map[];
    for i := 0 to |rows|
      invariant forall r, s :: r in m && s in m[r] <==> RoomSubjectSuitability(r, s) in rows[..i]
      invariant forall r :: r in m <==> exists j :: 0 <= j < i && rows[j].roomId == r
    {
      assert rows[..i + 1] == rows[..i] + [rows[i]];
      m := Join(m, rows[i].roomId, rows[i].subjectId);
    }
    assert rows[..|rows|] == rows;
  }

  method NewIndexed(pr: Problem) returns (idx: Indexed)
    ensures Answers(idx, pr)
  {
    var teacherSubject := IndexQualifications(pr.teacherQualifications);
    var teacherBlocked: set<(TeacherId, TimeBlockId)> := {};
    var tRows, rRows := pr.teacherBlockedTimes, pr.roomBlockedTimes;
    for i := 0 to |tRows|
      invariant forall t: TeacherId, tb: TimeBlockId ::
        (t, tb) in teacherBlocked <==> TeacherBlockedTime(t, tb) in tRows[..i]
    {
      assert tRows[..i + 1] == tRows[..i] + [tRows[i]];
      teacherBlocked := teacherBlocked + {(tRows[i].teacherId, tRows[i].timeBlockId)};
    }
    var roomSubject := IndexSuitabilities(pr.roomSubjectSuitabilities);
    var roomBlocked: set<(RoomId, TimeBlockId)> := {};
    for i := 0 to |rRows|
      invariant forall r: RoomId, tb: TimeBlockId :: (r, tb) in roomBlocked <==> RoomBlockedTime(r, tb) in rRows[..i]
    {
      assert rRows[..i + 1] == rRows[..i] + [rRows[i]];
      roomBlocked := roomBlocked + {(rRows[i].roomId, rRows[i].timeBlockId)};
    }
    assert tRows[..|tRows|] == tRows && rRows[..|rRows|] == rRows;
    idx := Indexed(teacherSubject, teacherBlocked, roomSubject, roomBlocked);
    forall r, s ensures idx.RoomSuitsSubject(r, s) <==> ListsSuits(pr, r, s) {}
  }
}
