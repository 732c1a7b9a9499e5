/** Widening every lesson to all qualified teachers (solver-bench/src/main.rs). */
module Unpin {
  import opened Collections
  import opened Sorting
  import opened Types
  import opened Index

  const ID_ORDER: (Uuid, Uuid) -> bool := (a: Uuid, b: Uuid) => UuidLe(a, b)

  /** The lesson without its pin, open to exactly the qualified teachers in ascending order. */
  ghost predicate IsWidened(pr: Problem, before: Lesson, after: Lesson) {
    && after == before.(teacherPin := None, teacherCandidates := after.teacherCandidates)
    && StrictlySorted(after.teacherCandidates)
    && forall t: TeacherId :: t in after.teacherCandidates <==> ListsQualified(pr, t, before.subjectId)
  }

  ghost predicate IsUnpinned(pr: Problem, out: Problem) {
    && out == pr.(lessons := out.lessons)
    && |out.lessons| == |pr.lessons|
    && forall i :: 0 <= i < |pr.lessons| ==> IsWidened(pr, pr.lessons[i], out.lessons[i])
  }

  lemma WidenedUnique(pr: Problem, other: Problem, before: Lesson, again: Lesson, a: Lesson, b: Lesson)
    requires forall q :: q in pr.teacherQualifications <==> q in other.teacherQualifications
    requires IsWidened(pr, before, a) && IsWidened(other, again, b)
    requires again == before.(teacherPin := again.teacherPin, teacherCandidates := again.teacherCandidates)
    ensures a == b
  {
    var x: seq<int>, y: seq<int> := a.teacherCandidates, b.teacherCandidates;
    forall t: TeacherId ensures t in a.teacherCandidates <==> t in b.teacherCandidates {}
    forall t ensures t in Elems(x) <==> t in Elems(y) {
      if t in x { var k :| 0 <= k < |a.teacherCandidates| && a.teacherCandidates[k] == t; }
      if t in y { var k :| 0 <= k < |b.teacherCandidates| && b.teacherCandidates[k] == t; }
    }
    assert Elems(x) == Elems(y);
    StrictUnique(x, y);
  }

  /** The outcome depends only on which qualifications are listed, not on their order or
      repetition, nor on the pins and candidates the lessons had. */
  lemma UnpinForgetsOrderAndPins(pr: Problem, other: Problem, a: Problem, b: Problem)
    requires forall q :: q in pr.teacherQualifications <==> q in other.teacherQualifications
    requires |pr.lessons| == |other.lessons|
    requires forall i :: 0 <= i < |pr.lessons| ==>
      other.lessons[i] == pr.lessons[i].(
        teacherPin := other.lessons[i].teacherPin, teacherCandidates := other.lessons[i].teacherCandidates)
    requires IsUnpinned(pr, a) && IsUnpinned(other, b)
    ensures a.lessons == b.lessons
  {
    forall i | 0 <= i < |pr.lessons| ensures a.lessons[i] == b.lessons[i] {
      WidenedUnique(pr, other, pr.lessons[i], other.lessons[i], a.lessons[i], b.lessons[i]);
    }
  }

  /** Unpinning twice is unpinning once. */
  lemma UnpinIdempotent(pr: Problem, once: Problem, twice: Problem)
    requires IsUnpinned(pr, once) && IsUnpinned(once, twice)
    ensures twice == once
  {
    UnpinForgetsOrderAndPins(pr, once, once, twice);
  }

  /** An unpinned lesson can be taught exactly when someone is qualified for its subject, and then
      the teacher the solver assigns first is the qualified one with the smallest id. */
  lemma UnpinnedTeacher(pr: Problem, out: Problem, i: nat)
    requires IsUnpinned(pr, out) && i < |pr.lessons|
    ensures out.lessons[i].HasTeacher() <==> exists t :: ListsQualified(pr, t, pr.lessons[i].subjectId)
    ensures out.lessons[i].HasTeacher() ==>
      && ListsQualified(pr, out.lessons[i].AssignedTeacherId(), pr.lessons[i].subjectId)
      && forall t :: ListsQualified(pr, t, pr.lessons[i].subjectId) ==> out.lessons[i].AssignedTeacherId() <= t
  {
    assert IsWidened(pr, pr.lessons[i], out.lessons[i]);
    var ids := out.lessons[i].teacherCandidates;
    if ids != [] {
      assert ids[0] in ids;
    }
    forall t | ListsQualified(pr, t, pr.lessons[i].subjectId) ensures ids != [] && ids[0] <= t {
      assert t in ids;
      var k :| 0 <= k < |ids| && ids[k] == t;
    }
  }

  // ----- the pass -----

  method GroupBySubject(rows: seq<TeacherQualification>) returns (m: map<SubjectId, seq<TeacherId>>)
    ensures forall s, t :: s in m && t in m[s] <==> TeacherQualification(t, s) in rows
  {
    m := map[];
    for i := 0 to |rows|
      invariant forall s, t :: s in m && t in m[s] <==> TeacherQualification(t, s) in rows[..i]
    {
      assert rows[..i + 1] == rows[..i] + [rows[i]];
      var q := rows[i];
      m := m[q.subjectId := (if q.subjectId in m then m[q.subjectId] else []) + [q.teacherId]];
    }
    assert rows[..|rows|] == rows;
  }

  lemma SortDedupIds(v: seq<TeacherId>)
    ensures StrictlySorted(Dedup(Sort(ID_ORDER, v)))
    ensures forall t :: t in Dedup(Sort(ID_ORDER, v)) <==> t in v
  {
    SortSorts(ID_ORDER, v);
    SortPermutes(ID_ORDER, v);
    DedupIdsStrict(Sort(ID_ORDER, v));
    DedupKeepsElements(Sort(ID_ORDER, v));
  }

  lemma {:induction false} DedupIdsStrict(v: seq<Uuid>)
    requires SortedBy(ID_ORDER, v)
    ensures StrictlySorted(Dedup(v))
  {
    if |v| < 2 {
    } else {
      DedupIdsStrict(v[1..]);
      DedupKeepsElements(v[1..]);
      if v[0] != v[1] {
        forall x | x in Dedup(v[1..]) ensures v[0] < x {
          assert x in v[1..];
          assert v[0] < v[1];
        }
      }
    }
  }

  method SortAndDedupAll(m: map<SubjectId, seq<TeacherId>>) returns (r: map<SubjectId, seq<TeacherId>>)
    ensures r.Keys == m.Keys
    ensures forall s :: s in m ==> StrictlySorted(r[s]) && forall t :: t in r[s] <==> t in m[s]
  {
    r := m;
    var todo := m.Keys;
    while todo != {}
      invariant todo <= m.Keys && r.Keys == m.Keys
      invariant forall s :: s in todo ==> r[s] == m[s]
      invariant forall s :: s in m && s !in todo ==> StrictlySorted(r[s]) && forall t :: t in r[s] <==> t in m[s]
      decreases |todo|
    {
      var s :| s in todo;
      SortDedupIds(r[s]);
      r := r[s := Dedup(Sort(ID_ORDER, r[s]))];
      todo := todo - {s};
    }
  }

  method UnpinTeachers(pr: Problem) returns (out: Problem)
    ensures IsUnpinned(pr, out)
  {
    var grouped := GroupBySubject(pr.teacherQualifications);
    var quals := SortAndDedupAll(grouped);
    out := pr;
    for i := 0 to |pr.lessons|
      invariant out == pr.(lessons := out.lessons) && |out.lessons| == |pr.lessons|
      invariant forall j :: 0 <= j < i ==> IsWidened(pr, pr.lessons[j], out.lessons[j])
      invariant forall j :: i <= j < |pr.lessons| ==> out.lessons[j] == pr.lessons[j]
    {
      var s := pr.lessons[i].subjectId;
      var candidates := if s in quals then quals[s] else [];
      var l := out.lessons[i].(teacherPin := None, teacherCandidates := candidates);
      assert IsWidened(pr, pr.lessons[i], l) by {
        forall t: TeacherId ensures t in candidates <==> ListsQualified(pr, t, s) {}
      }
      out := out.(lessons := out.lessons[i := l]);
    }
  }
}
