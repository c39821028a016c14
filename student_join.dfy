/**
 * `join_datasets`: the validated student and absence documents become
 * record sequences, `pd.merge(..., on='student_id', how='left')` pairs
 * each student with every absence record of the same id (NaN when there
 * is none), and `fillna(0)` on the `missed_days` column replaces the NaNs.
 */
module StudentJoin {
  import opened Wrappers
  import opened JsonValue
  import opened StudentSchemas

  /** One element of the `students` array. */
  datatype Student = Student(studentId: string, name: string, grades: Json)

  /** One element of the `missed_classes` array. */
  datatype Absence = Absence(studentId: string, missedDays: int)

  /** A row of the merged frame; a `missedDays` of `None` is a NaN cell. */
  datatype Row = Row(studentId: string, name: string, grades: Json, missedDays: Option<int>)

  /** The merge raises because a frame built from an empty array has no `student_id` column. */
  datatype JoinError = KeyColumnMissing

  // From documents to records (`pd.DataFrame(...)`).

  function ToStudent(v: Json): Student
    requires ValidStudent(v)
  {
    Student(v.members["student_id"].str, v.members["name"].str, v.members["grades"])
  }

  /** The student records of a valid document, one per array element, in array order. */
  function StudentsOf(doc: Json): (r: seq<Student>)
    requires ValidStudentsDoc(doc)
    ensures |r| == |doc.members["students"].elems|
    ensures forall i :: 0 <= i < |r| ==>
      var o := doc.members["students"].elems[i].members;
      && o["student_id"] == JString(r[i].studentId)
      && o["name"] == JString(r[i].name)
      && o["grades"] == r[i].grades
      && ValidGrades(r[i].grades)
  {
    var items := doc.members["students"].elems;
    seq(|items|, i requires 0 <= i < |items| => ToStudent(items[i]))
  }

  function ToAbsence(v: Json): Absence
    requires ValidAbsence(v)
  {
    Absence(v.members["student_id"].str, v.members["missed_days"].n)
  }

  /** The absence records of a valid document, one per array element, in array order. */
  function AbsencesOf(doc: Json): (r: seq<Absence>)
    requires ValidMissedDoc(doc)
    ensures |r| == |doc.members["missed_classes"].elems|
    ensures forall i :: 0 <= i < |r| ==>
      var o := doc.members["missed_classes"].elems[i].members;
      o["student_id"] == JString(r[i].studentId) && o["missed_days"] == JInt(r[i].missedDays)
  {
    var items := doc.members["missed_classes"].elems;
    seq(|items|, i requires 0 <= i < |items| => ToAbsence(items[i]))
  }

  // The merge and the fill, as functions.

  /** The absence records for `id`, in the order of the file. */
  function Matches(id: string, missed: seq<Absence>): seq<Absence> {
    if missed == [] then []
    else (if missed[0].studentId == id then [missed[0]] else []) + Matches(id, missed[1..])
  }

  /** The records joined to a key are all and only the records that carry it. */
  lemma {:induction false} MatchesExactly(id: string, missed: seq<Absence>)
    ensures |Matches(id, missed)| <= |missed|
    ensures forall m :: m in Matches(id, missed) <==> m in missed && m.studentId == id
  {
    if missed != [] {
      MatchesExactly(id, missed[1..]);
      assert missed == [missed[0]] + missed[1..];
    }
  }

  /** One row of student `s` per record of `ms`, carrying that record's count. */
  function MatchedRows(s: Student, ms: seq<Absence>): seq<Row> {
    if ms == [] then []
    else [Row(s.studentId, s.name, s.grades, Some(ms[0].missedDays))] + MatchedRows(s, ms[1..])
  }

  lemma {:induction false} MatchedRowsAt(s: Student, ms: seq<Absence>)
    ensures |MatchedRows(s, ms)| == |ms|
    ensures forall j :: 0 <= j < |ms| ==>
      MatchedRows(s, ms)[j] == Row(s.studentId, s.name, s.grades, Some(ms[j].missedDays))
  {
    if ms != [] {
      MatchedRowsAt(s, ms[1..]);
    }
  }

  /** The merged rows of one student: one per matching record, or one NaN row. */
  function MergeStudent(s: Student, missed: seq<Absence>): seq<Row> {
    var ms := Matches(s.studentId, missed);
    if ms == [] then [Row(s.studentId, s.name, s.grades, None)] else MatchedRows(s, ms)
  }

  /** `pd.merge(students, missed, on='student_id', how='left')`. */
  function Merge(students: seq<Student>, missed: seq<Absence>): seq<Row> {
    if students == [] then []
    else MergeStudent(students[0], missed) + Merge(students[1..], missed)
  }

  /** `fillna(0)` on one row's `missed_days` cell. */
  function FillMissing(row: Row): Row {
    row.(missedDays := Some(row.missedDays.GetOr(0)))
  }

  /**
   * `fillna(0)` on the `missed_days` column: no NaN is left, a cell that
   * held a number keeps it, and no other column changes.
   */
  function FillNa(rows: seq<Row>): (r: seq<Row>)
    ensures |r| == |rows|
    ensures forall k :: 0 <= k < |rows| ==>
      && r[k].missedDays.Some?
      && r[k] == rows[k].(missedDays := r[k].missedDays)
      && (rows[k].missedDays.Some? ==> r[k] == rows[k])
      && (rows[k].missedDays.None? ==> r[k].missedDays == Some(0))
  {
    seq(|rows|, k requires 0 <= k < |rows| => FillMissing(rows[k]))
  }

  /**
   * The frame `join_datasets` returns. The source reaches the merge only
   * when both lists are non-empty (see `JoinDatasets`); the lemmas below
   * about `Join` with an empty `missed` list describe no run of the source.
   */
  function Join(students: seq<Student>, missed: seq<Absence>): seq<Row> {
    FillNa(Merge(students, missed))
  }

  /** The number of rows the left join yields: each student counts for max(1, its matches). */
  function FanOut(students: seq<Student>, missed: seq<Absence>): nat {
    if students == [] then 0
    else
      var m := |Matches(students[0].studentId, missed)|;
      (if m == 0 then 1 else m) + FanOut(students[1..], missed)
  }

  // What the join promises.

  /** The rows of a single student: one zero row without a match, else one per match in file order. */
  lemma JoinOneStudent(s: Student, missed: seq<Absence>)
    ensures
      var rows := Join([s], missed);
      var ms := Matches(s.studentId, missed);
      && |rows| == (if ms == [] then 1 else |ms|)
      && (ms == [] ==> rows[0] == Row(s.studentId, s.name, s.grades, Some(0)))
      && forall j :: 0 <= j < |ms| ==> rows[j] == Row(s.studentId, s.name, s.grades, Some(ms[j].missedDays))
  {
    assert Merge([s], missed) == MergeStudent(s, missed) + Merge([], missed);
    MatchedRowsAt(s, Matches(s.studentId, missed));
  }

  lemma {:induction false} MergeAppend(s1: seq<Student>, s2: seq<Student>, missed: seq<Absence>)
    ensures Merge(s1 + s2, missed) == Merge(s1, missed) + Merge(s2, missed)
  {
    if s1 == [] {
      assert s1 + s2 == s2;
    } else {
      var rest := s1[1..];
      assert s1 == [s1[0]] + rest;
      assert s1 + s2 == [s1[0]] + (rest + s2);
      MergeCons(s1[0], rest + s2, missed);
      MergeCons(s1[0], rest, missed);
      MergeAppend(rest, s2, missed);
    }
  }

  /** Merging a list headed by `s` puts the rows of `s` first. */
  lemma MergeCons(s: Student, rest: seq<Student>, missed: seq<Absence>)
    ensures Merge([s] + rest, missed) == MergeStudent(s, missed) + Merge(rest, missed)
  {
    var t := [s] + rest;
    assert t[0] == s && t[1..] == rest;
  }

  /** The join keeps the students' order: joining a concatenation joins each part in turn. */
  lemma JoinAppend(s1: seq<Student>, s2: seq<Student>, missed: seq<Absence>)
    ensures Join(s1 + s2, missed) == Join(s1, missed) + Join(s2, missed)
  {
    MergeAppend(s1, s2, missed);
    FillNaAppend(Merge(s1, missed), Merge(s2, missed));
  }

  /** The fill works row by row, so it distributes over concatenation. */
  lemma FillNaAppend(a: seq<Row>, b: seq<Row>)
    ensures FillNa(a + b) == FillNa(a) + FillNa(b)
  {
    var l, r := FillNa(a + b), FillNa(a) + FillNa(b);
    assert |l| == |r|;
    forall k | 0 <= k < |l| ensures l[k] == r[k] {
      if k < |a| {
        assert (a + b)[k] == a[k];
      } else {
        assert (a + b)[k] == b[k - |a|];
      }
    }
  }

  /** The output length is the sum over students of max(1, matches). */
  lemma {:induction false} JoinLength(students: seq<Student>, missed: seq<Absence>)
    ensures |Join(students, missed)| == FanOut(students, missed)
  {
    if students != [] {
      var s := students[0];
      MatchedRowsAt(s, Matches(s.studentId, missed));
      JoinLength(students[1..], missed);
    }
  }

  lemma {:induction false} MatchesAppend(id: string, a: seq<Absence>, b: seq<Absence>)
    ensures Matches(id, a + b) == Matches(id, a) + Matches(id, b)
  {
    if a == [] {
      assert a + b == b;
    } else {
      var t := a + b;
      assert t[0] == a[0] && t[1..] == a[1..] + b;
      MatchesAppend(id, a[1..], b);
      var head := if a[0].studentId == id then [a[0]] else [];
      assert Matches(id, t) == head + Matches(id, t[1..]);
      assert Matches(id, a) == head + Matches(id, a[1..]);
    }
  }

  /** A record for another id leaves the matches of `id` as they were. */
  lemma MatchesIgnoreOtherId(id: string, a: seq<Absence>, m: Absence, b: seq<Absence>)
    requires m.studentId != id
    ensures Matches(id, a + [m] + b) == Matches(id, a + b)
  {
    MatchesAppend(id, a + [m], b);
    MatchesAppend(id, a, [m]);
    MatchesAppend(id, a, b);
    assert Matches(id, [m]) == [] by {
      assert [m][1..] == [];
    }
  }

  lemma {:induction false} MergeIgnoresUnmatched(students: seq<Student>, a: seq<Absence>, m: Absence, b: seq<Absence>)
    requires forall i :: 0 <= i < |students| ==> students[i].studentId != m.studentId
    ensures Merge(students, a + [m] + b) == Merge(students, a + b)
  {
    if students != [] {
      MatchesIgnoreOtherId(students[0].studentId, a, m, b);
      MergeIgnoresUnmatched(students[1..], a, m, b);
    }
  }

  /** An absence record whose id matches no student contributes no row. */
  lemma UnmatchedAbsenceVanishes(students: seq<Student>, a: seq<Absence>, m: Absence, b: seq<Absence>)
    requires forall i :: 0 <= i < |students| ==> students[i].studentId != m.studentId
    ensures Join(students, a + [m] + b) == Join(students, a + b)
  {
    MergeIgnoresUnmatched(students, a, m, b);
  }

  /**
   * `row` carries student `s`'s id, name and grades unchanged, and a number
   * of missed days: zero when `s` has no absence record, otherwise the
   * count of one of its records.
   */
  ghost predicate RowOf(s: Student, missed: seq<Absence>, row: Row) {
    var ms := Matches(s.studentId, missed);
    && row.studentId == s.studentId && row.name == s.name && row.grades == s.grades
    && row.missedDays.Some?
    && (ms == [] ==> row.missedDays == Some(0))
    && (ms != [] ==> exists m :: m in ms && row.missedDays == Some(m.missedDays))
  }

  /**
   * Every output row is one student's id, name and grades unchanged, with a
   * number of missed days: zero when the student has no absence record,
   * otherwise the count of one of its records.
   */
  lemma {:induction false} JoinRowOrigin(students: seq<Student>, missed: seq<Absence>, k: nat)
    requires k < |Join(students, missed)|
    ensures exists i :: 0 <= i < |students| && RowOf(students[i], missed, Join(students, missed)[k])
  {
    var s, rest := students[0], students[1..];
    var head, tail := Join([s], missed), Join(rest, missed);
    assert students == [s] + rest;
    JoinAppend([s], rest, missed);
    var rows := Join(students, missed);
    assert rows == head + tail;
    if k < |head| {
      StudentRowOrigin(s, missed, k);
      assert rows[k] == head[k];
      assert RowOf(students[0], missed, rows[k]);
    } else {
      JoinRowOrigin(rest, missed, k - |head|);
      var i :| 0 <= i < |rest| && RowOf(rest[i], missed, tail[k - |head|]);
      assert rows[k] == tail[k - |head|];
      assert students[i + 1] == rest[i];
      assert RowOf(students[i + 1], missed, rows[k]);
    }
  }

  lemma StudentRowOrigin(s: Student, missed: seq<Absence>, k: nat)
    requires k < |Join([s], missed)|
    ensures RowOf(s, missed, Join([s], missed)[k])
  {
    JoinOneStudent(s, missed);
    var ms := Matches(s.studentId, missed);
    if ms != [] {
      assert ms[k] in ms;
    }
  }

  // The operation.

  /** `df_merged['missed_days'].fillna(0, inplace=True)`: every NaN cell of the frame becomes 0. */
  method FillMissedDays(frame: array<Row>)
    modifies frame
    ensures frame[..] == FillNa(old(frame[..]))
  {
    var i := 0;
    while i < frame.Length
      invariant 0 <= i <= frame.Length
      invariant forall k :: 0 <= k < i ==> frame[k] == FillMissing(old(frame[k]))
      invariant forall k :: i <= k < frame.Length ==> frame[k] == old(frame[k])
    {
      if frame[i].missedDays.None? {
        frame[i] := frame[i].(missedDays := Some(0));
      }
      i := i + 1;
    }
  }

  /**
   * `join_datasets` on two validated documents: raises when either array is
   * empty, otherwise builds the merged frame and fills its NaN cells with 0.
   */
  method JoinDatasets(studentsDoc: Json, missedDoc: Json) returns (r: Result<seq<Row>, JoinError>)
    requires ValidStudentsDoc(studentsDoc) && ValidMissedDoc(missedDoc)
    ensures r.Err? <==>
      studentsDoc.members["students"].elems == [] || missedDoc.members["missed_classes"].elems == []
    ensures r.Ok? ==> r.value == Join(StudentsOf(studentsDoc), AbsencesOf(missedDoc))
  {
    var students := StudentsOf(studentsDoc);
    var missed := AbsencesOf(missedDoc);
    if |students| == 0 || |missed| == 0 {
      return Err(KeyColumnMissing);
    }
    var merged := Merge(students, missed);
    var frame := new Row[|merged|];
    forall k | 0 <= k < |merged| {
      frame[k] := merged[k];
    }
    assert frame[..] == merged;
    FillMissedDays(frame);
    return Ok(frame[..]);
  }

  // Line 105 as written, under pandas copy-on-write.

  /**
   * `df_merged['missed_days'].fillna(0, inplace=True)` when pandas runs with
   * copy-on-write (the default from pandas 3.0): selecting the column yields
   * a copy, the in-place fill acts on that copy, and the frame itself keeps
   * its NaN cells.
   */
  method FillMissedDaysOnCopy(frame: array<Row>) returns (column: array<Row>)
    ensures fresh(column)
    ensures column[..] == FillNa(frame[..])
    ensures frame[..] == old(frame[..])
  {
    column := new Row[frame.Length];
    forall k | 0 <= k < frame.Length {
      column[k] := frame[k];
    }
    assert column[..] == frame[..];
    FillMissedDays(column);
  }

  /** A student without an absence record keeps a NaN in the merged frame, but gets 0 from `Join`. */
  lemma CopyOnWriteKeepsNaN(s: Student, missed: seq<Absence>)
    requires Matches(s.studentId, missed) == []
    ensures Merge([s], missed) == [Row(s.studentId, s.name, s.grades, None)]
    ensures Join([s], missed) == [Row(s.studentId, s.name, s.grades, Some(0))]
  {
    assert Merge([s], missed) == MergeStudent(s, missed) + Merge([], missed);
  }

  // The worked examples.

  /** One student with one matching record: one row carrying that record's count. */
  lemma SingleMatchExample(grades: Json)
    ensures Join([Student("S1", "Ann", grades)], [Absence("S1", 3)]) == [Row("S1", "Ann", grades, Some(3))]
  {
    JoinOneStudent(Student("S1", "Ann", grades), [Absence("S1", 3)]);
  }

  /** A student whose id appears in no record: one row with zero missed days; the other record is dropped. */
  lemma NoMatchExample(grades: Json)
    ensures Join([Student("S2", "Bo", grades)], [Absence("S9", 5)]) == [Row("S2", "Bo", grades, Some(0))]
  {
    var s := Student("S2", "Bo", grades);
    assert "S9" != "S2";
    assert Matches("S2", [Absence("S9", 5)]) == [];
    JoinOneStudent(s, [Absence("S9", 5)]);
  }

  /** A student with two records: two rows, in the records' order. */
  lemma TwoMatchesExample(grades: Json)
    ensures Join([Student("S3", "Cy", grades)], [Absence("S3", 1), Absence("S3", 4)])
              == [Row("S3", "Cy", grades, Some(1)), Row("S3", "Cy", grades, Some(4))]
  {
    var missed := [Absence("S3", 1), Absence("S3", 4)];
    assert missed[1..] == [Absence("S3", 4)];
    assert Matches("S3", missed) == missed;
    JoinOneStudent(Student("S3", "Cy", grades), missed);
  }
}
