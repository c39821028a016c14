/**
 * The two schema documents of the migration DAG, `schema_students` and
 * `schema_missed_days`, written as `JsonSchema.Schema` values, the
 * validators that check a parsed document against them, and a direct
 * statement of what each schema accepts.
 */
module StudentSchemas {
  import opened Wrappers
  import opened JsonValue
  import opened JsonSchema

  /** The four grade fields every student must carry. */
  const Subjects: seq<string> := ["math", "science", "history", "english"]

  /** A schema holding nothing but a `type` keyword. */
  function TypeOnly(t: JsonType): Schema {
    Schema(Some(t), [], None, [])
  }

  const GradesSchema: Schema :=
    Schema(Some(ObjectType),
      [Property("math", TypeOnly(IntegerType)),
       Property("science", TypeOnly(IntegerType)),
       Property("history", TypeOnly(IntegerType)),
       Property("english", TypeOnly(IntegerType))],
      None,
      Subjects)

  const StudentSchema: Schema :=
    Schema(Some(ObjectType),
      [Property("student_id", TypeOnly(StringType)),
       Property("name", TypeOnly(StringType)),
       Property("grades", GradesSchema)],
      None,
      ["student_id", "name", "grades"])

  /** `schema_students`: an object whose `students` member is an array of students. */
  const StudentsSchema: Schema :=
    Schema(Some(ObjectType),
      [Property("students", Schema(Some(ArrayType), [], Some(StudentSchema), []))],
      None,
      ["students"])

  const AbsenceSchema: Schema :=
    Schema(Some(ObjectType),
      [Property("student_id", TypeOnly(StringType)),
       Property("missed_days", TypeOnly(IntegerType))],
      None,
      ["student_id", "missed_days"])

  /** `schema_missed_days`: an object whose `missed_classes` member is an array of absence records. */
  const MissedDaysSchema: Schema :=
    Schema(Some(ObjectType),
      [Property("missed_classes", Schema(Some(ArrayType), [], Some(AbsenceSchema), []))],
      None,
      ["missed_classes"])

  // What the two schemas accept, said directly on the document.

  predicate IntMember(o: map<string, Json>, name: string) {
    name in o && o[name].JInt?
  }

  predicate StringMember(o: map<string, Json>, name: string) {
    name in o && o[name].JString?
  }

  predicate ValidGrades(g: Json) {
    && g.JObject?
    && IntMember(g.members, "math")
    && IntMember(g.members, "science")
    && IntMember(g.members, "history")
    && IntMember(g.members, "english")
  }

  predicate ValidStudent(v: Json) {
    && v.JObject?
    && StringMember(v.members, "student_id")
    && StringMember(v.members, "name")
    && "grades" in v.members
    && ValidGrades(v.members["grades"])
  }

  /** An object with a `students` array of objects, each with string id and name and four integer grades. */
  predicate ValidStudentsDoc(doc: Json) {
    && doc.JObject?
    && "students" in doc.members
    && doc.members["students"].JArray?
    && forall i :: 0 <= i < |doc.members["students"].elems| ==> ValidStudent(doc.members["students"].elems[i])
  }

  predicate ValidAbsence(v: Json) {
    && v.JObject?
    && StringMember(v.members, "student_id")
    && IntMember(v.members, "missed_days")
  }

  /** An object with a `missed_classes` array of objects, each with a string id and an integer count. */
  predicate ValidMissedDoc(doc: Json) {
    && doc.JObject?
    && "missed_classes" in doc.members
    && doc.members["missed_classes"].JArray?
    && forall i :: 0 <= i < |doc.members["missed_classes"].elems| ==> ValidAbsence(doc.members["missed_classes"].elems[i])
  }

  // The schemas accept exactly what the predicates above describe.

  lemma TypeOnlyExact(t: JsonType, v: Json)
    ensures Conforms(TypeOnly(t), v) <==> HasType(v, t)
  {
  }

  lemma GradesSchemaExact(g: Json)
    ensures Conforms(GradesSchema, g) <==> ValidGrades(g)
  {
    var ps := GradesSchema.properties;
    forall k | 0 <= k < |ps| ensures Conforms(ps[k].schema, g) <==> HasType(g, IntegerType) {
      TypeOnlyExact(IntegerType, g);
    }
    if g.JObject? {
      forall k | 0 <= k < |ps| && ps[k].name in g.members {
        TypeOnlyExact(IntegerType, g.members[ps[k].name]);
      }
      if Conforms(GradesSchema, g) {
        assert Subjects[0] in g.members && Subjects[1] in g.members;
        assert Subjects[2] in g.members && Subjects[3] in g.members;
        assert ps[0].name == "math" && ps[1].name == "science";
        assert ps[2].name == "history" && ps[3].name == "english";
      }
    }
  }

  lemma StudentSchemaExact(v: Json)
    ensures Conforms(StudentSchema, v) <==> ValidStudent(v)
  {
    var ps := StudentSchema.properties;
    if v.JObject? {
      TypeOnlyExact(StringType, v);
      forall k | 0 <= k < 2 && ps[k].name in v.members {
        TypeOnlyExact(StringType, v.members[ps[k].name]);
      }
      if "grades" in v.members {
        GradesSchemaExact(v.members["grades"]);
      }
      if Conforms(StudentSchema, v) {
        assert StudentSchema.required[0] in v.members && StudentSchema.required[1] in v.members;
        assert StudentSchema.required[2] in v.members;
        assert ps[0].name == "student_id" && ps[1].name == "name" && ps[2].name == "grades";
      }
    }
  }

  /** `schema_students` accepts a document exactly when `ValidStudentsDoc` holds of it. */
  lemma StudentsSchemaExact(doc: Json)
    ensures Conforms(StudentsSchema, doc) <==> ValidStudentsDoc(doc)
  {
    if doc.JObject? && "students" in doc.members && doc.members["students"].JArray? {
      var elems := doc.members["students"].elems;
      forall i | 0 <= i < |elems| {
        StudentSchemaExact(elems[i]);
      }
      assert StudentsSchema.properties[0].name == "students";
    } else if doc.JObject? && "students" !in doc.members {
      assert StudentsSchema.required[0] == "students";
    } else if doc.JObject? {
      assert StudentsSchema.properties[0].name == "students";
    }
  }

  lemma AbsenceSchemaExact(v: Json)
    ensures Conforms(AbsenceSchema, v) <==> ValidAbsence(v)
  {
    var ps := AbsenceSchema.properties;
    if v.JObject? {
      if "student_id" in v.members {
        TypeOnlyExact(StringType, v.members["student_id"]);
      }
      if "missed_days" in v.members {
        TypeOnlyExact(IntegerType, v.members["missed_days"]);
      }
      if Conforms(AbsenceSchema, v) {
        assert AbsenceSchema.required[0] in v.members && AbsenceSchema.required[1] in v.members;
        assert ps[0].name == "student_id" && ps[1].name == "missed_days";
      }
    }
  }

  /** `schema_missed_days` accepts a document exactly when `ValidMissedDoc` holds of it. */
  lemma MissedDaysSchemaExact(doc: Json)
    ensures Conforms(MissedDaysSchema, doc) <==> ValidMissedDoc(doc)
  {
    if doc.JObject? && "missed_classes" in doc.members && doc.members["missed_classes"].JArray? {
      var elems := doc.members["missed_classes"].elems;
      forall i | 0 <= i < |elems| {
        AbsenceSchemaExact(elems[i]);
      }
      assert MissedDaysSchema.properties[0].name == "missed_classes";
    } else if doc.JObject? && "missed_classes" !in doc.members {
      assert MissedDaysSchema.required[0] == "missed_classes";
    } else if doc.JObject? {
      assert MissedDaysSchema.properties[0].name == "missed_classes";
    }
  }

  // The validators.

  /** `validate_students` on an already parsed document: the document unchanged, or every violation. */
  function ValidateStudents(doc: Json): (r: Result<Json, seq<Violation>>)
    ensures r.Ok? <==> ValidStudentsDoc(doc)
    ensures r.Ok? ==> r.value == doc
    ensures r.Err? ==> r.error != []
  {
    StudentsSchemaExact(doc);
    Validate(StudentsSchema, doc)
  }

  /** `validate_missed_days` on an already parsed document: the document unchanged, or every violation. */
  function ValidateMissedDays(doc: Json): (r: Result<Json, seq<Violation>>)
    ensures r.Ok? <==> ValidMissedDoc(doc)
    ensures r.Ok? ==> r.value == doc
    ensures r.Err? ==> r.error != []
  {
    MissedDaysSchemaExact(doc);
    Validate(MissedDaysSchema, doc)
  }

  /**
   * A student whose grades lack one of the four subjects makes the whole
   * document fail, and the failure names that subject as required at the
   * location of that student's `grades` object.
   */
  lemma MissingSubjectRejected(doc: Json, i: nat, subject: string)
    requires doc.JObject? && "students" in doc.members && doc.members["students"].JArray?
    requires i < |doc.members["students"].elems|
    requires doc.members["students"].elems[i].JObject?
    requires "grades" in doc.members["students"].elems[i].members
    requires doc.members["students"].elems[i].members["grades"].JObject?
    requires subject in Subjects
    requires subject !in doc.members["students"].elems[i].members["grades"].members
    ensures ValidateStudents(doc).Err?
    ensures Violation([Key("students"), Index(i), Key("grades")], RequiredKeyword(subject))
              in ValidateStudents(doc).error
  {
    var arr := doc.members["students"];
    var student := arr.elems[i];
    var grades := student.members["grades"];
    var x := Violation([Key("students"), Index(i), Key("grades")], RequiredKeyword(subject));
    MissingRequiredReported(GradesSchema, grades, [Key("students"), Index(i), Key("grades")], subject);
    assert StudentSchema.properties[2].name == "grades";
    assert [Key("students"), Index(i)] + [Key("grades")] == [Key("students"), Index(i), Key("grades")];
    PropertyViolationReported(StudentSchema, student, [Key("students"), Index(i)], 2, x);
    var arraySchema := StudentsSchema.properties[0].schema;
    assert [Key("students")] + [Index(i)] == [Key("students"), Index(i)];
    ItemViolationReported(arraySchema, arr, [Key("students")], i, x);
    assert [] + [Key("students")] == [Key("students")];
    PropertyViolationReported(StudentsSchema, doc, [], 0, x);
    assert Validate(StudentsSchema, doc).Err?;
  }

  /** The example of a student without an `english` grade: rejected, naming `english`. */
  lemma MissingEnglishExample()
    ensures
      var grades := JObject(map["math" := JInt(90), "science" := JInt(85), "history" := JInt(88)]);
      var student := JObject(map["student_id" := JString("S1"), "name" := JString("Ann"), "grades" := grades]);
      var doc := JObject(map["students" := JArray([student])]);
      && ValidateStudents(doc).Err?
      && Violation([Key("students"), Index(0), Key("grades")], RequiredKeyword("english")) in ValidateStudents(doc).error
  {
    var grades := JObject(map["math" := JInt(90), "science" := JInt(85), "history" := JInt(88)]);
    var student := JObject(map["student_id" := JString("S1"), "name" := JString("Ann"), "grades" := grades]);
    var doc := JObject(map["students" := JArray([student])]);
    assert "english" != "math" && "english" != "science" && "english" != "history";
    assert Subjects[3] == "english";
    MissingSubjectRejected(doc, 0, "english");
  }

  /** An empty `students` array and an empty `missed_classes` array are both accepted. */
  lemma EmptyArraysAccepted()
    ensures ValidateStudents(JObject(map["students" := JArray([])])).Ok?
    ensures ValidateMissedDays(JObject(map["missed_classes" := JArray([])])).Ok?
  {
  }

  /** Any list of (id, count) pairs is accepted: counts may be negative and ids may repeat. */
  lemma AnyAbsencesAccepted(ids: seq<string>, days: seq<int>)
    requires |ids| == |days|
    ensures
      var records := seq(|ids|, i requires 0 <= i < |ids| =>
        JObject(map["student_id" := JString(ids[i]), "missed_days" := JInt(days[i])]));
      ValidateMissedDays(JObject(map["missed_classes" := JArray(records)])).Ok?
  {
  }

  /** A member the students schema does not mention is ignored at the top level of the document. */
  lemma UnknownTopLevelMemberAccepted(doc: Json, name: string, x: Json)
    requires ValidStudentsDoc(doc) && name != "students"
    ensures ValidateStudents(JObject(doc.members[name := x])) == Ok(JObject(doc.members[name := x]))
  {
  }
}
