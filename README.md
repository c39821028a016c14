# Student data migration: validation and join

A Dafny model of the data-handling core of the `migrate_student_data_to_snowflake`
Airflow DAG (`airflow-docker/dags/student_data_migration.py`). The DAG reads two JSON
files and checks each against a JSON Schema document. `schema_students` describes
students with an id, a name and four integer grades. `schema_missed_days` describes
per-student absence counts. The DAG then left-joins the two record sets on
`student_id`, fills missing absence counts with 0 and bulk-loads the result into
Snowflake.

The model covers:

- `JsonValue`: parsed JSON documents (`null`, booleans, integers, strings, arrays and
  objects).
- `JsonSchema`: the four keywords the two schema documents use, as JSON Schema draft
  2020-12 defines them. These are `type` (Validation, section 6.1.1), `required`
  (Validation, section 6.5.3), `properties` (Core, section 10.3.2.1) and `items` (Core,
  section 10.3.1.2).
  - `Conforms` gives their boolean meaning.
  - `Violations` lists every failed keyword with its instance location. The order is
    the one `jsonschema` reports: keywords as written, properties in order, items by
    index.
  - `Validate` is `jsonschema.validate`. It returns the document unchanged, or fails
    with the violations. It is proved to accept exactly the conforming documents.
- `StudentSchemas`:
  - the two schema documents, written as `Schema` values;
  - `ValidStudentsDoc` and `ValidMissedDoc`, which say directly what the schemas
    accept; each is proved equivalent to its schema;
  - the validators `ValidateStudents` and `ValidateMissedDays`;
  - the accept/reject properties: the whole document is rejected when one grade is
    missing, unknown members are accepted, empty arrays are accepted, and absence
    counts have no sign or uniqueness constraint.
- `StudentJoin`:
  - the record extraction (`pd.DataFrame`);
  - the left merge on `student_id` (`Merge`, where an unmatched student gets a `None`
    cell standing for NaN);
  - the `fillna(0)` on the `missed_days` column (`FillNa`, and the in-place loop
    `FillMissedDays` over the frame array);
  - the operation `JoinDatasets`;
  - lemmas on the joined frame: left order, fan-out in file order, the row count
    formula, unmatched absence records vanish, and every row carries its student's
    fields unchanged.

The validators are functions over an already parsed document. Reading the file and
logging are left out. Two behaviours of the code to note:
- An empty `students` or `missed_classes` array makes the join fail. `pd.DataFrame([])`
  has no `student_id` column, so the merge raises. The join never returns an empty or
  a zero-filled frame for such input.
- The validation failure in the model carries every violation found. `jsonschema`
  raises one of them.

## Model

| member | source | states |
|---|---|---|
| JsonSchema.ViolationsEmptyIff | airflow-docker/dags/student_data_migration.py:78 | the validator finds no violation exactly when the instance satisfies every `type`, `properties`, `items` and `required` keyword of the schema |
| JsonSchema.Validate | airflow-docker/dags/student_data_migration.py:77-83 | validation succeeds iff the document conforms; success returns the input document itself; failure carries a non-empty list of violations and never a partial document |
| JsonSchema.ValidateIdempotent | airflow-docker/dags/student_data_migration.py:78-80 | validating the document returned by a successful validation succeeds again with the same document |
| JsonSchema.ViolationsBelow | airflow-docker/dags/student_data_migration.py:78 | every reported violation is located at or below the instance it was searched under |
| JsonSchema.MissingRequiredReported | airflow-docker/dags/student_data_migration.py:43 | a `required` name absent from an object is reported as a violation at that object's location |
| JsonSchema.PropertyViolationReported | airflow-docker/dags/student_data_migration.py:27-28 | a violation inside a present property is also reported for the enclosing object, under that property's key |
| JsonSchema.ItemViolationReported | airflow-docker/dags/student_data_migration.py:30 | a violation inside an array item is also reported for the enclosing array, under that item's index |
| JsonSchema.UnknownMemberAccepted | airflow-docker/dags/student_data_migration.py:25-69 | with no `additionalProperties`, adding a member that no `properties` entry names never makes a valid object invalid |
| StudentSchemas.GradesSchemaExact | airflow-docker/dags/student_data_migration.py:35-44 | the grades schema accepts exactly objects with integer `math`, `science`, `history` and `english` |
| StudentSchemas.StudentSchemaExact | airflow-docker/dags/student_data_migration.py:31-47 | a student item is accepted exactly when it is an object with string `student_id`, string `name` and valid `grades` |
| StudentSchemas.StudentsSchemaExact | airflow-docker/dags/student_data_migration.py:25-51 | `schema_students` accepts a document iff it is an object whose `students` member is an array of valid students |
| StudentSchemas.AbsenceSchemaExact | airflow-docker/dags/student_data_migration.py:58-65 | an absence item is accepted exactly when it is an object with string `student_id` and integer `missed_days` |
| StudentSchemas.MissedDaysSchemaExact | airflow-docker/dags/student_data_migration.py:53-69 | `schema_missed_days` accepts a document iff it is an object whose `missed_classes` member is an array of valid absence records |
| StudentSchemas.ValidateStudents | airflow-docker/dags/student_data_migration.py:73-83 | `validate_students` succeeds iff `ValidStudentsDoc` holds, returns the document unchanged on success, and fails with at least one violation otherwise |
| StudentSchemas.ValidateMissedDays | airflow-docker/dags/student_data_migration.py:86-96 | `validate_missed_days` succeeds iff `ValidMissedDoc` holds, returns the document unchanged on success, and fails with at least one violation otherwise |
| StudentSchemas.MissingSubjectRejected | airflow-docker/dags/student_data_migration.py:43 | one student's grades missing any of the four subjects rejects the whole document, with a `required` violation naming that subject at `students/i/grades` |
| StudentSchemas.MissingEnglishExample | airflow-docker/dags/student_data_migration.py:43 | a student without an `english` grade is rejected with `english` reported as required at `students/0/grades` |
| StudentSchemas.EmptyArraysAccepted | airflow-docker/dags/student_data_migration.py:28-31 | an empty `students` array and an empty `missed_classes` array are valid (no `minItems`) |
| StudentSchemas.AnyAbsencesAccepted | airflow-docker/dags/student_data_migration.py:53-69 | any list of (id, count) records is accepted: negative counts and repeated ids included |
| StudentSchemas.UnknownTopLevelMemberAccepted | airflow-docker/dags/student_data_migration.py:25-51 | an extra top-level member next to `students` leaves a valid document valid and returned unchanged |
| StudentJoin.StudentsOf | airflow-docker/dags/student_data_migration.py:101 | one student record per array element, in array order, carrying that element's `student_id`, `name` and `grades` values, with valid grades |
| StudentJoin.AbsencesOf | airflow-docker/dags/student_data_migration.py:102 | one absence record per array element, in array order, carrying that element's `student_id` and `missed_days` |
| StudentJoin.MatchesExactly | airflow-docker/dags/student_data_migration.py:103 | the right-side records joined to a key are all and only the records carrying that key, never more than the file holds |
| StudentJoin.MatchesAppend | airflow-docker/dags/student_data_migration.py:103 | the matches of a key keep the order of the absence file: matching a concatenation concatenates the matches |
| StudentJoin.FillNa | airflow-docker/dags/student_data_migration.py:105 | after the fill no `missed_days` cell is NaN, NaN cells become 0, numbers are kept, and no other column changes |
| StudentJoin.FillMissedDays | airflow-docker/dags/student_data_migration.py:105 | the in-place fill leaves the frame equal to `FillNa` of its previous contents |
| StudentJoin.JoinDatasets | airflow-docker/dags/student_data_migration.py:99-110 | on validated documents: fails iff either array is empty; otherwise returns the zero-filled left join of the extracted records |
| StudentJoin.JoinOneStudent | airflow-docker/dags/student_data_migration.py:103-105 | a student with no match yields exactly one row with 0 missed days; a student with k matches yields k rows carrying the matched counts in file order; id, name and grades are copied unchanged |
| StudentJoin.MergeAppend | airflow-docker/dags/student_data_migration.py:103 | the left merge of concatenated student lists is the concatenation of their merges |
| StudentJoin.JoinAppend | airflow-docker/dags/student_data_migration.py:103-105 | the output keeps the students' input order: joining a concatenation joins each part in turn |
| StudentJoin.JoinLength | airflow-docker/dags/student_data_migration.py:103-105 | the number of output rows is the sum over students of max(1, number of matching records) |
| StudentJoin.MergeIgnoresUnmatched | airflow-docker/dags/student_data_migration.py:103 | removing an absence record whose id matches no student leaves the merged frame unchanged |
| StudentJoin.UnmatchedAbsenceVanishes | airflow-docker/dags/student_data_migration.py:103-105 | absence records whose id matches no student contribute no output rows (left join) |
| StudentJoin.StudentRowOrigin | airflow-docker/dags/student_data_migration.py:103-105 | every row produced for one student carries its fields and either 0 (no match) or the count of one of its records |
| StudentJoin.JoinRowOrigin | airflow-docker/dags/student_data_migration.py:103-105 | every output row carries some student's id, name and grades unchanged, has no NaN, and holds 0 exactly for students with no match or else one matched record's count |
| StudentJoin.FillMissedDaysOnCopy | airflow-docker/dags/student_data_migration.py:105 | under pandas copy-on-write, the chained in-place fill fills a fresh copy of the column, and the frame itself keeps its contents, NaN cells included |
| StudentJoin.CopyOnWriteKeepsNaN | airflow-docker/dags/student_data_migration.py:103-105 | for a student without absence records, the merged frame that copy-on-write leaves unfilled holds a NaN cell where the intended join has 0 |
| StudentJoin.SingleMatchExample | airflow-docker/dags/student_data_migration.py:103-105 | a student with one record `S1`/3 yields the single row `S1`, `Ann`, grades, 3 |
| StudentJoin.NoMatchExample | airflow-docker/dags/student_data_migration.py:103-105 | a student with no record yields one row with 0, and the unrelated record yields nothing |
| StudentJoin.TwoMatchesExample | airflow-docker/dags/student_data_migration.py:103-105 | a student with records 1 and 4 yields two rows, with 1 then 4 |

## Left out

- Reading `/students.json` and `/missed_days.json` and the logging calls (lines 74-76, 87-89 and the `logging` lines) are I/O. The validators take the parsed document as a parameter.
- `load_data_to_snowflake` (lines 113-149) is left out: it is network I/O, DDL statements and a foreign `write_pandas` call.
- The DAG definition, `default_args`, scheduling, retries and the operator wiring (lines 14-22, 152-179) are orchestration and are left out.
- JSON floats are not modelled. Under draft 2020-12 a number with a zero fractional part such as `1.0` is an integer, and a boolean never is. The model has one integer constructor and no floats.
- JsonSchema.Validate: `jsonschema.validate` raises a single `ValidationError`, chosen from all violations by the library's `best_match` relevance heuristic. The model returns the whole list in reporting order. Which element the heuristic picks, and the message text, are not modelled.
- StudentJoin.JoinDatasets: requires both documents to be valid. Its only caller passes the validators' outputs. What pandas would do with an unvalidated document is not modelled.
- StudentJoin.JoinDatasets: `missed_days` is an integer. In the source it becomes a float column once NaN appears, and the table column is FLOAT (line 133).
- pandas column handling is not modelled. When both sides share a non-key column name, pandas adds `_x`/`_y` suffixes. For example, a student object with its own `missed_days` member would make line 105 raise a `KeyError`. Unknown members become extra frame columns. Rows carry only `student_id`, `name`, `grades` and `missed_days`.
- The `grades` object is carried as the parsed JSON value. Its serialisation to text for the VARCHAR column happens in the loader, which is left out.

## Findings

| source | as written | input that shows it | evidently intended | confidence | as-written member | corrected member |
|---|---|---|---|---|---|---|
| airflow-docker/dags/student_data_migration.py:105 | `df_merged['missed_days'].fillna(0, inplace=True)` is a chained in-place call. Under pandas copy-on-write (the default from pandas 3.0) it fills a temporary copy, and `df_merged` keeps its NaN cells. | a student whose `student_id` appears in no absence record | every unmatched student gets `missed_days` 0 in the returned frame | not executed; it holds only under copy-on-write, and the pandas version is not pinned in the DAG file | StudentJoin.CopyOnWriteKeepsNaN | StudentJoin.JoinRowOrigin |
