# validacursos — a Dafny model

A model of the Moodle block *validacursos*. The block checks that a course follows the
institution's template, and keeps a history of the checks that fail. The model covers five
pieces:

- **The validator** (`classes/local/validator.php`, module `Validator`). It runs ten checks
  over one course and returns them in a fixed order: start date, end date, three forums in
  section 0, the "Guía Docente" syllabus link, the tutoring-data label, two timetable labels
  and the gradebook categories. Every database read becomes a field of `Facts.CourseFacts`:
  the rows the query returns, in the order it returns them. Each loop of the source is a
  method proved equal to a specification function. `Validator.Validaciones(f, config,
  AsWritten)` is the whole result as the plugin computes it, and `Validator.GetValidaciones`
  is the step-by-step method. `Validaciones(f, config, Corrected)` is the same list with the
  two corrections of "## Findings" applied; `Validator.ReadingsAgree` says how the two differ.
- **The issue history** (`classes/local/logger.php`, module `Logger`). `IssueStore` is a class
  whose fields are the issues table and its next id. `SaveCourseResultsHistory` does three
  things: it builds the name→passed map, opens or refreshes an issue for every failing
  check, and closes the open issues whose check now passes. It is proved equal to the
  function `SaveHistory`. The lemmas about `SaveHistory` show that it keeps one open issue
  per check, that nothing else changes, and what a second run with the same results does.
- **The scheduled task** (`classes/task/validate_all_courses.php`, module `Task`). It parses
  the allow-list of categories, skips the site course and the courses outside the list,
  validates and records each remaining course, and counts successes and failures. The
  method `Execute` is proved equal to the fold `Run` over the selected courses.
- **The block** (`block_validacursos.php`, module `Block`). Its own three checks (start
  date and two forums, with a three-way detail) are modelled, and so is the memoised
  `get_content`, in class `ValidacursosBlock`.
- **The date setting** (`classes/admin_setting_configdate.php`, module `ConfigDate`). This
  covers how a submitted value becomes a timestamp or an error, and how the stored value is
  read back.

Module `Php` models the PHP built-ins the checks depend on:

- `empty()` on strings;
- `trim`;
- `stripos` (ASCII case folding) and `mb_stripos` (here the folding of the Latin-1 capitals
  U+00C0 to U+00DE, except U+00D7, on top of ASCII);
- `strip_tags`;
- `explode`;
- `(int)` / `intval` on strings, and `is_numeric`.

A database value arrives as a string, and `Facts.DateMatches` compares dates the way
`fechas_son_iguales` does, as `(int)` casts. Values that only make display text are kept
abstract in `Facts.Value`, for instance `userdate`, language strings, links and the timetable
hint sentence.

Behaviour of the code a reader might not expect:

- There are exactly ten checks. There is no assignment or completion check.
- Forum types and titles, and category names, are compared exactly and case-sensitively.
  Category names are trimmed first. There is no special handling of a forum with the right
  title but the wrong type.
- The syllabus URL must have the trimmed title "Guía Docente" exactly, not a title that
  starts with it. The URL test uses the first such module, because the scan stops there.
- In the validator, a forum's course module is the last one of that instance, because the
  map indexed by instance keeps the last row. In the block it is the first one, as
  `get_record` returns it. The block also finds its forum with `get_record` in SQL, so there
  the title match follows the database collation; the model matches it exactly in both.
- A timetable title is a plain substring of the tag-stripped text. There is no whitespace
  collapsing and no entity decoding.
- Only a missing `forum` or `label` module type aborts the validation (`MUST_EXIST`). That is
  the `Err` of `Validaciones`. A missing `url` module type makes the syllabus check fail.
- Every course of the scheduled task is logged with its own `time()`: `Task.Batch` takes a
  clock indexed by the course's position in the recordset.

## Model

| member | source | states |
|---|---|---|
| Facts.FirstForum | classes/local/validator.php:105-113 | the position of the first forum of the given type and exact name, with no such forum before it; None exactly when no forum matches |
| Facts.DateMatchesTimestamps | classes/local/validator.php:40-41 | with both dates stored as PHP writes integers, a date check passes iff both are non-zero and equal; an unset setting never passes |
| Facts.DateMatches | classes/local/validator.php:433-434 | definition of `fechas_son_iguales`: the two values are equal as `(int)`; stated by Facts.DateMatchesTimestamps |
| Php.IntToStringRoundTrip | classes/local/validator.php:433-435 | an integer written as a string is numeric and `(int)` gives the integer back |
| Php.IntCast | classes/local/validator.php:433-434 | definition of `(int)` on a string: the leading number, or 0; what it gives is stated by Php.IntToStringRoundTrip, Php.DigitsCast and Php.DigitsThenText |
| Php.IsNumeric | classes/admin_setting_configdate.php:22 | definition of `is_numeric`: optional leading whitespace, a number, optional trailing whitespace; stated by Php.IntToStringRoundTrip, Php.DigitsCast and Php.DigitsThenText |
| Php.DigitsCast | classes/local/validator.php:433-434 | a non-empty string of decimal digits, with or without a leading '-', is numeric and `(int)` gives its value with that sign |
| Php.DigitsThenText | classes/admin_setting_configdate.php:39-41 | digits followed by a character that cannot continue a number: `(int)` gives the value of the digits, and the string is not numeric, so the setting refuses it |
| Php.StrposIsZeroIsPrefix | classes/local/validator.php:149 | `strpos(h, p) === 0` holds iff `p` is a prefix of `h` |
| Php.TrimIdempotent | classes/local/validator.php:145 | trimming a trimmed name changes nothing |
| Php.Trim | classes/local/validator.php:145 | the result has no leading or trailing whitespace and is no longer than the input; an input without such whitespace comes back unchanged |
| Php.TrimIsSlice | classes/local/validator.php:369 | `trim` removes only leading and trailing whitespace: the result is a contiguous slice of its input |
| Php.IndexOf | classes/local/validator.php:272-273 | `stripos`/`strpos` find the first position of the needle; false iff it occurs nowhere |
| Php.ContainsFolded | classes/local/validator.php:210 | definition of `stripos`/`mb_stripos` !== false: the folded needle occurs in the folded text; stated by Php.AsciiFoundLatin1Found, Validator.LowercaseTitleAscii and Validator.LowercaseTitleLatin1 |
| Php.SameLengthFound | classes/local/validator.php:149 | a needle as long as the text is found iff the two are equal |
| Php.StripTagsPlainText | classes/local/validator.php:207 | text without '<' is left as it is by `strip_tags` |
| Php.StripTags | classes/local/validator.php:207 | the stripped text is never longer than the input |
| Php.StripTagsOpeningTag | classes/local/validator.php:273 | an opening tag is removed together with its contents up to '>' |
| Php.AsciiFoundLatin1Found | classes/local/validator.php:326 | whatever `stripos` finds, `mb_stripos` finds too |
| Php.ImplodeExplode | classes/task/validate_all_courses.php:52 | `explode` splits without losing a character: joining the pieces with the separator gives the input back |
| Php.Explode | classes/task/validate_all_courses.php:52 | at least one piece, none holding the separator |
| Validator.CmsByInstanceIsLast | classes/local/validator.php:78-82 | an instance is a key of `$cms_by_instance` iff some forum course module has it, and its value is the last such module |
| Validator.IndexCmsByInstance | classes/local/validator.php:79-82 | the loop builds exactly the map CmsByInstance |
| Validator.CheckForum | classes/local/validator.php:104-125 | the scan with `break` yields the forum result of ForumOk |
| Validator.ForumOk | classes/local/validator.php:103-113 | definition of `$foro_ok`: the first forum of the role's type and exact title has a course module in section 0; stated by Validator.ForumOkMeaning |
| Validator.ForumOkMeaning | classes/local/validator.php:103-113 | a forum check passes iff the first forum of the role's type and exact title exists, section 0 exists, and the last course module of that forum lies in section 0 |
| Validator.ForumResults | classes/local/validator.php:84-126 | three results named "Tablón de anuncios", "Foro de comunicación entre estudiantes", "Foro de tutorías de la asignatura"; without section 0 all three fail |
| Validator.CheckForums | classes/local/validator.php:103-126 | the loop over the required forums yields ForumResults |
| Validator.InSection | classes/local/validator.php:136 | a module is listed iff it is a course module of that section |
| Validator.Section0Mods | classes/local/validator.php:134-137 | no modules when the course has no section 0 |
| Validator.UrlById | classes/local/validator.php:143-144 | the URL record with that id, or None when no record has it |
| Validator.FirstGuia | classes/local/validator.php:141-158 | the first section-0 module that is a URL whose trimmed name is "Guía Docente"; None iff there is none |
| Validator.FirstIsUnique | classes/local/validator.php:152 | a module that is a "Guía Docente" URL with none before it is the one the scan stops at |
| Validator.ScanGuia | classes/local/validator.php:138-159 | the loop settles on FoundIn, its URL test is the domain test of that module, and when nothing is found the unaccented flag is set iff some module is a "Guia Docente" URL |
| Validator.CheckGuia | classes/local/validator.php:128-181 | the syllabus result is built from the first match, its URL test and the warning condition |
| Validator.FoundInMeaning | classes/local/validator.php:141-152 | on any module list, the URL test passes iff the first "Guía Docente" URL links into `https://www.udima.es` after trimming; nothing is found iff no module is one |
| Validator.GuiaMeaning | classes/local/validator.php:141-181 | the syllabus check passes iff the first section-0 "Guía Docente" URL links into the domain; the accent warning appears only when no "Guía Docente" URL is in section 0 |
| Validator.MissingKeys | classes/local/validator.php:208-213 | the keys listed are exactly the keys the text does not mention (case-insensitively, folding ASCII and Latin-1 capitals), no more than there are keys |
| Validator.CollectMissing | classes/local/validator.php:208-213 | the loop over the keys yields MissingKeys |
| Validator.LabelInstances | classes/local/validator.php:196-203 | no label instances without section 0 |
| Validator.LabelsWithIds | classes/local/validator.php:204-205 | a label is selected iff its id is among the instances; none when there are no instances |
| Validator.Section0Labels | classes/local/validator.php:196-205 | no labels when the course has no section 0 |
| Validator.ScanStaysFound | classes/local/validator.php:214-217 | once a label with nothing missing is seen, the labels after it change nothing (the `break`) |
| Validator.ScanTutoria | classes/local/validator.php:206-224 | the loop over the labels yields TutoriaScan |
| Validator.ScanFoundMeaning | classes/local/validator.php:206-224 | the scan ends found iff some label misses nothing, and then nothing is reported missing |
| Validator.ScanFaltanMeaning | classes/local/validator.php:218-223 | unless found, the list reported is no longer than any label's, and it is the initial list or that of the first label with the fewest missing |
| Validator.TutoriaMeaning | classes/local/validator.php:186-234 | the tutoring check passes iff some section-0 label mentions all five keys; otherwise `Faltan` is non-empty and is all five keys, or the keys missing from the first label that misses strictly the fewest |
| Validator.TutoriaResult | classes/local/validator.php:228-243 | the result carries the tutoring name and passes iff the scan found a label |
| Validator.MentionsAllEach | classes/local/validator.php:276-281 | the text mentions all the keys iff it mentions each one |
| Validator.MentionsAllNeedsEach | classes/local/validator.php:276-281 | one key not mentioned is enough to make the text not the tutoring label |
| Validator.MentionsAllKeysMeansNoneMissing | classes/local/validator.php:274-281 | the timetable checks' tutoring test holds iff the tutoring check finds no key missing |
| Validator.CheckAllKeys | classes/local/validator.php:275-281 | the inner loop with `break` decides MentionsAllKeys |
| Validator.TestCronograma | classes/local/validator.php:270-282 | one pass decides IsCronogramaLabel: a table in the raw body, the title in the stripped text, not the tutoring label |
| Validator.CheckCronograma | classes/local/validator.php:269-286 | the loop passes iff some section-0 label is a timetable of that title |
| Validator.CronogramaIsNotTutoria | classes/local/validator.php:274-282 | a label accepted as a timetable is never one the tutoring check accepts |
| Validator.LowercaseTitleAscii | classes/local/validator.php:326 | with ASCII folding, "Cronograma de sesiones síncronas" does not contain the upper-case title |
| Validator.LowercaseTitleLatin1 | classes/local/validator.php:326 | with the Latin-1 folding of `mb_stripos`, it does |
| Validator.LowercaseTitleNotTutoria | classes/local/validator.php:328-334 | that label is not the tutoring label, so the tutoring exclusion does not reject it |
| Validator.SesionesAsWrittenMissesLowercase | classes/local/validator.php:326 | a label with a table and the title written "Cronograma de sesiones síncronas" is rejected by the check as written and accepted by the corrected one |
| Validator.SesionesLabelAsWritten | classes/local/validator.php:323-341 | definition of the sessions test as written: the title searched with ASCII folding; stated by Validator.SesionesAsWrittenMissesLowercase and Validator.SesionesLabelExtendsAsWritten |
| Validator.SesionesFold | classes/local/validator.php:326 | the plugin as written searches the sessions title with ASCII folding, and only it does |
| Validator.SesionesLabelExtendsAsWritten | classes/local/validator.php:323-341 | every label the check as written accepts, the corrected check accepts too |
| Validator.RequeridasDistinct | classes/local/validator.php:356-362 | the five required category names are distinct |
| Validator.RemoveFirst | classes/local/validator.php:370-373 | `array_search` plus `unset`: one element fewer when the name is listed, unchanged otherwise, and every other name keeps its membership |
| Validator.RemoveFirstDistinct | classes/local/validator.php:370-373 | in a list without repetitions, the removal removes the name completely |
| Validator.CategoryItem | classes/local/validator.php:377-381 | the grade item found is of type 'category' for that category; None iff there is none |
| Validator.ScanCategorias | classes/local/validator.php:368-392 | the loop yields the missing names Faltan and the weight Peso |
| Validator.FaltanMeaning | classes/local/validator.php:363-373 | the names left are exactly the required names that no category's trimmed full name equals, each once |
| Validator.WeightOfLastNone | classes/local/validator.php:364 | with no category named "Actividades no evaluables" there is no weight |
| Validator.WeightOfLastIsLast | classes/local/validator.php:375-391 | the weight is that of the last category of that name: `aggregationcoef2` under override, else `aggregationcoef`, none without a grade item |
| Validator.CategoriasMeaning | classes/local/validator.php:411 | the category check passes iff every required name is some category's trimmed full name and the weight, if any, is zero |
| Validator.CategoriasOk | classes/local/validator.php:411 | definition of the category state; stated by Validator.CategoriasMeaning and Validator.WeightBoundary |
| Validator.CategoriasMensajeAsWrittenContradicts | classes/local/validator.php:412-414 | the message as written reports failure for a course whose check passes |
| Validator.CategoriasMensajeAsWritten | classes/local/validator.php:412-414 | the message as written is always the failure message, whatever the categories and the weight |
| Validator.CategoriasMensaje | classes/local/validator.php:412-414 | the corrected message reports success iff the check passes |
| Validator.CategoriasResult | classes/local/validator.php:395-416 | the entry is named "Categorías del calificador" and passes iff CategoriasOk; as written its message is always the failure message; corrected, it is the success message iff the entry passes |
| Validator.WeightBoundary | classes/local/validator.php:402-411 | with five decimal places, a passing weight is exactly zero, the error line appears only beyond one unit of the last place, and a weight of one unit fails without it |
| Validator.Fechas | classes/local/validator.php:39-65 | the two date results, named "Fecha de inicio" and "Fecha de fin" |
| Validator.ActividadesResult | classes/local/validator.php:289-298 | the result carries its name and the given pass/fail |
| Validator.SesionesResult | classes/local/validator.php:344-353 | the result carries its name and the given pass/fail |
| Validator.LabelResults | classes/local/validator.php:183-353 | tutoring, activities timetable and sessions timetable, in that order: the tutoring entry passes iff the scan finds a label, the activities entry iff some label is that timetable under ASCII folding, and the sessions entry iff some label is that timetable under the reading's folding (ASCII as written) |
| Validator.CheckLabels | classes/local/validator.php:183-353 | the three label checks over the shared labels yield LabelResults of the plugin as written, both timetable titles searched with `stripos` |
| Validator.Validaciones | classes/local/validator.php:72-184 | under either reading, the validation aborts iff the forum or the label module type is missing (`MUST_EXIST`) |
| Validator.GetValidaciones | classes/local/validator.php:34-418 | the step-by-step appends, with their early aborts, yield Validaciones of the plugin as written |
| Validator.AssembleAt | classes/local/validator.php:103-353 | positions 2 to 8 of the list are the three forum results, the syllabus result and the three label results |
| Validator.ExpectedNamesDistinct | classes/local/validator.php:43-416 | the ten names are distinct |
| Validator.AssembleNames | classes/local/validator.php:37-418 | appending the pieces in source order gives the ten names in order |
| Validator.ValidacionesNames | classes/local/validator.php:43-418 | every completed validation has exactly the ten names, in order and distinct |
| Validator.NoSection0Fails | classes/local/validator.php:67-353 | under either reading, without section 0 the three forum checks, the syllabus, the tutoring and both timetable checks fail |
| Validator.NoLabelsFail | classes/local/validator.php:196-226 | under either reading, with no labels none of the three label checks passes |
| Validator.SesionesCorrectionExtends | classes/local/validator.php:323-341 | a label list that has a sessions timetable as written has one under the folding of `mb_stripos` |
| Validator.LabelReadings | classes/local/validator.php:183-353 | the two readings give the same tutoring and activities entries, and a sessions entry of the same name that the correction can only turn from failed to passed |
| Validator.AssembleReadings | classes/local/validator.php:37-418 | lists assembled from pieces that differ only in the last label entry and the category entry agree at positions 0 to 7 |
| Validator.ReadingsAgree | classes/local/validator.php:34-418 | the plugin and its corrected reading raise on the same courses; otherwise the ten entries agree except that the sessions state can only go from failed to passed, and the category entry keeps its name, state and details while its message goes from always failure to agreeing with the state |
| Logger.Truncate | classes/local/logger.php:53 | `mb_substr($name, 0, 255)`: a prefix of at most 255 characters, the name itself when it fits |
| Logger.Lookup | classes/local/logger.php:67 | `isset($byname[$name])` fails iff no entry has that name |
| Logger.Put | classes/local/logger.php:36 | after the assignment the name maps to the new value and every other name keeps its value |
| Logger.PutKeys | classes/local/logger.php:36 | an assignment keeps a present key in place and appends a new one last |
| Logger.BuildByName | classes/local/logger.php:34-37 | the first loop builds exactly ByName |
| Logger.ByNameHolds | classes/local/logger.php:34-37 | a name is absent from the map iff it is empty or no result carries it |
| Logger.ByNameLast | classes/local/logger.php:36 | a non-empty name maps to the `estado` of the last result that carries it |
| Logger.ByNameKeys | classes/local/logger.php:34-37 | the keys are distinct, non-empty and each the name of some result |
| Logger.LookupEntry | classes/local/logger.php:40-41 | with distinct keys, each entry the second loop visits is the map's value for its name |
| Logger.FirstOpen | classes/local/logger.php:42-46 | the first row that is an open issue of this course and name; None iff there is none |
| Logger.RecordRefreshes | classes/local/logger.php:47-49 | a failing name with an open issue: only that row's `lastseen` becomes `now`, no row is added, all other rows are unchanged |
| Logger.RecordInserts | classes/local/logger.php:50-60 | a failing name without an open issue: exactly one row is appended, with the next id, this course, the truncated name, state 0, `firstseen = lastseen = now` and no `resolvedat` |
| Logger.Record | classes/local/logger.php:42-60 | one failing name allocates at most one id, and exactly as many ids as rows it adds |
| Logger.ClosePhase | classes/local/logger.php:64-72 | each open issue of this course whose name maps to true gets state 1 and `resolvedat = now`, with its other fields unchanged; every other row is unchanged |
| Logger.IssueStore.SaveCourseResultsHistory | classes/local/logger.php:29-73 | the new table is SaveHistory of the old one; the store stays valid |
| Logger.SaveHistory | classes/local/logger.php:29-73 | a run allocates exactly as many ids as rows it adds |
| Logger.IssueStore.OpenIssues | classes/local/logger.php:40-61 | the open-or-refresh loop yields OpenPhase |
| Logger.IssueStore.CloseIssues | classes/local/logger.php:64-72 | the close loop yields ClosePhase and allocates no id |
| Logger.GrowsTrans | classes/local/logger.php:40-61 | two open-or-refresh steps together only refresh open rows of this course and append new open rows |
| Logger.OpenPhaseGrows | classes/local/logger.php:40-61 | the open phase only refreshes `lastseen` of open rows of this course and appends fresh open rows of this course |
| Logger.OpenPhase | classes/local/logger.php:40-61 | the open phase allocates exactly as many ids as rows it adds |
| Logger.OpenPhaseWellFormed | classes/local/logger.php:40-61 | ids stay increasing and below the next id, and stored names stay within 255 characters |
| Logger.SaveHistoryWellFormed | classes/local/logger.php:29-73 | a run keeps the table well formed |
| Logger.SaveHistoryFrame | classes/local/logger.php:42-72 | no row is deleted; rows of other courses and resolved rows are unchanged; id, course, name and `firstseen` of every row are kept; new rows belong to this course |
| Logger.RecordKeepsOne | classes/local/logger.php:42-60 | recording a failing name that fits in 255 characters keeps at most one open issue per course and name, and leaves one open for it |
| Logger.RecordOpens | classes/local/logger.php:42-60 | on any table, recording a failing name that fits in 255 characters leaves an open issue for it |
| Logger.GrowsKeepsOpen | classes/local/logger.php:40-61 | an open issue stays open through the open phase |
| Logger.OpenPhaseKeepsOne | classes/local/logger.php:40-61 | at most one open issue per course and name is kept, and every failing name has an open issue afterwards |
| Logger.OpenPhaseOpensFailing | classes/local/logger.php:40-61 | on any table, every failing name that fits in 255 characters has an open issue after the open phase |
| Logger.ClosePhaseEffect | classes/local/logger.php:64-72 | the close phase keeps at most one open issue per name, leaves failing names open, and leaves no passing name open |
| Logger.ClosePhaseLeaves | classes/local/logger.php:64-72 | on any table, the close phase leaves failing names open and closes every open issue of a passing name |
| Logger.SaveHistoryOpenIssues | classes/local/logger.php:40-72 | from at most one open issue per course and name, a run keeps that, leaves exactly one open issue for each failing name and none for a passing name |
| Logger.SaveHistoryFailingOpen | classes/local/logger.php:40-72 | on any table, after a run every failing name of the course has an open issue and no passing name has one |
| Logger.ByNameFailingFit | classes/local/logger.php:34-37 | when failing results have names within 255 characters, so do the failing entries of the map |
| Logger.LastIndex | classes/local/logger.php:36 | a name carried by some result has a last result carrying it |
| Logger.OpenPhaseRefreshOnly | classes/local/logger.php:42-49 | when every failing name already has an open issue, the open phase adds no row and only advances `lastseen` |
| Logger.SaveHistoryTwice | classes/local/logger.php:42-72 | from any table, even one holding several open issues for a name, a second run with the same results adds no row and allocates no id, and only advances `lastseen` |
| Logger.LongNameDuplicates | classes/local/logger.php:42-53 | a failing name longer than 255 characters is stored truncated but looked up in full, so after two runs the course has more than one open issue for the same stored name |
| Logger.OpenPhaseInserts | classes/local/logger.php:50-60 | such a name always gets a freshly inserted open row carrying its truncation |
| Task.IntCasts | classes/task/validate_all_courses.php:52 | `array_map('intval', …)`: one integer per piece, each `(int)` of its piece |
| Task.NonZero | classes/task/validate_all_courses.php:52 | `array_filter`: exactly the non-zero entries are kept |
| Task.ParseAllowedMeaning | classes/task/validate_all_courses.php:49-53 | an absent or blank setting gives an empty list; otherwise an id is listed iff it is the non-zero `intval` of some comma-separated piece; 0 is never listed |
| Task.ParseAllowed | classes/task/validate_all_courses.php:49-53 | 0 is never an allowed category, and an absent setting allows every category |
| Task.Selected | classes/task/validate_all_courses.php:61-70 | a course is selected iff it is in the recordset and passes both filters |
| Task.SelectedCourses | classes/task/validate_all_courses.php:63-70 | the site course is never selected; with an empty list every other course is; otherwise exactly those whose category is listed |
| Task.SelectedAscending | classes/task/validate_all_courses.php:56 | courses in ascending id order are validated in ascending id order |
| Task.Batch | classes/task/validate_all_courses.php:61-73 | one visit per selected course, in recordset order, each with that course's id and the plugin's validation as written |
| Task.RunCounts | classes/task/validate_all_courses.php:58-80 | `processed + errors` is the number of courses handled, and `errors` the number whose validation failed |
| Task.Run | classes/task/validate_all_courses.php:58-80 | over a whole batch, ids are allocated only for rows inserted |
| Task.RunWellFormed | classes/task/validate_all_courses.php:72-75 | the issues table stays well formed over the whole batch |
| Task.RunLeavesOthers | classes/task/validate_all_courses.php:61-80 | the issues of a course the batch does not hold are untouched and none is added for it |
| Task.SiteIssuesUntouched | classes/task/validate_all_courses.php:63-65 | the site course's issues are never touched |
| Task.Execute | classes/task/validate_all_courses.php:43-85 | the final table and counters are Run over the selected courses, each logged at its own time: each later course is still handled after one fails |
| Task.VisitCourse | classes/task/validate_all_courses.php:61-80 | a skipped course changes nothing; any other course takes one step |
| Task.HandleCourse | classes/task/validate_all_courses.php:72-79 | the try block takes one step with the validation as written: an aborted validation counts one error and writes nothing; a completed one is recorded and counts one processed |
| Task.LogOutcome | classes/task/validate_all_courses.php:72-79 | a raised validation counts one error and leaves the table; completed results are logged with SaveHistory at the visit's time and count one processed |
| Task.BatchStep | classes/task/validate_all_courses.php:61-73 | the batch grows by one entry exactly at an eligible course |
| Task.RunBatchStep | classes/task/validate_all_courses.php:61-80 | the outcome takes one step exactly at an eligible course |
| Task.RunStep | classes/task/validate_all_courses.php:61-80 | the outcome of a longer batch is one more step |
| Block.FirstCm | block_validacursos.php:74-78 | the first course module of that module type and instance; None iff there is none |
| Block.CheckBlockForum | block_validacursos.php:66-93 | one forum block yields ForumCheck: the course module is looked at only when the forum and section 0 exist |
| Block.ObtenerValidaciones | block_validacursos.php:42-126 | the appends yield BlockValidaciones |
| Block.BlockValidaciones | block_validacursos.php:42-126 | three results: the start date passes iff the two dates are equal as integers, each forum iff it is in the first section |
| Block.BlockValidacionesShape | block_validacursos.php:49-121 | three results, always named "Fecha de inicio", "Foro de anuncios", "Foro de comunicación entre estudiantes" |
| Block.BlockDateAgrees | block_validacursos.php:45-57 | the block's start-date entry has the validator's name, state and message, so it passes iff both values are set and equal as integers; its details show the same dates, with the 'strftimedatetime' format where the validator uses the default one |
| Block.InFirstSectionMeaning | block_validacursos.php:66-81 | a forum check passes iff a forum of that type and exact title exists, section 0 and the forum module type exist, and the first course module of the first such forum lies in section 0 |
| Block.FirstCmUnique | block_validacursos.php:74-78 | a matching module with none before it is the one `get_record` returns |
| Block.ForumDetails | block_validacursos.php:82-93 | the 'Estado' detail is "No encontrado" iff no forum exists, "Encontrado en la primera sección" iff the check passes, and "No está en la primera sección" when the forum exists and the check fails; a passing check has its forum |
| Block.ValidacursosBlock.GetContent | block_validacursos.php:133-162 | once content is set it is returned unchanged; otherwise it is built from BlockValidaciones and kept |
| Block.GetContentTwice | block_validacursos.php:136-138 | two calls return the same content whatever course or settings the second sees |
| ConfigDate.SettingValue | classes/admin_setting_configdate.php:20-23 | `(int)` of a numeric stored value, otherwise 0 |
| ConfigDate.DateSetting.GetSetting | classes/admin_setting_configdate.php:20-23 | `(int)` of a numeric stored value, otherwise 0 |
| ConfigDate.DateSetting.WriteSetting | classes/admin_setting_configdate.php:25-48 | refused input returns the error and writes nothing; accepted input is written, returning '' iff the write succeeds |
| ConfigDate.Timestamp | classes/admin_setting_configdate.php:27-45 | input that is neither date parts nor a scalar is refused; a scalar is accepted iff numeric; date parts are accepted only with year, month and day present |
| ConfigDate.IncompleteDateRefused | classes/admin_setting_configdate.php:27-38 | a missing or zero year, month or day is refused |
| ConfigDate.CompleteDateAccepted | classes/admin_setting_configdate.php:29-35 | a complete date is accepted, with absent hours and minutes taken as 0 |
| ConfigDate.ScalarInput | classes/admin_setting_configdate.php:39-45 | a string is accepted iff numeric and then gives `(int)$data`; any other input is refused |
| ConfigDate.WriteThenRead | classes/admin_setting_configdate.php:20-47 | what a successful write stores reads back as the same timestamp |
| ConfigDate.WriteNumericThenGet | classes/admin_setting_configdate.php:20-47 | writing a numeric string and reading it back returns '' and its `(int)` |

## Left out

- Database access: every query becomes a sequence of records in `Facts.CourseFacts` or the
  issue table of `Logger.IssueStore`. Exceptions raised by the database layer while writing
  issues are not modelled; only the validator's `MUST_EXIST` abort is.
- The database collation: issue names are compared exactly in the `get_record` lookup.
- `time()` becomes a parameter: `now` for one run of the logger, and in `Task.Batch` and
  `Task.Execute` a clock that gives each course of the recordset its own time. `SITEID`, the
  visible-course recordset and `get_config` become parameters.
- HTML and display text: `userdate`, `get_string`, `moodle_url`, `s()`, the joined lists, the
  timetable hint and the accent warning are abstract `Facts.Value`s. A `userdate` value keeps
  its timestamp and which format it was given (the default, or 'strftimedatetime'), not the
  text it renders. The HTML of
  `get_content` (lines 143-155, `uniqid`, inline script) and `output_html` of the date
  setting are not modelled; `Block.Content` holds the results the HTML is rendered from.
- `mtrace` output, and the exception text of a failed validation.
- Floating point: a weight is the decimal column's value in units of 0.00001, and the two
  float comparisons at classes/local/validator.php:402 and :411 become integer comparisons.
- `make_timestamp` is a parameter; the time zone is not modelled.
- `config_write` is the flag `writeOk`. A failed write is taken to leave the stored value as
  it was.
- PHP integer overflow in `(int)` and `intval`: the model's integers are unbounded.
- Php.IntCast: a number with a fraction or an exponent is truncated exactly, whereas PHP
  converts it through a double first, so `(int)"1.9999999999999999999"` is 2 in PHP and 1
  in the model. The plugin's own values (timestamps, ids) are integer strings, where the two
  agree.
- Php.StripTags: only the tag scanning is modelled. There is no state for quotes inside a
  tag, nested `<` depth, `<!--` comments or `<?` blocks, and NUL characters are kept. For
  `<a title="x>y">z` PHP gives `z` and the model gives `y">z`.
- Php.StripTagsOpeningTag: holds for the model's `StripTags`; for PHP's `strip_tags` it fails
  when the tag text holds an unbalanced quote, as in the example above.
- Php.ContainsFolded: the folding of `mb_stripos` is modelled as ASCII plus the Latin-1
  capitals U+00C0 to U+00DE except U+00D7. Full Unicode case folding ("ſ", Greek, Cyrillic,
  Latin Extended) is not modelled.
- Validator.MissingKeys: inherits that folding, so a key is found only under ASCII and
  Latin-1 case differences; the tutoring keys are ASCII and Latin-1 text.
- Block.InFirstSectionMeaning: the block finds its forum with `get_record` at
  block_validacursos.php:68-72 and :96-100, where the database collation decides whether
  the title matches (often case- and accent-insensitively); the model matches the title
  exactly.
- `has_config` and `applicable_formats` return constants; they are not modelled.
- `get_name` of the scheduled task (a language string) is not modelled.
- The code after the `return` at classes/local/validator.php:423 cannot run.
- The report pages, output tables, settings page, upgrade steps and language strings are
  not part of this model.
- Logger.SaveHistoryOpenIssues: requires failing check names of at most 255 characters, the
  width of the stored name; Logger.LongNameDuplicates shows what happens with a longer one.
- Logger.SaveHistoryTwice: requires the same bound on failing check names, for the same reason;
  it needs no bound on the open issues the table already holds.

## Findings

| source | as written | input that shows it | evidently intended | confidence | as-written member | corrected member |
|---|---|---|---|---|---|---|
| classes/local/validator.php:326 | the sessions title "CRONOGRAMA DE SESIONES SÍNCRONAS" is searched with `stripos`, which folds ASCII letters only, so "Í" never matches "í" | a section-0 label `<table>Cronograma de sesiones síncronas` | the title matched regardless of case, as `mb_stripos` does for the tutoring keys | not executed | Validator.SesionesLabelAsWritten, Validator.SesionesAsWrittenMissesLowercase | Validator.SesionesLabel, Validator.SesionesLabelExtendsAsWritten |
| classes/local/validator.php:412 | the message requires `$peso_actividades_no_evaluables === 0`, but the weight read from the database is a string or null, never the integer 0 | all five categories present and "Actividades no evaluables" with weight 0.00000 | the message says success exactly when the check passes | not executed | Validator.CategoriasMensajeAsWritten, Validator.CategoriasMensajeAsWrittenContradicts | Validator.CategoriasMensaje |

The plugin as written is `Validator.Validaciones(f, config, AsWritten)`: `GetValidaciones`,
`CheckLabels` and the scheduled task follow it, so the sessions title is searched with ASCII
folding and the category message always reports failure. `Validaciones(f, config, Corrected)`
applies both corrections: the sessions title is searched with the folding of `mb_stripos`, and
the category message agrees with the category state. `Validator.ReadingsAgree` proves that the
two raise on the same courses and differ only in the sessions state, which the correction can
only turn from failed to passed, and in the category message.
