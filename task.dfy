/**
 * The scheduled task (validate_all_courses::execute): every visible course except the site
 * course, restricted to the allowed categories when any are configured, is validated and its
 * results logged; a course whose validation raises is counted as an error and the loop goes on.
 */
module Task {
  import opened Wrappers
  import opened Php
  import opened Facts
  import opened Validator
  import opened Logger

  // ================================================================= the allowed categories

  /** intval over every piece. */
  function IntCasts(pieces: seq<string>): (r: seq<int>)
    ensures |r| == |pieces| && forall i :: 0 <= i < |pieces| ==> r[i] == IntCast(pieces[i])
  {
    seq(|pieces|, i requires 0 <= i < |pieces| => IntCast(pieces[i]))
  }

  /** array_filter without a callback: drops the zeros, keeps the order. */
  function NonZero(xs: seq<int>): (r: seq<int>)
    ensures forall x :: x in r <==> x in xs && x != 0
  {
    if xs == [] then []
    else (if xs[0] != 0 then [xs[0]] else []) + NonZero(xs[1..])
  }

  /** The allow-list built from the `allowedcategories` setting (None when it is not set). */
  function ParseAllowed(allowedcategories: Option<string>): (r: seq<int>)
    ensures 0 !in r
    ensures allowedcategories.None? ==> r == []
  {
    var csv := if allowedcategories.Some? then Trim(allowedcategories.value) else "";
    if csv == "" then [] else NonZero(IntCasts(Explode(csv, ',')))
  }

  /** An unset or blank setting gives an empty list; otherwise the list holds exactly the
      non-zero integers the comma-separated pieces of the trimmed setting convert to. In
      particular it never holds 0. */
  lemma ParseAllowedMeaning(allowedcategories: Option<string>)
    ensures allowedcategories.None? || Trim(allowedcategories.value) == "" ==> ParseAllowed(allowedcategories) == []
    ensures allowedcategories.Some? && Trim(allowedcategories.value) != "" ==>
      forall n :: n in ParseAllowed(allowedcategories) <==>
        n != 0 && exists p :: p in Explode(Trim(allowedcategories.value), ',') && IntCast(p) == n
    ensures 0 !in ParseAllowed(allowedcategories)
  {
    if allowedcategories.Some? && Trim(allowedcategories.value) != "" {
      var pieces := Explode(Trim(allowedcategories.value), ',');
      forall n | n != 0 && exists p :: p in pieces && IntCast(p) == n
        ensures n in ParseAllowed(allowedcategories)
      {
        var p :| p in pieces && IntCast(p) == n;
        var i :| 0 <= i < |pieces| && pieces[i] == p;
        assert IntCasts(pieces)[i] == n;
      }
    }
  }

  // ================================================================= the courses handled

  /** The two `continue` filters: not the site course, and in an allowed category when the
      allow-list is not empty. */
  predicate Eligible(f: CourseFacts, siteId: int, allowed: seq<int>) {
    f.course.id != siteId && (allowed == [] || f.course.category in allowed)
  }

  /** The courses that reach the validation, in the order of the recordset. */
  function Selected(courses: seq<CourseFacts>, siteId: int, allowed: seq<int>): (r: seq<CourseFacts>)
    ensures |r| <= |courses|
    ensures forall f :: f in r <==> f in courses && Eligible(f, siteId, allowed)
  {
    if courses == [] then []
    else
      var p := courses[..|courses| - 1];
      var f := courses[|courses| - 1];
      assert courses == p + [f];
      Selected(p, siteId, allowed) + (if Eligible(f, siteId, allowed) then [f] else [])
  }

  /** The site course is never selected; with an empty allow-list every other course is. */
  lemma SelectedCourses(courses: seq<CourseFacts>, siteId: int, allowed: seq<int>)
    ensures forall f :: f in Selected(courses, siteId, allowed) ==> f.course.id != siteId
    ensures allowed == [] ==>
      forall f :: f in courses && f.course.id != siteId ==> f in Selected(courses, siteId, allowed)
    ensures allowed != [] ==>
      forall f :: f in Selected(courses, siteId, allowed) ==> f.course.category in allowed
  {
  }

  predicate Ascending(courses: seq<CourseFacts>) {
    forall i, j :: 0 <= i < j < |courses| ==> courses[i].course.id < courses[j].course.id
  }

  /** Filtering keeps the recordset's ascending id order. */
  lemma {:induction false} SelectedAscending(courses: seq<CourseFacts>, siteId: int, allowed: seq<int>)
    requires Ascending(courses)
    ensures Ascending(Selected(courses, siteId, allowed))
    decreases |courses|
  {
    if courses != [] {
      var p := courses[..|courses| - 1];
      var f := courses[|courses| - 1];
      SelectedAscending(p, siteId, allowed);
      var s := Selected(p, siteId, allowed);
      forall g | g in s ensures g.course.id < f.course.id {
        var k :| 0 <= k < |p| && p[k] == g;
        assert courses[k] == g;
      }
    }
  }

  /** One course the loop validates: its id, what its validation gives (the results, or the
      exception), and what time() gives when the log records those results. */
  datatype Visit = Visit(courseid: int, result: Result<seq<CheckResult>>, now: int)

  /** The courses the loop validates, in the order of the recordset, each with its validation
      by the plugin as written. `clock(k)` is what time() gives while the k-th course of the
      recordset is logged. */
  function Batch(courses: seq<CourseFacts>, config: Config, siteId: int, allowed: seq<int>, clock: nat -> int)
    : (b: seq<Visit>)
    ensures ValidatesEach(b, Selected(courses, siteId, allowed), Plugin(config))
    decreases |courses|
  {
    if courses == [] then []
    else
      var k := |courses| - 1;
      var f := courses[k];
      var b0 := Batch(courses[..k], config, siteId, allowed, clock);
      if Eligible(f, siteId, allowed) then
        var x := Visit(f.course.id, Validaciones(f, config, AsWritten), clock(k));
        ValidatesEachAppend(b0, Selected(courses[..k], siteId, allowed), x, f, Plugin(config));
        b0 + [x]
      else
        assert Selected(courses, siteId, allowed) == Selected(courses[..k], siteId, allowed) + [];
        b0 + []
  }

  /** The validation of the plugin as written, as a function of the course. */
  function Plugin(config: Config): (validate: CourseFacts -> Result<seq<CheckResult>>)
    ensures forall f :: validate(f) == Validaciones(f, config, AsWritten)
  {
    f => Validaciones(f, config, AsWritten)
  }

  /** One visit per course, in order, each with that course's id and its validation. */
  predicate ValidatesEach(b: seq<Visit>, sel: seq<CourseFacts>, validate: CourseFacts -> Result<seq<CheckResult>>) {
    |b| == |sel| && forall i :: 0 <= i < |b| ==> b[i].courseid == sel[i].course.id && b[i].result == validate(sel[i])
  }

  lemma ValidatesEachAppend(b: seq<Visit>, sel: seq<CourseFacts>, x: Visit, f: CourseFacts,
                            validate: CourseFacts -> Result<seq<CheckResult>>)
    requires ValidatesEach(b, sel, validate)
    requires x.courseid == f.course.id && x.result == validate(f)
    ensures ValidatesEach(b + [x], sel + [f], validate)
  {
  }

  // ================================================================= the loop

  /** The table and the two counters. */
  datatype Outcome = Outcome(table: Table, processed: nat, errors: nat)

  /** The loop body for one course: a validation that raises counts an error and logs
      nothing; otherwise the results are logged at the course's own time and the course counts
      as processed. */
  function Step(o: Outcome, x: Visit): Outcome {
    match x.result
    case Err(_) => o.(errors := o.errors + 1)
    case Ok(v) => Outcome(SaveHistory(o.table, x.courseid, v, x.now), o.processed + 1, o.errors)
  }

  /** The loop over the batch, in order: ids are only allocated for rows it inserts. */
  function Run(t: Table, b: seq<Visit>): (r: Outcome)
    ensures t.nextId <= r.table.nextId && |r.table.rows| - |t.rows| == r.table.nextId - t.nextId
    decreases |b|
  {
    if b == [] then Outcome(t, 0, 0) else Step(Run(t, b[..|b| - 1]), b[|b| - 1])
  }

  /** The courses whose validation raised. */
  function Failures(b: seq<Visit>): nat {
    if b == [] then 0 else Failures(b[..|b| - 1]) + (if b[|b| - 1].result.Err? then 1 else 0)
  }

  /** Every course of the batch counts exactly once, and the errors are the failures. */
  lemma {:induction false} RunCounts(t: Table, b: seq<Visit>)
    ensures Run(t, b).processed + Run(t, b).errors == |b|
    ensures Run(t, b).errors == Failures(b)
    decreases |b|
  {
    if b != [] {
      RunCounts(t, b[..|b| - 1]);
    }
  }

  /** The table stays well formed over the whole batch. */
  lemma {:induction false} RunWellFormed(t: Table, b: seq<Visit>)
    requires WellFormed(t)
    ensures WellFormed(Run(t, b).table)
    decreases |b|
  {
    if b != [] {
      RunWellFormed(t, b[..|b| - 1]);
      var o := Run(t, b[..|b| - 1]);
      var x := b[|b| - 1];
      if x.result.Ok? {
        SaveHistoryWellFormed(o.table, x.courseid, x.result.value, x.now);
      }
    }
  }

  /** The issues of a course the batch does not hold are left as they are, and none is added. */
  lemma {:induction false} RunLeavesOthers(t: Table, b: seq<Visit>, c: int)
    requires forall i :: 0 <= i < |b| ==> b[i].courseid != c
    ensures var u := Run(t, b).table;
      |t.rows| <= |u.rows|
      && (forall i :: 0 <= i < |t.rows| && t.rows[i].courseid == c ==> u.rows[i] == t.rows[i])
      && (forall i :: |t.rows| <= i < |u.rows| ==> u.rows[i].courseid != c)
    decreases |b|
  {
    if b != [] {
      var p := b[..|b| - 1];
      assert forall i :: 0 <= i < |p| ==> p[i] == b[i];
      RunLeavesOthers(t, p, c);
      var o := Run(t, p);
      var x := b[|b| - 1];
      if x.result.Ok? {
        SaveHistoryFrame(o.table, x.courseid, x.result.value, x.now);
      }
    }
  }

  /** The site course's issues are never touched by the scheduled task. */
  lemma SiteIssuesUntouched(t: Table, courses: seq<CourseFacts>, config: Config, siteId: int,
                            allowed: seq<int>, clock: nat -> int)
    ensures var u := Run(t, Batch(courses, config, siteId, allowed, clock)).table;
      |t.rows| <= |u.rows|
      && (forall i :: 0 <= i < |t.rows| && t.rows[i].courseid == siteId ==> u.rows[i] == t.rows[i])
      && (forall i :: |t.rows| <= i < |u.rows| ==> u.rows[i].courseid != siteId)
  {
    var b := Batch(courses, config, siteId, allowed, clock);
    var sel := Selected(courses, siteId, allowed);
    forall i | 0 <= i < |b| ensures b[i].courseid != siteId {
      assert sel[i] in sel;
    }
    RunLeavesOthers(t, b, siteId);
  }

  /** execute(): the courses are the visible ones in ascending id order, the site course id and
      the setting are parameters, and `clock(k)` is what time() gives while the k-th course is
      logged. */
  method Execute(store: IssueStore, config: Config, allowedcategories: Option<string>,
                 courses: seq<CourseFacts>, siteId: int, clock: nat -> int)
    returns (processed: nat, errors: nat)
    requires store.Valid()
    modifies store
    ensures store.Valid()
    ensures Outcome(Table(store.rows, store.nextId), processed, errors)
      == Run(old(Table(store.rows, store.nextId)), Batch(courses, config, siteId, ParseAllowed(allowedcategories), clock))
  {
    var allowed := ParseAllowed(allowedcategories);
    ghost var t0 := Table(store.rows, store.nextId);
    processed, errors := 0, 0;
    var k := 0;
    while k < |courses|
      invariant 0 <= k <= |courses| && store.Valid()
      invariant Outcome(Table(store.rows, store.nextId), processed, errors)
        == Run(t0, Batch(courses[..k], config, siteId, allowed, clock))
    {
      processed, errors := VisitCourse(store, courses[k], config, siteId, allowed, clock(k), processed, errors);
      RunBatchStep(t0, courses, config, siteId, allowed, k, clock);
      k := k + 1;
    }
    assert courses[..|courses|] == courses;
  }

  /** One pass of the loop over the recordset: skip the site course and, when the list is not
      empty, a course outside the allowed categories; otherwise handle the course. */
  method VisitCourse(store: IssueStore, f: CourseFacts, config: Config, siteId: int, allowed: seq<int>,
                     now: int, processed: nat, errors: nat)
    returns (processed': nat, errors': nat)
    requires store.Valid()
    modifies store
    ensures store.Valid()
    ensures Outcome(Table(store.rows, store.nextId), processed', errors')
      == var o := Outcome(old(Table(store.rows, store.nextId)), processed, errors);
         if Eligible(f, siteId, allowed) then Step(o, Visit(f.course.id, Validaciones(f, config, AsWritten), now)) else o
  {
    if f.course.id == siteId {
      return processed, errors;
    }
    if allowed != [] && f.course.category !in allowed {
      return processed, errors;
    }
    processed', errors' := HandleCourse(store, f, config, now, processed, errors);
  }

  /** The try block for one course, with its catch; `now` is what time() gives in the log. */
  method HandleCourse(store: IssueStore, f: CourseFacts, config: Config, now: int, processed: nat, errors: nat)
    returns (processed': nat, errors': nat)
    requires store.Valid()
    modifies store
    ensures store.Valid()
    ensures Outcome(Table(store.rows, store.nextId), processed', errors')
      == Step(Outcome(old(Table(store.rows, store.nextId)), processed, errors),
              Visit(f.course.id, Validaciones(f, config, AsWritten), now))
  {
    var r := GetValidaciones(f, config);
    processed', errors' := LogOutcome(store, Visit(f.course.id, r, now), processed, errors);
  }

  /** What follows the validation call: the catch counts an error, otherwise the results are
      logged and the course counts as processed. */
  method LogOutcome(store: IssueStore, x: Visit, processed: nat, errors: nat)
    returns (processed': nat, errors': nat)
    requires store.Valid()
    modifies store
    ensures store.Valid()
    ensures Outcome(Table(store.rows, store.nextId), processed', errors')
      == Step(Outcome(old(Table(store.rows, store.nextId)), processed, errors), x)
  {
    match x.result {
      case Err(_) =>
        processed', errors' := processed, errors + 1;
      case Ok(v) =>
        store.SaveCourseResultsHistory(x.courseid, v, x.now);
        processed', errors' := processed + 1, errors;
    }
  }

  /** The batch grows one course at a time along the recordset. */
  lemma BatchStep(courses: seq<CourseFacts>, config: Config, siteId: int, allowed: seq<int>, k: nat, clock: nat -> int)
    requires k < |courses|
    ensures Batch(courses[..k + 1], config, siteId, allowed, clock)
      == Batch(courses[..k], config, siteId, allowed, clock)
         + (if Eligible(courses[k], siteId, allowed)
            then [Visit(courses[k].course.id, Validaciones(courses[k], config, AsWritten), clock(k))] else [])
  {
    assert courses[..k + 1][..k] == courses[..k];
  }

  /** One more course of the recordset: the batch outcome takes one more step exactly when the
      course is eligible. */
  lemma RunBatchStep(t: Table, courses: seq<CourseFacts>, config: Config, siteId: int, allowed: seq<int>, k: nat,
                     clock: nat -> int)
    requires k < |courses|
    ensures Run(t, Batch(courses[..k + 1], config, siteId, allowed, clock))
      == if Eligible(courses[k], siteId, allowed)
         then Step(Run(t, Batch(courses[..k], config, siteId, allowed, clock)),
                   Visit(courses[k].course.id, Validaciones(courses[k], config, AsWritten), clock(k)))
         else Run(t, Batch(courses[..k], config, siteId, allowed, clock))
  {
    var b := Batch(courses[..k], config, siteId, allowed, clock);
    BatchStep(courses, config, siteId, allowed, k, clock);
    if Eligible(courses[k], siteId, allowed) {
      RunStep(t, b, Visit(courses[k].course.id, Validaciones(courses[k], config, AsWritten), clock(k)));
    } else {
      assert b + [] == b;
    }
  }

  lemma RunStep(t: Table, b: seq<Visit>, x: Visit)
    ensures Run(t, b + [x]) == Step(Run(t, b), x)
  {
    assert (b + [x])[..|b|] == b;
  }
}
