/**
 * The issue history (logger::save_course_results_history): one run folds a course's check
 * results into a name -> passed map, refreshes or opens an issue for every failing name, then
 * closes every open issue of the course whose name now passes.
 *
 * The table block_validacursos_issues is a sequence of rows in id order; an insert appends a
 * row whose id is the next value of the auto-increment counter.
 */
module Logger {
  import opened Wrappers
  import opened Php
  import opened Facts

  /** Width of the `validation` column, char(255). */
  const ValidationWidth := 255

  /** One issue row: `state` is 0 while open and 1 once resolved; `resolvedat` is null while open. */
  datatype Issue = Issue(
    id: nat, courseid: int, validation: string, state: int,
    firstseen: int, lastseen: int, resolvedat: Option<int>)

  /** The table and its auto-increment counter. */
  datatype Table = Table(rows: seq<Issue>, nextId: nat)

  /** mb_substr($name, 0, 255). */
  function Truncate(name: string): (r: string)
    ensures |r| <= ValidationWidth && |r| <= |name| && r == name[..|r|]
    ensures |name| <= ValidationWidth ==> r == name
  {
    if |name| <= ValidationWidth then name else name[..ValidationWidth]
  }

  // ================================================================= the name map

  /** $byname: an ordered PHP array from result name to passed, in first-insertion order. */
  type NameMap = seq<(string, bool)>

  function Keys(m: NameMap): (ks: seq<string>)
    ensures |ks| == |m| && forall i :: 0 <= i < |m| ==> ks[i] == m[i].0
  {
    seq(|m|, i requires 0 <= i < |m| => m[i].0)
  }

  /** isset($byname[$name]) ? $byname[$name] : not set. */
  function Lookup(m: NameMap, name: string): (r: Option<bool>)
    ensures r.None? <==> forall i :: 0 <= i < |m| ==> m[i].0 != name
  {
    if m == [] then None
    else if m[0].0 == name then Some(m[0].1)
    else Lookup(m[1..], name)
  }

  /** $byname[$name] = $ok: overwrites in place when the key is present, appends otherwise. */
  function Put(m: NameMap, name: string, ok: bool): (r: NameMap)
    ensures Lookup(r, name) == Some(ok)
    ensures forall n :: n != name ==> Lookup(r, n) == Lookup(m, n)
  {
    if m == [] then [(name, ok)]
    else if m[0].0 == name then [(name, ok)] + m[1..]
    else [m[0]] + Put(m[1..], name, ok)
  }

  /** A put keeps the key order: a present key stays where it is, a new one goes last. */
  lemma {:induction false} PutKeys(m: NameMap, name: string, ok: bool)
    ensures Keys(Put(m, name, ok)) == if name in Keys(m) then Keys(m) else Keys(m) + [name]
    decreases |m|
  {
    if m != [] {
      var t := m[1..];
      assert Keys(m) == [m[0].0] + Keys(t) by {
        assert [m[0]] + t == m;
        KeysCons(m[0], t);
      }
      if m[0].0 != name {
        PutKeys(t, name, ok);
        assert Keys(Put(m, name, ok)) == [m[0].0] + Keys(Put(t, name, ok)) by {
          KeysCons(m[0], Put(t, name, ok));
        }
        assert (name in Keys(m)) == (name in Keys(t));
      } else {
        KeysCons((name, ok), t);
      }
    }
  }

  lemma KeysCons(x: (string, bool), m: NameMap)
    ensures Keys([x] + m) == [x.0] + Keys(m)
  {
  }

  /** The map the first loop builds: results with an empty name are skipped, and a later result
      of the same name overwrites an earlier one. */
  function ByName(rs: seq<CheckResult>): NameMap {
    if rs == [] then []
    else
      var m := ByName(rs[..|rs| - 1]);
      var v := rs[|rs| - 1];
      if IsEmptyString(v.nombre) then m else Put(m, v.nombre, v.estado)
  }

  /** The loop that builds $byname. */
  method BuildByName(rs: seq<CheckResult>) returns (m: NameMap)
    ensures m == ByName(rs)
  {
    m := [];
    var k := 0;
    while k < |rs|
      invariant 0 <= k <= |rs|
      invariant m == ByName(rs[..k])
    {
      assert rs[..k + 1][..k] == rs[..k];
      if !IsEmptyString(rs[k].nombre) {
        m := Put(m, rs[k].nombre, rs[k].estado);
      }
      k := k + 1;
    }
    assert rs[..|rs|] == rs;
  }

  /** The result that decides a name is the last one carrying it. */
  predicate LastWith(rs: seq<CheckResult>, name: string, i: int) {
    0 <= i < |rs| && rs[i].nombre == name && forall j :: i < j < |rs| ==> rs[j].nombre != name
  }

  /** The map holds a name exactly when it is non-empty and some result carries it. */
  lemma {:induction false} ByNameHolds(rs: seq<CheckResult>, name: string)
    ensures Lookup(ByName(rs), name).None? <==>
      IsEmptyString(name) || forall i :: 0 <= i < |rs| ==> rs[i].nombre != name
    decreases |rs|
  {
    if rs != [] {
      var p := rs[..|rs| - 1];
      var v := rs[|rs| - 1];
      ByNameHolds(p, name);
      var none := forall i :: 0 <= i < |rs| ==> rs[i].nombre != name;
      assert none <==> (forall i :: 0 <= i < |p| ==> p[i].nombre != name) && v.nombre != name by {
        assert forall i :: 0 <= i < |p| ==> p[i] == rs[i];
      }
      if IsEmptyString(v.nombre) {
        assert ByName(rs) == ByName(p);
        assert IsEmptyString(name) || v.nombre != name;
      } else if v.nombre == name {
        assert Lookup(ByName(rs), name) == Some(v.estado);
      } else {
        assert Lookup(ByName(rs), name) == Lookup(ByName(p), name);
      }
    }
  }

  /** It then holds the `estado` of the last result carrying the name. */
  lemma {:induction false} ByNameLast(rs: seq<CheckResult>, name: string, i: int)
    requires LastWith(rs, name, i) && !IsEmptyString(name)
    ensures Lookup(ByName(rs), name) == Some(rs[i].estado)
    decreases |rs|
  {
    var p := rs[..|rs| - 1];
    if i < |p| {
      assert LastWith(p, name, i);
      ByNameLast(p, name, i);
    }
  }

  /** No name appears twice in the map, and every name in it is a non-empty result name. */
  lemma {:induction false} ByNameKeys(rs: seq<CheckResult>)
    ensures Distinct(Keys(ByName(rs)))
    ensures forall k :: k in Keys(ByName(rs)) ==>
      !IsEmptyString(k) && exists j :: 0 <= j < |rs| && rs[j].nombre == k
    decreases |rs|
  {
    if rs != [] {
      var p := rs[..|rs| - 1];
      var v := rs[|rs| - 1];
      ByNameKeys(p);
      assert forall j :: 0 <= j < |p| ==> p[j] == rs[j];
      if !IsEmptyString(v.nombre) {
        PutKeys(ByName(p), v.nombre, v.estado);
      }
    }
  }

  /** In a map without repeated keys, each entry is what a lookup of its key finds. */
  lemma {:induction false} LookupEntry(m: NameMap, i: nat)
    requires Distinct(Keys(m)) && i < |m|
    ensures Lookup(m, m[i].0) == Some(m[i].1)
    decreases |m|
  {
    if i > 0 {
      assert Keys(m)[0] != Keys(m)[i];
      assert Keys(m[1..]) == Keys(m)[1..];
      LookupEntry(m[1..], i - 1);
    }
  }

  // ================================================================= opening and refreshing

  /** An open issue of that course and that validation name: the three-field get_record. */
  predicate IsOpen(x: Issue, courseid: int, name: string) {
    x.courseid == courseid && x.validation == name && x.resolvedat.None?
  }

  predicate HasOpen(rows: seq<Issue>, courseid: int, name: string) {
    exists i :: 0 <= i < |rows| && IsOpen(rows[i], courseid, name)
  }

  /** The row get_record returns: the first matching open issue. */
  function FirstOpen(rows: seq<Issue>, courseid: int, name: string): (r: Option<nat>)
    ensures r.Some? ==> r.value < |rows| && IsOpen(rows[r.value], courseid, name)
    ensures r.Some? ==> forall j :: 0 <= j < r.value ==> !IsOpen(rows[j], courseid, name)
    ensures r.None? <==> !HasOpen(rows, courseid, name)
  {
    if rows == [] then None
    else if IsOpen(rows[0], courseid, name) then Some(0)
    else
      match FirstOpen(rows[1..], courseid, name)
      case None =>
        assert forall j :: 1 <= j < |rows| ==> rows[j] == rows[1..][j - 1];
        None
      case Some(k) => Some(k + 1)
  }

  /** The record inserted for a failing name with no open issue. */
  function NewIssue(id: nat, courseid: int, name: string, now: int): Issue {
    Issue(id, courseid, Truncate(name), 0, now, now, None)
  }

  /** One failing name: refresh its open issue, or insert one. */
  function Record(t: Table, courseid: int, name: string, now: int): (r: Table)
    ensures t.nextId <= r.nextId <= t.nextId + 1 && |r.rows| - |t.rows| == r.nextId - t.nextId
  {
    match FirstOpen(t.rows, courseid, name)
    case Some(i) => Table(t.rows[i := t.rows[i].(lastseen := now)], t.nextId)
    case None => Table(t.rows + [NewIssue(t.nextId, courseid, name, now)], t.nextId + 1)
  }

  /** With an open issue for the name, only that issue's `lastseen` changes, to `now`; nothing
      is inserted. */
  lemma RecordRefreshes(t: Table, courseid: int, name: string, now: int)
    requires HasOpen(t.rows, courseid, name)
    ensures var r := Record(t, courseid, name, now);
      var i := FirstOpen(t.rows, courseid, name).value;
      |r.rows| == |t.rows| && r.nextId == t.nextId
      && r.rows[i].lastseen == now
      && r.rows[i].id == t.rows[i].id && r.rows[i].courseid == t.rows[i].courseid
      && r.rows[i].validation == t.rows[i].validation && r.rows[i].state == t.rows[i].state
      && r.rows[i].firstseen == t.rows[i].firstseen && r.rows[i].resolvedat == t.rows[i].resolvedat
      && forall j :: 0 <= j < |t.rows| && j != i ==> r.rows[j] == t.rows[j]
  {
  }

  /** Without one, exactly one row is appended: open (state 0, no resolution date), first and
      last seen now, under the truncated name and the next id. */
  lemma RecordInserts(t: Table, courseid: int, name: string, now: int)
    requires !HasOpen(t.rows, courseid, name)
    ensures var r := Record(t, courseid, name, now);
      |r.rows| == |t.rows| + 1 && r.rows[..|t.rows|] == t.rows && r.nextId == t.nextId + 1
      && r.rows[|t.rows|].id == t.nextId && r.rows[|t.rows|].courseid == courseid
      && r.rows[|t.rows|].validation == Truncate(name) && r.rows[|t.rows|].state == 0
      && r.rows[|t.rows|].firstseen == now && r.rows[|t.rows|].lastseen == now
      && r.rows[|t.rows|].resolvedat.None?
  {
  }

  /** The second loop, over the map in order, acting on the failing names only. */
  function OpenPhase(t: Table, courseid: int, m: NameMap, now: int): (r: Table)
    ensures t.nextId <= r.nextId && |r.rows| - |t.rows| == r.nextId - t.nextId
    decreases |m|
  {
    if m == [] then t
    else
      var t' := OpenPhase(t, courseid, m[..|m| - 1], now);
      if m[|m| - 1].1 then t' else Record(t', courseid, m[|m| - 1].0, now)
  }

  // ================================================================= closing

  /** The issues the last loop resolves: open, of this course, and named by a passing result. */
  predicate Closes(x: Issue, courseid: int, m: NameMap) {
    x.courseid == courseid && x.resolvedat.None? && Lookup(m, x.validation) == Some(true)
  }

  function CloseRow(x: Issue, courseid: int, m: NameMap, now: int): Issue {
    if Closes(x, courseid, m) then x.(state := 1, resolvedat := Some(now)) else x
  }

  /** The last loop: every open issue of the course whose name maps to true gets state 1 and
      resolution date `now`; every other row is left as it is. */
  function ClosePhase(rows: seq<Issue>, courseid: int, m: NameMap, now: int): (r: seq<Issue>)
    ensures |r| == |rows|
    ensures forall i :: 0 <= i < |rows| && Closes(rows[i], courseid, m) ==>
      r[i].state == 1 && r[i].resolvedat == Some(now)
      && r[i].(state := rows[i].state, resolvedat := rows[i].resolvedat) == rows[i]
    ensures forall i :: 0 <= i < |rows| && !Closes(rows[i], courseid, m) ==> r[i] == rows[i]
  {
    seq(|rows|, i requires 0 <= i < |rows| => CloseRow(rows[i], courseid, m, now))
  }

  /** save_course_results_history on the table as a value. */
  function SaveHistory(t: Table, courseid: int, rs: seq<CheckResult>, now: int): (r: Table)
    ensures t.nextId <= r.nextId && |r.rows| - |t.rows| == r.nextId - t.nextId
  {
    var m := ByName(rs);
    var t1 := OpenPhase(t, courseid, m, now);
    Table(ClosePhase(t1.rows, courseid, m, now), t1.nextId)
  }

  // ================================================================= the table as a class

  /** Row ids increase with position and stay below the counter; stored names fit the column. */
  predicate WellFormed(t: Table) {
    (forall i, j :: 0 <= i < j < |t.rows| ==> t.rows[i].id < t.rows[j].id)
    && (forall i :: 0 <= i < |t.rows| ==> t.rows[i].id < t.nextId)
    && (forall i :: 0 <= i < |t.rows| ==> |t.rows[i].validation| <= ValidationWidth)
  }

  class IssueStore {
    var rows: seq<Issue>
    var nextId: nat

    predicate Valid()
      reads this
    {
      WellFormed(Table(rows, nextId))
    }

    constructor()
      ensures Valid() && rows == []
    {
      rows := [];
      nextId := 1;
    }

    /** save_course_results_history($courseid, $validaciones), with time() passed as `now`. */
    method SaveCourseResultsHistory(courseid: int, results: seq<CheckResult>, now: int)
      requires Valid()
      modifies this
      ensures Valid()
      ensures Table(rows, nextId) == SaveHistory(old(Table(rows, nextId)), courseid, results, now)
    {
      ghost var t0 := Table(rows, nextId);
      var byname := BuildByName(results);
      OpenIssues(courseid, byname, now);
      CloseIssues(courseid, byname, now);
      SaveHistoryWellFormed(t0, courseid, results, now);
    }

    /** The loop over the map that refreshes or inserts an issue for each failing name. */
    method OpenIssues(courseid: int, byname: NameMap, now: int)
      modifies this
      ensures Table(rows, nextId) == OpenPhase(old(Table(rows, nextId)), courseid, byname, now)
    {
      ghost var t0 := Table(rows, nextId);
      var k := 0;
      while k < |byname|
        invariant 0 <= k <= |byname|
        invariant Table(rows, nextId) == OpenPhase(t0, courseid, byname[..k], now)
      {
        assert byname[..k + 1][..k] == byname[..k];
        var name := byname[k].0;
        if !byname[k].1 {
          var open := FirstOpen(rows, courseid, name);
          if open.Some? {
            rows := rows[open.value := rows[open.value].(lastseen := now)];
          } else {
            rows := rows + [NewIssue(nextId, courseid, name, now)];
            nextId := nextId + 1;
          }
        }
        k := k + 1;
      }
      assert byname[..|byname|] == byname;
    }

    /** The loop over the course's open issues that resolves those whose name now passes. */
    method CloseIssues(courseid: int, byname: NameMap, now: int)
      modifies this
      ensures rows == ClosePhase(old(rows), courseid, byname, now) && nextId == old(nextId)
    {
      ghost var before := rows;
      var i := 0;
      while i < |rows|
        invariant 0 <= i <= |rows| && |rows| == |before| && nextId == old(nextId)
        invariant forall j :: 0 <= j < i ==> rows[j] == CloseRow(before[j], courseid, byname, now)
        invariant forall j :: i <= j < |rows| ==> rows[j] == before[j]
      {
        var issue := rows[i];
        if issue.courseid == courseid && issue.resolvedat.None? {
          if Lookup(byname, issue.validation) == Some(true) {
            rows := rows[i := issue.(state := 1, resolvedat := Some(now))];
          }
        }
        i := i + 1;
      }
      assert rows == ClosePhase(before, courseid, byname, now);
    }
  }

  // ================================================================= what a run keeps and changes

  /** From `t` to `u`: rows are only appended, an existing row is either unchanged or an open
      issue of the course whose `lastseen` became `now`, and appended rows are fresh open issues
      of the course, first and last seen now. */
  predicate Grows(t: Table, u: Table, courseid: int, now: int) {
    |t.rows| <= |u.rows|
    && (forall i :: 0 <= i < |t.rows| ==>
          u.rows[i] == t.rows[i]
          || (t.rows[i].courseid == courseid && t.rows[i].resolvedat.None?
              && u.rows[i] == t.rows[i].(lastseen := now)))
    && (forall i :: |t.rows| <= i < |u.rows| ==>
          u.rows[i].courseid == courseid && u.rows[i].resolvedat.None? && u.rows[i].state == 0
          && u.rows[i].firstseen == now && u.rows[i].lastseen == now)
  }

  lemma GrowsTrans(t: Table, u: Table, v: Table, courseid: int, now: int)
    requires Grows(t, u, courseid, now) && Grows(u, v, courseid, now)
    ensures Grows(t, v, courseid, now)
  {
    forall i | 0 <= i < |t.rows|
      ensures v.rows[i] == t.rows[i]
        || (t.rows[i].courseid == courseid && t.rows[i].resolvedat.None?
            && v.rows[i] == t.rows[i].(lastseen := now))
    {
      assert u.rows[i] == t.rows[i] || u.rows[i] == t.rows[i].(lastseen := now);
    }
  }

  lemma {:induction false} OpenPhaseGrows(t: Table, courseid: int, m: NameMap, now: int)
    ensures Grows(t, OpenPhase(t, courseid, m, now), courseid, now)
    decreases |m|
  {
    if m != [] {
      var t' := OpenPhase(t, courseid, m[..|m| - 1], now);
      OpenPhaseGrows(t, courseid, m[..|m| - 1], now);
      if !m[|m| - 1].1 {
        var u := Record(t', courseid, m[|m| - 1].0, now);
        assert Grows(t', u, courseid, now);
        GrowsTrans(t, t', u, courseid, now);
      }
    }
  }

  lemma {:induction false} OpenPhaseWellFormed(t: Table, courseid: int, m: NameMap, now: int)
    requires WellFormed(t)
    ensures WellFormed(OpenPhase(t, courseid, m, now))
    ensures OpenPhase(t, courseid, m, now).nextId >= t.nextId
    decreases |m|
  {
    if m != [] {
      OpenPhaseWellFormed(t, courseid, m[..|m| - 1], now);
    }
  }

  /** A run keeps the table well formed: ids increasing and below the counter, names within
      the column width. */
  lemma SaveHistoryWellFormed(t: Table, courseid: int, rs: seq<CheckResult>, now: int)
    requires WellFormed(t)
    ensures WellFormed(SaveHistory(t, courseid, rs, now))
  {
    OpenPhaseWellFormed(t, courseid, ByName(rs), now);
  }

  /** Nothing is deleted; resolved issues and issues of other courses are untouched; every
      existing row keeps its id, course, name and first-seen time; new rows belong to the course. */
  lemma SaveHistoryFrame(t: Table, courseid: int, rs: seq<CheckResult>, now: int)
    ensures var r := SaveHistory(t, courseid, rs, now);
      |t.rows| <= |r.rows|
      && (forall i :: 0 <= i < |t.rows| && (t.rows[i].courseid != courseid || t.rows[i].resolvedat.Some?) ==>
            r.rows[i] == t.rows[i])
      && (forall i :: 0 <= i < |t.rows| ==>
            r.rows[i].id == t.rows[i].id && r.rows[i].courseid == t.rows[i].courseid
            && r.rows[i].validation == t.rows[i].validation && r.rows[i].firstseen == t.rows[i].firstseen)
      && (forall i :: |t.rows| <= i < |r.rows| ==> r.rows[i].courseid == courseid)
  {
    var m := ByName(rs);
    OpenPhaseGrows(t, courseid, m, now);
  }

  // ================================================================= one open issue per name

  /** No two open issues share course and name. */
  predicate AtMostOneOpen(rows: seq<Issue>) {
    forall i, j :: (0 <= i < j < |rows| && rows[i].resolvedat.None? && rows[j].resolvedat.None?
      && rows[i].courseid == rows[j].courseid) ==> rows[i].validation != rows[j].validation
  }

  /** Every failing name fits the column, so the name stored is the name looked up. */
  predicate FailingFit(m: NameMap) {
    forall i :: 0 <= i < |m| && !m[i].1 ==> |m[i].0| <= ValidationWidth
  }

  lemma RecordKeepsOne(t: Table, courseid: int, name: string, now: int)
    requires AtMostOneOpen(t.rows) && |name| <= ValidationWidth
    ensures AtMostOneOpen(Record(t, courseid, name, now).rows)
    ensures HasOpen(Record(t, courseid, name, now).rows, courseid, name)
  {
    var r := Record(t, courseid, name, now);
    if !HasOpen(t.rows, courseid, name) {
      assert IsOpen(r.rows[|t.rows|], courseid, name);
    } else {
      var i := FirstOpen(t.rows, courseid, name).value;
      assert IsOpen(r.rows[i], courseid, name);
    }
  }

  /** An open issue stays open, under the same course and name, through a refresh or an insert. */
  lemma GrowsKeepsOpen(t: Table, u: Table, courseid: int, now: int, c: int, name: string)
    requires Grows(t, u, courseid, now) && HasOpen(t.rows, c, name)
    ensures HasOpen(u.rows, c, name)
  {
    var i :| 0 <= i < |t.rows| && IsOpen(t.rows[i], c, name);
    assert IsOpen(u.rows[i], c, name);
  }

  lemma {:induction false} OpenPhaseKeepsOne(t: Table, courseid: int, m: NameMap, now: int)
    requires AtMostOneOpen(t.rows) && FailingFit(m)
    ensures AtMostOneOpen(OpenPhase(t, courseid, m, now).rows)
    ensures forall n :: Lookup(m, n) == Some(false) ==> HasOpen(OpenPhase(t, courseid, m, now).rows, courseid, n)
    decreases |m|
  {
    if m != [] {
      var p := m[..|m| - 1];
      var x := m[|m| - 1];
      assert forall i :: 0 <= i < |p| ==> p[i] == m[i];
      OpenPhaseKeepsOne(t, courseid, p, now);
      var t' := OpenPhase(t, courseid, p, now);
      var u := OpenPhase(t, courseid, m, now);
      assert m == p + [x];
      if !x.1 {
        RecordKeepsOne(t', courseid, x.0, now);
        assert Grows(t', u, courseid, now);
      }
      forall n | Lookup(m, n) == Some(false)
        ensures HasOpen(u.rows, courseid, n)
      {
        LookupAppend(p, x, n);
        if Lookup(p, n).Some? && !x.1 {
          GrowsKeepsOpen(t', u, courseid, now, courseid, n);
        }
      }
    }
  }

  lemma {:induction false} LookupAppend(p: NameMap, x: (string, bool), n: string)
    ensures Lookup(p + [x], n) == if Lookup(p, n).Some? then Lookup(p, n) else if x.0 == n then Some(x.1) else None
    decreases |p|
  {
    if p != [] {
      assert (p + [x])[1..] == p[1..] + [x];
      LookupAppend(p[1..], x, n);
    }
  }

  lemma ClosePhaseEffect(rows: seq<Issue>, courseid: int, m: NameMap, now: int)
    requires AtMostOneOpen(rows)
    ensures AtMostOneOpen(ClosePhase(rows, courseid, m, now))
    ensures forall n :: Lookup(m, n) == Some(false) && HasOpen(rows, courseid, n) ==>
      HasOpen(ClosePhase(rows, courseid, m, now), courseid, n)
    ensures forall n :: Lookup(m, n) == Some(true) ==> !HasOpen(ClosePhase(rows, courseid, m, now), courseid, n)
  {
    ClosePhaseLeaves(rows, courseid, m, now);
  }

  /** Whatever the table holds, the close phase leaves failing names open and closes every open
      issue of a passing name. */
  lemma ClosePhaseLeaves(rows: seq<Issue>, courseid: int, m: NameMap, now: int)
    ensures forall n :: Lookup(m, n) == Some(false) && HasOpen(rows, courseid, n) ==>
      HasOpen(ClosePhase(rows, courseid, m, now), courseid, n)
    ensures forall n :: Lookup(m, n) == Some(true) ==> !HasOpen(ClosePhase(rows, courseid, m, now), courseid, n)
  {
    var r := ClosePhase(rows, courseid, m, now);
    forall n | Lookup(m, n) == Some(false) && HasOpen(rows, courseid, n)
      ensures HasOpen(r, courseid, n)
    {
      var i :| 0 <= i < |rows| && IsOpen(rows[i], courseid, n);
      assert IsOpen(r[i], courseid, n);
    }
  }

  /** Recording a failing name that fits the column leaves an open issue for it, whatever the
      table holds. */
  lemma RecordOpens(t: Table, courseid: int, name: string, now: int)
    requires |name| <= ValidationWidth
    ensures HasOpen(Record(t, courseid, name, now).rows, courseid, name)
  {
    var r := Record(t, courseid, name, now);
    if !HasOpen(t.rows, courseid, name) {
      assert IsOpen(r.rows[|t.rows|], courseid, name);
    } else {
      var i := FirstOpen(t.rows, courseid, name).value;
      assert IsOpen(r.rows[i], courseid, name);
    }
  }

  /** Whatever the table holds, every failing name that fits the column has an open issue after
      the open phase. */
  lemma {:induction false} OpenPhaseOpensFailing(t: Table, courseid: int, m: NameMap, now: int)
    requires FailingFit(m)
    ensures forall n :: Lookup(m, n) == Some(false) ==> HasOpen(OpenPhase(t, courseid, m, now).rows, courseid, n)
    decreases |m|
  {
    if m != [] {
      var p := m[..|m| - 1];
      var x := m[|m| - 1];
      assert forall i :: 0 <= i < |p| ==> p[i] == m[i];
      OpenPhaseOpensFailing(t, courseid, p, now);
      var t' := OpenPhase(t, courseid, p, now);
      var u := OpenPhase(t, courseid, m, now);
      assert m == p + [x];
      if !x.1 {
        RecordOpens(t', courseid, x.0, now);
        assert Grows(t', u, courseid, now);
      }
      forall n | Lookup(m, n) == Some(false)
        ensures HasOpen(u.rows, courseid, n)
      {
        LookupAppend(p, x, n);
        if Lookup(p, n).Some? && !x.1 {
          GrowsKeepsOpen(t', u, courseid, now, courseid, n);
        }
      }
    }
  }

  /** Whatever the table holds, after a run in which every failing name fits the column each
      failing name of the course has an open issue and no passing name has one. */
  lemma SaveHistoryFailingOpen(t: Table, courseid: int, rs: seq<CheckResult>, now: int)
    requires forall i :: 0 <= i < |rs| && !rs[i].estado ==> |rs[i].nombre| <= ValidationWidth
    ensures var r := SaveHistory(t, courseid, rs, now);
      (forall n :: Lookup(ByName(rs), n) == Some(false) ==> HasOpen(r.rows, courseid, n))
      && (forall n :: Lookup(ByName(rs), n) == Some(true) ==> !HasOpen(r.rows, courseid, n))
  {
    var m := ByName(rs);
    ByNameFailingFit(rs);
    OpenPhaseOpensFailing(t, courseid, m, now);
    ClosePhaseLeaves(OpenPhase(t, courseid, m, now).rows, courseid, m, now);
  }

  /** A run in which every failing name fits the column keeps at most one open issue per course
      and name; afterwards every failing name of the course has exactly one open issue and no
      passing name has any. */
  lemma SaveHistoryOpenIssues(t: Table, courseid: int, rs: seq<CheckResult>, now: int)
    requires AtMostOneOpen(t.rows)
    requires forall i :: 0 <= i < |rs| && !rs[i].estado ==> |rs[i].nombre| <= ValidationWidth
    ensures var r := SaveHistory(t, courseid, rs, now);
      AtMostOneOpen(r.rows)
      && (forall n :: Lookup(ByName(rs), n) == Some(false) ==> HasOpen(r.rows, courseid, n))
      && (forall n :: Lookup(ByName(rs), n) == Some(true) ==> !HasOpen(r.rows, courseid, n))
  {
    var m := ByName(rs);
    ByNameFailingFit(rs);
    OpenPhaseKeepsOne(t, courseid, m, now);
    ClosePhaseEffect(OpenPhase(t, courseid, m, now).rows, courseid, m, now);
  }

  lemma ByNameFailingFit(rs: seq<CheckResult>)
    requires forall i :: 0 <= i < |rs| && !rs[i].estado ==> |rs[i].nombre| <= ValidationWidth
    ensures FailingFit(ByName(rs))
  {
    var m := ByName(rs);
    ByNameKeys(rs);
    forall i | 0 <= i < |m| && !m[i].1
      ensures |m[i].0| <= ValidationWidth
    {
      var n := m[i].0;
      LookupEntry(m, i);
      assert n in Keys(m) by { assert Keys(m)[i] == n; }
      var j :| 0 <= j < |rs| && rs[j].nombre == n;
      var last := LastIndex(rs, n, j);
      ByNameLast(rs, n, last);
    }
  }

  /** The position of the last result carrying a name that some result at or after `j` carries. */
  lemma {:induction false} LastIndex(rs: seq<CheckResult>, name: string, j: nat) returns (k: nat)
    requires j < |rs| && rs[j].nombre == name
    ensures LastWith(rs, name, k)
    decreases |rs| - j
  {
    if exists j' :: j < j' < |rs| && rs[j'].nombre == name {
      var j' :| j < j' < |rs| && rs[j'].nombre == name;
      k := LastIndex(rs, name, j');
    } else {
      k := j;
    }
  }

  // ================================================================= running twice

  /** From `a` to `b` nothing but some `lastseen` fields changed, to `now`. */
  predicate OnlyLastseen(a: seq<Issue>, b: seq<Issue>, now: int) {
    |a| == |b| && forall i :: 0 <= i < |a| ==> b[i] == a[i] || b[i] == a[i].(lastseen := now)
  }

  lemma {:induction false} OpenPhaseRefreshOnly(t: Table, courseid: int, m: NameMap, now: int)
    requires forall i :: 0 <= i < |m| && !m[i].1 ==> HasOpen(t.rows, courseid, m[i].0)
    ensures OnlyLastseen(t.rows, OpenPhase(t, courseid, m, now).rows, now)
    ensures OpenPhase(t, courseid, m, now).nextId == t.nextId
    decreases |m|
  {
    if m != [] {
      var p := m[..|m| - 1];
      assert forall i :: 0 <= i < |p| ==> p[i] == m[i];
      OpenPhaseRefreshOnly(t, courseid, p, now);
      var t' := OpenPhase(t, courseid, p, now);
      var x := m[|m| - 1];
      if !x.1 {
        OpenPhaseGrows(t, courseid, p, now);
        GrowsKeepsOpen(t, t', courseid, now, courseid, x.0);
      }
    }
  }

  /** Running a second time on the same results inserts nothing: every row is as the first run
      left it, except that open issues of failing names may have `lastseen` advanced. */
  lemma SaveHistoryTwice(t: Table, courseid: int, rs: seq<CheckResult>, now1: int, now2: int)
    requires forall i :: 0 <= i < |rs| && !rs[i].estado ==> |rs[i].nombre| <= ValidationWidth
    ensures var r1 := SaveHistory(t, courseid, rs, now1);
      var r2 := SaveHistory(r1, courseid, rs, now2);
      r2.nextId == r1.nextId && OnlyLastseen(r1.rows, r2.rows, now2)
  {
    var m := ByName(rs);
    var r1 := SaveHistory(t, courseid, rs, now1);
    SaveHistoryFailingOpen(t, courseid, rs, now1);
    ByNameKeys(rs);
    forall i | 0 <= i < |m| && !m[i].1
      ensures HasOpen(r1.rows, courseid, m[i].0)
    {
      LookupEntry(m, i);
    }
    OpenPhaseRefreshOnly(r1, courseid, m, now2);
    var u := OpenPhase(r1, courseid, m, now2);
    forall i | 0 <= i < |u.rows|
      ensures !Closes(u.rows[i], courseid, m)
    {
      if Closes(u.rows[i], courseid, m) {
        assert IsOpen(r1.rows[i], courseid, u.rows[i].validation);
      }
    }
  }

  // ================================================================= names wider than the column

  /** A failing name longer than the column is never found again: it is stored truncated but
      looked up in full, so each run opens another issue under the truncated name, and two runs
      leave two open issues of the same course and name. */
  lemma LongNameDuplicates(t: Table, courseid: int, rs: seq<CheckResult>, now1: int, now2: int, name: string)
    requires WellFormed(t) && |name| > ValidationWidth
    requires Lookup(ByName(rs), name) == Some(false)
    requires Lookup(ByName(rs), Truncate(name)) != Some(true)
    ensures !AtMostOneOpen(SaveHistory(SaveHistory(t, courseid, rs, now1), courseid, rs, now2).rows)
  {
    var m := ByName(rs);
    var r1 := SaveHistory(t, courseid, rs, now1);
    var i := OpenPhaseInserts(t, courseid, m, now1, name);
    var u1 := OpenPhase(t, courseid, m, now1);
    assert IsOpen(r1.rows[i], courseid, Truncate(name));
    SaveHistoryWellFormed(t, courseid, rs, now1);
    var j := OpenPhaseInserts(r1, courseid, m, now2, name);
    var u2 := OpenPhase(r1, courseid, m, now2);
    OpenPhaseGrows(r1, courseid, m, now2);
    assert IsOpen(u2.rows[i], courseid, Truncate(name));
    var r2 := SaveHistory(r1, courseid, rs, now2);
    assert IsOpen(r2.rows[i], courseid, Truncate(name));
    assert IsOpen(r2.rows[j], courseid, Truncate(name));
  }

  /** The open phase leaves, for a failing over-long name, an open issue under the truncated
      name among the rows it appended. */
  lemma {:induction false} OpenPhaseInserts(t: Table, courseid: int, m: NameMap, now: int, name: string) returns (j: nat)
    requires WellFormed(t) && |name| > ValidationWidth && Lookup(m, name) == Some(false)
    ensures |t.rows| <= j < |OpenPhase(t, courseid, m, now).rows|
    ensures IsOpen(OpenPhase(t, courseid, m, now).rows[j], courseid, Truncate(name))
    decreases |m|
  {
    var p := m[..|m| - 1];
    var x := m[|m| - 1];
    assert m == p + [x];
    LookupAppend(p, x, name);
    var t' := OpenPhase(t, courseid, p, now);
    OpenPhaseWellFormed(t, courseid, p, now);
    OpenPhaseGrows(t, courseid, p, now);
    var u := OpenPhase(t, courseid, m, now);
    if Lookup(p, name).Some? {
      j := OpenPhaseInserts(t, courseid, p, now, name);
      if !x.1 {
        assert Grows(t', u, courseid, now);
        assert IsOpen(u.rows[j], courseid, Truncate(name));
      }
    } else {
      assert !HasOpen(t'.rows, courseid, name);
      j := |t'.rows|;
    }
  }
}
