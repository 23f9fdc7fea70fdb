/**
 * The records the checks read about one course, and the shape of one check's result.
 * Each sequence holds the rows the database returns for the course, in the order it
 * returns them; record ids are the rows' primary keys (positive integers).
 */
module Facts {
  import opened Wrappers
  import opened Php

  /** A course row. Its dates are read as the strings the database returns. */
  datatype Course = Course(id: int, category: int, startdate: string, enddate: string)

  /** The plugin's configuration: the expected start and end timestamps, None when unset. */
  datatype Config = Config(fechainiciovalidacion: Option<string>, fechafinvalidacion: Option<string>)

  /** A course_modules row: which module type, which instance of it, which section holds it. */
  datatype CourseModule = CourseModule(id: int, moduleId: int, instance: int, section: int)

  datatype Forum = Forum(id: int, ftype: string, name: string)

  datatype UrlResource = UrlResource(id: int, name: string, externalurl: string)

  datatype Label = Label(id: int, intro: string)

  datatype GradeCategory = GradeCategory(id: int, fullname: string)

  /** A grade weight as stored: a decimal with five places, held as a count of 0.00001. */
  datatype Decimal = Decimal(units: int)

  datatype GradeItem = GradeItem(
    itemtype: string, iteminstance: int, weightoverride: bool,
    aggregationcoef: Decimal, aggregationcoef2: Decimal)

  /** Everything the checks read about one course. The module-type ids are None when the
      site has no module type of that name. */
  datatype CourseFacts = CourseFacts(
    course: Course,
    section0: Option<int>,
    forumModule: Option<int>,
    urlModule: Option<int>,
    labelModule: Option<int>,
    cms: seq<CourseModule>,
    forums: seq<Forum>,
    urls: seq<UrlResource>,
    labels: seq<Label>,
    categories: seq<GradeCategory>,
    gradeItems: seq<GradeItem>)

  /** A value shown in a result's detail table. Formatting (userdate, language strings,
      links, HTML escaping) is kept abstract: only which value is shown is modelled. */
  datatype Value =
    | Text(text: string)
    | TimetableHint(title: string)        // the sentence asking for a section-0 label with a
                                          // table and the title, followed by the title
    | AccentWarning                       // the notice that a "Guia Docente" URL (no accent) exists
    | Listed(items: seq<string>)          // the items joined with ", "
    | UserDate(timestamp: int, format: DateFormat)
    | NotAvailable
    | FoundWithLink(cmid: int)
    | Escaped(raw: string)
    | Weight(weight: Decimal)

  /** The format `userdate` is given: none (the default, with the weekday), or the language
      string 'strftimedatetime'. */
  datatype DateFormat = DefaultFormat | DateTimeFormat

  datatype Detail = Detail(key: string, value: Value)

  /** One entry of the validation list: 'nombre', 'estado', 'mensaje', 'detalle'. */
  datatype CheckResult = CheckResult(nombre: string, estado: bool, mensaje: string, detalle: seq<Detail>)

  function Names(rs: seq<CheckResult>): (ns: seq<string>)
    ensures |ns| == |rs| && forall i :: 0 <= i < |rs| ==> ns[i] == rs[i].nombre
  {
    seq(|rs|, i requires 0 <= i < |rs| => rs[i].nombre)
  }

  predicate Distinct<T(==)>(xs: seq<T>) {
    forall i, j :: 0 <= i < j < |xs| ==> xs[i] != xs[j]
  }

  // ---------------------------------------------------------------- date checks

  /** !empty($obj->field) for an optional string property. */
  predicate IsSet(v: Option<string>) {
    v.Some? && !IsEmptyString(v.value)
  }

  /** fechas_son_iguales: (int)$a === (int)$b. */
  predicate FechasSonIguales(a: string, b: string) {
    IntCast(a) == IntCast(b)
  }

  /** The rule both date checks share: both values set, and equal once read as integers. */
  predicate DateMatches(courseValue: string, configValue: Option<string>) {
    !IsEmptyString(courseValue) && IsSet(configValue) && FechasSonIguales(courseValue, configValue.value)
  }

  function DateShown(v: Option<string>, format: DateFormat): Value {
    if IsSet(v) then UserDate(IntCast(v.value), format) else NotAvailable
  }

  function DateResult(nombre: string, okMsg: string, failMsg: string,
                      courseValue: string, configValue: Option<string>, format: DateFormat): CheckResult
  {
    var ok := DateMatches(courseValue, configValue);
    CheckResult(nombre, ok, if ok then okMsg else failMsg,
      [Detail("Curso", DateShown(Some(courseValue), format)),
       Detail("Configuración", DateShown(configValue, format))])
  }

  lemma NatToStringNotEmpty(n: nat)
    requires n != 0
    ensures !IsEmptyString(NatToString(n))
  {
    assert DigitsValue("0") == 0 by { assert "0"[..0] == ""; }
  }

  /** On timestamps stored the way PHP writes integers, a date check passes exactly when both
      timestamps are non-zero and equal; an unset configuration value never passes. */
  lemma {:induction false} DateMatchesTimestamps(x: int, y: int)
    ensures DateMatches(IntToString(x), Some(IntToString(y))) <==> x != 0 && y != 0 && x == y
    ensures !DateMatches(IntToString(x), None)
  {
    IntToStringRoundTrip(x);
    IntToStringRoundTrip(y);
    if x > 0 { NatToStringNotEmpty(x); }
    if y > 0 { NatToStringNotEmpty(y); }
    assert IntToString(0) == "0";
  }

  // ---------------------------------------------------------------- lookups shared by the checks

  predicate IsForum(fo: Forum, ftype: string, name: string) {
    fo.ftype == ftype && fo.name == name
  }

  /** The position of the first forum of the given type and name: the record a `get_record`
      on (type, name) or a scan with `break` picks. */
  function FirstForum(forums: seq<Forum>, ftype: string, name: string): (r: Option<nat>)
    ensures r.Some? ==> r.value < |forums| && IsForum(forums[r.value], ftype, name)
    ensures r.Some? ==> forall j :: 0 <= j < r.value ==> !IsForum(forums[j], ftype, name)
    ensures r.None? ==> forall j :: 0 <= j < |forums| ==> !IsForum(forums[j], ftype, name)
  {
    if forums == [] then None
    else if IsForum(forums[0], ftype, name) then Some(0)
    else
      match FirstForum(forums[1..], ftype, name)
      case None => None
      case Some(k) => Some(k + 1)
  }
}
