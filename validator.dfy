/**
 * The course-compliance validator (validator::get_validaciones): ten checks, always in the
 * same order, over the records of one course.
 */
module Validator {
  import opened Wrappers
  import opened Php
  import opened Facts

  const NombreFechaInicio := "Fecha de inicio"
  const NombreFechaFin := "Fecha de fin"
  const NombreTablon := "Tablón de anuncios"
  const NombreForoEstudiantes := "Foro de comunicación entre estudiantes"
  const NombreForoTutorias := "Foro de tutorías de la asignatura"
  const NombreGuia := "Guía Docente en bloque cero"
  const NombreTutoria := "Datos de tutoría en bloque cero"
  const NombreActividades := "Cronograma de actividades calificables en bloque cero"
  const NombreSesiones := "Cronograma de sesiones síncronas en bloque cero"
  const NombreCategorias := "Categorías del calificador"

  /** The names of the ten results, in the order the validator emits them. */
  const ExpectedNames: seq<string> := [
    NombreFechaInicio, NombreFechaFin,
    NombreTablon, NombreForoEstudiantes, NombreForoTutorias,
    NombreGuia, NombreTutoria, NombreActividades, NombreSesiones,
    NombreCategorias
  ]

  // ================================================================= forums in section 0

  /** One entry of the list of required forums: result name, forum type and forum title. */
  datatype ForumRole = ForumRole(nombre: string, ftype: string, titulo: string)

  const ForumRoles: seq<ForumRole> := [
    ForumRole(NombreTablon, "news", "Tablón de anuncios"),
    ForumRole(NombreForoEstudiantes, "general", "Foro de comunicación entre estudiantes"),
    ForumRole(NombreForoTutorias, "general", "Foro de tutorías de la asignatura")
  ]

  predicate IsModuleOf(cm: CourseModule, moduleId: int, instance: int) {
    cm.moduleId == moduleId && cm.instance == instance
  }

  /** $cms_by_instance: course modules of the forum type keyed by instance; a later module of
      the same instance replaces an earlier one. */
  function CmsByInstance(cms: seq<CourseModule>, moduleId: int): map<int, CourseModule> {
    if cms == [] then map[]
    else
      var m := CmsByInstance(cms[..|cms| - 1], moduleId);
      var cm := cms[|cms| - 1];
      if cm.moduleId == moduleId then m[cm.instance := cm] else m
  }

  /** An instance is a key exactly when some module of that type has it, and it maps to the
      last such module. */
  lemma {:induction false} CmsByInstanceIsLast(cms: seq<CourseModule>, moduleId: int, k: int)
    ensures k in CmsByInstance(cms, moduleId) <==> exists i :: 0 <= i < |cms| && IsModuleOf(cms[i], moduleId, k)
    ensures k in CmsByInstance(cms, moduleId) ==>
      exists i :: 0 <= i < |cms| && IsModuleOf(cms[i], moduleId, k) && CmsByInstance(cms, moduleId)[k] == cms[i]
        && forall j :: i < j < |cms| ==> !IsModuleOf(cms[j], moduleId, k)
  {
    if cms != [] {
      var p := cms[..|cms| - 1];
      CmsByInstanceIsLast(p, moduleId, k);
      assert forall i :: 0 <= i < |p| ==> p[i] == cms[i];
      var last := |cms| - 1;
      if IsModuleOf(cms[last], moduleId, k) {
        assert CmsByInstance(cms, moduleId)[k] == cms[last];
      } else if k in CmsByInstance(p, moduleId) {
        var i :| 0 <= i < |p| && IsModuleOf(p[i], moduleId, k) && CmsByInstance(p, moduleId)[k] == p[i]
          && forall j :: i < j < |p| ==> !IsModuleOf(p[j], moduleId, k);
        assert CmsByInstance(cms, moduleId)[k] == cms[i];
      }
    }
  }

  /** The loop over the forum course modules that builds $cms_by_instance. */
  method IndexCmsByInstance(cms: seq<CourseModule>, moduleId: int) returns (m: map<int, CourseModule>)
    ensures m == CmsByInstance(cms, moduleId)
  {
    m := map[];
    var i := 0;
    while i < |cms|
      invariant 0 <= i <= |cms|
      invariant m == CmsByInstance(cms[..i], moduleId)
    {
      assert cms[..i + 1][..i] == cms[..i];
      if cms[i].moduleId == moduleId {
        m := m[cms[i].instance := cms[i]];
      }
      i := i + 1;
    }
    assert cms[..|cms|] == cms;
  }

  /** The forum check passes when the first forum of the role's type and title has a course
      module, and that module lies in section 0. */
  predicate ForumOk(forums: seq<Forum>, byInstance: map<int, CourseModule>, section0: Option<int>, role: ForumRole) {
    match FirstForum(forums, role.ftype, role.titulo)
    case None => false
    case Some(i) => forums[i].id in byInstance && section0 == Some(byInstance[forums[i].id].section)
  }

  function ForumResult(role: ForumRole, ok: bool): CheckResult {
    CheckResult(role.nombre, ok, if ok then "Validado" else "No validado",
      [Detail("Nombre buscado", Text(role.titulo)),
       Detail("Estado", Text(if ok then "Encontrado en la primera sección" else "No encontrado o fuera de sección"))])
  }

  /** One pass of the loop over the required forums: scan the course's forums for the first
      one of the right type and title, then stop. */
  method CheckForum(forums: seq<Forum>, byInstance: map<int, CourseModule>, section0: Option<int>, role: ForumRole)
    returns (r: CheckResult)
    ensures r == ForumResult(role, ForumOk(forums, byInstance, section0, role))
  {
    var ok := false;
    var i := 0;
    while i < |forums|
      invariant 0 <= i <= |forums|
      invariant forall j :: 0 <= j < i ==> !IsForum(forums[j], role.ftype, role.titulo)
      invariant !ok
    {
      var fo := forums[i];
      if fo.ftype == role.ftype && fo.name == role.titulo {
        if fo.id in byInstance && section0 == Some(byInstance[fo.id].section) {
          ok := true;
        }
        break;
      }
      i := i + 1;
    }
    r := ForumResult(role, ok);
  }

  // ================================================================= the syllabus link

  const GuiaName := "Guía Docente"
  const GuiaUnaccented := "Guia Docente"
  const GuiaDomain := "https://www.udima.es"

  /** The course modules of section `sid`, in the order the database returns them. */
  function InSection(cms: seq<CourseModule>, sid: int): (r: seq<CourseModule>)
    ensures forall x :: x in r <==> x in cms && x.section == sid
  {
    if cms == [] then []
    else
      var p := cms[..|cms| - 1];
      assert cms == p + [cms[|cms| - 1]];
      InSection(p, sid) + (if cms[|cms| - 1].section == sid then [cms[|cms| - 1]] else [])
  }

  /** Every course module of section 0; none when the course has no section 0. */
  function Section0Mods(f: CourseFacts): (r: seq<CourseModule>)
    ensures f.section0.None? ==> r == []
  {
    if f.section0.None? then [] else InSection(f.cms, f.section0.value)
  }

  /** $urls[$id]: the URL record with that id. */
  function UrlById(urls: seq<UrlResource>, id: int): (r: Option<UrlResource>)
    ensures r.Some? ==> r.value in urls && r.value.id == id
    ensures r.None? ==> forall u :: u in urls ==> u.id != id
  {
    if urls == [] then None
    else if urls[0].id == id then Some(urls[0])
    else UrlById(urls[1..], id)
  }

  /** The URL record behind a course module, when the module is of the URL type and its
      record exists. */
  function UrlOf(f: CourseFacts, cm: CourseModule): Option<UrlResource> {
    if f.urlModule == Some(cm.moduleId) then UrlById(f.urls, cm.instance) else None
  }

  predicate TrimmedNameIs(u: UrlResource, title: string) {
    Trim(u.name) == title
  }

  predicate IsGuiaModule(f: CourseFacts, cm: CourseModule) {
    UrlOf(f, cm).Some? && TrimmedNameIs(UrlOf(f, cm).value, GuiaName)
  }

  predicate IsUnaccentedGuia(f: CourseFacts, cm: CourseModule) {
    UrlOf(f, cm).Some? && TrimmedNameIs(UrlOf(f, cm).value, GuiaUnaccented)
  }

  /** The position of the first section-0 module that is a URL named "Guía Docente". */
  function FirstGuia(f: CourseFacts, mods: seq<CourseModule>): (r: Option<nat>)
    ensures r.Some? ==> r.value < |mods| && IsGuiaModule(f, mods[r.value])
    ensures r.Some? ==> forall j :: 0 <= j < r.value ==> !IsGuiaModule(f, mods[j])
    ensures r.None? ==> forall j :: 0 <= j < |mods| ==> !IsGuiaModule(f, mods[j])
  {
    if mods == [] then None
    else if IsGuiaModule(f, mods[0]) then Some(0)
    else
      match FirstGuia(f, mods[1..])
      case None => None
      case Some(k) => Some(k + 1)
  }

  lemma FirstIsUnique(f: CourseFacts, mods: seq<CourseModule>, i: nat)
    requires i < |mods| && IsGuiaModule(f, mods[i])
    requires forall j :: 0 <= j < i ==> !IsGuiaModule(f, mods[j])
    ensures FirstGuia(f, mods) == Some(i)
  {
  }

  /** The module a scan of `mods` settles on, with its URL record. */
  function FoundIn(f: CourseFacts, mods: seq<CourseModule>): Option<(CourseModule, UrlResource)> {
    match FirstGuia(f, mods)
    case None => None
    case Some(i) => Some((mods[i], UrlOf(f, mods[i]).value))
  }

  /** The module the syllabus check settles on: the first "Guía Docente" URL of section 0. */
  function GuiaFound(f: CourseFacts): Option<(CourseModule, UrlResource)> {
    FoundIn(f, Section0Mods(f))
  }

  /** Position i holds the first "Guía Docente" URL of `mods`. */
  predicate FirstGuiaAt(f: CourseFacts, mods: seq<CourseModule>, i: int) {
    0 <= i < |mods| && IsGuiaModule(f, mods[i]) && forall j :: 0 <= j < i ==> !IsGuiaModule(f, mods[j])
  }

  /** The link of the module found points into the institution's domain (after trimming). */
  predicate InGuiaDomain(externalurl: string) {
    StrposIsZero(Trim(externalurl), GuiaDomain)
  }

  predicate GuiaUrlOk(found: Option<(CourseModule, UrlResource)>) {
    found.Some? && InGuiaDomain(found.value.1.externalurl)
  }

  /** The warning about the unaccented title is shown when no "Guía Docente" was found but a
      "Guia Docente" URL is in section 0. */
  predicate GuiaAviso(f: CourseFacts) {
    GuiaFound(f).None? && exists i :: 0 <= i < |Section0Mods(f)| && IsUnaccentedGuia(f, Section0Mods(f)[i])
  }

  function GuiaResult(found: Option<(CourseModule, UrlResource)>, urlOk: bool, aviso: bool): CheckResult {
    var ok := found.Some? && urlOk;
    CheckResult(NombreGuia, ok,
      if ok then "Guía Docente encontrada y URL válida"
      else if found.Some? then "Guía Docente encontrada pero URL NO válida"
      else "Guía Docente NO encontrada",
      [Detail("Nombre buscado", Text(GuiaName)),
       Detail("Estado", if found.Some? then FoundWithLink(found.value.0.id) else Text("No encontrada en la sección 0")),
       Detail("URL", if found.Some? then Escaped(found.value.1.externalurl) else Text("-")),
       Detail("Validación URL",
         if found.None? then Text("-")
         else if urlOk then Text("La URL es válida")
         else Text("La URL NO es válida (debe empezar por https://www.udima.es)"))]
      + (if aviso
         then [Detail("Aviso", AccentWarning)]
         else []))
  }

  /** The scan of section 0 for the syllabus URL, stopping at the first "Guía Docente". */
  method ScanGuia(f: CourseFacts, mods: seq<CourseModule>)
    returns (found: Option<(CourseModule, UrlResource)>, urlOk: bool, sinAcentos: bool)
    ensures found == FoundIn(f, mods)
    ensures urlOk == GuiaUrlOk(found)
    ensures found.None? ==> (sinAcentos <==> exists j :: 0 <= j < |mods| && IsUnaccentedGuia(f, mods[j]))
  {
    found, urlOk, sinAcentos := None, false, false;
    var i := 0;
    while i < |mods|
      invariant 0 <= i <= |mods|
      invariant found.None? && !urlOk
      invariant forall j :: 0 <= j < i ==> !IsGuiaModule(f, mods[j])
      invariant sinAcentos <==> exists j :: 0 <= j < i && IsUnaccentedGuia(f, mods[j])
    {
      var cm := mods[i];
      if f.urlModule == Some(cm.moduleId) {
        var u := UrlById(f.urls, cm.instance);
        assert UrlOf(f, cm) == u;
        if u.Some? {
          if TrimmedNameIs(u.value, GuiaName) {
            found := Some((cm, u.value));
            urlOk := InGuiaDomain(u.value.externalurl);
            assert IsGuiaModule(f, mods[i]);
            FirstIsUnique(f, mods, i);
            return;
          } else if TrimmedNameIs(u.value, GuiaUnaccented) {
            sinAcentos := true;
          }
        }
      }
      i := i + 1;
    }
  }

  /** The syllabus check: the scan, then the result entry built from what it found. */
  method CheckGuia(f: CourseFacts) returns (r: CheckResult)
    ensures r == GuiaResult(GuiaFound(f), GuiaUrlOk(GuiaFound(f)), GuiaAviso(f))
  {
    var found, urlOk, sinAcentos := ScanGuia(f, Section0Mods(f));
    assert found == GuiaFound(f);
    assert urlOk == GuiaUrlOk(found);
    assert (found.None? && sinAcentos) == GuiaAviso(f);
    r := GuiaResult(found, urlOk, found.None? && sinAcentos);
  }

  // ================================================================= the tutoring label

  /** The keys a tutoring label must mention. */
  const Claves: seq<string> := ["Profesor:", "Correo electrónico:", "Teléfono", "Extensión", "Horario de tutorías"]

  /** mb_stripos($text, $key) !== false. */
  predicate HasKey(text: string, key: string) {
    ContainsFolded(text, key, Latin1Fold)
  }

  /** $faltan_actual: the keys the text does not mention, in the order of `keys`. */
  function MissingKeys(text: string, keys: seq<string>): (r: seq<string>)
    ensures |r| <= |keys|
    ensures forall k :: k in r <==> k in keys && !HasKey(text, k)
  {
    if keys == [] then []
    else
      var p := keys[..|keys| - 1];
      assert keys == p + [keys[|keys| - 1]];
      var m := MissingKeys(text, p);
      if HasKey(text, keys[|keys| - 1]) then m else m + [keys[|keys| - 1]]
  }

  /** The loop over the keys that collects the missing ones. */
  method CollectMissing(text: string, keys: seq<string>) returns (r: seq<string>)
    ensures r == MissingKeys(text, keys)
  {
    r := [];
    var i := 0;
    while i < |keys|
      invariant 0 <= i <= |keys|
      invariant r == MissingKeys(text, keys[..i])
    {
      assert keys[..i + 1][..i] == keys[..i];
      if !HasKey(text, keys[i]) {
        r := r + [keys[i]];
      }
      i := i + 1;
    }
    assert keys[..|keys|] == keys;
  }

  /** The instances of the label modules in section 0: none when the course has no section 0. */
  function LabelInstances(f: CourseFacts, labelModule: int): (r: set<int>)
    ensures f.section0.None? ==> r == {}
  {
    if f.section0.None? then {}
    else set cm | cm in f.cms && cm.section == f.section0.value && cm.moduleId == labelModule :: cm.instance
  }

  /** The label records whose ids are among `ids`, in the order the database returns them. */
  function LabelsWithIds(labels: seq<Label>, ids: set<int>): (r: seq<Label>)
    ensures forall l :: l in r <==> l in labels && l.id in ids
    ensures ids == {} ==> r == []
  {
    if labels == [] then []
    else
      var p := labels[..|labels| - 1];
      assert labels == p + [labels[|labels| - 1]];
      LabelsWithIds(p, ids) + (if labels[|labels| - 1].id in ids then [labels[|labels| - 1]] else [])
  }

  /** $labels: the labels of section 0, which the tutoring and both timetable checks share. */
  function Section0Labels(f: CourseFacts, labelModule: int): (r: seq<Label>)
    ensures f.section0.None? ==> r == []
  {
    LabelsWithIds(f.labels, LabelInstances(f, labelModule))
  }

  /** The keys a label's text (tags removed) does not mention. */
  function LabelMissing(l: Label): seq<string> {
    MissingKeys(StripTags(l.intro), Claves)
  }

  /** Where the scan of the tutoring labels stands: found, and the keys still missing. */
  datatype TutoriaState = TutoriaState(found: bool, faltan: seq<string>)

  /** The scan over the missing-key lists of the labels seen so far, starting from `init`
      missing: an empty list ends it; otherwise a list strictly shorter than the best so far
      replaces it. */
  function ScanMissing(init: seq<string>, ms: seq<seq<string>>): TutoriaState {
    if ms == [] then TutoriaState(false, init)
    else
      var st := ScanMissing(init, ms[..|ms| - 1]);
      var m := ms[|ms| - 1];
      if st.found then st
      else if m == [] then TutoriaState(true, [])
      else if |m| < |st.faltan| then TutoriaState(false, m)
      else st
  }

  /** The missing-key list of each label. */
  function Missings(labels: seq<Label>): (ms: seq<seq<string>>)
    ensures |ms| == |labels| && forall i :: 0 <= i < |labels| ==> ms[i] == LabelMissing(labels[i])
  {
    seq(|labels|, i requires 0 <= i < |labels| => LabelMissing(labels[i]))
  }

  /** The tutoring scan over a list of labels. */
  function TutoriaScan(labels: seq<Label>): TutoriaState {
    ScanMissing(Claves, Missings(labels))
  }

  /** Once an empty list is seen, later ones change nothing: the `break`. */
  lemma {:induction false} ScanStaysFound(init: seq<string>, ms: seq<seq<string>>, n: nat)
    requires n <= |ms| && ScanMissing(init, ms[..n]).found
    ensures ScanMissing(init, ms) == ScanMissing(init, ms[..n])
    decreases |ms|
  {
    if n < |ms| {
      var p := ms[..|ms| - 1];
      assert p[..n] == ms[..n];
      ScanStaysFound(init, p, n);
    } else {
      assert ms[..n] == ms;
    }
  }

  /** The loop over the section-0 labels of the tutoring check. */
  method ScanTutoria(labels: seq<Label>) returns (found: bool, faltan: seq<string>)
    ensures TutoriaScan(labels) == TutoriaState(found, faltan)
  {
    ghost var ms := Missings(labels);
    found, faltan := false, Claves;
    var i := 0;
    while i < |labels|
      invariant 0 <= i <= |labels|
      invariant !found && ScanMissing(Claves, ms[..i]) == TutoriaState(false, faltan)
    {
      assert ms[..i + 1][..i] == ms[..i];
      var actual := CollectMissing(StripTags(labels[i].intro), Claves);
      assert actual == ms[i];
      if actual == [] {
        found, faltan := true, [];
        ScanStaysFound(Claves, ms, i + 1);
        return;
      } else if |actual| < |faltan| {
        faltan := actual;
      }
      i := i + 1;
    }
    assert ms[..|labels|] == ms;
  }

  /** The scan ends found exactly when some list is empty, and then nothing is missing. */
  lemma {:induction false} ScanFoundMeaning(init: seq<string>, ms: seq<seq<string>>)
    ensures ScanMissing(init, ms).found <==> exists i :: 0 <= i < |ms| && ms[i] == []
    ensures ScanMissing(init, ms).found ==> ScanMissing(init, ms).faltan == []
  {
    if ms != [] {
      var p := ms[..|ms| - 1];
      ScanFoundMeaning(init, p);
      assert forall i :: 0 <= i < |p| ==> p[i] == ms[i];
      if ScanMissing(init, p).found {
        var i :| 0 <= i < |p| && p[i] == [];
        assert ms[i] == [];
      }
    }
  }

  /** Unless found, the list reported is no longer than any list seen, and it is the initial one
      or the first list of the least length. */
  lemma {:induction false} ScanFaltanMeaning(init: seq<string>, ms: seq<seq<string>>)
    requires !ScanMissing(init, ms).found
    ensures |ScanMissing(init, ms).faltan| <= |init|
    ensures forall i :: 0 <= i < |ms| ==> |ScanMissing(init, ms).faltan| <= |ms[i]|
    ensures ScanMissing(init, ms).faltan == init
      || exists i :: 0 <= i < |ms| && ScanMissing(init, ms).faltan == ms[i] && ms[i] != []
           && forall j :: 0 <= j < i ==> |ms[j]| > |ms[i]|
  {
    if ms != [] {
      var p := ms[..|ms| - 1];
      var last := |ms| - 1;
      assert !ScanMissing(init, p).found;
      ScanFaltanMeaning(init, p);
      assert forall i :: 0 <= i < |p| ==> p[i] == ms[i];
      if |ms[last]| < |ScanMissing(init, p).faltan| {
        assert forall j :: 0 <= j < last ==> |ms[j]| > |ms[last]|;
      } else if ScanMissing(init, p).faltan != init {
        var i :| 0 <= i < |p| && ScanMissing(init, p).faltan == p[i] && p[i] != []
          && forall j :: 0 <= j < i ==> |p[j]| > |p[i]|;
        assert ScanMissing(init, ms).faltan == ms[i];
      }
    }
  }

  /** The tutoring check passes exactly when some section-0 label mentions every key. Otherwise
      the keys reported missing are never none, no more than any label misses, and either all
      the keys or those of the first label that misses the fewest. */
  lemma TutoriaMeaning(labels: seq<Label>)
    ensures TutoriaScan(labels).found <==> exists i :: 0 <= i < |labels| && LabelMissing(labels[i]) == []
    ensures TutoriaScan(labels).found ==> TutoriaScan(labels).faltan == []
    ensures !TutoriaScan(labels).found ==>
      TutoriaScan(labels).faltan != []
      && (forall i :: 0 <= i < |labels| ==> |TutoriaScan(labels).faltan| <= |LabelMissing(labels[i])|)
      && (TutoriaScan(labels).faltan == Claves
          || exists i :: 0 <= i < |labels| && TutoriaScan(labels).faltan == LabelMissing(labels[i])
               && forall j :: 0 <= j < i ==> |LabelMissing(labels[j])| > |LabelMissing(labels[i])|)
  {
    var ms := Missings(labels);
    ScanFoundMeaning(Claves, ms);
    if !TutoriaScan(labels).found {
      ScanFaltanMeaning(Claves, ms);
      if TutoriaScan(labels).faltan != Claves {
        var i :| 0 <= i < |ms| && ScanMissing(Claves, ms).faltan == ms[i] && ms[i] != []
          && forall j :: 0 <= j < i ==> |ms[j]| > |ms[i]|;
      }
    }
  }

  function TutoriaResult(st: TutoriaState): (r: CheckResult)
    ensures r.nombre == NombreTutoria && r.estado == st.found
  {
    CheckResult(NombreTutoria, st.found,
      if st.found then "Datos de tutoría encontrados" else "No se han encontrado los datos de tutoría requeridos",
      [Detail("Claves buscadas", Listed(Claves)),
       Detail("Estado", Text(if st.found then "Encontrado" else "No encontrado"))]
      + (if !st.found && |st.faltan| > 0 then [Detail("Faltan", Listed(st.faltan))] else []))
  }

  // ================================================================= the timetable labels

  const CronogramaActividades := "CRONOGRAMA DE ACTIVIDADES CALIFICABLES"
  const CronogramaSesiones := "CRONOGRAMA DE SESIONES SÍNCRONAS"

  /** The text mentions every key of `keys`. */
  predicate MentionsAll(text: string, keys: seq<string>) {
    keys == [] || (MentionsAll(text, keys[..|keys| - 1]) && HasKey(text, keys[|keys| - 1]))
  }

  lemma {:induction false} MentionsAllEach(text: string, keys: seq<string>)
    ensures MentionsAll(text, keys) <==> forall j :: 0 <= j < |keys| ==> HasKey(text, keys[j])
  {
    if keys != [] {
      var p := keys[..|keys| - 1];
      MentionsAllEach(text, p);
      assert forall j :: 0 <= j < |p| ==> p[j] == keys[j];
    }
  }

  lemma MentionsAllNeedsEach(text: string, keys: seq<string>, j: nat)
    requires j < |keys| && !HasKey(text, keys[j])
    ensures !MentionsAll(text, keys)
  {
    MentionsAllEach(text, keys);
  }

  /** $es_label_tutoria: the text mentions every tutoring key. */
  predicate MentionsAllKeys(text: string) {
    MentionsAll(text, Claves)
  }

  /** A text mentions every key exactly when the tutoring check finds none missing in it. */
  lemma MentionsAllKeysMeansNoneMissing(text: string)
    ensures MentionsAllKeys(text) <==> MissingKeys(text, Claves) == []
  {
    MentionsAllEach(text, Claves);
    var m := MissingKeys(text, Claves);
    if m != [] {
      assert m[0] in m;
    }
  }

  /** The inner loop that decides $es_label_tutoria, stopping at the first key not mentioned. */
  method CheckAllKeys(text: string) returns (all: bool)
    ensures all <==> MentionsAllKeys(text)
  {
    MentionsAllEach(text, Claves);
    all := true;
    var i := 0;
    while i < |Claves|
      invariant 0 <= i <= |Claves|
      invariant all && forall j :: 0 <= j < i ==> HasKey(text, Claves[j])
    {
      if !HasKey(text, Claves[i]) {
        all := false;
        return;
      }
      i := i + 1;
    }
  }

  /** A timetable label: its markup holds a table (`stripos`, ASCII folding), its text holds
      the title under the given folding, and it is not the tutoring label. */
  predicate IsCronogramaLabel(l: Label, texto: string, fold: CaseFold) {
    ContainsFolded(l.intro, "<table", AsciiFold)
    && ContainsFolded(StripTags(l.intro), texto, fold)
    && !MentionsAllKeys(StripTags(l.intro))
  }

  /** Some label is a timetable of that title. */
  predicate HasCronograma(labels: seq<Label>, texto: string, fold: CaseFold) {
    exists i :: 0 <= i < |labels| && IsCronogramaLabel(labels[i], texto, fold)
  }

  /** One pass of the timetable loop: the table test, the title test, the tutoring test. */
  method TestCronograma(l: Label, texto: string, fold: CaseFold) returns (ok: bool)
    ensures ok == IsCronogramaLabel(l, texto, fold)
  {
    var tieneTabla := ContainsFolded(l.intro, "<table", AsciiFold);
    var tieneTexto := ContainsFolded(StripTags(l.intro), texto, fold);
    var esTutoria := CheckAllKeys(StripTags(l.intro));
    ok := tieneTabla && tieneTexto && !esTutoria;
  }

  /** The loop over the section-0 labels of a timetable check, stopping at the first match. */
  method CheckCronograma(labels: seq<Label>, texto: string, fold: CaseFold) returns (ok: bool)
    ensures ok <==> exists i :: 0 <= i < |labels| && IsCronogramaLabel(labels[i], texto, fold)
  {
    ok := false;
    var i := 0;
    while i < |labels|
      invariant 0 <= i <= |labels|
      invariant !ok && forall j :: 0 <= j < i ==> !IsCronogramaLabel(labels[j], texto, fold)
    {
      var hit := TestCronograma(labels[i], texto, fold);
      if hit {
        ok := true;
        return;
      }
      i := i + 1;
    }
  }

  /** A label taken for a timetable is never one the tutoring check accepts. */
  lemma CronogramaIsNotTutoria(l: Label, texto: string, fold: CaseFold)
    requires IsCronogramaLabel(l, texto, fold)
    ensures LabelMissing(l) != []
  {
    MentionsAllKeysMeansNoneMissing(StripTags(l.intro));
  }

  function CronogramaResult(nombre: string, texto: string, okMsg: string, failMsg: string, ok: bool): CheckResult {
    CheckResult(nombre, ok, if ok then okMsg else failMsg,
      [Detail("0", TimetableHint(texto))])
  }

  /** The synchronous-sessions timetable as written: its title, which holds an 'Í', is searched
      with `stripos`, whose folding leaves that letter as it is. */
  predicate SesionesLabelAsWritten(l: Label) {
    IsCronogramaLabel(l, CronogramaSesiones, AsciiFold)
  }

  /** The synchronous-sessions timetable as evidently intended: the title is matched whatever the
      case of its letters, accented ones included, as the tutoring keys are. */
  predicate SesionesLabel(l: Label) {
    IsCronogramaLabel(l, CronogramaSesiones, Latin1Fold)
  }

  const SesionesLowercase := "Cronograma de sesiones síncronas"
  /** A label's markup: a table opening, then the title in lower case. */
  const SesionesLowercaseIntro := "<" + "table" + ">" + SesionesLowercase

  lemma LowercaseTitlePlain()
    ensures StripTags(SesionesLowercase) == SesionesLowercase
  {
    assert '<' !in SesionesLowercase;
    StripTagsPlainText(SesionesLowercase);
  }

  lemma TableThenText(t: string)
    requires StripTags(t) == t
    ensures StripTags("<" + "table" + ">" + t) == t
  {
    StripTagsOpeningTag("table", t);
  }

  lemma LowercaseIntroStripped()
    ensures StripTags(SesionesLowercaseIntro) == SesionesLowercase
  {
    LowercaseTitlePlain();
    TableThenText(SesionesLowercase);
  }

  lemma LowercaseIntroHasTable()
    ensures ContainsFolded(SesionesLowercaseIntro, "<table", AsciiFold)
  {
    assert SesionesLowercaseIntro == "<table" + (">" + SesionesLowercase);
    ContainsFoldedPrefix("<table", ">" + SesionesLowercase, AsciiFold);
  }

  lemma LowercaseTitleAscii()
    ensures !ContainsFolded(SesionesLowercase, CronogramaSesiones, AsciiFold)
  {
    var ta, na := Lower(SesionesLowercase, AsciiFold), Lower(CronogramaSesiones, AsciiFold);
    assert ta[24] == 'í' && na[24] == 'Í';
    SameLengthFound(ta, na);
  }

  lemma LowercaseTitleFolded()
    ensures Lower(SesionesLowercase, Latin1Fold) == "cronograma de sesiones síncronas"
  {
  }

  lemma TitleFolded()
    ensures Lower(CronogramaSesiones, Latin1Fold) == "cronograma de sesiones síncronas"
  {
  }

  lemma LowercaseTitleLatin1()
    ensures ContainsFolded(SesionesLowercase, CronogramaSesiones, Latin1Fold)
  {
    LowercaseTitleFolded();
    TitleFolded();
    SameLengthFound(Lower(SesionesLowercase, Latin1Fold), Lower(CronogramaSesiones, Latin1Fold));
  }

  lemma LowercaseTitleNoProfesor()
    ensures !HasKey(SesionesLowercase, "Profesor:")
  {
    var tu, pu := Lower(SesionesLowercase, Latin1Fold), Lower("Profesor:", Latin1Fold);
    assert ':' !in tu;
    assert pu[8] == ':';
    AbsentCharNotFound(tu, pu, 8);
  }

  lemma LowercaseTitleNotTutoria()
    ensures !MentionsAllKeys(SesionesLowercase)
  {
    LowercaseTitleNoProfesor();
    MentionsAllNeedsEach(SesionesLowercase, Claves, 0);
  }

  /** A label with a table and the title in lower case: the check as written rejects it, the
      corrected one accepts it. */
  lemma SesionesAsWrittenMissesLowercase()
    ensures !SesionesLabelAsWritten(Label(1, SesionesLowercaseIntro))
    ensures SesionesLabel(Label(1, SesionesLowercaseIntro))
  {
    LowercaseIntroStripped();
    LowercaseIntroHasTable();
    LowercaseTitleAscii();
    LowercaseTitleLatin1();
    LowercaseTitleNotTutoria();
  }

  /** The correction only adds labels: every label the check as written accepts, it accepts. */
  lemma SesionesLabelExtendsAsWritten(l: Label)
    requires SesionesLabelAsWritten(l)
    ensures SesionesLabel(l)
  {
    AsciiFoundLatin1Found(StripTags(l.intro), CronogramaSesiones);
  }

  // ================================================================= gradebook categories

  const Requeridas: seq<string> := [
    "Actividades de aprendizaje",
    "Controles",
    "Actividades de evaluación continua",
    "Examen final",
    "Actividades no evaluables"
  ]

  const NoEvaluables := "Actividades no evaluables"

  lemma RequeridasDistinct()
    ensures Distinct(Requeridas)
  {
  }

  /** array_search plus unset: the first element equal to `x` is dropped, the others keep their
      order. */
  function RemoveFirst(xs: seq<string>, x: string): (r: seq<string>)
    ensures x in xs ==> |r| == |xs| - 1
    ensures x !in xs ==> r == xs
    ensures forall y :: y in r ==> y in xs
    ensures forall y :: y != x ==> (y in r <==> y in xs)
  {
    if xs == [] then []
    else if xs[0] == x then xs[1..]
    else [xs[0]] + RemoveFirst(xs[1..], x)
  }

  /** In a list without repetitions, removing the first `x` removes every `x`. */
  lemma {:induction false} RemoveFirstDistinct(xs: seq<string>, x: string)
    requires Distinct(xs)
    ensures Distinct(RemoveFirst(xs, x)) && x !in RemoveFirst(xs, x)
  {
    if xs != [] {
      var t := xs[1..];
      assert forall k :: 0 <= k < |t| ==> t[k] == xs[k + 1];
      assert xs[0] !in t;
      assert Distinct(t);
      if xs[0] != x {
        RemoveFirstDistinct(t, x);
      }
    }
  }

  /** trim($cat->fullname). */
  function CategoryName(c: GradeCategory): string {
    Trim(c.fullname)
  }

  predicate IsNamed(c: GradeCategory, name: string) {
    CategoryName(c) == name
  }

  /** The required names no category seen so far has removed. */
  function Faltan(init: seq<string>, cats: seq<GradeCategory>): seq<string> {
    if cats == [] then init
    else RemoveFirst(Faltan(init, cats[..|cats| - 1]), CategoryName(cats[|cats| - 1]))
  }

  /** The grade item of a category: the first item of type 'category' for that instance. */
  function CategoryItem(items: seq<GradeItem>, catId: int): (r: Option<GradeItem>)
    ensures r.Some? ==> r.value in items && r.value.itemtype == "category" && r.value.iteminstance == catId
    ensures r.None? ==> forall it :: it in items ==> !(it.itemtype == "category" && it.iteminstance == catId)
  {
    if items == [] then None
    else if items[0].itemtype == "category" && items[0].iteminstance == catId then Some(items[0])
    else CategoryItem(items[1..], catId)
  }

  /** The weight in force: the overriding weight when the override flag is set. */
  function ItemWeight(it: GradeItem): Decimal {
    if it.weightoverride then it.aggregationcoef2 else it.aggregationcoef
  }

  /** The weight a category named "Actividades no evaluables" records: none without a grade item. */
  function CategoryWeight(items: seq<GradeItem>, c: GradeCategory): Option<Decimal> {
    match CategoryItem(items, c.id)
    case None => None
    case Some(it) => Some(ItemWeight(it))
  }

  /** The weight recorded after the categories seen so far: each category of the given name
      overwrites it. */
  function WeightOfLast(cats: seq<GradeCategory>, items: seq<GradeItem>, name: string): Option<Decimal> {
    if cats == [] then None
    else if IsNamed(cats[|cats| - 1], name) then CategoryWeight(items, cats[|cats| - 1])
    else WeightOfLast(cats[..|cats| - 1], items, name)
  }

  /** $peso_actividades_no_evaluables. */
  function Peso(cats: seq<GradeCategory>, items: seq<GradeItem>): Option<Decimal> {
    WeightOfLast(cats, items, NoEvaluables)
  }

  /** The loop over the gradebook categories. */
  method ScanCategorias(cats: seq<GradeCategory>, items: seq<GradeItem>)
    returns (faltan: seq<string>, peso: Option<Decimal>)
    ensures faltan == Faltan(Requeridas, cats) && peso == Peso(cats, items)
  {
    faltan, peso := Requeridas, None;
    var i := 0;
    while i < |cats|
      invariant 0 <= i <= |cats|
      invariant faltan == Faltan(Requeridas, cats[..i]) && peso == WeightOfLast(cats[..i], items, NoEvaluables)
    {
      assert cats[..i + 1][..i] == cats[..i];
      var nombre := Trim(cats[i].fullname);
      faltan := RemoveFirst(faltan, nombre);
      if nombre == NoEvaluables {
        var item := CategoryItem(items, cats[i].id);
        if item.Some? {
          peso := Some(ItemWeight(item.value));
        } else {
          peso := None;
        }
      }
      i := i + 1;
    }
    assert cats[..|cats|] == cats;
  }

  /** From a list without repetitions, the names left are exactly those no category carries,
      each once. */
  lemma {:induction false} FaltanMeaning(init: seq<string>, cats: seq<GradeCategory>)
    requires Distinct(init)
    ensures Distinct(Faltan(init, cats))
    ensures forall r :: r in Faltan(init, cats) <==>
      r in init && forall i :: 0 <= i < |cats| ==> CategoryName(cats[i]) != r
  {
    if cats != [] {
      var p := cats[..|cats| - 1];
      FaltanMeaning(init, p);
      RemoveFirstDistinct(Faltan(init, p), CategoryName(cats[|cats| - 1]));
      assert forall i :: 0 <= i < |p| ==> p[i] == cats[i];
    }
  }

  /** No category of the name: no weight. */
  lemma {:induction false} WeightOfLastNone(cats: seq<GradeCategory>, items: seq<GradeItem>, name: string)
    requires forall i :: 0 <= i < |cats| ==> !IsNamed(cats[i], name)
    ensures WeightOfLast(cats, items, name).None?
  {
    if cats != [] {
      var p := cats[..|cats| - 1];
      assert forall i :: 0 <= i < |p| ==> p[i] == cats[i];
      WeightOfLastNone(p, items, name);
    }
  }

  /** The weight recorded is that of the last category of the name. */
  lemma {:induction false} WeightOfLastIsLast(cats: seq<GradeCategory>, items: seq<GradeItem>, name: string, i: nat)
    requires i < |cats| && IsNamed(cats[i], name)
    requires forall j :: i < j < |cats| ==> !IsNamed(cats[j], name)
    ensures WeightOfLast(cats, items, name) == CategoryWeight(items, cats[i])
  {
    if i < |cats| - 1 {
      var p := cats[..|cats| - 1];
      assert forall j :: 0 <= j < |p| ==> p[j] == cats[j];
      WeightOfLastIsLast(p, items, name, i);
    }
  }

  /** abs((float)$peso) < 0.00001: with five decimal places, only a zero weight. */
  predicate WeightIsZero(d: Decimal) {
    d.units == 0
  }

  /** abs((float)$peso) > 0.00001: more than one unit of the last place either way. */
  predicate WeightTooLarge(d: Decimal) {
    d.units > 1 || d.units < -1
  }

  /** The category check passes when nothing is missing and the weight, if any, is zero. */
  predicate CategoriasOk(faltan: seq<string>, peso: Option<Decimal>) {
    faltan == [] && (peso.None? || WeightIsZero(peso.value))
  }

  const CategoriasOkMsg := "Todas las categorías requeridas están presentes y el peso es correcto"
  const CategoriasFailMsg := "Faltan categorías o el peso de \"Actividades no evaluables\" no es 0"

  /** A PHP value as far as `===` tells values apart: by type, then by content. */
  datatype PhpValue = PhpNull | PhpInt(n: int) | PhpNumericString(d: Decimal)

  /** The weight as the database layer hands it over: null, or the column's text. */
  function WeightAsRead(peso: Option<Decimal>): PhpValue {
    match peso
    case None => PhpNull
    case Some(d) => PhpNumericString(d)
  }

  /** The message as written: it requires `$peso === 0`, an identity with an integer that a
      weight read from the database never has. */
  function CategoriasMensajeAsWritten(faltan: seq<string>, peso: Option<Decimal>): (r: string)
    ensures r == CategoriasFailMsg
  {
    if faltan == [] && WeightAsRead(peso) == PhpInt(0) then CategoriasOkMsg else CategoriasFailMsg
  }

  /** The message as written never reports success, even for a course that passes. */
  lemma CategoriasMensajeAsWrittenContradicts()
    ensures CategoriasOk([], Some(Decimal(0)))
    ensures CategoriasMensajeAsWritten([], Some(Decimal(0))) == CategoriasFailMsg
    ensures CategoriasOkMsg != CategoriasFailMsg
  {
  }

  /** The message as evidently intended: it reports what the state says, as every other check's
      message does. */
  function CategoriasMensaje(faltan: seq<string>, peso: Option<Decimal>): (r: string)
    ensures r == CategoriasOkMsg <==> CategoriasOk(faltan, peso)
  {
    if CategoriasOk(faltan, peso) then CategoriasOkMsg else CategoriasFailMsg
  }

  /** The category result under either reading: the state, the message and the details. */
  function CategoriasResult(faltan: seq<string>, peso: Option<Decimal>, v: Reading): (r: CheckResult)
    ensures r.nombre == NombreCategorias && r.estado == CategoriasOk(faltan, peso)
    ensures v == AsWritten ==> r.mensaje == CategoriasFailMsg
    ensures v == Corrected ==> (r.mensaje == CategoriasOkMsg <==> r.estado)
  {
    CheckResult(NombreCategorias, CategoriasOk(faltan, peso),
      if v == AsWritten then CategoriasMensajeAsWritten(faltan, peso) else CategoriasMensaje(faltan, peso),
      [Detail("Requeridas", Listed(Requeridas)),
       Detail("Faltan", if faltan == [] then Text("-") else Listed(faltan))]
      + (match peso
         case None => [Detail("Peso \"Actividades no evaluables\"", Text("-"))]
         case Some(d) =>
           [Detail("Peso \"Actividades no evaluables\"", Weight(d))]
           + (if WeightTooLarge(d) then [Detail("Error peso", Text("La categoría \"Actividades no evaluables\" debe tener peso 0"))] else [])))
  }

  /** The category check passes exactly when every required name is the trimmed full name of
      some category and the weight recorded, if any, is zero. */
  lemma CategoriasMeaning(cats: seq<GradeCategory>, items: seq<GradeItem>)
    ensures CategoriasOk(Faltan(Requeridas, cats), Peso(cats, items)) <==>
      (forall r :: r in Requeridas ==> exists i :: 0 <= i < |cats| && CategoryName(cats[i]) == r)
      && (Peso(cats, items).None? || Peso(cats, items).value.units == 0)
  {
    RequeridasDistinct();
    FaltanMeaning(Requeridas, cats);
    var faltan := Faltan(Requeridas, cats);
    if faltan != [] {
      assert faltan[0] in faltan;
    }
  }

  /** With a weight recorded and nothing missing, the check passes only for weight zero, the
      error line appears only beyond one unit of the last place, and a weight of exactly one
      unit fails without it (the two float comparisons share their bound). */
  lemma WeightBoundary(d: Decimal)
    ensures CategoriasOk([], Some(d)) <==> d.units == 0
    ensures WeightTooLarge(d) <==> d.units < -1 || 1 < d.units
    ensures d.units == 1 || d.units == -1 ==> !CategoriasOk([], Some(d)) && !WeightTooLarge(d)
  {
  }

  // ================================================================= the whole list

  /** Which program the list follows: the plugin as written, or the plugin with the two
      corrections applied (the sessions title searched with the folding of `mb_stripos`, and a
      category message that agrees with the category state). */
  datatype Reading = AsWritten | Corrected

  /** The folding the sessions title is searched with under each reading. */
  function SesionesFold(v: Reading): (fold: CaseFold)
    ensures v == AsWritten <==> fold == AsciiFold
  {
    if v == AsWritten then AsciiFold else Latin1Fold
  }

  /** The forum results, one per required forum, in the order of the list. */
  function ForumResults(f: CourseFacts, byInstance: map<int, CourseModule>): (r: seq<CheckResult>)
    ensures Names(r) == [NombreTablon, NombreForoEstudiantes, NombreForoTutorias]
    ensures f.section0.None? ==> forall k :: 0 <= k < |r| ==> !r[k].estado
  {
    seq(|ForumRoles|, k requires 0 <= k < |ForumRoles| =>
      ForumResult(ForumRoles[k], ForumOk(f.forums, byInstance, f.section0, ForumRoles[k])))
  }

  /** The lookup of a module type with MUST_EXIST fails with this message when the type is not
      installed. */
  function MissingModule(name: string): string {
    "modules: " + name
  }

  /** The two date results. */
  function Fechas(f: CourseFacts, config: Config): (r: seq<CheckResult>)
    ensures Names(r) == [NombreFechaInicio, NombreFechaFin]
  {
    [DateResult(NombreFechaInicio, "Fecha Inicio validada", "Fecha Inicio NO validada",
       f.course.startdate, config.fechainiciovalidacion, DefaultFormat),
     DateResult(NombreFechaFin, "Fecha Fin validada", "Fecha Fin NO validada",
       f.course.enddate, config.fechafinvalidacion, DefaultFormat)]
  }

  function ActividadesResult(ok: bool): (r: CheckResult)
    ensures r.nombre == NombreActividades && r.estado == ok
  {
    CronogramaResult(NombreActividades, CronogramaActividades,
      "Cronograma encontrado", "No se ha encontrado el cronograma en la sección 0", ok)
  }

  function SesionesResult(ok: bool): (r: CheckResult)
    ensures r.nombre == NombreSesiones && r.estado == ok
  {
    CronogramaResult(NombreSesiones, CronogramaSesiones,
      "Cronograma de sesiones encontrado", "No se ha encontrado el cronograma de sesiones en la sección 0", ok)
  }

  /** The results of the three checks over the section-0 labels. */
  function LabelResults(labels: seq<Label>, v: Reading): (r: seq<CheckResult>)
    ensures Names(r) == [NombreTutoria, NombreActividades, NombreSesiones]
    ensures r[0].estado == TutoriaScan(labels).found
    ensures r[1].estado == HasCronograma(labels, CronogramaActividades, AsciiFold)
    ensures r[2].estado == HasCronograma(labels, CronogramaSesiones, SesionesFold(v))
  {
    [TutoriaResult(TutoriaScan(labels)),
     ActividadesResult(HasCronograma(labels, CronogramaActividades, AsciiFold)),
     SesionesResult(HasCronograma(labels, CronogramaSesiones, SesionesFold(v)))]
  }

  /** The list in the order the checks append to it. */
  function Assemble(fechas: seq<CheckResult>, foros: seq<CheckResult>, guia: CheckResult,
                    labels: seq<CheckResult>, categorias: CheckResult): seq<CheckResult>
  {
    fechas + foros + [guia] + labels + [categorias]
  }

  /** get_validaciones under a reading: the ten results, named as listed and in that order, or
      the exception raised when the forum or label module type is not installed. The plugin is
      `Validaciones(f, config, AsWritten)`. */
  function Validaciones(f: CourseFacts, config: Config, v: Reading): (r: Result<seq<CheckResult>>)
    ensures r.Err? <==> f.forumModule.None? || f.labelModule.None?
  {
    if f.forumModule.None? then Err(MissingModule("forum"))
    else if f.labelModule.None? then Err(MissingModule("label"))
    else
      Ok(Assemble(Fechas(f, config),
                  ForumResults(f, CmsByInstance(f.cms, f.forumModule.value)),
                  GuiaResult(GuiaFound(f), GuiaUrlOk(GuiaFound(f)), GuiaAviso(f)),
                  LabelResults(Section0Labels(f, f.labelModule.value), v),
                  CategoriasResult(Faltan(Requeridas, f.categories), Peso(f.categories, f.gradeItems), v)))
  }

  /** The loop over the required forums. */
  method CheckForums(f: CourseFacts, byInstance: map<int, CourseModule>) returns (rs: seq<CheckResult>)
    ensures rs == ForumResults(f, byInstance)
  {
    rs := [];
    var k := 0;
    while k < |ForumRoles|
      invariant 0 <= k <= |ForumRoles|
      invariant rs == ForumResults(f, byInstance)[..k]
    {
      var res := CheckForum(f.forums, byInstance, f.section0, ForumRoles[k]);
      rs := rs + [res];
      assert ForumResults(f, byInstance)[..k + 1] == ForumResults(f, byInstance)[..k] + [res];
      k := k + 1;
    }
    assert ForumResults(f, byInstance)[..|ForumRoles|] == ForumResults(f, byInstance);
  }

  /** The tutoring check and the two timetable checks, over the same labels. */
  method CheckLabels(labels: seq<Label>) returns (rs: seq<CheckResult>)
    ensures rs == LabelResults(labels, AsWritten)
  {
    var found, faltan := ScanTutoria(labels);
    var actividades := CheckCronograma(labels, CronogramaActividades, AsciiFold);
    var sesiones := CheckCronograma(labels, CronogramaSesiones, AsciiFold);
    assert actividades == HasCronograma(labels, CronogramaActividades, AsciiFold);
    assert sesiones == HasCronograma(labels, CronogramaSesiones, AsciiFold);
    rs := [TutoriaResult(TutoriaState(found, faltan)), ActividadesResult(actividades), SesionesResult(sesiones)];
  }

  /** get_validaciones as the source runs it: each check appends its results in turn. */
  method GetValidaciones(f: CourseFacts, config: Config) returns (r: Result<seq<CheckResult>>)
    ensures r == Validaciones(f, config, AsWritten)
  {
    var v := Fechas(f, config);
    if f.forumModule.None? {
      return Err(MissingModule("forum"));
    }
    var byInstance := IndexCmsByInstance(f.cms, f.forumModule.value);
    var foros := CheckForums(f, byInstance);
    v := v + foros;
    var guia := CheckGuia(f);
    v := v + [guia];
    if f.labelModule.None? {
      return Err(MissingModule("label"));
    }
    var enLabels := CheckLabels(Section0Labels(f, f.labelModule.value));
    v := v + enLabels;
    var faltan, peso := ScanCategorias(f.categories, f.gradeItems);
    v := v + [CategoriasResult(faltan, peso, AsWritten)];
    r := Ok(v);
  }

  // ================================================================= properties of the list

  lemma NamesAppend(a: seq<CheckResult>, b: seq<CheckResult>)
    ensures Names(a + b) == Names(a) + Names(b)
  {
  }

  lemma ExpectedNamesDistinct()
    ensures Distinct(ExpectedNames)
  {
  }

  lemma {:induction false} AssembleNames(fechas: seq<CheckResult>, foros: seq<CheckResult>, guia: CheckResult,
                                      labels: seq<CheckResult>, categorias: CheckResult)
    requires Names(fechas) == [NombreFechaInicio, NombreFechaFin]
    requires Names(foros) == [NombreTablon, NombreForoEstudiantes, NombreForoTutorias]
    requires guia.nombre == NombreGuia
    requires Names(labels) == [NombreTutoria, NombreActividades, NombreSesiones]
    requires categorias.nombre == NombreCategorias
    ensures Names(Assemble(fechas, foros, guia, labels, categorias)) == ExpectedNames
  {
    NamesAppend(fechas, foros);
    NamesAppend(fechas + foros, [guia]);
    NamesAppend(fechas + foros + [guia], labels);
    NamesAppend(fechas + foros + [guia] + labels, [categorias]);
  }

  /** The ten results carry the ten names, in order, and no two share one. */
  lemma ValidacionesNames(f: CourseFacts, config: Config, v: Reading)
    requires Validaciones(f, config, v).Ok?
    ensures Names(Validaciones(f, config, v).value) == ExpectedNames
    ensures Distinct(Names(Validaciones(f, config, v).value))
  {
    AssembleNames(Fechas(f, config),
                  ForumResults(f, CmsByInstance(f.cms, f.forumModule.value)),
                  GuiaResult(GuiaFound(f), GuiaUrlOk(GuiaFound(f)), GuiaAviso(f)),
                  LabelResults(Section0Labels(f, f.labelModule.value), v),
                  CategoriasResult(Faltan(Requeridas, f.categories), Peso(f.categories, f.gradeItems), v));
    ExpectedNamesDistinct();
  }

  /** The positions of the dates, forum, syllabus, label and category results in the list. */
  lemma {:induction false} AssembleAt(fechas: seq<CheckResult>, foros: seq<CheckResult>, guia: CheckResult,
                                   labels: seq<CheckResult>, categorias: CheckResult)
    requires |fechas| == 2 && |foros| == 3 && |labels| == 3
    ensures var r := Assemble(fechas, foros, guia, labels, categorias);
      |r| == 10 && r[0] == fechas[0] && r[1] == fechas[1]
      && (forall k :: 2 <= k < 5 ==> r[k] == foros[k - 2]) && r[5] == guia
      && (forall k :: 6 <= k < 9 ==> r[k] == labels[k - 6]) && r[9] == categorias
  {
  }

  /** A course without a section 0 fails every check tied to it: the three forums, the syllabus,
      the tutoring data and both timetables. */
  lemma NoSection0Fails(f: CourseFacts, config: Config, v: Reading)
    requires f.section0.None? && Validaciones(f, config, v).Ok?
    ensures forall k :: 2 <= k < 9 ==> !Validaciones(f, config, v).value[k].estado
  {
    var foros := ForumResults(f, CmsByInstance(f.cms, f.forumModule.value));
    var labels := LabelResults(Section0Labels(f, f.labelModule.value), v);
    AssembleAt(Fechas(f, config), foros,
               GuiaResult(GuiaFound(f), GuiaUrlOk(GuiaFound(f)), GuiaAviso(f)),
               labels,
               CategoriasResult(Faltan(Requeridas, f.categories), Peso(f.categories, f.gradeItems), v));
    assert Section0Labels(f, f.labelModule.value) == [];
    NoLabelsFail(Section0Labels(f, f.labelModule.value), v);
    assert GuiaFound(f).None?;
  }

  /** With no labels, none of the three label checks passes. */
  lemma NoLabelsFail(labels: seq<Label>, v: Reading)
    requires labels == []
    ensures forall k :: 0 <= k < |LabelResults(labels, v)| ==> !LabelResults(labels, v)[k].estado
  {
    assert Missings(labels) == [];
  }

  /** The correction of the sessions search only adds timetables: a label list that has one as
      written has one under the folding of `mb_stripos`. */
  lemma SesionesCorrectionExtends(labels: seq<Label>)
    requires HasCronograma(labels, CronogramaSesiones, AsciiFold)
    ensures HasCronograma(labels, CronogramaSesiones, Latin1Fold)
  {
    var i :| 0 <= i < |labels| && IsCronogramaLabel(labels[i], CronogramaSesiones, AsciiFold);
    SesionesLabelExtendsAsWritten(labels[i]);
  }

  /** The label results under the two readings: the same tutoring and activities entries, and a
      sessions entry the correction can only turn from failed to passed. */
  lemma LabelReadings(labels: seq<Label>)
    ensures var a, c := LabelResults(labels, AsWritten), LabelResults(labels, Corrected);
      a[0] == c[0] && a[1] == c[1] && a[2].nombre == c[2].nombre && (a[2].estado ==> c[2].estado)
  {
    if HasCronograma(labels, CronogramaSesiones, AsciiFold) {
      SesionesCorrectionExtends(labels);
    }
  }

  /** Two lists assembled from pieces that differ only in the last label entry and in the
      category entry differ only at positions 8 and 9. */
  lemma {:induction false} AssembleReadings(fechas: seq<CheckResult>, foros: seq<CheckResult>, guia: CheckResult,
                                         la: seq<CheckResult>, lc: seq<CheckResult>, ca: CheckResult, cc: CheckResult)
    requires |fechas| == 2 && |foros| == 3 && |la| == 3 && |lc| == 3 && la[0] == lc[0] && la[1] == lc[1]
    ensures var a, c := Assemble(fechas, foros, guia, la, ca), Assemble(fechas, foros, guia, lc, cc);
      |a| == 10 && |c| == 10 && (forall k :: 0 <= k < 8 ==> a[k] == c[k]) && a[8] == la[2] && c[8] == lc[2]
      && a[9] == ca && c[9] == cc
  {
    AssembleAt(fechas, foros, guia, la, ca);
    AssembleAt(fechas, foros, guia, lc, cc);
  }

  /** The plugin and its corrected reading raise on the same courses, and otherwise differ in
      two places only: the sessions entry, which the correction can only turn from failed to
      passed, and the category message, which as written always reports failure and corrected
      reports the category state. */
  lemma ReadingsAgree(f: CourseFacts, config: Config)
    ensures Validaciones(f, config, AsWritten).Ok? == Validaciones(f, config, Corrected).Ok?
    ensures Validaciones(f, config, AsWritten).Ok? ==>
      var a, c := Validaciones(f, config, AsWritten).value, Validaciones(f, config, Corrected).value;
      |a| == 10 && |c| == 10
      && (forall k :: 0 <= k < 8 ==> a[k] == c[k])
      && a[8].nombre == c[8].nombre && (a[8].estado ==> c[8].estado)
      && a[9].nombre == c[9].nombre && a[9].estado == c[9].estado && a[9].detalle == c[9].detalle
      && a[9].mensaje == CategoriasFailMsg
      && (c[9].mensaje == CategoriasOkMsg <==> c[9].estado)
  {
    if Validaciones(f, config, AsWritten).Ok? {
      var labels := Section0Labels(f, f.labelModule.value);
      var faltan, peso := Faltan(Requeridas, f.categories), Peso(f.categories, f.gradeItems);
      LabelReadings(labels);
      AssembleReadings(Fechas(f, config), ForumResults(f, CmsByInstance(f.cms, f.forumModule.value)),
                       GuiaResult(GuiaFound(f), GuiaUrlOk(GuiaFound(f)), GuiaAviso(f)),
                       LabelResults(labels, AsWritten), LabelResults(labels, Corrected),
                       CategoriasResult(faltan, peso, AsWritten), CategoriasResult(faltan, peso, Corrected));
    }
  }

  /** A forum check passes exactly when the first forum of the role's type and title has a
      course module and the last of them lies in section 0. */
  lemma ForumOkMeaning(f: CourseFacts, m: int, role: ForumRole)
    ensures ForumOk(f.forums, CmsByInstance(f.cms, m), f.section0, role) <==>
      FirstForum(f.forums, role.ftype, role.titulo).Some? && f.section0.Some?
      && exists c :: 0 <= c < |f.cms|
           && IsModuleOf(f.cms[c], m, f.forums[FirstForum(f.forums, role.ftype, role.titulo).value].id)
           && f.cms[c].section == f.section0.value
           && forall d :: c < d < |f.cms| ==> !IsModuleOf(f.cms[d], m, f.forums[FirstForum(f.forums, role.ftype, role.titulo).value].id)
  {
    var first := FirstForum(f.forums, role.ftype, role.titulo);
    if first.Some? {
      var id := f.forums[first.value].id;
      CmsByInstanceIsLast(f.cms, m, id);
      if id in CmsByInstance(f.cms, m) {
        var c :| 0 <= c < |f.cms| && IsModuleOf(f.cms[c], m, id) && CmsByInstance(f.cms, m)[id] == f.cms[c]
          && forall d :: c < d < |f.cms| ==> !IsModuleOf(f.cms[d], m, id);
        forall c' | 0 <= c' < |f.cms| && IsModuleOf(f.cms[c'], m, id)
          && forall d :: c' < d < |f.cms| ==> !IsModuleOf(f.cms[d], m, id)
          ensures c' == c
        {
        }
      }
    }
  }

  /** On any list of modules: the link found is in the domain exactly when the first "Guía
      Docente" URL links there, and nothing is found exactly when no module is one. */
  lemma FoundInMeaning(f: CourseFacts, mods: seq<CourseModule>)
    ensures GuiaUrlOk(FoundIn(f, mods)) <==>
      exists i :: FirstGuiaAt(f, mods, i) && InGuiaDomain(UrlOf(f, mods[i]).value.externalurl)
    ensures FoundIn(f, mods).None? <==> forall i :: 0 <= i < |mods| ==> !IsGuiaModule(f, mods[i])
  {
    if exists i :: FirstGuiaAt(f, mods, i) {
      var i :| FirstGuiaAt(f, mods, i);
      FirstIsUnique(f, mods, i);
    }
  }

  /** The syllabus check passes exactly when section 0 holds a URL named "Guía Docente" and the
      first such URL links into the institution's domain; the accent warning is shown only when
      there is none. */
  lemma GuiaMeaning(f: CourseFacts)
    ensures GuiaResult(GuiaFound(f), GuiaUrlOk(GuiaFound(f)), GuiaAviso(f)).estado <==>
      exists i :: FirstGuiaAt(f, Section0Mods(f), i) && InGuiaDomain(UrlOf(f, Section0Mods(f)[i]).value.externalurl)
    ensures GuiaAviso(f) ==> forall i :: 0 <= i < |Section0Mods(f)| ==> !IsGuiaModule(f, Section0Mods(f)[i])
  {
    FoundInMeaning(f, Section0Mods(f));
  }
}
