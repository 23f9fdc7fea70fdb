/**
 * The course block (block_validacursos): its own, older list of three checks
 * (obtener_validaciones) and the memoised block content (get_content).
 */
module Block {
  import opened Wrappers
  import opened Php
  import opened Facts
  import opened Validator

  /** One of the block's two forum checks: result name, forum type and forum title. */
  datatype BlockForum = BlockForum(nombre: string, ftype: string, titulo: string)

  const Anuncios := BlockForum("Foro de anuncios", "news", "Tablón de anuncios")
  const Comunicacion := BlockForum(NombreForoEstudiantes, "general", "Foro de comunicación entre estudiantes")

  /** The position of the first course module of that module type and instance: the
      three-field get_record on course_modules. */
  function FirstCm(cms: seq<CourseModule>, moduleId: int, instance: int): (r: Option<nat>)
    ensures r.Some? ==> r.value < |cms| && IsModuleOf(cms[r.value], moduleId, instance)
    ensures r.Some? ==> forall j :: 0 <= j < r.value ==> !IsModuleOf(cms[j], moduleId, instance)
    ensures r.None? ==> forall j :: 0 <= j < |cms| ==> !IsModuleOf(cms[j], moduleId, instance)
  {
    if cms == [] then None
    else if IsModuleOf(cms[0], moduleId, instance) then Some(0)
    else
      match FirstCm(cms[1..], moduleId, instance)
      case None => None
      case Some(k) => Some(k + 1)
  }

  /** The course module found for the forum at position `i`; none when the forum module type
      is not installed (get_field gives false, which matches no module). */
  function ForumCm(f: CourseFacts, i: nat): Option<CourseModule>
    requires i < |f.forums|
  {
    if f.forumModule.None? then None
    else
      match FirstCm(f.cms, f.forumModule.value, f.forums[i].id)
      case None => None
      case Some(j) => Some(f.cms[j])
  }

  /** $foro_en_primera_seccion: the forum is found, section 0 exists, and the forum's course
      module lies in it. */
  predicate InFirstSection(f: CourseFacts, role: BlockForum) {
    match FirstForum(f.forums, role.ftype, role.titulo)
    case None => false
    case Some(i) =>
      f.section0.Some? && ForumCm(f, i).Some? && ForumCm(f, i).value.section == f.section0.value
  }

  /** The three-way 'Estado' detail. */
  function ForumEstado(found: bool, ok: bool): Value {
    if !found then Text("No encontrado")
    else if ok then Text("Encontrado en la primera sección")
    else Text("No está en la primera sección")
  }

  function ForumEntry(role: BlockForum, found: bool, ok: bool): CheckResult {
    CheckResult(role.nombre, ok,
      (if ok then "Existe" else "No existe") + " el foro \"" + role.titulo + "\" en la primera sección",
      [Detail("Nombre buscado", Text(role.titulo)), Detail("Estado", ForumEstado(found, ok))])
  }

  /** The result of one forum check on a course. */
  function ForumCheck(f: CourseFacts, role: BlockForum): CheckResult {
    ForumEntry(role, FirstForum(f.forums, role.ftype, role.titulo).Some?, InFirstSection(f, role))
  }

  /** The start-date entry: the validator's rule and messages, with the dates shown in the
      'strftimedatetime' format. */
  function InicioResult(f: CourseFacts, config: Config): CheckResult {
    DateResult(NombreFechaInicio, "Fecha Inicio validada", "Fecha Inicio NO validada",
      f.course.startdate, config.fechainiciovalidacion, DateTimeFormat)
  }

  /** obtener_validaciones: start date, announcements forum, communication forum. */
  function BlockValidaciones(f: CourseFacts, config: Config): (r: seq<CheckResult>)
    ensures |r| == 3 && r[0].estado == DateMatches(f.course.startdate, config.fechainiciovalidacion)
    ensures r[1].estado == InFirstSection(f, Anuncios) && r[2].estado == InFirstSection(f, Comunicacion)
  {
    [InicioResult(f, config), ForumCheck(f, Anuncios), ForumCheck(f, Comunicacion)]
  }

  /** One forum block of obtener_validaciones: the forum by type and title, then its course
      module, looked at only when both the forum and section 0 exist. */
  method CheckBlockForum(f: CourseFacts, role: BlockForum) returns (r: CheckResult)
    ensures r == ForumCheck(f, role)
  {
    var foro := FirstForum(f.forums, role.ftype, role.titulo);
    var enPrimera := false;
    if foro.Some? && f.section0.Some? {
      var cm := ForumCm(f, foro.value);
      enPrimera := cm.Some? && cm.value.section == f.section0.value;
    }
    r := ForumEntry(role, foro.Some?, enPrimera);
  }

  /** The appends of obtener_validaciones, one check after another. */
  method ObtenerValidaciones(f: CourseFacts, config: Config) returns (v: seq<CheckResult>)
    ensures v == BlockValidaciones(f, config)
  {
    v := [];
    var validafecha := !IsEmptyString(f.course.startdate) && IsSet(config.fechainiciovalidacion)
      && FechasSonIguales(f.course.startdate, config.fechainiciovalidacion.value);
    assert validafecha == DateMatches(f.course.startdate, config.fechainiciovalidacion);
    v := v + [InicioResult(f, config)];
    var anuncios := CheckBlockForum(f, Anuncios);
    v := v + [anuncios];
    var comunicacion := CheckBlockForum(f, Comunicacion);
    v := v + [comunicacion];
  }

  /** Three entries, always in this order of names. */
  lemma BlockValidacionesShape(f: CourseFacts, config: Config)
    ensures Names(BlockValidaciones(f, config)) == [NombreFechaInicio, Anuncios.nombre, Comunicacion.nombre]
  {
  }

  /** The block's start-date check is the validator's: the same name, state and message, hence
      passing exactly when both values are set and equal as integers. The details show the same
      dates, in the 'strftimedatetime' format where the validator uses the default one. */
  lemma BlockDateAgrees(f: CourseFacts, config: Config)
    ensures var b, v := BlockValidaciones(f, config)[0], Fechas(f, config)[0];
      b.nombre == v.nombre && b.estado == v.estado && b.mensaje == v.mensaje
      && |b.detalle| == |v.detalle| == 2
      && forall k :: 0 <= k < 2 ==>
           (b.detalle[k].key == v.detalle[k].key
            && (b.detalle[k].value == NotAvailable <==> v.detalle[k].value == NotAvailable)
            && (v.detalle[k].value.UserDate? ==>
                  v.detalle[k].value.format == DefaultFormat
                  && b.detalle[k].value == v.detalle[k].value.(format := DateTimeFormat)))
    ensures BlockValidaciones(f, config)[0].estado <==>
      !IsEmptyString(f.course.startdate) && IsSet(config.fechainiciovalidacion)
      && IntCast(f.course.startdate) == IntCast(config.fechainiciovalidacion.value)
  {
  }

  /** A forum check passes exactly when a forum of that type and exact title exists, section 0
      exists, the forum module type exists, and the first course module of the first such forum
      lies in section 0. */
  lemma InFirstSectionMeaning(f: CourseFacts, role: BlockForum)
    ensures InFirstSection(f, role) <==>
      FirstForum(f.forums, role.ftype, role.titulo).Some? && f.section0.Some? && f.forumModule.Some?
      && exists c :: IsFirstCm(f.cms, f.forumModule.value, f.forums[FirstForum(f.forums, role.ftype, role.titulo).value].id, c)
           && f.cms[c].section == f.section0.value
  {
    var first := FirstForum(f.forums, role.ftype, role.titulo);
    if first.Some? && f.forumModule.Some? {
      var id := f.forums[first.value].id;
      var m := f.forumModule.value;
      match FirstCm(f.cms, m, id)
      case None =>
        assert forall c :: !IsFirstCm(f.cms, m, id, c);
      case Some(j) =>
        assert IsFirstCm(f.cms, m, id, j);
        forall c | IsFirstCm(f.cms, m, id, c)
          ensures c == j
        {
          FirstCmUnique(f.cms, m, id, c);
        }
    }
  }

  /** `c` is the position of the first course module of that module type and instance. */
  predicate IsFirstCm(cms: seq<CourseModule>, moduleId: int, instance: int, c: int) {
    0 <= c < |cms| && IsModuleOf(cms[c], moduleId, instance)
    && forall d :: 0 <= d < c ==> !IsModuleOf(cms[d], moduleId, instance)
  }

  lemma FirstCmUnique(cms: seq<CourseModule>, moduleId: int, instance: int, c: nat)
    requires c < |cms| && IsModuleOf(cms[c], moduleId, instance)
    requires forall d :: 0 <= d < c ==> !IsModuleOf(cms[d], moduleId, instance)
    ensures FirstCm(cms, moduleId, instance) == Some(c)
  {
  }

  /** The 'Estado' detail of a forum entry: "No encontrado" exactly when no forum of that type
      and title exists, otherwise "Encontrado en la primera sección" when the check passes and
      "No está en la primera sección" when it fails; a passing check always has its forum. */
  lemma ForumDetails(f: CourseFacts, role: BlockForum)
    ensures var r := ForumCheck(f, role);
      var found := FirstForum(f.forums, role.ftype, role.titulo).Some?;
      r.nombre == role.nombre && (r.estado ==> found)
      && |r.detalle| == 2 && r.detalle[0] == Detail("Nombre buscado", Text(role.titulo))
      && r.detalle[1].key == "Estado"
      && (r.detalle[1].value == Text("No encontrado") <==> !found)
      && (r.detalle[1].value == Text("Encontrado en la primera sección") <==> r.estado)
      && (found && !r.estado ==> r.detalle[1].value == Text("No está en la primera sección"))
  {
  }

  // ================================================================= the block content

  /** The block content: its footer and what its text shows; the HTML is not modelled, only
      the list of results it is rendered from. */
  datatype Content = Content(footer: string, shown: seq<CheckResult>)

  class ValidacursosBlock {
    var content: Option<Content>

    constructor()
      ensures content.None?
    {
      content := None;
    }

    /** get_content for the current course: built once, then returned unchanged. */
    method GetContent(f: CourseFacts, config: Config) returns (r: Content)
      modifies this
      ensures old(content).Some? ==> r == old(content).value
      ensures old(content).None? ==> r == Content("", BlockValidaciones(f, config))
      ensures content == Some(r)
    {
      if content.Some? {
        return content.value;
      }
      var validaciones := ObtenerValidaciones(f, config);
      r := Content("", validaciones);
      content := Some(r);
    }
  }

  /** Once built, later calls return the same content whatever course or settings they see. */
  method GetContentTwice(b: ValidacursosBlock, f: CourseFacts, config: Config, g: CourseFacts, other: Config)
    returns (first: Content, second: Content)
    modifies b
    ensures first == second
  {
    first := b.GetContent(f, config);
    second := b.GetContent(g, other);
  }
}
