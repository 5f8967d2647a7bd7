/**
  What one process event does to a solicitud: the guards checked before any
  write, the new status, the columns written and the next-action deadline
  chosen per event, and the record and event row a successful call commits.
  These functions specify the controller; `SolicitudStore` runs it.
*/
module SolicitudRules {
  import opened Common
  import opened ProcessEvents

  /** `ALLOWED_SOLICITUD_TYPES` */
  const AllowedSolicitudTypes: seq<string> := [
    "LICENCIA DE FUNCIONAMIENTO EPBM", "LICENCIA DE FUNCIONAMIENTO ETDH", "LICENCIA Y REGISTRO DE PROGRAMAS ETDH",
    "AMPLIACIÓN DE OFERTA EDUCATIVA", "DISMINUCIÓN DE OFERTA EDUCATIVA", "CAMBIO DE SEDE", "NUEVA SEDE",
    "CAMBIO DE REPRESENTANTE LEGAL", "CAMBIO DE NOMENCLATURA", "LICENCIA DE FUNCIONAMIENTO EPJA",
    "SUBSANACIÓN LICENCIA CONDICIONAL", "SOLICITUD AMPLIACIÓN LICENCIA CONDICIONAL"]

  /** The status `verificacion_area` moves to on an approving result; no catalog entry lists it. */
  const ParaVisitaOActo: Status := "Para Visita o Acto Administrativo"

  /** The value of an approval column once set: 'Aplica' or 'No Aplica'. */
  datatype Approval = Aplica | NoAplica

  /** A row of `Solicitudes`; dates are day numbers. */
  datatype Record = Record(
    id: int,
    solicitante: string,
    radicado: string,
    fechaRadicacion: string,
    tipoSolicitud: string,
    correoElectronicoSolicitante: string,
    estadoActual: Status,
    fechaLimiteProceso: int,
    aprobacionCalidad: Option<Approval>,
    aprobacionPlaneacion: Option<Approval>,
    aprobacionFinanciero: Option<Approval>,
    aprobacionIyv: Option<Approval>,
    contadorVisitas: nat,
    usuarioCreacionId: int,
    fechaCierre: Option<int>,
    motivoCierre: Option<string>)

  /** A row of `EventosProceso`; `documentosAdjuntos` holds the serialized attachment list. */
  datatype AuditEntry = AuditEntry(
    solicitudId: int,
    nombreProceso: string,
    fechaRegistro: int,
    usuarioResponsableId: int,
    estadoResultado: Option<string>,
    comentarioProceso: string,
    areaInvolucrada: string,
    documentosAdjuntos: Option<string>,
    fechaProximaAccion: Option<int>)

  /**
    The fields of a process-event request body the controller reads; `None`
    is an absent field. `documentosAdjuntos` is the attachment value in its
    serialized form, with "" standing for a falsy value.
  */
  datatype Submission = Submission(
    eventName: string,
    estadoResultado: Option<string>,
    comentarioProceso: Option<string>,
    documentosAdjuntos: Option<string>,
    areasInvolucradas: Option<seq<string>>,
    motivoCierre: Option<string>,
    aprobacionIyvValue: Option<string>)

  /**
    The failures of the controller. `UndefinedBind` is a statement handed an
    `undefined` parameter (an unmapped status, an absent comment or request
    field), which the database driver refuses, so the transaction rolls back.
  */
  datatype Error =
    | UnknownEvent
    | Forbidden
    | NotFound
    | IllegalState(current: Status, expected: seq<Status>)
    | InvalidResult
    | UndefinedBind
    | InvalidType
    | DuplicateRadicado

  /** One entry of `updateSolicitudFields`. */
  datatype Update =
    | SetAprobacionIyv(iyv: Approval)
    | SetAprobacionCalidad(calidad: Approval)
    | SetAprobacionPlaneacion(planeacion: Approval)
    | SetAprobacionFinanciero(financiero: Approval)
    | SetContadorVisitas(visitas: nat)
    | SetFechaCierre(cierre: int)
    | SetMotivoCierre(motivo: Option<string>)

  /** The columns `updateSolicitudFields` can name. */
  datatype Column =
    AprobacionIyv | AprobacionCalidad | AprobacionPlaneacion | AprobacionFinanciero
    | ContadorVisitas | FechaCierre | MotivoCierre

  function ColumnOf(u: Update): Column {
    match u
    case SetAprobacionIyv(_) => AprobacionIyv
    case SetAprobacionCalidad(_) => AprobacionCalidad
    case SetAprobacionPlaneacion(_) => AprobacionPlaneacion
    case SetAprobacionFinanciero(_) => AprobacionFinanciero
    case SetContadorVisitas(_) => ContadorVisitas
    case SetFechaCierre(_) => FechaCierre
    case SetMotivoCierre(_) => MotivoCierre
  }

  /** The update loop skips entries whose value is `undefined`; only a closure reason can be. */
  predicate IsDefined(u: Update) {
    !(u.SetMotivoCierre? && u.motivo.None?)
  }

  /** The columns a list of updates writes. */
  function Written(us: seq<Update>): set<Column> {
    set u | u in us && IsDefined(u) :: ColumnOf(u)
  }

  /** `rec` holds the value `u` writes. */
  predicate Shows(rec: Record, u: Update) {
    match u
    case SetAprobacionIyv(a) => rec.aprobacionIyv == Some(a)
    case SetAprobacionCalidad(a) => rec.aprobacionCalidad == Some(a)
    case SetAprobacionPlaneacion(a) => rec.aprobacionPlaneacion == Some(a)
    case SetAprobacionFinanciero(a) => rec.aprobacionFinanciero == Some(a)
    case SetContadorVisitas(n) => rec.contadorVisitas == n
    case SetFechaCierre(d) => rec.fechaCierre == Some(d)
    case SetMotivoCierre(m) => m.None? || rec.motivoCierre == m
  }

  /** The columns no process event may write are equal in `a` and `b`. */
  predicate SameIdentity(a: Record, b: Record) {
    && a.id == b.id
    && a.solicitante == b.solicitante
    && a.radicado == b.radicado
    && a.fechaRadicacion == b.fechaRadicacion
    && a.tipoSolicitud == b.tipoSolicitud
    && a.correoElectronicoSolicitante == b.correoElectronicoSolicitante
    && a.fechaLimiteProceso == b.fechaLimiteProceso
    && a.usuarioCreacionId == b.usuarioCreacionId
  }

  /** The updatable columns outside `cs` are equal in `a` and `b`. */
  predicate SameColumnsOutside(a: Record, b: Record, cs: set<Column>) {
    && (AprobacionIyv !in cs ==> a.aprobacionIyv == b.aprobacionIyv)
    && (AprobacionCalidad !in cs ==> a.aprobacionCalidad == b.aprobacionCalidad)
    && (AprobacionPlaneacion !in cs ==> a.aprobacionPlaneacion == b.aprobacionPlaneacion)
    && (AprobacionFinanciero !in cs ==> a.aprobacionFinanciero == b.aprobacionFinanciero)
    && (ContadorVisitas !in cs ==> a.contadorVisitas == b.contadorVisitas)
    && (FechaCierre !in cs ==> a.fechaCierre == b.fechaCierre)
    && (MotivoCierre !in cs ==> a.motivoCierre == b.motivoCierre)
  }

  /** Writes one defined update into its column. */
  function SetColumn(rec: Record, u: Update): (r: Record)
    requires IsDefined(u)
    ensures Shows(r, u)
    ensures SameIdentity(rec, r) && r.estadoActual == rec.estadoActual
    ensures SameColumnsOutside(rec, r, {ColumnOf(u)})
  {
    match u
    case SetAprobacionIyv(a) => rec.(aprobacionIyv := Some(a))
    case SetAprobacionCalidad(a) => rec.(aprobacionCalidad := Some(a))
    case SetAprobacionPlaneacion(a) => rec.(aprobacionPlaneacion := Some(a))
    case SetAprobacionFinanciero(a) => rec.(aprobacionFinanciero := Some(a))
    case SetContadorVisitas(n) => rec.(contadorVisitas := n)
    case SetFechaCierre(d) => rec.(fechaCierre := Some(d))
    case SetMotivoCierre(m) => rec.(motivoCierre := m)
  }

  /** The record after `UPDATE Solicitudes SET k = v, ...` for the defined entries, in order. */
  function Overlay(rec: Record, us: seq<Update>): Record
    decreases |us|
  {
    if us == [] then rec
    else
      var prev := Overlay(rec, us[..|us| - 1]);
      var last := us[|us| - 1];
      if IsDefined(last) then SetColumn(prev, last) else prev
  }

  /** The overlay keeps the identity columns and the status, and every column no defined update names. */
  lemma {:induction false} OverlayFrame(rec: Record, us: seq<Update>)
    ensures SameIdentity(rec, Overlay(rec, us))
    ensures Overlay(rec, us).estadoActual == rec.estadoActual
    ensures SameColumnsOutside(rec, Overlay(rec, us), Written(us))
    decreases |us|
  {
    if us != [] {
      var init := us[..|us| - 1];
      OverlayFrame(rec, init);
      assert Written(init) <= Written(us);
      if IsDefined(us[|us| - 1]) {
        assert ColumnOf(us[|us| - 1]) in Written(us);
      }
    }
  }

  /** No two defined updates name the same column. */
  predicate DistinctColumns(us: seq<Update>) {
    forall i, j | 0 <= i < j < |us| && IsDefined(us[i]) && IsDefined(us[j]) :: ColumnOf(us[i]) != ColumnOf(us[j])
  }

  /** When no column is named twice, the overlay holds every value the updates write. */
  lemma {:induction false} OverlayShows(rec: Record, us: seq<Update>)
    requires DistinctColumns(us)
    ensures forall u | u in us :: Shows(Overlay(rec, us), u)
    decreases |us|
  {
    if us != [] {
      var init := us[..|us| - 1];
      var last := us[|us| - 1];
      assert DistinctColumns(init);
      OverlayShows(rec, init);
      forall u | u in us
        ensures Shows(Overlay(rec, us), u)
      {
        if u != last {
          var i :| 0 <= i < |us| && us[i] == u;
          assert i < |us| - 1;
          assert u in init;
          if IsDefined(last) {
            if IsDefined(u) {
              assert ColumnOf(u) != ColumnOf(last);
            }
          }
        }
      }
    }
  }

  /** `aprobacion_iyv_value` is written only when it is exactly 'Aplica' or 'No Aplica'. */
  function IyvApproval(v: Option<string>): seq<Update> {
    if v == Some("Aplica") then [SetAprobacionIyv(Aplica)]
    else if v == Some("No Aplica") then [SetAprobacionIyv(NoAplica)]
    else []
  }

  /** `areas_involucradas?.includes(tag)` */
  predicate Involves(areas: Option<seq<string>>, r: Role) {
    areas.Some? && RoleName(r) in areas.value
  }

  /** The entry `u` when the area `r` is listed, nothing otherwise. */
  function AreaApproval(areas: Option<seq<string>>, r: Role, u: Update): seq<Update> {
    if Involves(areas, r) then [u] else []
  }

  /** Marks 'Aplica' the area columns whose role tag is listed. */
  function AreaApprovals(areas: Option<seq<string>>): seq<Update> {
    AreaApproval(areas, AreaCalidad, SetAprobacionCalidad(Aplica))
    + AreaApproval(areas, AreaPlaneacion, SetAprobacionPlaneacion(Aplica))
    + AreaApproval(areas, AreaFinanciero, SetAprobacionFinanciero(Aplica))
  }

  /** `fecha_cierre` := now and `motivo_cierre` := reason. */
  function Closure(now: int, reason: Option<string>): seq<Update> {
    [SetFechaCierre(now), SetMotivoCierre(reason)]
  }

  /** The events that write the closure columns: a closing document check or act, and `cierre_solicitud`. */
  predicate ClosesWithFields(name: string, res: Option<string>) {
    || (name == VerificacionDocumentosIyVName && res == Some(CerradaNoExitosa))
    || (name == ActoAdministrativoName && (res == Some(CerradaExitosamente) || res == Some(CerradaNoExitosa)))
    || name == CierreSolicitudName
  }

  /** The closure reason: `motivo_cierre || comentario_proceso` for `cierre_solicitud`, the comment otherwise. */
  function ClosureReason(name: string, sub: Submission): Option<string> {
    if name == CierreSolicitudName && Truthy(sub.motivoCierre) then sub.motivoCierre else sub.comentarioProceso
  }

  /** The IyV approval entry, collected by the document check alone. */
  function IyvPart(name: string, sub: Submission): seq<Update> {
    if name == VerificacionDocumentosIyVName then IyvApproval(sub.aprobacionIyvValue) else []
  }

  /** The area approval entries, collected by `radicacion_areas` alone. */
  function AreaPart(name: string, sub: Submission): seq<Update> {
    if name == RadicacionAreasName then AreaApprovals(sub.areasInvolucradas) else []
  }

  /** The visit counter entry, collected by a visit alone. */
  function VisitPart(name: string, cur: Record): seq<Update> {
    if name == VisitaInspeccionVigilanciaName then [SetContadorVisitas(cur.contadorVisitas + 1)] else []
  }

  /** The closure entries, collected by the closing events. */
  function ClosurePart(name: string, sub: Submission, now: int): seq<Update> {
    if ClosesWithFields(name, sub.estadoResultado) then Closure(now, ClosureReason(name, sub)) else []
  }

  /**
    The entries of `updateSolicitudFields` an accepted event collects, in
    insertion order: the IyV approval, the area approvals, the visit counter
    and the closure columns.
  */
  function Fields(name: string, cur: Record, sub: Submission, now: int): seq<Update> {
    IyvPart(name, sub) + AreaPart(name, sub) + VisitPart(name, cur) + ClosurePart(name, sub, now)
  }

  /** `verificacion_area`'s remediation test: the result mentions both 'No Aprobado' and 'Subsanación'. */
  predicate AreaRemediation(res: string) {
    Contains(res, "No Aprobado") && Contains(res, "Subsanación")
  }

  /** `fechaProximaAccion`: 8 days for IyV remediation, 20 days for area remediation, otherwise none. */
  function Deadline(name: string, res: Option<string>, now: int): Option<int> {
    if (name == VerificacionDocumentosIyVName && res == Some(SubsanacionIyV)) || name == RecepcionSubsanacionIyVName then
      Some(now + 8)
    else if name == RecepcionSubsanacionAreaName || (name == VerificacionAreaName && res.Some? && AreaRemediation(res.value)) then
      Some(now + 20)
    else None
  }

  /** What an accepted event decides: new status, columns written and next-action deadline. */
  datatype Effect = Effect(status: Status, fields: seq<Update>, fechaProximaAccion: Option<int>)

  /** The four events whose status comes from their `nextStates` map, with a checked result. */
  predicate IsResultMapEvent(name: string) {
    name == VerificacionDocumentosIyVName || name == RecepcionSubsanacionIyVName
    || name == RecepcionSubsanacionAreaName || name == ActoAdministrativoName
  }

  /**
    The new status of each event on a solicitud that passed the guards, or the
    failure the event reports after the guards.
  */
  function NextStatus(ev: EventDef, cur: Record, role: Role, sub: Submission): Result<Status, Error> {
    var res := sub.estadoResultado;
    if IsResultMapEvent(ev.name) then
      var target := if res.Some? then MappedTarget(ev.transition, res.value) else None;
      if !Truthy(res) || target.None? then Err(InvalidResult) else Ok(target.value)
    else if ev.name == RadicacionAreasName then
      Ok(ParaVerificacion)
    else if ev.name == VerificacionAreaName then
      if !Truthy(res) then Err(InvalidResult)
      else if !IsAreaRole(role) then Err(Forbidden)
      else if AreaRemediation(res.value) then Ok(SubsanacionArea)
      else if Contains(res.value, "Aprobado") then Ok(ParaVisitaOActo)
      else Err(InvalidResult)
    else if ev.name == VisitaInspeccionVigilanciaName then
      var target := if res.Some? then MappedTarget(ev.transition, res.value) else None;
      if target.None? then Err(UndefinedBind) else Ok(target.value)
    else if ev.name == CierreSolicitudName then
      if res.None? then Err(UndefinedBind) else Ok(res.value)
    else
      match ev.transition
      case NextState(s) => Ok(if Truthy(s) then s.value else cur.estadoActual)
      case NextStates(_) =>
        if !Truthy(res) then Ok(cur.estadoActual)
        else if MappedTarget(ev.transition, res.value).None? then Err(UndefinedBind)
        else Ok(MappedTarget(ev.transition, res.value).value)
  }

  /** The decision of an event on a solicitud that passed the guards. */
  function Resolve(ev: EventDef, cur: Record, role: Role, sub: Submission, now: int): Result<Effect, Error> {
    match NextStatus(ev, cur, role, sub)
    case Err(e) => Err(e)
    case Ok(s) => Ok(Effect(s, Fields(ev.name, cur, sub, now), Deadline(ev.name, sub.estadoResultado, now)))
  }

  /** The checks made before anything is written, in the order the controller makes them. */
  function Guard(records: map<int, Record>, id: int, role: Role, name: string): Result<(EventDef, Record), Error> {
    match GetProcessEventByName(name)
    case None => Err(UnknownEvent)
    case Some(ev) =>
      if role !in ev.allowedRoles then Err(Forbidden)
      else if id !in records then Err(NotFound)
      else if !ev.previousState.Unrestricted? && records[id].estadoActual !in AllowedPrevious(ev.previousState) then
        Err(IllegalState(records[id].estadoActual, AllowedPrevious(ev.previousState)))
      else Ok((ev, records[id]))
  }

  /**
    The appended `EventosProceso` row. The result is the one sent, else the
    first status option, else null; the attachments are null unless truthy.
  */
  function EventRow(id: int, ev: EventDef, actorId: int, role: Role, sub: Submission, now: int, deadline: Option<int>): AuditEntry
    requires sub.comentarioProceso.Some?
  {
    AuditEntry(
      id, ev.eventLabel, now, actorId,
      if Truthy(sub.estadoResultado) then sub.estadoResultado
      else if |ev.statusOptions| > 0 then Some(ev.statusOptions[0]) else None,
      sub.comentarioProceso.value, RoleName(role),
      if Truthy(sub.documentosAdjuntos) then sub.documentosAdjuntos else None, deadline)
  }

  /** What a successful call writes: the updated row and the one appended event row. */
  datatype Commit = Commit(record: Record, entry: AuditEntry)

  /** What the handler does with solicitud `id`, currently `cur`, once the guards admitted `ev`. */
  function Apply(id: int, ev: EventDef, cur: Record, actorId: int, role: Role, sub: Submission, now: int): Result<Commit, Error> {
    match Resolve(ev, cur, role, sub, now)
    case Err(e) => Err(e)
    case Ok(eff) =>
      if sub.comentarioProceso.None? then Err(UndefinedBind)
      else Ok(Commit(Overlay(cur.(estadoActual := eff.status), eff.fields),
                EventRow(id, ev, actorId, role, sub, now, eff.fechaProximaAccion)))
  }

  /** One call of the process-event handler against the table of solicitudes. */
  function Handle(records: map<int, Record>, id: int, actorId: int, role: Role, sub: Submission, now: int): Result<Commit, Error> {
    match Guard(records, id, role, sub.eventName)
    case Err(e) => Err(e)
    case Ok((ev, cur)) => Apply(id, ev, cur, actorId, role, sub, now)
  }

  /** The fields of a create request body; `None` is an absent field. */
  datatype CreateRequest = CreateRequest(
    solicitante: Option<string>,
    radicado: Option<string>,
    fechaRadicacion: Option<string>,
    tipoSolicitud: Option<string>,
    correoElectronicoSolicitante: Option<string>,
    comentarioInicial: Option<string>)

  /** Every column of the first insert is bound to a present value. */
  predicate RequestComplete(req: CreateRequest) {
    req.solicitante.Some? && req.radicado.Some? && req.fechaRadicacion.Some?
    && req.tipoSolicitud.Some? && req.correoElectronicoSolicitante.Some?
  }

  /** Some stored solicitud already carries this radicado. */
  predicate RadicadoTaken(records: map<int, Record>, radicado: string) {
    exists k | k in records :: records[k].radicado == radicado
  }

  /** No two stored solicitudes share a radicado (the unique index on `radicado`). */
  predicate RadicadosUnique(records: map<int, Record>) {
    forall j, k | j in records && k in records && records[j].radicado == records[k].radicado :: j == k
  }

  /** The new row: status "Recibido Inspección y Vigilancia", no approvals, no visits, no closure. */
  function NewRecord(id: int, req: CreateRequest, actorId: int, limit: int): Record
    requires RequestComplete(req)
  {
    Record(id, req.solicitante.value, req.radicado.value, req.fechaRadicacion.value, req.tipoSolicitud.value,
           req.correoElectronicoSolicitante.value, Recibido, limit, None, None, None, None, 0, actorId, None, None)
  }

  /** The initial event row: the `recepcion_solicitud` label and first status option, area "IyV". */
  function InitialRow(id: int, actorId: int, now: int, comment: string): AuditEntry {
    AuditEntry(id, RecepcionSolicitud.eventLabel, now, actorId, Some(RecepcionSolicitud.statusOptions[0]),
               comment, RoleName(IyV), None, None)
  }

  /**
    One call of the create handler: the type check, then the solicitud insert
    (refused for an absent field or a radicado already stored), then the event
    insert (refused for an absent initial comment). `id` is the next
    auto-increment value and `limit` the date six months after `now`.
  */
  function Create(records: map<int, Record>, id: int, req: CreateRequest, actorId: int, now: int, limit: int): Result<Commit, Error> {
    if req.tipoSolicitud.None? || req.tipoSolicitud.value !in AllowedSolicitudTypes then Err(InvalidType)
    else if !RequestComplete(req) then Err(UndefinedBind)
    else if RadicadoTaken(records, req.radicado.value) then Err(DuplicateRadicado)
    else if req.comentarioInicial.None? then Err(UndefinedBind)
    else Ok(Commit(NewRecord(id, req, actorId, limit), InitialRow(id, actorId, now, req.comentarioInicial.value)))
  }
}
