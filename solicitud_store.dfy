/**
  The controller as it runs: the per-event decision taken step by step, the
  update built column by column, and the two tables (`Solicitudes` and
  `EventosProceso`) held by a `Store` whose handlers create a solicitud,
  apply a process event and delete a solicitud. A handler that fails rolls
  its transaction back, so it leaves both tables as they were.
*/
module SolicitudStore {
  import opened Common
  import opened ProcessEvents
  import opened SolicitudRules
  import opened EventLog

  /** An accepted status assembles into the effect `Resolve` describes. */
  lemma ResolveAccepts(ev: EventDef, cur: Record, role: Role, sub: Submission, now: int, s: Status)
    requires NextStatus(ev, cur, role, sub) == Ok(s)
    ensures Resolve(ev, cur, role, sub, now)
      == Ok(Effect(s, Fields(ev.name, cur, sub, now), Deadline(ev.name, sub.estadoResultado, now)))
  {
  }

  /** A refused status is the failure `Resolve` reports. */
  lemma ResolveRefuses(ev: EventDef, cur: Record, role: Role, sub: Submission, now: int, e: Error)
    requires NextStatus(ev, cur, role, sub) == Err(e)
    ensures Resolve(ev, cur, role, sub, now) == Err(e)
  {
  }

  /** `getProcessEventByName(name).vencimientoDias` for one of the two remediation receipts. */
  method ReceiptDays(name: string) returns (days: int)
    requires name == RecepcionSubsanacionIyVName || name == RecepcionSubsanacionAreaName
    ensures days == if name == RecepcionSubsanacionIyVName then 8 else 20
  {
    ReceiptLookups();
    var ev := GetProcessEventByName(name);
    days := ev.value.vencimientoDias.value;
  }

  /**
    The document-check block that runs before the switch: the IyV approval as
    sent, a provisional status (which the switch overwrites), the 8-day
    deadline of `recepcion_subsanacion_iyv` for a remediation result, and the
    closure columns for an unsuccessful closure. Other events and roles pass
    through untouched.
  */
  method DocumentCheck(name: string, cur: Record, role: Role, sub: Submission, now: int)
    returns (status: Option<Status>, deadline: Option<int>, fields: seq<Update>)
    ensures status.Some?
    ensures !(name == VerificacionDocumentosIyVName && role == IyV) ==>
      status == Some(cur.estadoActual) && deadline.None? && fields == []
    ensures name == VerificacionDocumentosIyVName && role == IyV ==>
      && fields == IyvApproval(sub.aprobacionIyvValue)
                   + (if sub.estadoResultado == Some(CerradaNoExitosa) then Closure(now, sub.comentarioProceso) else [])
      && deadline == (if sub.estadoResultado == Some(SubsanacionIyV) then Some(now + 8) else None)
  {
    var res := sub.estadoResultado;
    status := Some(cur.estadoActual);
    deadline := None;
    fields := [];
    if name == VerificacionDocumentosIyVName && role == IyV {
      var v := sub.aprobacionIyvValue;
      if v == Some("Aplica") || v == Some("No Aplica") {
        fields := fields + [SetAprobacionIyv(if v == Some("Aplica") then Aplica else NoAplica)];
      }
      if res == Some("Documentos OK - Para Radicación en Áreas") {
        status := Some("Verificación por Áreas");
      } else if res == Some(SubsanacionIyV) {
        status := Some("Subsanación de documentos IYV");
        var days := ReceiptDays(RecepcionSubsanacionIyVName);
        deadline := Some(now + days);
      } else if res == Some(CerradaNoExitosa) {
        status := Some(CerradaNoExitosa);
        fields := fields + Closure(now, sub.comentarioProceso);
      }
    }
  }

  /**
    The four result-checked events: the result must be a key of the
    `nextStates` map with a truthy status; a result mentioning 'Subsanación'
    on an event with `vencimientoDias` restarts the clock; a closing act
    writes the closure columns.
  */
  method ResultMapCase(ev: EventDef, cur: Record, role: Role, sub: Submission, now: int,
                       deadline0: Option<int>, fields0: seq<Update>) returns (r: Result<Effect, Error>)
    requires ev in Events && IsResultMapEvent(ev.name)
    requires ev != VerificacionDocumentosIyV ==> deadline0.None? && fields0 == []
    requires ev == VerificacionDocumentosIyV ==>
      && fields0 == IyvApproval(sub.aprobacionIyvValue)
                    + (if sub.estadoResultado == Some(CerradaNoExitosa) then Closure(now, sub.comentarioProceso) else [])
      && deadline0 == (if sub.estadoResultado == Some(SubsanacionIyV) then Some(now + 8) else None)
    ensures r == Resolve(ev, cur, role, sub, now)
  {
    var res := sub.estadoResultado;
    var target := if res.Some? then MappedTarget(ev.transition, res.value) else None;
    if !Truthy(res) || !Truthy(target) {
      ResultMapRefuses(ev, cur, role, sub, now);
      return Err(InvalidResult);
    }
    var deadline, fields := deadline0, fields0;
    if Contains(res.value, Subsanacion) && ev.vencimientoDias.Some? && ev.vencimientoDias.value != 0 {
      deadline := Some(now + ev.vencimientoDias.value);
    }
    if ev.name == ActoAdministrativoName && (res == Some(CerradaExitosamente) || res == Some(CerradaNoExitosa)) {
      fields := fields + Closure(now, sub.comentarioProceso);
    }
    ResultMapAccepts(ev, cur, role, sub, now, deadline0, fields0);
    r := Ok(Effect(target.value, fields, deadline));
  }

  /** A result-checked event refuses a falsy result, or one its map lacks. */
  lemma ResultMapRefuses(ev: EventDef, cur: Record, role: Role, sub: Submission, now: int)
    requires ev in Events && IsResultMapEvent(ev.name)
    requires !Truthy(sub.estadoResultado) || !Truthy(MappedTarget(ev.transition, sub.estadoResultado.value))
    ensures Resolve(ev, cur, role, sub, now) == Err(InvalidResult)
  {
    TargetsNonEmpty();
    NameDeterminesEntry(ev);
    assert NextStatus(ev, cur, role, sub) == Err(InvalidResult);
    ResolveRefuses(ev, cur, role, sub, now, InvalidResult);
  }

  /**
    A result-checked event that accepts its result: the map's status, the
    columns of the document check plus those of a closing act, and the
    deadline the receipts restart.
  */
  lemma ResultMapAccepts(ev: EventDef, cur: Record, role: Role, sub: Submission, now: int,
                         deadline0: Option<int>, fields0: seq<Update>)
    requires ev in Events && IsResultMapEvent(ev.name)
    requires Truthy(sub.estadoResultado) && MappedTarget(ev.transition, sub.estadoResultado.value).Some?
    requires ev != VerificacionDocumentosIyV ==> deadline0.None? && fields0 == []
    requires ev == VerificacionDocumentosIyV ==>
      && fields0 == IyvApproval(sub.aprobacionIyvValue)
                    + (if sub.estadoResultado == Some(CerradaNoExitosa) then Closure(now, sub.comentarioProceso) else [])
      && deadline0 == (if sub.estadoResultado == Some(SubsanacionIyV) then Some(now + 8) else None)
    ensures
      var res := sub.estadoResultado.value;
      Resolve(ev, cur, role, sub, now) == Ok(Effect(
        MappedTarget(ev.transition, res).value,
        if ev.name == ActoAdministrativoName && (res == CerradaExitosamente || res == CerradaNoExitosa)
        then fields0 + Closure(now, sub.comentarioProceso) else fields0,
        if Contains(res, Subsanacion) && ev.vencimientoDias.Some? && ev.vencimientoDias.value != 0
        then Some(now + ev.vencimientoDias.value) else deadline0))
  {
    NameDeterminesEntry(ev);
    if ev == RecepcionSubsanacionIyV || ev == RecepcionSubsanacionArea {
      ReceiptAccepts(ev, cur, role, sub, now);
    } else if ev == ActoAdministrativo {
      ActAccepts(cur, role, sub, now);
    } else {
      DocumentCheckAccepts(cur, role, sub, now);
    }
  }

  /** A remediation receipt accepts a key of its map; every key mentions 'Subsanación', so the clock restarts. */
  lemma ReceiptAccepts(ev: EventDef, cur: Record, role: Role, sub: Submission, now: int)
    requires ev == RecepcionSubsanacionIyV || ev == RecepcionSubsanacionArea
    requires Truthy(sub.estadoResultado) && MappedTarget(ev.transition, sub.estadoResultado.value).Some?
    ensures Contains(sub.estadoResultado.value, Subsanacion) && ev.vencimientoDias.Some? && ev.vencimientoDias.value != 0
    ensures Resolve(ev, cur, role, sub, now)
      == Ok(Effect(MappedTarget(ev.transition, sub.estadoResultado.value).value, [], Some(now + ev.vencimientoDias.value)))
  {
    ReceiptKeysMentionSubsanacion();
    ResolveAccepts(ev, cur, role, sub, now, MappedTarget(ev.transition, sub.estadoResultado.value).value);
    assert Fields(ev.name, cur, sub, now) == [];
  }

  /** `acto_administrativo` accepts a key of its map and writes the closure columns for either closed result. */
  lemma ActAccepts(cur: Record, role: Role, sub: Submission, now: int)
    requires Truthy(sub.estadoResultado) && MappedTarget(ActoAdministrativo.transition, sub.estadoResultado.value).Some?
    ensures var res := sub.estadoResultado.value;
      Resolve(ActoAdministrativo, cur, role, sub, now) == Ok(Effect(
        MappedTarget(ActoAdministrativo.transition, res).value,
        if res == CerradaExitosamente || res == CerradaNoExitosa then Closure(now, sub.comentarioProceso) else [],
        None))
  {
    var res := sub.estadoResultado.value;
    ResolveAccepts(ActoAdministrativo, cur, role, sub, now, MappedTarget(ActoAdministrativo.transition, res).value);
    assert Deadline(ActoAdministrativoName, sub.estadoResultado, now) == None;
    assert Fields(ActoAdministrativoName, cur, sub, now)
      == if res == CerradaExitosamente || res == CerradaNoExitosa then Closure(now, sub.comentarioProceso) else [];
  }

  /** The document check accepts a key of its map: the approval, a closure for "Cerrada No Exitosa", 8 days for remediation. */
  lemma DocumentCheckAccepts(cur: Record, role: Role, sub: Submission, now: int)
    requires Truthy(sub.estadoResultado) && MappedTarget(VerificacionDocumentosIyV.transition, sub.estadoResultado.value).Some?
    ensures var res := sub.estadoResultado.value;
      Resolve(VerificacionDocumentosIyV, cur, role, sub, now) == Ok(Effect(
        MappedTarget(VerificacionDocumentosIyV.transition, res).value,
        IyvApproval(sub.aprobacionIyvValue)
          + (if sub.estadoResultado == Some(CerradaNoExitosa) then Closure(now, sub.comentarioProceso) else []),
        if sub.estadoResultado == Some(SubsanacionIyV) then Some(now + 8) else None))
  {
    var res := sub.estadoResultado.value;
    ResolveAccepts(VerificacionDocumentosIyV, cur, role, sub, now, MappedTarget(VerificacionDocumentosIyV.transition, res).value);
    var closing: seq<Update> := if res == CerradaNoExitosa then Closure(now, sub.comentarioProceso) else [];
    assert Fields(VerificacionDocumentosIyVName, cur, sub, now) == IyvApproval(sub.aprobacionIyvValue) + [] + [] + closing;
    assert IyvApproval(sub.aprobacionIyvValue) + [] + [] + closing == IyvApproval(sub.aprobacionIyvValue) + closing;
    assert Deadline(VerificacionDocumentosIyVName, sub.estadoResultado, now)
      == if sub.estadoResultado == Some(SubsanacionIyV) then Some(now + 8) else None;
  }

  /** `radicacion_areas`: its single `nextState`, and 'Aplica' for each listed area. */
  method FilingCase(cur: Record, role: Role, sub: Submission, now: int) returns (r: Result<Effect, Error>)
    ensures r == Resolve(RadicacionAreas, cur, role, sub, now)
  {
    var status := if RadicacionAreas.transition.NextState? then RadicacionAreas.transition.target else None;
    var fields: seq<Update> := [];
    if Involves(sub.areasInvolucradas, AreaCalidad) {
      fields := fields + [SetAprobacionCalidad(Aplica)];
    }
    if Involves(sub.areasInvolucradas, AreaPlaneacion) {
      fields := fields + [SetAprobacionPlaneacion(Aplica)];
    }
    if Involves(sub.areasInvolucradas, AreaFinanciero) {
      fields := fields + [SetAprobacionFinanciero(Aplica)];
    }
    assert fields == Fields(RadicacionAreasName, cur, sub, now);
    r := Ok(Effect(status.value, fields, None));
  }

  /**
    `verificacion_area`: the result is required; the role must name an area
    column; the result is then read by substring.
  */
  method AreaReviewCase(cur: Record, role: Role, sub: Submission, now: int) returns (r: Result<Effect, Error>)
    ensures r == Resolve(VerificacionArea, cur, role, sub, now)
  {
    var res := sub.estadoResultado;
    if !Truthy(res) {
      AreaReviewRefuses(cur, role, sub, now, InvalidResult);
      return Err(InvalidResult);
    }
    var areaField: Option<Column> := None;
    match role {
      case AreaCalidad => areaField := Some(AprobacionCalidad);
      case AreaPlaneacion => areaField := Some(AprobacionPlaneacion);
      case AreaFinanciero => areaField := Some(AprobacionFinanciero);
      case _ =>
    }
    if areaField.None? {
      AreaReviewRefuses(cur, role, sub, now, Forbidden);
      return Err(Forbidden);
    }
    if Contains(res.value, "No Aprobado") && Contains(res.value, Subsanacion) {
      var days := ReceiptDays(RecepcionSubsanacionAreaName);
      AreaReviewAccepts(cur, role, sub, now, SubsanacionArea);
      r := Ok(Effect(SubsanacionArea, [], Some(now + days)));
    } else if Contains(res.value, "Aprobado") {
      AreaReviewAccepts(cur, role, sub, now, ParaVisitaOActo);
      r := Ok(Effect(ParaVisitaOActo, [], None));
    } else {
      AreaReviewRefuses(cur, role, sub, now, InvalidResult);
      r := Err(InvalidResult);
    }
  }

  /** What `verificacion_area` decides, case by case, before it is assembled into an effect. */
  lemma AreaReviewRefuses(cur: Record, role: Role, sub: Submission, now: int, e: Error)
    requires e == InvalidResult ==>
      !Truthy(sub.estadoResultado)
      || (IsAreaRole(role) && !AreaRemediation(sub.estadoResultado.value) && !Contains(sub.estadoResultado.value, "Aprobado"))
    requires e == Forbidden ==> Truthy(sub.estadoResultado) && !IsAreaRole(role)
    requires e == InvalidResult || e == Forbidden
    ensures Resolve(VerificacionArea, cur, role, sub, now) == Err(e)
  {
    assert NextStatus(VerificacionArea, cur, role, sub) == Err(e);
    ResolveRefuses(VerificacionArea, cur, role, sub, now, e);
  }

  lemma AreaReviewAccepts(cur: Record, role: Role, sub: Submission, now: int, s: Status)
    requires Truthy(sub.estadoResultado) && IsAreaRole(role)
    requires s == SubsanacionArea ==> AreaRemediation(sub.estadoResultado.value)
    requires s == ParaVisitaOActo ==> !AreaRemediation(sub.estadoResultado.value) && Contains(sub.estadoResultado.value, "Aprobado")
    requires s == SubsanacionArea || s == ParaVisitaOActo
    ensures Resolve(VerificacionArea, cur, role, sub, now)
      == Ok(Effect(s, [], if s == SubsanacionArea then Some(now + 20) else None))
  {
    assert NextStatus(VerificacionArea, cur, role, sub) == Ok(s);
    ResolveAccepts(VerificacionArea, cur, role, sub, now, s);
    assert Fields(VerificacionAreaName, cur, sub, now) == [];
  }

  /** `visita_inspeccion_vigilancia`: one more visit, and the status its map names for the result. */
  method VisitCase(cur: Record, role: Role, sub: Submission, now: int) returns (r: Result<Effect, Error>)
    ensures r == Resolve(VisitaInspeccionVigilancia, cur, role, sub, now)
  {
    var res := sub.estadoResultado;
    var fields := [SetContadorVisitas(cur.contadorVisitas + 1)];
    var status := if res.Some? then MappedTarget(VisitaInspeccionVigilancia.transition, res.value) else None;
    if status.None? {
      return Err(UndefinedBind);
    }
    assert fields == Fields(VisitaInspeccionVigilanciaName, cur, sub, now);
    r := Ok(Effect(status.value, fields, None));
  }

  /** `cierre_solicitud`: the result as the status, and the closure columns. */
  method ClosureCase(cur: Record, role: Role, sub: Submission, now: int) returns (r: Result<Effect, Error>)
    ensures r == Resolve(CierreSolicitud, cur, role, sub, now)
  {
    var status := sub.estadoResultado;
    var fields := Closure(now, if Truthy(sub.motivoCierre) then sub.motivoCierre else sub.comentarioProceso);
    if status.None? {
      return Err(UndefinedBind);
    }
    assert fields == Fields(CierreSolicitudName, cur, sub, now);
    r := Ok(Effect(status.value, fields, None));
  }

  /** Any other event: its truthy `nextState`, or its map's status for a truthy result, or the status unchanged. */
  method DefaultCase(ev: EventDef, cur: Record, role: Role, sub: Submission, now: int) returns (r: Result<Effect, Error>)
    requires !IsResultMapEvent(ev.name) && ev.name != RadicacionAreasName && ev.name != VerificacionAreaName
    requires ev.name != VisitaInspeccionVigilanciaName && ev.name != CierreSolicitudName
    ensures r == Resolve(ev, cur, role, sub, now)
  {
    var res := sub.estadoResultado;
    var status: Option<Status> := Some(cur.estadoActual);
    match ev.transition {
      case NextState(s) =>
        if Truthy(s) {
          status := s;
        }
      case NextStates(_) =>
        if Truthy(res) {
          status := MappedTarget(ev.transition, res.value);
        }
    }
    if status.None? {
      return Err(UndefinedBind);
    }
    assert Fields(ev.name, cur, sub, now) == [];
    r := Ok(Effect(status.value, [], None));
  }

  /**
    The decision of `handleProcessEvent` after the guards, in the order the
    controller takes it: the document-check block, then the switch on the
    event name.
  */
  method ResolveEvent(ev: EventDef, cur: Record, role: Role, sub: Submission, now: int) returns (r: Result<Effect, Error>)
    requires ev in Events && role in ev.allowedRoles
    ensures r == Resolve(ev, cur, role, sub, now)
  {
    NameDeterminesEntry(ev);
    var name := ev.name;
    var _, deadline, fields := DocumentCheck(name, cur, role, sub, now);
    if IsResultMapEvent(name) {
      r := ResultMapCase(ev, cur, role, sub, now, deadline, fields);
    } else if name == RadicacionAreasName {
      r := FilingCase(cur, role, sub, now);
    } else if name == VerificacionAreaName {
      r := AreaReviewCase(cur, role, sub, now);
    } else if name == VisitaInspeccionVigilanciaName {
      r := VisitCase(cur, role, sub, now);
    } else if name == CierreSolicitudName {
      r := ClosureCase(cur, role, sub, now);
    } else {
      r := DefaultCase(ev, cur, role, sub, now);
    }
  }

  /**
    `UPDATE Solicitudes SET estado_actual = ?, k = ? ...`: the status, then
    each collected column whose value is not `undefined`, in order.
  */
  method ApplyUpdate(cur: Record, status: Status, fields: seq<Update>) returns (rec: Record)
    ensures rec == Overlay(cur.(estadoActual := status), fields)
  {
    rec := cur.(estadoActual := status);
    var i := 0;
    while i < |fields|
      invariant 0 <= i <= |fields|
      invariant rec == Overlay(cur.(estadoActual := status), fields[..i])
    {
      assert fields[..i + 1][..i] == fields[..i];
      if IsDefined(fields[i]) {
        rec := SetColumn(rec, fields[i]);
      }
      i := i + 1;
    }
    assert fields[..|fields|] == fields;
  }

  /**
    The checks made before anything is written: a known event, a permitted
    role, an existing solicitud (read `FOR UPDATE`) in one of the event's
    previous states.
  */
  method CheckGuards(records: map<int, Record>, id: int, role: Role, name: string)
    returns (r: Result<(EventDef, Record), Error>)
    ensures r == Guard(records, id, role, name)
  {
    var found := GetProcessEventByName(name);
    if found.None? {
      return Err(UnknownEvent);
    }
    var ev := found.value;
    if role !in ev.allowedRoles {
      return Err(Forbidden);
    }
    if id !in records {
      return Err(NotFound);
    }
    var cur := records[id];
    if !ev.previousState.Unrestricted? {
      var allowed := AllowedPrevious(ev.previousState);
      if cur.estadoActual !in allowed {
        return Err(IllegalState(cur.estadoActual, allowed));
      }
    }
    r := Ok((ev, cur));
  }

  /**
    What `handleProcessEvent` commits, computed in the controller's order:
    the guards, the decision, the `UPDATE` of the solicitud and then the
    event row, whose absent comment the driver refuses. The committed row
    keeps the solicitud's identity and the event row names it.
  */
  method Decide(records: map<int, Record>, id: int, actorId: int, role: Role, sub: Submission, now: int)
    returns (r: Result<Commit, Error>)
    ensures r == Handle(records, id, actorId, role, sub, now)
    ensures r.Ok? ==> id in records && SameIdentity(records[id], r.value.record) && r.value.entry.solicitudId == id
  {
    var admitted := CheckGuards(records, id, role, sub.eventName);
    if admitted.Err? {
      return Err(admitted.error);
    }
    var (ev, cur) := admitted.value;
    var decision := ResolveEvent(ev, cur, role, sub, now);
    if decision.Err? {
      return Err(decision.error);
    }
    var eff := decision.value;
    var rec := ApplyUpdate(cur, eff.status, eff.fields);
    if sub.comentarioProceso.None? {
      return Err(UndefinedBind);
    }
    OverlayFrame(cur.(estadoActual := eff.status), eff.fields);
    r := Ok(Commit(rec, EventRow(id, ev, actorId, role, sub, now, eff.fechaProximaAccion)));
  }

  /**
    The invariant of the two tables: each row's id is its key and lies below
    the next auto-increment id, radicados are unique, every event row belongs
    to a stored solicitud (the foreign key) and every stored solicitud has a
    history.
  */
  ghost predicate Consistent(records: map<int, Record>, events: seq<AuditEntry>, nextId: int) {
    && 0 < nextId
    && (forall k | k in records :: 0 < k < nextId && records[k].id == k)
    && RadicadosUnique(records)
    && (forall e | e in events :: e.solicitudId in records)
    && (forall k | k in records :: History(events, k) != [])
  }

  /** Inserting a solicitud under the next id, with a fresh radicado and its first event row, keeps the invariant. */
  lemma InsertKeepsConsistent(records: map<int, Record>, events: seq<AuditEntry>, nextId: int, rec: Record, entry: AuditEntry)
    requires Consistent(records, events, nextId)
    requires rec.id == nextId && !RadicadoTaken(records, rec.radicado) && entry.solicitudId == nextId
    ensures Consistent(records[nextId := rec], events + [entry], nextId + 1)
  {
    var records' := records[nextId := rec];
    forall k | k in records'
      ensures History(events + [entry], k) != []
    {
      HistoryAppend(events, entry, k);
    }
    forall j, k | j in records' && k in records' && records'[j].radicado == records'[k].radicado
      ensures j == k
    {
      if j != nextId && k != nextId {
        assert records'[j] == records[j] && records'[k] == records[k];
      }
    }
  }

  /** Rewriting a stored solicitud under its own id and radicado, and appending one of its event rows, keeps the invariant. */
  lemma CommitKeepsConsistent(records: map<int, Record>, events: seq<AuditEntry>, nextId: int, id: int, rec: Record, entry: AuditEntry)
    requires Consistent(records, events, nextId)
    requires id in records && rec.id == id && rec.radicado == records[id].radicado && entry.solicitudId == id
    ensures Consistent(records[id := rec], events + [entry], nextId)
  {
    var records' := records[id := rec];
    forall k | k in records'
      ensures History(events + [entry], k) != []
    {
      HistoryAppend(events, entry, k);
    }
    forall j, k | j in records' && k in records' && records'[j].radicado == records'[k].radicado
      ensures j == k
    {
      assert records'[j].radicado == records[j].radicado && records'[k].radicado == records[k].radicado;
    }
  }

  /** Deleting a solicitud with its event rows keeps the invariant. */
  lemma DeleteKeepsConsistent(records: map<int, Record>, events: seq<AuditEntry>, nextId: int, id: int)
    requires Consistent(records, events, nextId) && id in records
    ensures Consistent(records - {id}, WithoutSolicitud(events, id), nextId)
  {
    forall k | k in records - {id}
      ensures History(WithoutSolicitud(events, id), k) != []
    {
      DeleteKeepsOtherHistories(events, id, k);
    }
  }

  /** The roles `authorize` admits on the create route: IyV alone. */
  const CreateRoles: set<Role> := {IyV}

  /** The roles `authorize` admits on the delete route: Administrador alone. */
  const DeleteRoles: set<Role> := {Administrador}

  /**
    The two tables: `Solicitudes` by id, `EventosProceso` in insertion
    order, and the next auto-increment id of `Solicitudes`.
  */
  class Store {
    var records: map<int, Record>
    var events: seq<AuditEntry>
    var nextId: int

    /** The tables are consistent. */
    ghost predicate Valid()
      reads this
    {
      Consistent(records, events, nextId)
    }

    /** Empty tables; auto-increment starts at 1. */
    constructor ()
      ensures Valid()
      ensures records == map[] && events == [] && nextId == 1
    {
      records := map[];
      events := [];
      nextId := 1;
    }

    /**
      `POST /` then `createSolicitud`: a role outside the route's list is
      refused; then the type check, the solicitud insert under the next id,
      then the reception event row; a failure rolls both inserts back.
    */
    method CreateSolicitud(role: Role, req: CreateRequest, actorId: int, now: int, limit: int) returns (r: Result<int, Error>)
      requires Valid()
      modifies this
      ensures Valid()
      ensures role !in CreateRoles ==>
        r == Err(Forbidden) && records == old(records) && events == old(events) && nextId == old(nextId)
      ensures role in CreateRoles ==> match Create(old(records), old(nextId), req, actorId, now, limit)
        case Err(e) => r == Err(e) && records == old(records) && events == old(events) && nextId == old(nextId)
        case Ok(c) =>
          && r == Ok(old(nextId))
          && records == old(records)[old(nextId) := c.record]
          && events == old(events) + [c.entry]
          && nextId == old(nextId) + 1
    {
      if role !in CreateRoles {
        return Err(Forbidden);
      }
      if req.tipoSolicitud.None? || req.tipoSolicitud.value !in AllowedSolicitudTypes {
        return Err(InvalidType);
      }
      if !RequestComplete(req) {
        return Err(UndefinedBind);
      }
      if RadicadoTaken(records, req.radicado.value) {
        return Err(DuplicateRadicado);
      }
      var id := nextId;
      var saved := records;
      var rec := NewRecord(id, req, actorId, limit);
      records := records[id := rec];
      nextId := nextId + 1;
      if req.comentarioInicial.None? {
        records, nextId := saved, id;
        return Err(UndefinedBind);
      }
      var entry := InitialRow(id, actorId, now, req.comentarioInicial.value);
      InsertKeepsConsistent(saved, events, id, rec, entry);
      events := events + [entry];
      r := Ok(id);
    }

    /**
      `handleProcessEvent`: the guards, the decision, the update of the
      solicitud and the appended event row; a failure rolls the update back.
    */
    method HandleProcessEvent(id: int, actorId: int, role: Role, sub: Submission, now: int) returns (r: Result<Status, Error>)
      requires Valid()
      modifies this
      ensures Valid()
      ensures nextId == old(nextId)
      ensures match Handle(old(records), id, actorId, role, sub, now)
        case Err(e) => r == Err(e) && records == old(records) && events == old(events)
        case Ok(c) =>
          && r == Ok(c.record.estadoActual)
          && records == old(records)[id := c.record]
          && events == old(events) + [c.entry]
    {
      var decision := Decide(records, id, actorId, role, sub, now);
      if decision.Err? {
        return Err(decision.error);
      }
      var c := decision.value;
      WriteCommit(id, c);
      r := Ok(c.record.estadoActual);
    }

    /** The `UPDATE` of a stored solicitud under its own id and radicado, then the `INSERT` of its event row. */
    method WriteCommit(id: int, c: Commit)
      requires Valid()
      requires id in records && c.record.id == id && c.record.radicado == records[id].radicado && c.entry.solicitudId == id
      modifies this
      ensures Valid()
      ensures records == old(records)[id := c.record] && events == old(events) + [c.entry] && nextId == old(nextId)
    {
      CommitKeepsConsistent(records, events, nextId, id, c.record, c.entry);
      records := records[id := c.record];
      events := events + [c.entry];
    }

    /**
      `DELETE /:id` then `deleteSolicitud`: a role outside the route's list is
      refused; then the solicitud's event rows, then the solicitud; a missing
      solicitud rolls the first delete back and reports `NotFound`.
    */
    method DeleteSolicitud(role: Role, id: int) returns (r: Result<(), Error>)
      requires Valid()
      modifies this
      ensures Valid()
      ensures nextId == old(nextId)
      ensures role !in DeleteRoles ==> r == Err(Forbidden) && records == old(records) && events == old(events)
      ensures role in DeleteRoles && id in old(records) ==>
        r == Ok(()) && records == old(records) - {id} && events == WithoutSolicitud(old(events), id)
      ensures role in DeleteRoles && id !in old(records) ==>
        r == Err(NotFound) && records == old(records) && events == old(events)
    {
      if role !in DeleteRoles {
        return Err(Forbidden);
      }
      var kept: seq<AuditEntry> := [];
      var i := 0;
      while i < |events|
        invariant 0 <= i <= |events|
        invariant kept == WithoutSolicitud(events[..i], id)
      {
        assert events[..i + 1][..i] == events[..i];
        if events[i].solicitudId != id {
          kept := kept + [events[i]];
        }
        i := i + 1;
      }
      assert events[..|events|] == events;
      if id !in records {
        return Err(NotFound);
      }
      DeleteKeepsConsistent(records, events, nextId, id);
      events := kept;
      records := records - {id};
      r := Ok(());
    }
  }
}
