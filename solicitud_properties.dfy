/**
  Properties of one process-event call (`Handle`): the guards, the status
  each event reaches, which columns it writes, the next-action deadline and
  the shape of the committed row and event, including the quirks of the
  controller as it stands.
*/
module SolicitudProperties {
  import opened Common
  import opened ProcessEvents
  import opened SolicitudRules

  /** `e` is the event the request names, the role may trigger it, the record exists and its status is accepted. */
  predicate Admitted(records: map<int, Record>, id: int, role: Role, sub: Submission, e: EventDef) {
    && e in Events
    && e.name == sub.eventName
    && role in e.allowedRoles
    && id in records
    && (e.previousState.Unrestricted? || records[id].estadoActual in AllowedPrevious(e.previousState))
  }

  lemma AdmittedPassesGuard(records: map<int, Record>, id: int, role: Role, sub: Submission, e: EventDef)
    requires Admitted(records, id, role, sub, e)
    ensures Guard(records, id, role, sub.eventName) == Ok((e, records[id]))
  {
    LookupFindsEntry(e);
  }

  /** An admitted call is the admitted entry applied to the stored row. */
  lemma AdmittedHandle(records: map<int, Record>, id: int, actorId: int, role: Role, sub: Submission, now: int, e: EventDef)
    requires Admitted(records, id, role, sub, e)
    ensures Handle(records, id, actorId, role, sub, now) == Apply(id, e, records[id], actorId, role, sub, now)
  {
    AdmittedPassesGuard(records, id, role, sub, e);
  }

  /** A successful call passed the guards for the catalog entry of that name. */
  lemma {:induction false} SuccessWasAdmitted(records: map<int, Record>, id: int, actorId: int, role: Role, sub: Submission, now: int)
    requires Handle(records, id, actorId, role, sub, now).Ok?
    ensures GetProcessEventByName(sub.eventName).Some?
    ensures Admitted(records, id, role, sub, GetProcessEventByName(sub.eventName).value)
  {
  }

  /** An event name the catalog does not know is refused whatever the table holds. */
  lemma UnknownEventRejected(records: map<int, Record>, id: int, actorId: int, role: Role, sub: Submission, now: int)
    requires forall e | e in Events :: e.name != sub.eventName
    ensures Handle(records, id, actorId, role, sub, now) == Err(UnknownEvent)
  {
  }

  /**
    The guards in order: a role outside `allowedRoles` is refused whatever the
    table holds, then a missing record, then a status outside `previousState`,
    reported with both the current and the expected statuses. An entry without
    `previousState` never fails the status check.
  */
  lemma Guards(records: map<int, Record>, id: int, actorId: int, role: Role, sub: Submission, now: int, e: EventDef)
    requires e in Events && e.name == sub.eventName
    ensures role !in e.allowedRoles ==> Handle(records, id, actorId, role, sub, now) == Err(Forbidden)
    ensures role in e.allowedRoles && id !in records ==> Handle(records, id, actorId, role, sub, now) == Err(NotFound)
    ensures role in e.allowedRoles && id in records && !e.previousState.Unrestricted?
            && records[id].estadoActual !in AllowedPrevious(e.previousState) ==>
              Handle(records, id, actorId, role, sub, now)
              == Err(IllegalState(records[id].estadoActual, AllowedPrevious(e.previousState)))
    ensures role in e.allowedRoles && id in records && e.previousState.Unrestricted? ==>
              !Handle(records, id, actorId, role, sub, now).Err?
              || !Handle(records, id, actorId, role, sub, now).error.IllegalState?
  {
    LookupFindsEntry(e);
    if role !in e.allowedRoles {
      assert Guard(records, id, role, sub.eventName) == Err(Forbidden);
    } else if id !in records {
      assert Guard(records, id, role, sub.eventName) == Err(NotFound);
    } else if !e.previousState.Unrestricted? && records[id].estadoActual !in AllowedPrevious(e.previousState) {
      assert Guard(records, id, role, sub.eventName)
        == Err(IllegalState(records[id].estadoActual, AllowedPrevious(e.previousState)));
    } else if e.previousState.Unrestricted? {
      AdmittedHandle(records, id, actorId, role, sub, now, e);
      ApplyNeverIllegal(id, e, records[id], actorId, role, sub, now);
    }
  }

  /** Past the guards, no failure is an illegal state. */
  lemma ApplyNeverIllegal(id: int, e: EventDef, cur: Record, actorId: int, role: Role, sub: Submission, now: int)
    ensures var h := Apply(id, e, cur, actorId, role, sub, now);
            h.Err? ==> h.error in {InvalidResult, Forbidden, UndefinedBind}
  {
  }

  lemma WrittenConcat(x: seq<Update>, y: seq<Update>)
    ensures Written(x + y) == Written(x) + Written(y)
  {
    assert forall u :: u in x + y <==> u in x || u in y;
  }

  lemma {:induction false} DistinctConcat(x: seq<Update>, y: seq<Update>)
    requires DistinctColumns(x) && DistinctColumns(y) && Written(x) !! Written(y)
    ensures DistinctColumns(x + y)
  {
    forall i, j | 0 <= i < j < |x + y| && IsDefined((x + y)[i]) && IsDefined((x + y)[j])
      ensures ColumnOf((x + y)[i]) != ColumnOf((x + y)[j])
    {
      if j >= |x| && i < |x| {
        assert x[i] in x && y[j - |x|] in y;
        assert ColumnOf(x[i]) in Written(x);
        assert ColumnOf(y[j - |x|]) in Written(y);
      } else if i >= |x| {
        assert (x + y)[i] == y[i - |x|] && (x + y)[j] == y[j - |x|];
      }
    }
  }

  lemma WrittenSingle(u: Update)
    ensures Written([u]) == if IsDefined(u) then {ColumnOf(u)} else {}
    ensures DistinctColumns([u])
  {
    assert u in [u];
  }

  /** The area columns a `radicacion_areas` request names. */
  function InvolvedColumns(areas: Option<seq<string>>): set<Column> {
    (if Involves(areas, AreaCalidad) then {AprobacionCalidad} else {})
    + (if Involves(areas, AreaPlaneacion) then {AprobacionPlaneacion} else {})
    + (if Involves(areas, AreaFinanciero) then {AprobacionFinanciero} else {})
  }

  lemma AreaApprovalsColumns(areas: Option<seq<string>>)
    ensures Written(AreaApprovals(areas)) == InvolvedColumns(areas)
    ensures DistinctColumns(AreaApprovals(areas))
  {
    var c := AreaApproval(areas, AreaCalidad, SetAprobacionCalidad(Aplica));
    var p := AreaApproval(areas, AreaPlaneacion, SetAprobacionPlaneacion(Aplica));
    var f := AreaApproval(areas, AreaFinanciero, SetAprobacionFinanciero(Aplica));
    WrittenSingle(SetAprobacionCalidad(Aplica));
    WrittenSingle(SetAprobacionPlaneacion(Aplica));
    WrittenSingle(SetAprobacionFinanciero(Aplica));
    WrittenConcat(c, p);
    WrittenConcat(c + p, f);
    DistinctConcat(c, p);
    DistinctConcat(c + p, f);
  }

  lemma ClosureColumns(now: int, reason: Option<string>)
    ensures Written(Closure(now, reason)) == {FechaCierre} + (if reason.Some? then {MotivoCierre} else {})
    ensures DistinctColumns(Closure(now, reason))
  {
    var fs := Closure(now, reason);
    assert fs[0] in fs && fs[1] in fs;
  }

  lemma IyvApprovalColumns(v: Option<string>)
    ensures Written(IyvApproval(v)) == if IyvApproval(v) == [] then {} else {AprobacionIyv}
    ensures DistinctColumns(IyvApproval(v))
  {
    if IyvApproval(v) != [] {
      assert IyvApproval(v)[0] in IyvApproval(v);
    }
  }

  /** The columns `Fields` names for a request. */
  function FieldsColumns(name: string, sub: Submission): set<Column> {
    (if name == VerificacionDocumentosIyVName && IyvApproval(sub.aprobacionIyvValue) != [] then {AprobacionIyv} else {})
    + (if name == RadicacionAreasName then InvolvedColumns(sub.areasInvolucradas) else {})
    + (if name == VisitaInspeccionVigilanciaName then {ContadorVisitas} else {})
    + (if ClosesWithFields(name, sub.estadoResultado) then
         {FechaCierre} + (if ClosureReason(name, sub).Some? then {MotivoCierre} else {})
       else {})
  }

  /** The columns each event writes; no column is written twice. */
  lemma {:induction false} FieldColumns(name: string, cur: Record, sub: Submission, now: int)
    ensures DistinctColumns(Fields(name, cur, sub, now))
    ensures Written(Fields(name, cur, sub, now)) == FieldsColumns(name, sub)
  {
    var a, b, v, c := IyvPart(name, sub), AreaPart(name, sub), VisitPart(name, cur), ClosurePart(name, sub, now);
    IyvApprovalColumns(sub.aprobacionIyvValue);
    AreaApprovalsColumns(sub.areasInvolucradas);
    ClosureColumns(now, ClosureReason(name, sub));
    WrittenSingle(SetContadorVisitas(cur.contadorVisitas + 1));
    var wa := if name == VerificacionDocumentosIyVName && IyvApproval(sub.aprobacionIyvValue) != [] then {AprobacionIyv} else {};
    var wb := if name == RadicacionAreasName then InvolvedColumns(sub.areasInvolucradas) else {};
    var wv := if name == VisitaInspeccionVigilanciaName then {ContadorVisitas} else {};
    var wc := if ClosesWithFields(name, sub.estadoResultado) then
         {FechaCierre} + (if ClosureReason(name, sub).Some? then {MotivoCierre} else {}) else {};
    assert Written(a) == wa && Written(b) == wb && Written(v) == wv && Written(c) == wc;
    WrittenConcat(a, b);
    WrittenConcat(a + b, v);
    WrittenConcat(a + b + v, c);
    DistinctConcat(a, b);
    DistinctConcat(a + b, v);
    DistinctConcat(a + b + v, c);
  }

  /** A successful call is the commit `Handle` builds from the admitted entry. */
  lemma OkCommit(records: map<int, Record>, id: int, actorId: int, role: Role, sub: Submission, now: int)
    returns (e: EventDef)
    requires Handle(records, id, actorId, role, sub, now).Ok?
    ensures Admitted(records, id, role, sub, e)
    ensures NextStatus(e, records[id], role, sub).Ok? && sub.comentarioProceso.Some?
    ensures Handle(records, id, actorId, role, sub, now).value
      == Commit(Overlay(records[id].(estadoActual := NextStatus(e, records[id], role, sub).value), Fields(e.name, records[id], sub, now)),
                EventRow(id, e, actorId, role, sub, now, Deadline(e.name, sub.estadoResultado, now)))
  {
    SuccessWasAdmitted(records, id, actorId, role, sub, now);
    e := GetProcessEventByName(sub.eventName).value;
    AdmittedPassesGuard(records, id, role, sub, e);
  }

  /** The row an accepted event commits once its status is decided. */
  function Committed(cur: Record, status: Status, sub: Submission, now: int): Record {
    Overlay(cur.(estadoActual := status), Fields(sub.eventName, cur, sub, now))
  }

  /** A successful call commits the decided status over the current row. */
  lemma HandleCommits(records: map<int, Record>, id: int, actorId: int, role: Role, sub: Submission, now: int)
    requires Handle(records, id, actorId, role, sub, now).Ok?
    ensures id in records && sub.comentarioProceso.Some?
    ensures var rec := Handle(records, id, actorId, role, sub, now).value.record;
            rec == Committed(records[id], rec.estadoActual, sub, now)
  {
    var e := OkCommit(records, id, actorId, role, sub, now);
    OverlayFrame(records[id].(estadoActual := NextStatus(e, records[id], role, sub).value), Fields(e.name, records[id], sub, now));
  }

  /**
    The committed row has the decided status, keeps the identity columns,
    holds every value the event writes, and keeps every updatable column the
    event does not name.
  */
  lemma CommittedFrame(cur: Record, status: Status, sub: Submission, now: int)
    ensures Committed(cur, status, sub, now).estadoActual == status
    ensures SameIdentity(cur, Committed(cur, status, sub, now))
    ensures forall u | u in Fields(sub.eventName, cur, sub, now) :: Shows(Committed(cur, status, sub, now), u)
    ensures SameColumnsOutside(cur, Committed(cur, status, sub, now), FieldsColumns(sub.eventName, sub))
  {
    var base := cur.(estadoActual := status);
    var fs := Fields(sub.eventName, cur, sub, now);
    OverlayFrame(base, fs);
    FieldColumns(sub.eventName, cur, sub, now);
    OverlayShows(base, fs);
  }

  /**
    `aprobacion_iyv` is written only by the document check, and only with
    'Aplica' or 'No Aplica' as sent; every other event keeps it.
  */
  lemma IyvApprovalFlag(cur: Record, status: Status, sub: Submission, now: int)
    ensures var docs := sub.eventName == VerificacionDocumentosIyVName;
            Committed(cur, status, sub, now).aprobacionIyv
            == (if docs && sub.aprobacionIyvValue == Some("Aplica") then Some(Aplica)
                else if docs && sub.aprobacionIyvValue == Some("No Aplica") then Some(NoAplica)
                else cur.aprobacionIyv)
  {
    CommittedFrame(cur, status, sub, now);
    var fs := Fields(sub.eventName, cur, sub, now);
    if sub.eventName == VerificacionDocumentosIyVName && IyvApproval(sub.aprobacionIyvValue) != [] {
      assert fs[0] == IyvApproval(sub.aprobacionIyvValue)[0];
      assert fs[0] in fs;
    }
  }

  /**
    An area approval column is set to 'Aplica' only by `radicacion_areas` when
    its tag is listed; nothing else, `verificacion_area` included, touches it.
  */
  lemma AreaApprovalFlags(cur: Record, status: Status, sub: Submission, now: int)
    ensures var rec := Committed(cur, status, sub, now);
            var filing := sub.eventName == RadicacionAreasName;
            && rec.aprobacionCalidad == (if filing && Involves(sub.areasInvolucradas, AreaCalidad) then Some(Aplica) else cur.aprobacionCalidad)
            && rec.aprobacionPlaneacion == (if filing && Involves(sub.areasInvolucradas, AreaPlaneacion) then Some(Aplica) else cur.aprobacionPlaneacion)
            && rec.aprobacionFinanciero == (if filing && Involves(sub.areasInvolucradas, AreaFinanciero) then Some(Aplica) else cur.aprobacionFinanciero)
  {
    CommittedFrame(cur, status, sub, now);
    AreaColumns(sub.eventName, sub);
    var areas := sub.areasInvolucradas;
    if sub.eventName == RadicacionAreasName {
      var fs := Fields(sub.eventName, cur, sub, now);
      var approvals := AreaPart(sub.eventName, sub);
      assert approvals == AreaApprovals(areas);
      assert forall u | u in approvals :: u in fs;
      if Involves(areas, AreaCalidad) {
        assert SetAprobacionCalidad(Aplica) in approvals;
      }
      if Involves(areas, AreaPlaneacion) {
        assert SetAprobacionPlaneacion(Aplica) in approvals;
      }
      if Involves(areas, AreaFinanciero) {
        assert SetAprobacionFinanciero(Aplica) in approvals;
      }
    }
  }

  /** Only `radicacion_areas` names an area column, and only the ones it lists. */
  lemma AreaColumns(name: string, sub: Submission)
    ensures var cs := FieldsColumns(name, sub);
            var filing := name == RadicacionAreasName;
            && (AprobacionCalidad in cs <==> filing && Involves(sub.areasInvolucradas, AreaCalidad))
            && (AprobacionPlaneacion in cs <==> filing && Involves(sub.areasInvolucradas, AreaPlaneacion))
            && (AprobacionFinanciero in cs <==> filing && Involves(sub.areasInvolucradas, AreaFinanciero))
  {
  }

  /** `contador_visitas` goes up by one on a visit and is kept by every other event. */
  lemma VisitCounter(cur: Record, status: Status, sub: Submission, now: int)
    ensures Committed(cur, status, sub, now).contadorVisitas
            == cur.contadorVisitas + if sub.eventName == VisitaInspeccionVigilanciaName then 1 else 0
  {
    CommittedFrame(cur, status, sub, now);
    if sub.eventName == VisitaInspeccionVigilanciaName {
      assert Fields(sub.eventName, cur, sub, now)[0] == SetContadorVisitas(cur.contadorVisitas + 1);
    }
  }

  /**
    The closure columns are written, with the time of the event and its
    reason, exactly by a closing document check, a closing act and
    `cierre_solicitud`; every other event keeps them. An absent reason is
    skipped, which keeps the stored one.
  */
  lemma ClosureFields(cur: Record, status: Status, sub: Submission, now: int)
    ensures var rec := Committed(cur, status, sub, now);
            var closes := ClosesWithFields(sub.eventName, sub.estadoResultado);
            var reason := ClosureReason(sub.eventName, sub);
            && rec.fechaCierre == (if closes then Some(now) else cur.fechaCierre)
            && rec.motivoCierre == (if closes && reason.Some? then reason else cur.motivoCierre)
  {
    CommittedFrame(cur, status, sub, now);
    ClosureColumnsNamed(sub.eventName, sub);
    var fs := Fields(sub.eventName, cur, sub, now);
    if ClosesWithFields(sub.eventName, sub.estadoResultado) {
      var c := ClosurePart(sub.eventName, sub, now);
      assert c == Closure(now, ClosureReason(sub.eventName, sub));
      assert forall u | u in c :: u in fs;
      assert c[0] in c && c[1] in c;
    }
  }

  /** The closure date is named exactly by the closing events, the reason when it is present. */
  lemma ClosureColumnsNamed(name: string, sub: Submission)
    ensures var cs := FieldsColumns(name, sub);
            var closes := ClosesWithFields(name, sub.estadoResultado);
            && (FechaCierre in cs <==> closes)
            && (MotivoCierre in cs <==> closes && ClosureReason(name, sub).Some?)
  {
  }

  /**
    The approval flags are never cleared, the visit counter never decreases,
    and a closure date once set stays set.
  */
  lemma FlagsNeverUnset(cur: Record, status: Status, sub: Submission, now: int)
    ensures var rec := Committed(cur, status, sub, now);
            && (cur.aprobacionIyv.Some? ==> rec.aprobacionIyv.Some?)
            && (cur.aprobacionCalidad.Some? ==> rec.aprobacionCalidad.Some?)
            && (cur.aprobacionPlaneacion.Some? ==> rec.aprobacionPlaneacion.Some?)
            && (cur.aprobacionFinanciero.Some? ==> rec.aprobacionFinanciero.Some?)
            && cur.contadorVisitas <= rec.contadorVisitas
            && (cur.fechaCierre.Some? ==> rec.fechaCierre.Some?)
  {
    IyvApprovalFlag(cur, status, sub, now);
    AreaApprovalFlags(cur, status, sub, now);
    VisitCounter(cur, status, sub, now);
    ClosureFields(cur, status, sub, now);
  }

  /** The status each event commits. */
  lemma CommittedStatus(records: map<int, Record>, id: int, actorId: int, role: Role, sub: Submission, now: int)
    requires Handle(records, id, actorId, role, sub, now).Ok?
    ensures GetProcessEventByName(sub.eventName).Some?
    ensures var s := Handle(records, id, actorId, role, sub, now).value.record.estadoActual;
            var name := sub.eventName;
            var res := sub.estadoResultado;
            var t := GetProcessEventByName(name).value.transition;
            && (name == RecepcionSolicitudName ==> s == Recibido)
            && (name == RadicacionAreasName ==> s == ParaVerificacion)
            && (IsResultMapEvent(name) || name == VisitaInspeccionVigilanciaName ==>
                  res.Some? && MappedTarget(t, res.value) == Some(s))
            && (name == VerificacionAreaName ==>
                  res.Some? && s == if AreaRemediation(res.value) then SubsanacionArea else ParaVisitaOActo)
            && (name == CierreSolicitudName ==> res == Some(s))
  {
    var e := OkCommit(records, id, actorId, role, sub, now);
    LookupFindsEntry(e);
    var cur := records[id];
    OverlayFrame(cur.(estadoActual := NextStatus(e, cur, role, sub).value), Fields(e.name, cur, sub, now));
    StatusRule(e, cur, role, sub);
  }

  /** `CommittedStatus` for the status an admitted entry decides. */
  lemma StatusRule(e: EventDef, cur: Record, role: Role, sub: Submission)
    requires e in Events && NextStatus(e, cur, role, sub).Ok?
    ensures var s := NextStatus(e, cur, role, sub).value;
            var res := sub.estadoResultado;
            && (e.name == RecepcionSolicitudName ==> s == Recibido)
            && (e.name == RadicacionAreasName ==> s == ParaVerificacion)
            && (IsResultMapEvent(e.name) || e.name == VisitaInspeccionVigilanciaName ==>
                  res.Some? && MappedTarget(e.transition, res.value) == Some(s))
            && (e.name == VerificacionAreaName ==>
                  res.Some? && s == if AreaRemediation(res.value) then SubsanacionArea else ParaVisitaOActo)
            && (e.name == CierreSolicitudName ==> res == Some(s))
  {
    NameDeterminesEntry(e);
  }

  /**
    The four result-checked events succeed exactly when the result is a key
    of their `nextStates` map, and otherwise report an invalid result.
  */
  lemma ResultMapOutcome(records: map<int, Record>, id: int, actorId: int, role: Role, sub: Submission, now: int, e: EventDef)
    requires Admitted(records, id, role, sub, e) && IsResultMapEvent(e.name) && sub.comentarioProceso.Some?
    ensures Handle(records, id, actorId, role, sub, now).Ok?
            <==> sub.estadoResultado.Some? && sub.estadoResultado.value != ""
                 && e.transition.NextStates? && sub.estadoResultado.value in e.transition.targets
    ensures !Handle(records, id, actorId, role, sub, now).Ok? ==> Handle(records, id, actorId, role, sub, now) == Err(InvalidResult)
  {
    AdmittedHandle(records, id, actorId, role, sub, now, e);
    ResultMapApplied(id, e, records[id], actorId, role, sub, now);
  }

  /** `ResultMapOutcome` for the stored row. */
  lemma ResultMapApplied(id: int, e: EventDef, cur: Record, actorId: int, role: Role, sub: Submission, now: int)
    requires IsResultMapEvent(e.name) && sub.comentarioProceso.Some?
    ensures Apply(id, e, cur, actorId, role, sub, now).Ok?
            <==> sub.estadoResultado.Some? && sub.estadoResultado.value != ""
                 && e.transition.NextStates? && sub.estadoResultado.value in e.transition.targets
    ensures !Apply(id, e, cur, actorId, role, sub, now).Ok? ==> Apply(id, e, cur, actorId, role, sub, now) == Err(InvalidResult)
  {
  }

  /**
    A visit needs a result that is a key of its map; any other result leaves
    the status undefined and the update is refused.
  */
  lemma VisitOutcome(records: map<int, Record>, id: int, actorId: int, role: Role, sub: Submission, now: int)
    requires Admitted(records, id, role, sub, VisitaInspeccionVigilancia) && sub.comentarioProceso.Some?
    ensures Handle(records, id, actorId, role, sub, now).Ok?
            <==> sub.estadoResultado.Some? && sub.estadoResultado.value in VisitaInspeccionVigilancia.transition.targets
    ensures !Handle(records, id, actorId, role, sub, now).Ok? ==> Handle(records, id, actorId, role, sub, now) == Err(UndefinedBind)
  {
    AdmittedPassesGuard(records, id, role, sub, VisitaInspeccionVigilancia);
  }

  /**
    `verificacion_area`: a missing result is invalid; a result naming both 'No
    Aprobado' and 'Subsanación' sends the solicitud to area remediation with a
    20-day deadline; any other result naming 'Aprobado' moves it to "Para Visita
    o Acto Administrativo"; anything else is invalid. An admitted role is
    always an area role, so the role check never refuses.
  */
  lemma VerificacionAreaOutcome(records: map<int, Record>, id: int, actorId: int, role: Role, sub: Submission, now: int)
    requires Admitted(records, id, role, sub, VerificacionArea) && sub.comentarioProceso.Some?
    ensures Handle(records, id, actorId, role, sub, now) != Err(Forbidden)
    ensures !Truthy(sub.estadoResultado) ==> Handle(records, id, actorId, role, sub, now) == Err(InvalidResult)
    ensures Truthy(sub.estadoResultado) ==>
      var r := sub.estadoResultado.value;
      var h := Handle(records, id, actorId, role, sub, now);
      && (AreaRemediation(r) ==>
            h.Ok? && h.value.record.estadoActual == SubsanacionArea && h.value.entry.fechaProximaAccion == Some(now + 20))
      && (!AreaRemediation(r) && Contains(r, "Aprobado") ==>
            h.Ok? && h.value.record.estadoActual == ParaVisitaOActo && h.value.entry.fechaProximaAccion.None?)
      && (!AreaRemediation(r) && !Contains(r, "Aprobado") ==> h == Err(InvalidResult))
  {
    AdmittedHandle(records, id, actorId, role, sub, now, VerificacionArea);
    assert IsAreaRole(role);
    AreaReviewApplied(id, records[id], actorId, role, sub, now);
  }

  /** `VerificacionAreaOutcome` for the stored row, once the guards admitted an area role. */
  lemma AreaReviewApplied(id: int, cur: Record, actorId: int, role: Role, sub: Submission, now: int)
    requires IsAreaRole(role) && sub.comentarioProceso.Some?
    ensures !Truthy(sub.estadoResultado) ==> Apply(id, VerificacionArea, cur, actorId, role, sub, now) == Err(InvalidResult)
    ensures Truthy(sub.estadoResultado) ==>
      var r := sub.estadoResultado.value;
      var h := Apply(id, VerificacionArea, cur, actorId, role, sub, now);
      && (AreaRemediation(r) ==>
            h.Ok? && h.value.record.estadoActual == SubsanacionArea && h.value.entry.fechaProximaAccion == Some(now + 20))
      && (!AreaRemediation(r) && Contains(r, "Aprobado") ==>
            h.Ok? && h.value.record.estadoActual == ParaVisitaOActo && h.value.entry.fechaProximaAccion.None?)
      && (!AreaRemediation(r) && !Contains(r, "Aprobado") ==> h == Err(InvalidResult))
  {
    var st := NextStatus(VerificacionArea, cur, role, sub);
    if st.Ok? {
      OverlayFrame(cur.(estadoActual := st.value), Fields(VerificacionAreaName, cur, sub, now));
    }
  }

  /**
    `cierre_solicitud` stores whatever result it is sent as the new status and
    stamps the closure date; without a result the status is undefined and the
    update is refused.
  */
  lemma CierreOutcome(records: map<int, Record>, id: int, actorId: int, role: Role, sub: Submission, now: int)
    requires Admitted(records, id, role, sub, CierreSolicitud) && sub.comentarioProceso.Some?
    ensures sub.estadoResultado.None? ==> Handle(records, id, actorId, role, sub, now) == Err(UndefinedBind)
    ensures sub.estadoResultado.Some? ==>
      var h := Handle(records, id, actorId, role, sub, now);
      h.Ok? && h.value.record.estadoActual == sub.estadoResultado.value && h.value.record.fechaCierre == Some(now)
  {
    AdmittedHandle(records, id, actorId, role, sub, now, CierreSolicitud);
    CierreApplied(id, records[id], actorId, role, sub, now);
  }

  /** `CierreOutcome` for the stored row. */
  lemma CierreApplied(id: int, cur: Record, actorId: int, role: Role, sub: Submission, now: int)
    requires sub.comentarioProceso.Some?
    ensures sub.estadoResultado.None? ==> Apply(id, CierreSolicitud, cur, actorId, role, sub, now) == Err(UndefinedBind)
    ensures sub.estadoResultado.Some? ==>
      var h := Apply(id, CierreSolicitud, cur, actorId, role, sub, now);
      h.Ok? && h.value.record.estadoActual == sub.estadoResultado.value && h.value.record.fechaCierre == Some(now)
  {
    if sub.estadoResultado.Some? {
      var reason := ClosureReason(CierreSolicitudName, sub);
      CierreResolves(cur, role, sub, now);
      ClosureOverlay(cur.(estadoActual := sub.estadoResultado.value), now, reason);
    }
  }

  /** `cierre_solicitud` takes the result as its status and collects the closure entries alone. */
  lemma CierreResolves(cur: Record, role: Role, sub: Submission, now: int)
    requires sub.estadoResultado.Some?
    ensures Resolve(CierreSolicitud, cur, role, sub, now)
      == Ok(Effect(sub.estadoResultado.value, Closure(now, ClosureReason(CierreSolicitudName, sub)), None))
  {
    assert NextStatus(CierreSolicitud, cur, role, sub) == Ok(sub.estadoResultado.value);
    assert Fields(CierreSolicitudName, cur, sub, now) == Closure(now, ClosureReason(CierreSolicitudName, sub));
  }

  /** Writing the closure entries stamps the closure date and keeps the status. */
  lemma ClosureOverlay(base: Record, now: int, reason: Option<string>)
    ensures Overlay(base, Closure(now, reason)).fechaCierre == Some(now)
    ensures Overlay(base, Closure(now, reason)).estadoActual == base.estadoActual
  {
    var fs := Closure(now, reason);
    ClosureColumns(now, reason);
    OverlayFrame(base, fs);
    OverlayShows(base, fs);
    assert fs[0] in fs;
  }

  /**
    The next-action deadline recorded with the event: 8 days when the
    document check sends the solicitud to IyV remediation or an IyV
    remediation is received, 20 days when an area sends it to area
    remediation or an area remediation is received, and none otherwise.
  */
  lemma NextActionDeadline(records: map<int, Record>, id: int, actorId: int, role: Role, sub: Submission, now: int)
    requires Handle(records, id, actorId, role, sub, now).Ok?
    ensures var c := Handle(records, id, actorId, role, sub, now).value;
            var d := c.entry.fechaProximaAccion;
            var s := c.record.estadoActual;
            var name := sub.eventName;
            && (d == Some(now + 8) <==>
                  (name == VerificacionDocumentosIyVName && s == SubsanacionIyV) || name == RecepcionSubsanacionIyVName)
            && (d == Some(now + 20) <==>
                  (name == VerificacionAreaName && s == SubsanacionArea) || name == RecepcionSubsanacionAreaName)
            && (d.Some? ==> d == Some(now + 8) || d == Some(now + 20))
  {
    var e := OkCommit(records, id, actorId, role, sub, now);
    var cur := records[id];
    OverlayFrame(cur.(estadoActual := NextStatus(e, cur, role, sub).value), Fields(e.name, cur, sub, now));
    DeadlineRule(e, cur, role, sub, now);
  }

  lemma DeadlineRule(e: EventDef, cur: Record, role: Role, sub: Submission, now: int)
    requires e in Events && NextStatus(e, cur, role, sub).Ok?
    ensures var d := Deadline(e.name, sub.estadoResultado, now);
            var s := NextStatus(e, cur, role, sub).value;
            && (d == Some(now + 8) <==>
                  (e.name == VerificacionDocumentosIyVName && s == SubsanacionIyV) || e.name == RecepcionSubsanacionIyVName)
            && (d == Some(now + 20) <==>
                  (e.name == VerificacionAreaName && s == SubsanacionArea) || e.name == RecepcionSubsanacionAreaName)
            && (d.Some? ==> d == Some(now + 8) || d == Some(now + 20))
  {
    NameDeterminesEntry(e);
    if e == VerificacionDocumentosIyV {
      DocumentCheckRemediation(sub.estadoResultado.value);
    }
  }

  /** The document check's map sends exactly the result "Subsanación de documentos IyV" to IyV remediation. */
  lemma DocumentCheckRemediation(res: string)
    requires res in VerificacionDocumentosIyVTargets
    ensures VerificacionDocumentosIyVTargets[res] == SubsanacionIyV <==> res == SubsanacionIyV
  {
  }

  /**
    The appended event row: the solicitud, the event's label, the time, the
    actor and the actor's role tag, the comment as sent, the attachments as
    sent when truthy and null otherwise, and the result as sent or, when none
    was sent, the first status option, which only `recepcion_solicitud` has.
  */
  lemma CommitEntry(records: map<int, Record>, id: int, actorId: int, role: Role, sub: Submission, now: int)
    requires Handle(records, id, actorId, role, sub, now).Ok?
    ensures GetProcessEventByName(sub.eventName).Some? && sub.comentarioProceso.Some?
    ensures var en := Handle(records, id, actorId, role, sub, now).value.entry;
            && en.solicitudId == id
            && en.nombreProceso == GetProcessEventByName(sub.eventName).value.eventLabel
            && en.fechaRegistro == now
            && en.usuarioResponsableId == actorId
            && en.areaInvolucrada == RoleName(role)
            && en.comentarioProceso == sub.comentarioProceso.value
            && en.documentosAdjuntos == (if Truthy(sub.documentosAdjuntos) then sub.documentosAdjuntos else None)
            && en.estadoResultado == if Truthy(sub.estadoResultado) then sub.estadoResultado
                                     else if sub.eventName == RecepcionSolicitudName then Some(Recibido)
                                     else None
  {
    var e := OkCommit(records, id, actorId, role, sub, now);
    LookupFindsEntry(e);
    NameDeterminesEntry(e);
    InitialEvent();
  }

  /**
    `recepcion_solicitud` has no `previousState`, so IyV can replay it on any
    solicitud, closed ones included: the status goes back to "Recibido
    Inspección y Vigilancia" and nothing else changes.
  */
  lemma RecepcionReplays(records: map<int, Record>, id: int, actorId: int, sub: Submission, now: int)
    requires id in records && sub.eventName == RecepcionSolicitudName && sub.comentarioProceso.Some?
    ensures var h := Handle(records, id, actorId, IyV, sub, now);
            h.Ok? && h.value.record == records[id].(estadoActual := Recibido) && h.value.entry.fechaProximaAccion.None?
  {
    assert RecepcionSolicitud in Events;
    AdmittedHandle(records, id, actorId, IyV, sub, now, RecepcionSolicitud);
    ReplayApplied(id, records[id], actorId, sub, now);
  }

  /** `RecepcionReplays` for the stored row. */
  lemma ReplayApplied(id: int, cur: Record, actorId: int, sub: Submission, now: int)
    requires sub.eventName == RecepcionSolicitudName && sub.comentarioProceso.Some?
    ensures var h := Apply(id, RecepcionSolicitud, cur, actorId, IyV, sub, now);
            h.Ok? && h.value.record == cur.(estadoActual := Recibido) && h.value.entry.fechaProximaAccion.None?
  {
    assert NextStatus(RecepcionSolicitud, cur, IyV, sub) == Ok(Recibido);
    assert Fields(RecepcionSolicitudName, cur, sub, now) == [];
    assert Deadline(RecepcionSolicitudName, sub.estadoResultado, now) == None;
  }

  /**
    `verificacion_area` decides by substring and ignores its own `nextStates`
    map: the approving key, which the map sends back to "Para Verificación en
    Áreas", moves the solicitud to "Para Visita o Acto Administrativo"; the
    remediation key agrees with the map.
  */
  lemma VerificacionAreaIgnoresCatalog(cur: Record, role: Role, sub: Submission)
    requires IsAreaRole(role)
    ensures MappedTarget(VerificacionArea.transition, "Aprobado por [Área]") == Some(ParaVerificacion)
    ensures sub.estadoResultado == Some("Aprobado por [Área]") ==>
      NextStatus(VerificacionArea, cur, role, sub) == Ok(ParaVisitaOActo) && ParaVisitaOActo != ParaVerificacion
    ensures sub.estadoResultado == Some("No Aprobado por [Área] - Subsanación") ==>
      NextStatus(VerificacionArea, cur, role, sub) == Ok(SubsanacionArea)
      && MappedTarget(VerificacionArea.transition, sub.estadoResultado.value) == Some(SubsanacionArea)
  {
    AreaResultKeys();
    AreaMapTargets();
    if Truthy(sub.estadoResultado) {
      AreaReviewStatus(cur, role, sub);
    }
  }

  /** The two keys of `verificacion_area`'s map and the statuses it names for them. */
  lemma AreaMapTargets()
    ensures VerificacionArea.transition == NextStates(VerificacionAreaTargets)
    ensures "Aprobado por [Área]" in VerificacionAreaTargets
    ensures VerificacionAreaTargets["Aprobado por [Área]"] == ParaVerificacion
    ensures "No Aprobado por [Área] - Subsanación" in VerificacionAreaTargets
    ensures VerificacionAreaTargets["No Aprobado por [Área] - Subsanación"] == SubsanacionArea
  {
    assert |"Aprobado por [Área]"| != |"No Aprobado por [Área] - Subsanación"|;
  }

  /** The status `verificacion_area` decides for a present result and an area role, read by substring. */
  lemma AreaReviewStatus(cur: Record, role: Role, sub: Submission)
    requires IsAreaRole(role) && Truthy(sub.estadoResultado)
    ensures var r := sub.estadoResultado.value;
            NextStatus(VerificacionArea, cur, role, sub)
            == if AreaRemediation(r) then Ok(SubsanacionArea)
               else if Contains(r, "Aprobado") then Ok(ParaVisitaOActo)
               else Err(InvalidResult)
  {
    assert !IsResultMapEvent(VerificacionAreaName) && VerificacionAreaName != RadicacionAreasName;
  }

  /**
    An area result that rejects without asking for remediation ("No Aprobado"
    without "Subsanación") passes the 'Aprobado' test, so the solicitud moves
    forward to "Para Visita o Acto Administrativo" as if it had been approved.
  */
  lemma AreaRejectionAdvances(id: int, cur: Record, actorId: int, role: Role, sub: Submission, now: int)
    requires IsAreaRole(role) && sub.comentarioProceso.Some? && sub.estadoResultado.Some?
    requires Contains(sub.estadoResultado.value, "No Aprobado") && !Contains(sub.estadoResultado.value, "Subsanación")
    ensures var h := Apply(id, VerificacionArea, cur, actorId, role, sub, now);
            h.Ok? && h.value.record.estadoActual == ParaVisitaOActo && h.value.entry.fechaProximaAccion.None?
  {
    var r := sub.estadoResultado.value;
    assert "No Aprobado"[3..11] == "Aprobado";
    ContainsSlice(r, "No Aprobado", 3, "Aprobado");
    AreaReviewApplied(id, cur, actorId, role, sub, now);
  }

  /** How the substring tests of `verificacion_area` read the two keys of its map. */
  lemma AreaResultKeys()
    ensures !AreaRemediation("Aprobado por [Área]") && Contains("Aprobado por [Área]", "Aprobado")
    ensures AreaRemediation("No Aprobado por [Área] - Subsanación")
  {
    ApproveKey("Aprobado por [Área]");
    RemedyKey("No Aprobado por [Área] - Subsanación");
  }

  lemma ApproveKey(approve: string)
    requires approve == "Aprobado por [Área]"
    ensures !Contains(approve, "No Aprobado") && Contains(approve, "Aprobado")
  {
    assert 'N' !in approve;
    NotContainsFirstChar(approve, "No Aprobado");
    ContainsAt(approve, "Aprobado", 0);
  }

  lemma RemedyKey(remedy: string)
    requires remedy == "No Aprobado por [Área] - Subsanación"
    ensures Contains(remedy, "No Aprobado") && Contains(remedy, "Subsanación")
  {
    assert remedy[..11] == "No Aprobado";
    ContainsAt(remedy, "No Aprobado", 0);
    assert remedy[25..36] == "Subsanación";
    ContainsAt(remedy, "Subsanación", 25);
  }

  /**
    No catalog entry accepts "Para Visita o Acto Administrativo", so once an
    area approves, every event except the replayed `recepcion_solicitud` is
    refused.
  */
  lemma ParaVisitaOActoIsDeadEnd(records: map<int, Record>, id: int, actorId: int, role: Role, sub: Submission, now: int)
    requires id in records && records[id].estadoActual == ParaVisitaOActo && sub.eventName != RecepcionSolicitudName
    ensures forall e | e in Events :: !Accepts(e, ParaVisitaOActo)
    ensures !Handle(records, id, actorId, role, sub, now).Ok?
  {
    NoEntryAcceptsParaVisitaOActo();
    if Handle(records, id, actorId, role, sub, now).Ok? {
      SuccessWasAdmitted(records, id, actorId, role, sub, now);
      InitialEvent();
      assert false;
    }
  }

  /** No catalog entry lists "Para Visita o Acto Administrativo" as a previous status. */
  lemma NoEntryAcceptsParaVisitaOActo()
    ensures forall e | e in Events :: !Accepts(e, ParaVisitaOActo)
  {
    forall e | e in Events
      ensures !Accepts(e, ParaVisitaOActo)
    {
      EventsMembers(e);
    }
  }

  /**
    The remediation receipts close a solicitud through their "Subsanación
    Incompleta - Cierre" result without writing the closure columns, and still
    record a next-action deadline.
  */
  lemma RemediationClosureLeavesFieldsUnset(records: map<int, Record>, id: int, actorId: int, role: Role, sub: Submission, now: int, e: EventDef)
    requires e == RecepcionSubsanacionIyV || e == RecepcionSubsanacionArea
    requires Admitted(records, id, role, sub, e) && sub.comentarioProceso.Some?
    requires sub.estadoResultado == Some(IncompleteRemediation)
    ensures var h := Handle(records, id, actorId, role, sub, now);
            && h.Ok?
            && h.value.record.estadoActual == CerradaNoExitosa
            && h.value.record.fechaCierre == records[id].fechaCierre
            && h.value.record.motivoCierre == records[id].motivoCierre
            && h.value.entry.fechaProximaAccion == Some(now + e.vencimientoDias.value)
  {
    AdmittedPassesGuard(records, id, role, sub, e);
    IncompleteReceipt(e, records[id], role, sub, now);
  }

  lemma IncompleteReceipt(e: EventDef, cur: Record, role: Role, sub: Submission, now: int)
    requires e == RecepcionSubsanacionIyV || e == RecepcionSubsanacionArea
    requires sub.estadoResultado == Some(IncompleteRemediation)
    ensures NextStatus(e, cur, role, sub) == Ok(CerradaNoExitosa)
    ensures Fields(e.name, cur, sub, now) == []
    ensures Deadline(e.name, sub.estadoResultado, now) == Some(now + e.vencimientoDias.value)
  {
    assert MappedTarget(e.transition, sub.estadoResultado.value) == Some(CerradaNoExitosa);
  }

  /**
    `cierre_solicitud` may leave a closed solicitud in a status that is not a
    closed one while stamping its closure date.
  */
  lemma CierreMayReopen(records: map<int, Record>, id: int, actorId: int, role: Role, sub: Submission, now: int)
    requires Admitted(records, id, role, sub, CierreSolicitud) && sub.comentarioProceso.Some?
    requires sub.estadoResultado == Some(Recibido)
    ensures var h := Handle(records, id, actorId, role, sub, now);
            && (records[id].estadoActual == CerradaExitosamente || records[id].estadoActual == CerradaNoExitosa)
            && h.Ok? && h.value.record.estadoActual == Recibido && h.value.record.fechaCierre == Some(now)
            && !Accepts(CierreSolicitud, h.value.record.estadoActual)
  {
    TerminalGate();
    assert Accepts(CierreSolicitud, records[id].estadoActual);
    CierreOutcome(records, id, actorId, role, sub, now);
  }
}
