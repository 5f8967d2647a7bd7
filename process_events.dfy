/**
  The process-event catalog: the roles that may act on a solicitud, the
  workflow statuses, and the constant table of process events with the
  lookup by name.
*/
module ProcessEvents {
  import opened Common

  /** The five roles of the system; `RoleName` is the tag stored in the user's token. */
  datatype Role = IyV | Administrador | AreaCalidad | AreaPlaneacion | AreaFinanciero

  function RoleName(r: Role): string {
    match r
    case IyV => "IyV"
    case Administrador => "Administrador"
    case AreaCalidad => "Area_Calidad"
    case AreaPlaneacion => "Area_Planeacion"
    case AreaFinanciero => "Area_Financiero"
  }

  /** The three reviewing departments. */
  predicate IsAreaRole(r: Role) {
    r == AreaCalidad || r == AreaPlaneacion || r == AreaFinanciero
  }

  /** Role tags are pairwise distinct, so comparing tags compares roles. */
  lemma RoleNameInjective(a: Role, b: Role)
    ensures RoleName(a) == RoleName(b) <==> a == b
  {
  }

  /** Workflow statuses are free strings; these are the ones the catalog names. */
  type Status = string

  const Recibido: Status := "Recibido Inspección y Vigilancia"
  const ParaRadicacion: Status := "Para Radicación en Áreas"
  const SubsanacionIyV: Status := "Subsanación de documentos IyV"
  const CerradaNoExitosa: Status := "Cerrada No Exitosa"
  const CerradaExitosamente: Status := "Cerrada Exitosamente"
  const ParaVerificacion: Status := "Para Verificación en Áreas"
  const SubsanacionArea: Status := "Subsanación de documentos Área"
  const ParaActo: Status := "Para Acto Administrativo"
  const VisitaProgramada: Status := "Visita Programada"

  /** The word every result of a remediation receipt starts with. */
  const Subsanacion := "Subsanación"

  /** The result that closes a solicitud whose remediation came back incomplete. */
  const IncompleteRemediation := Subsanacion + " Incompleta - Cierre"

  /** `previousState`: absent, one status, or a list of statuses. */
  datatype PreviousState = Unrestricted | Single(status: Status) | AnyOf(statuses: seq<Status>)

  /** Either a single `nextState` (possibly null) or a `nextStates` map from result code to status. */
  datatype Transition = NextState(target: Option<Status>) | NextStates(targets: map<string, Status>)

  datatype EventDef = EventDef(
    name: string,
    eventLabel: string,
    allowedRoles: seq<Role>,
    initialState: bool,
    previousState: PreviousState,
    transition: Transition,
    requiresApproval: bool,
    vencimientoDias: Option<nat>,
    incrementsCounter: bool,
    statusOptions: seq<string>)

  /** The allowed previous statuses as a list: a single status is wrapped, a list is kept. */
  function AllowedPrevious(p: PreviousState): seq<Status>
  {
    match p
    case Unrestricted => []
    case Single(s) => [s]
    case AnyOf(ss) => ss
  }

  /** The status named by `nextStates[result]`, if the map has that key. */
  function MappedTarget(t: Transition, result: string): Option<Status>
  {
    match t
    case NextState(_) => None
    case NextStates(m) => if result in m then Some(m[result]) else None
  }

  /** The names of the catalog entries, the keys `getProcessEventByName` is called with. */
  const RecepcionSolicitudName := "recepcion_solicitud"
  const VerificacionDocumentosIyVName := "verificacion_documentos_iyv"
  const RecepcionSubsanacionIyVName := "recepcion_subsanacion_iyv"
  const RadicacionAreasName := "radicacion_areas"
  const VerificacionAreaName := "verificacion_area"
  const RecepcionSubsanacionAreaName := "recepcion_subsanacion_area"
  const VisitaInspeccionVigilanciaName := "visita_inspeccion_vigilancia"
  const ActoAdministrativoName := "acto_administrativo"
  const CierreSolicitudName := "cierre_solicitud"

  const RecepcionSolicitud := EventDef(
    RecepcionSolicitudName, "Recepción de Solicitud", [IyV], true,
    Unrestricted, NextState(Some(Recibido)),
    false, None, false, [Recibido])

  /** `nextStates` of `VerificacionDocumentosIyV`. */
  const VerificacionDocumentosIyVTargets: map<string, Status> := map[
      "Documentos OK - Para Radicación en Áreas" := ParaRadicacion,
      "Subsanación de documentos IyV" := SubsanacionIyV,
      "Cerrada No Exitosa" := CerradaNoExitosa]

  const VerificacionDocumentosIyV := EventDef(
    VerificacionDocumentosIyVName, "Verificación Documentos IyV", [IyV], false,
    Single(Recibido),
    NextStates(VerificacionDocumentosIyVTargets),
    false, None, false, [])

  /** `nextStates` of `RecepcionSubsanacionIyV`. */
  const RecepcionSubsanacionIyVTargets: map<string, Status> := map[
      Subsanacion + " Completa - Para Radicación en Áreas" := ParaRadicacion,
      IncompleteRemediation := CerradaNoExitosa]

  const RecepcionSubsanacionIyV := EventDef(
    RecepcionSubsanacionIyVName, "Recepción Subsanación IyV", [IyV], false,
    Single(SubsanacionIyV),
    NextStates(RecepcionSubsanacionIyVTargets),
    false, Some(8), false, [])

  /** `nextStates` of `VerificacionArea`. */
  const VerificacionAreaTargets: map<string, Status> := map[
      "Aprobado por [Área]" := ParaVerificacion,
      "No Aprobado por [Área] - Subsanación" := SubsanacionArea]

  const RadicacionAreas := EventDef(
    RadicacionAreasName, "Radicar Solicitud en Áreas", [IyV], false,
    Single(ParaRadicacion), NextState(Some(ParaVerificacion)),
    false, None, false, [])

  const VerificacionArea := EventDef(
    VerificacionAreaName, "Verificación en Área", [AreaCalidad, AreaPlaneacion, AreaFinanciero], false,
    Single(ParaVerificacion),
    NextStates(VerificacionAreaTargets),
    true, None, false, [])

  /** `nextStates` of `RecepcionSubsanacionArea`. */
  const RecepcionSubsanacionAreaTargets: map<string, Status> := map[
      Subsanacion + " Completa - Para Acto Administrativo" := ParaActo,
      IncompleteRemediation := CerradaNoExitosa]

  const RecepcionSubsanacionArea := EventDef(
    RecepcionSubsanacionAreaName, "Recepción Subsanación Área", [AreaCalidad, AreaPlaneacion, AreaFinanciero], false,
    Single(SubsanacionArea),
    NextStates(RecepcionSubsanacionAreaTargets),
    false, Some(20), false, [])

  /** `nextStates` of `VisitaInspeccionVigilancia`. */
  const VisitaInspeccionVigilanciaTargets: map<string, Status> := map[
      "Visita Realizada - Para Acto Administrativo" := ParaActo,
      "Visita Programada" := VisitaProgramada]

  const VisitaInspeccionVigilancia := EventDef(
    VisitaInspeccionVigilanciaName, "Visita de Inspección/Vigilancia", [IyV], false,
    AnyOf([ParaActo, VisitaProgramada]),
    NextStates(VisitaInspeccionVigilanciaTargets),
    false, None, true, [])

  /** `nextStates` of `ActoAdministrativo`. */
  const ActoAdministrativoTargets: map<string, Status> := map[
      "Cerrada Exitosamente" := CerradaExitosamente,
      "Cerrada No Exitosa" := CerradaNoExitosa]

  const ActoAdministrativo := EventDef(
    ActoAdministrativoName, "Acto Administrativo", [IyV], false,
    Single(ParaActo),
    NextStates(ActoAdministrativoTargets),
    false, None, false, [])

  const CierreSolicitud := EventDef(
    CierreSolicitudName, "Cierre de Solicitud", [IyV, Administrador], false,
    AnyOf([CerradaExitosamente, CerradaNoExitosa]), NextState(None),
    false, None, false, [])

  /** `PROCESS_EVENTS`, in the order of the table. */
  const Events: seq<EventDef> := [
    RecepcionSolicitud, VerificacionDocumentosIyV, RecepcionSubsanacionIyV,
    RadicacionAreas, VerificacionArea, RecepcionSubsanacionArea,
    VisitaInspeccionVigilancia, ActoAdministrativo, CierreSolicitud]

  /** The catalog holds exactly the nine entries above. */
  lemma EventsMembers(e: EventDef)
    requires e in Events
    ensures || e == RecepcionSolicitud || e == VerificacionDocumentosIyV || e == RecepcionSubsanacionIyV
            || e == RadicacionAreas || e == VerificacionArea || e == RecepcionSubsanacionArea
            || e == VisitaInspeccionVigilancia || e == ActoAdministrativo || e == CierreSolicitud
  {
  }

  /** `Array.prototype.find` by name: the first entry whose name matches. */
  function FindByName(events: seq<EventDef>, name: string): (r: Option<EventDef>)
    ensures r.None? <==> forall i | 0 <= i < |events| :: events[i].name != name
    ensures r.Some? ==> exists i | 0 <= i < |events| ::
      events[i] == r.value && r.value.name == name && forall j | 0 <= j < i :: events[j].name != name
  {
    if events == [] then None
    else if events[0].name == name then Some(events[0])
    else
      var r := FindByName(events[1..], name);
      assert forall i | 1 <= i < |events| :: events[i] == events[1..][i - 1];
      r
  }

  /** `getProcessEventByName` */
  function GetProcessEventByName(name: string): (r: Option<EventDef>)
    ensures r.Some? ==> r.value in Events && r.value.name == name
    ensures r.None? ==> forall e | e in Events :: e.name != name
  {
    FindByName(Events, name)
  }

  /** No two catalog entries share a name. */
  lemma NamesDistinct()
    ensures forall i, j | 0 <= i < j < |Events| :: Events[i].name != Events[j].name
  {
  }

  /** Because names are distinct, looking up an entry's own name yields that entry. */
  lemma LookupFindsEntry(e: EventDef)
    requires e in Events
    ensures GetProcessEventByName(e.name) == Some(e)
  {
    NamesDistinct();
    var r := GetProcessEventByName(e.name);
    var i :| 0 <= i < |Events| && Events[i] == e;
    var k :| 0 <= k < |Events| && Events[k] == r.value && r.value.name == e.name;
    assert i == k;
  }

  /** An entry of the table is the one its name names. */
  lemma NameDeterminesEntry(e: EventDef)
    requires e in Events
    ensures e.name == RecepcionSolicitudName ==> e == RecepcionSolicitud
    ensures e.name == VerificacionDocumentosIyVName ==> e == VerificacionDocumentosIyV
    ensures e.name == RecepcionSubsanacionIyVName ==> e == RecepcionSubsanacionIyV
    ensures e.name == RadicacionAreasName ==> e == RadicacionAreas
    ensures e.name == VerificacionAreaName ==> e == VerificacionArea
    ensures e.name == RecepcionSubsanacionAreaName ==> e == RecepcionSubsanacionArea
    ensures e.name == VisitaInspeccionVigilanciaName ==> e == VisitaInspeccionVigilancia
    ensures e.name == ActoAdministrativoName ==> e == ActoAdministrativo
    ensures e.name == CierreSolicitudName ==> e == CierreSolicitud
  {
  }

  /** Every result of the two remediation receipts mentions 'Subsanación'. */
  lemma ReceiptKeysMentionSubsanacion()
    ensures forall k | k in RecepcionSubsanacionIyV.transition.targets :: Contains(k, "Subsanación")
    ensures forall k | k in RecepcionSubsanacionArea.transition.targets :: Contains(k, "Subsanación")
  {
    MentionsSubsanacion(" Completa - Para Radicación en Áreas");
    MentionsSubsanacion(" Incompleta - Cierre");
    MentionsSubsanacion(" Completa - Para Acto Administrativo");
  }

  lemma MentionsSubsanacion(rest: string)
    ensures Contains(Subsanacion + rest, Subsanacion)
  {
    assert (Subsanacion + rest)[..|Subsanacion|] == Subsanacion;
    ContainsAt(Subsanacion + rest, Subsanacion, 0);
  }

  /** The one entry without `previousState` is `recepcion_solicitud`, and it starts in "Recibido Inspección y Vigilancia". */
  lemma InitialEvent()
    ensures forall e | e in Events :: e.previousState.Unrestricted? <==> e == RecepcionSolicitud
    ensures forall e | e in Events :: e.initialState <==> e == RecepcionSolicitud
    ensures RecepcionSolicitud.transition == NextState(Some(Recibido))
    ensures forall e | e in Events :: |e.statusOptions| > 0 <==> e == RecepcionSolicitud
    ensures RecepcionSolicitud.statusOptions[0] == Recibido
  {
    forall e | e in Events
      ensures e.previousState.Unrestricted? <==> e == RecepcionSolicitud
      ensures e.initialState <==> e == RecepcionSolicitud
      ensures |e.statusOptions| > 0 <==> e == RecepcionSolicitud
    {
      EventsMembers(e);
    }
  }

  /** `cierre_solicitud` is the only entry whose single `nextState` is null. */
  lemma NullNextStateOnlyForClosure()
    ensures forall e | e in Events :: e.transition == NextState(None) <==> e == CierreSolicitud
  {
    forall e | e in Events
      ensures e.transition == NextState(None) <==> e == CierreSolicitud
    {
      EventsMembers(e);
    }
  }

  /** No `nextStates` map names the empty status, so a present key always looks up a truthy value. */
  lemma TargetsNonEmpty()
    ensures forall k | k in VerificacionDocumentosIyVTargets :: VerificacionDocumentosIyVTargets[k] != ""
    ensures forall k | k in RecepcionSubsanacionIyVTargets :: RecepcionSubsanacionIyVTargets[k] != ""
    ensures forall k | k in VerificacionAreaTargets :: VerificacionAreaTargets[k] != ""
    ensures forall k | k in RecepcionSubsanacionAreaTargets :: RecepcionSubsanacionAreaTargets[k] != ""
    ensures forall k | k in VisitaInspeccionVigilanciaTargets :: VisitaInspeccionVigilanciaTargets[k] != ""
    ensures forall k | k in ActoAdministrativoTargets :: ActoAdministrativoTargets[k] != ""
  {
  }

  /** Statuses a transition can name. */
  function Targets(t: Transition): set<Status>
  {
    match t
    case NextState(None) => {}
    case NextState(Some(s)) => {s}
    case NextStates(m) => m.Values
  }

  /** `s` is listed in the `previousState` of `e`. */
  predicate Accepts(e: EventDef, s: Status) {
    s in AllowedPrevious(e.previousState)
  }

  /** The nine statuses the catalog names as targets. */
  const CatalogStatuses: set<Status> := {
    Recibido, ParaRadicacion, SubsanacionIyV, CerradaNoExitosa, CerradaExitosamente,
    ParaVerificacion, SubsanacionArea, ParaActo, VisitaProgramada}

  /** The values of each `nextStates` map are catalog statuses. */
  lemma MapTargetsInCatalog()
    ensures VerificacionDocumentosIyVTargets.Values <= CatalogStatuses
    ensures RecepcionSubsanacionIyVTargets.Values <= CatalogStatuses
    ensures VerificacionAreaTargets.Values <= CatalogStatuses
    ensures RecepcionSubsanacionAreaTargets.Values <= CatalogStatuses
    ensures VisitaInspeccionVigilanciaTargets.Values <= CatalogStatuses
    ensures ActoAdministrativoTargets.Values <= CatalogStatuses
  {
  }

  lemma TargetsAreCatalogStatuses()
    ensures forall e | e in Events :: Targets(e.transition) <= CatalogStatuses
  {
    MapTargetsInCatalog();
    forall e | e in Events
      ensures Targets(e.transition) <= CatalogStatuses
    {
      EventsMembers(e);
    }
  }

  /** Each catalog status is listed as a previous status of some entry. */
  lemma CatalogStatusesAccepted()
    ensures forall s | s in CatalogStatuses :: exists d | d in Events :: Accepts(d, s)
  {
    forall s | s in CatalogStatuses
      ensures exists d | d in Events :: Accepts(d, s)
    {
      if s == Recibido {
        assert Accepts(VerificacionDocumentosIyV, s);
      } else if s == ParaRadicacion {
        assert Accepts(RadicacionAreas, s);
      } else if s == SubsanacionIyV {
        assert Accepts(RecepcionSubsanacionIyV, s);
      } else if s == CerradaNoExitosa || s == CerradaExitosamente {
        assert Accepts(CierreSolicitud, s);
      } else if s == ParaVerificacion {
        assert Accepts(VerificacionArea, s);
      } else if s == SubsanacionArea {
        assert Accepts(RecepcionSubsanacionArea, s);
      } else if s == ParaActo {
        assert Accepts(ActoAdministrativo, s);
      } else {
        assert Accepts(VisitaInspeccionVigilancia, s);
      }
    }
  }

  /** Every status the catalog can move to is listed as a previous status of some entry. */
  lemma CatalogClosure()
    ensures forall e, s | e in Events && s in Targets(e.transition) :: exists d | d in Events :: Accepts(d, s)
  {
    TargetsAreCatalogStatuses();
    CatalogStatusesAccepted();
  }

  /** Only the two remediation-receipt events carry `vencimientoDias`: 8 for IyV and 20 for the areas. */
  lemma DeadlineOffsets()
    ensures forall e | e in Events && e.vencimientoDias.Some? ::
      e == RecepcionSubsanacionIyV || e == RecepcionSubsanacionArea
    ensures RecepcionSubsanacionIyV.vencimientoDias == Some(8)
    ensures RecepcionSubsanacionArea.vencimientoDias == Some(20)
  {
    forall e | e in Events && e.vencimientoDias.Some?
      ensures e == RecepcionSubsanacionIyV || e == RecepcionSubsanacionArea
    {
      EventsMembers(e);
    }
  }

  /** The two remediation receipts, looked up by name, and the days each one allows. */
  lemma ReceiptLookups()
    ensures GetProcessEventByName(RecepcionSubsanacionIyVName) == Some(RecepcionSubsanacionIyV)
    ensures GetProcessEventByName(RecepcionSubsanacionAreaName) == Some(RecepcionSubsanacionArea)
    ensures RecepcionSubsanacionIyV.vencimientoDias == Some(8)
    ensures RecepcionSubsanacionArea.vencimientoDias == Some(20)
  {
    LookupFindsEntry(RecepcionSubsanacionIyV);
    LookupFindsEntry(RecepcionSubsanacionArea);
    DeadlineOffsets();
  }

  /** Area roles act only in the two area events, and every area role may act in both. */
  lemma AreaRoleCoverage()
    ensures forall e, r | e in Events && IsAreaRole(r) ::
      r in e.allowedRoles <==> e == VerificacionArea || e == RecepcionSubsanacionArea
  {
    forall e, r | e in Events && IsAreaRole(r)
      ensures r in e.allowedRoles <==> e == VerificacionArea || e == RecepcionSubsanacionArea
    {
      EventsMembers(e);
    }
  }

  /** The administrator may only close a solicitud; every other event but the area ones is IyV's alone. */
  lemma AdministradorOnlyCloses()
    ensures forall e | e in Events :: Administrador in e.allowedRoles <==> e == CierreSolicitud
    ensures forall e | e in Events && e != VerificacionArea && e != RecepcionSubsanacionArea && e != CierreSolicitud ::
      e.allowedRoles == [IyV]
  {
    forall e | e in Events
      ensures Administrador in e.allowedRoles <==> e == CierreSolicitud
      ensures e != VerificacionArea && e != RecepcionSubsanacionArea && e != CierreSolicitud ==> e.allowedRoles == [IyV]
    {
      EventsMembers(e);
    }
  }

  /** `cierre_solicitud` accepts exactly the two closed statuses, so it can only follow a closed solicitud. */
  lemma TerminalGate()
    ensures forall s :: Accepts(CierreSolicitud, s) <==> s == CerradaExitosamente || s == CerradaNoExitosa
  {
  }
}
