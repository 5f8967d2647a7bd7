/**
  Properties of the create handler: which requests it refuses and why, the
  row it inserts, the event row that starts the history, and the uniqueness
  of radicados it keeps.
*/
module CreateProperties {
  import opened Common
  import opened ProcessEvents
  import opened SolicitudRules

  /**
    The failures of the create handler, in the order it meets them: a type
    outside `ALLOWED_SOLICITUD_TYPES`, an absent field of the first insert, a
    radicado already stored, an absent initial comment. Any other request
    is accepted.
  */
  lemma CreateRefusals(records: map<int, Record>, id: int, req: CreateRequest, actorId: int, now: int, limit: int)
    ensures var r := Create(records, id, req, actorId, now, limit);
      && (r == Err(InvalidType) <==> req.tipoSolicitud.None? || req.tipoSolicitud.value !in AllowedSolicitudTypes)
      && (r == Err(DuplicateRadicado) <==>
            req.tipoSolicitud.Some? && req.tipoSolicitud.value in AllowedSolicitudTypes && RequestComplete(req)
            && RadicadoTaken(records, req.radicado.value))
      && (r.Ok? <==>
            req.tipoSolicitud.Some? && req.tipoSolicitud.value in AllowedSolicitudTypes && RequestComplete(req)
            && !RadicadoTaken(records, req.radicado.value) && req.comentarioInicial.Some?)
      && (r.Err? ==> r.error in {InvalidType, UndefinedBind, DuplicateRadicado})
  {
  }

  /**
    A created solicitud holds the request's values, is in "Recibido
    Inspección y Vigilancia" (the one status the document check accepts),
    has no approval, no visit and no closure, and is due at `limit`.
  */
  lemma CreatedRecord(records: map<int, Record>, id: int, req: CreateRequest, actorId: int, now: int, limit: int)
    requires Create(records, id, req, actorId, now, limit).Ok?
    ensures var rec := Create(records, id, req, actorId, now, limit).value.record;
      && rec.id == id
      && Some(rec.solicitante) == req.solicitante && Some(rec.radicado) == req.radicado
      && Some(rec.fechaRadicacion) == req.fechaRadicacion && Some(rec.tipoSolicitud) == req.tipoSolicitud
      && Some(rec.correoElectronicoSolicitante) == req.correoElectronicoSolicitante
      && rec.tipoSolicitud in AllowedSolicitudTypes
      && rec.estadoActual == Recibido && Accepts(VerificacionDocumentosIyV, rec.estadoActual)
      && rec.aprobacionIyv.None? && rec.aprobacionCalidad.None?
      && rec.aprobacionPlaneacion.None? && rec.aprobacionFinanciero.None?
      && rec.contadorVisitas == 0 && rec.fechaCierre.None? && rec.motivoCierre.None?
      && rec.fechaLimiteProceso == limit && rec.usuarioCreacionId == actorId
  {
    assert AllowedPrevious(VerificacionDocumentosIyV.previousState) == [Recibido];
  }

  /**
    The reception row written with a new solicitud: the label and first
    status option of `recepcion_solicitud`, the initial comment, area IyV,
    no attachments and no deadline. Its status is the one the new solicitud
    is in.
  */
  lemma CreatedEntry(records: map<int, Record>, id: int, req: CreateRequest, actorId: int, now: int, limit: int)
    requires Create(records, id, req, actorId, now, limit).Ok?
    ensures var c := Create(records, id, req, actorId, now, limit).value;
      && c.entry.solicitudId == id && c.entry.fechaRegistro == now && c.entry.usuarioResponsableId == actorId
      && c.entry.nombreProceso == RecepcionSolicitud.eventLabel
      && c.entry.estadoResultado == Some(c.record.estadoActual)
      && Some(c.entry.comentarioProceso) == req.comentarioInicial
      && c.entry.areaInvolucrada == RoleName(IyV)
      && c.entry.documentosAdjuntos.None? && c.entry.fechaProximaAccion.None?
  {
    InitialEvent();
  }

  /** A successful create under a fresh id keeps radicados unique. */
  lemma CreateKeepsRadicadosUnique(records: map<int, Record>, id: int, req: CreateRequest, actorId: int, now: int, limit: int)
    requires RadicadosUnique(records) && id !in records
    requires Create(records, id, req, actorId, now, limit).Ok?
    ensures RadicadosUnique(records[id := Create(records, id, req, actorId, now, limit).value.record])
  {
  }
}
